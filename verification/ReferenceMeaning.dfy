/** What references look like and where stored documents hold them, told without the functions that read them. */
module ReferenceMeaning {
  import opened Wrappers
  import opened References
  import opened Documents
  import opened StoredReferences

  // What a reference looks like

  ghost predicate HexDigits(text: string, count: nat) {
    |text| == count && forall i :: 0 <= i < count ==> text[i] in "0123456789" || text[i] in "abcdef"
  }

  /** Eight, four, four, four and twelve digits with a dash between two groups. */
  ghost predicate UuidText(text: string) {
    exists a, b, c, d, e ::
      && text == a + "-" + b + "-" + c + "-" + d + "-" + e
      && HexDigits(a, 8) && HexDigits(b, 4) && HexDigits(c, 4) && HexDigits(d, 4) && HexDigits(e, 12)
  }

  lemma HexExactly(text: string, count: nat)
    ensures HexDigits(text, count) <==> |text| == count && forall i :: 0 <= i < count ==> IsLowerHex(text[i])
  {
  }

  lemma UuidExactly(text: string)
    ensures UuidText(text) <==> IsCanonicalUuid(text)
  {
    hide HexDigits, IsCanonicalUuid;
    if IsCanonicalUuid(text) {
      UuidGroups(text);
    }
    if a, b, c, d, e :|
      && text == a + "-" + b + "-" + c + "-" + d + "-" + e
      && HexDigits(a, 8) && HexDigits(b, 4) && HexDigits(c, 4) && HexDigits(d, 4) && HexDigits(e, 12)
    {
      GroupsAreUuid(text, a, b, c, d, e);
    }
  }

  lemma Group(text: string, from: nat, to: nat)
    requires from <= to <= |text| && forall i :: from <= i < to ==> IsLowerHex(text[i])
    ensures HexDigits(text[from..to], to - from)
  {
    HexExactly(text[from..to], to - from);
  }

  lemma UuidGroups(text: string)
    requires IsCanonicalUuid(text)
    ensures UuidText(text)
  {
    hide HexDigits, IsLowerHex;
    var a, b, c, d, e := text[0..8], text[9..13], text[14..18], text[19..23], text[24..36];
    Group(text, 0, 8);
    Group(text, 9, 13);
    Group(text, 14, 18);
    Group(text, 19, 23);
    Group(text, 24, 36);
    assert a + "-" + b == text[..13];
    assert text[..13] + "-" + c == text[..18];
    assert text[..18] + "-" + d == text[..23];
    assert text == text[..23] + "-" + e;
    Grouped(text, a, b, c, d, e);
  }

  lemma Grouped(text: string, a: string, b: string, c: string, d: string, e: string)
    requires text == a + "-" + b + "-" + c + "-" + d + "-" + e
    requires HexDigits(a, 8) && HexDigits(b, 4) && HexDigits(c, 4) && HexDigits(d, 4) && HexDigits(e, 12)
    ensures UuidText(text)
  {
    hide HexDigits;
  }

  lemma GroupsAreUuid(text: string, a: string, b: string, c: string, d: string, e: string)
    requires text == a + "-" + b + "-" + c + "-" + d + "-" + e
    requires HexDigits(a, 8) && HexDigits(b, 4) && HexDigits(c, 4) && HexDigits(d, 4) && HexDigits(e, 12)
    ensures IsCanonicalUuid(text)
  {
    hide HexDigits, IsLowerHex;
    HexExactly(a, 8);
    HexExactly(b, 4);
    HexExactly(c, 4);
    HexExactly(d, 4);
    HexExactly(e, 12);
    forall i | 0 <= i < 36
      ensures if i == 8 || i == 13 || i == 18 || i == 23 then text[i] == '-' else IsLowerHex(text[i])
    {
      assert text[i] == if i < 8 then a[i] else if i == 8 then '-' else if i < 13 then b[i - 9] else if i == 13 then '-'
                        else if i < 18 then c[i - 14] else if i == 18 then '-' else if i < 23 then d[i - 19]
                        else if i == 23 then '-' else e[i - 24];
    }
  }

  /** A text denotes a reference exactly when it is written as one: the owner, the credential and the field. */
  lemma ReferenceTexts(text: string, reference: Reference)
    ensures ParseReference(text) == Some(reference) <==>
            && UuidText(reference.profileId) && UuidText(reference.credentialId)
            && text == "profile/" + reference.profileId + "/" + reference.credentialId + "/" + reference.field.Name()
  {
    hide IsCanonicalUuid, UuidText, ParseReference, Field.Name;
    UuidExactly(reference.profileId);
    UuidExactly(reference.credentialId);
    if ParseReference(text) == Some(reference) {
      RenderParse(text);
    }
    if IsCanonical(reference) && text == RenderReference(reference) {
      ParseRender(reference);
    }
  }

  // What is found, told by where it is

  datatype Place = Index(index: nat) | Key(key: string)

  /** What stands at the end of a path. */
  ghost function Follow(value: Json, path: seq<Place>): Option<Json>
    decreases |path|
  {
    if path == [] then Some(value)
    else
      match (value, path[0])
      case (List(items), Index(i)) => if i < |items| then Follow(items[i], path[1..]) else None
      case (Object(entries), Key(key)) => if key in entries then Follow(entries[key], path[1..]) else None
      case _ => None
  }

  ghost predicate NamesReference(key: string) {
    exists front :: key == front + "Ref"
  }

  /** The content stands under a key that ends in `Ref`, and none of the keys above it does. */
  ghost predicate Under(value: Json, path: seq<Place>, content: Json) {
    && path != [] && Follow(value, path) == Some(content)
    && path[|path| - 1].Key? && NamesReference(path[|path| - 1].key)
    && forall i :: 0 <= i < |path| - 1 && path[i].Key? ==> !NamesReference(path[i].key)
  }

  lemma NamesReferenceExactly(key: string)
    ensures NamesReference(key) <==> IsReferenceKey(key)
  {
    if IsReferenceKey(key) {
      assert key == key[..|key| - 3] + "Ref";
    }
  }

  lemma UnderItem(items: seq<Json>, path: seq<Place>, content: Json)
    ensures Under(List(items), path, content) <==>
            && path != [] && path[0].Index? && path[0].index < |items|
            && Under(items[path[0].index], path[1..], content)
  {
    hide NamesReference;
    if path != [] {
      var rest := path[1..];
      assert forall i :: 0 <= i < |rest| ==> rest[i] == path[i + 1];
      assert forall i :: 0 < i < |path| ==> path[i] == rest[i - 1];
    }
  }

  lemma UnderEntry(entries: map<string, Json>, path: seq<Place>, content: Json)
    ensures Under(Object(entries), path, content) <==>
            && path != [] && path[0].Key? && path[0].key in entries
            && var value := entries[path[0].key];
            if NamesReference(path[0].key) then |path| == 1 && content == value else Under(value, path[1..], content)
  {
    hide NamesReference;
    if path != [] && path[0].Key? && path[0].key in entries {
      var key, rest := path[0].key, path[1..];
      assert Follow(Object(entries), path) == Follow(entries[key], rest);
      assert path == [Key(key)] + rest;
      if rest == [] {
        assert Follow(entries[key], rest) == Some(entries[key]);
      } else {
        assert forall i :: 0 <= i < |rest| ==> rest[i] == path[i + 1];
        assert (forall i :: 0 <= i < |path| - 1 && path[i].Key? ==> !NamesReference(path[i].key)) <==>
               !NamesReference(key) && forall i :: 0 <= i < |rest| - 1 && rest[i].Key? ==> !NamesReference(rest[i].key)
        by {
          assert forall i :: 0 < i < |path| ==> path[i] == rest[i - 1];
        }
      }
    }
  }

  /** A value holds exactly the references whose texts stand under such keys. */
  lemma {:induction false} HoldsUnder(value: Json, reference: Reference)
    ensures Holds(value, reference) <==>
            exists path: seq<Place>, text :: Under(value, path, Text(text)) && ParseReference(text) == Some(reference)
    decreases value
  {
    hide Under, ParseReference, NamesReference, IsReferenceKey;
    match value {
      case Text(text) =>
        forall path: seq<Place>, content: Json ensures !Under(value, path, content) {
          NothingUnder(text, path, content);
        }
      case List(items) =>
        forall i | 0 <= i < |items| && Holds(items[i], reference)
          ensures exists path: seq<Place>, text :: Under(value, path, Text(text)) && ParseReference(text) == Some(reference)
        {
          HoldsUnder(items[i], reference);
          var path: seq<Place>, text :| Under(items[i], path, Text(text)) && ParseReference(text) == Some(reference);
          var longer := [Index(i)] + path;
          assert longer[1..] == path;
          UnderItem(items, longer, Text(text));
        }
        if path: seq<Place>, text :| Under(value, path, Text(text)) && ParseReference(text) == Some(reference) {
          UnderItem(items, path, Text(text));
          HoldsUnder(items[path[0].index], reference);
        }
      case Object(entries) =>
        forall key | key in entries && EntryHolds(key, entries[key], reference)
          ensures exists path: seq<Place>, text :: Under(value, path, Text(text)) && ParseReference(text) == Some(reference)
        {
          NamesReferenceExactly(key);
          if IsReferenceKey(key) {
            UnderEntry(entries, [Key(key)], entries[key]);
            assert Under(value, [Key(key)], Text(entries[key].text));
          } else {
            HoldsUnder(entries[key], reference);
            var path: seq<Place>, text :| Under(entries[key], path, Text(text)) && ParseReference(text) == Some(reference);
            var longer := [Key(key)] + path;
            assert longer[1..] == path;
            UnderEntry(entries, longer, Text(text));
          }
        }
        if path: seq<Place>, text :| Under(value, path, Text(text)) && ParseReference(text) == Some(reference) {
          UnderEntry(entries, path, Text(text));
          NamesReferenceExactly(path[0].key);
          HoldsUnder(entries[path[0].key], reference);
          assert EntryHolds(path[0].key, entries[path[0].key], reference);
        }
    }
  }

  lemma NothingUnder(text: string, path: seq<Place>, content: Json)
    ensures !Under(Text(text), path, content)
  {
  }

  /** A value is readable exactly when every content under such a key is the text of a reference. */
  lemma {:induction false} ReadableUnder(value: Json)
    ensures Readable(value) <==>
            forall path: seq<Place>, content: Json :: Under(value, path, content) ==> content.Text? && ParseReference(content.text).Some?
    decreases value
  {
    hide Under, ParseReference, NamesReference, IsReferenceKey;
    match value {
      case Text(text) =>
        forall path: seq<Place>, content: Json ensures !Under(value, path, content) {
          NothingUnder(text, path, content);
        }
      case List(items) =>
        forall path: seq<Place>, content: Json | Readable(value) && Under(value, path, content)
          ensures content.Text? && ParseReference(content.text).Some?
        {
          UnderItem(items, path, content);
          ReadableUnder(items[path[0].index]);
        }
        forall i | 0 <= i < |items| && !Readable(items[i])
          ensures exists path: seq<Place>, content: Json ::
                    Under(value, path, content) && !(content.Text? && ParseReference(content.text).Some?)
        {
          ReadableUnder(items[i]);
          var path: seq<Place>, content: Json :| Under(items[i], path, content) && !(content.Text? && ParseReference(content.text).Some?);
          var longer := [Index(i)] + path;
          assert longer[1..] == path;
          UnderItem(items, longer, content);
        }
      case Object(entries) =>
        forall path: seq<Place>, content: Json | Readable(value) && Under(value, path, content)
          ensures content.Text? && ParseReference(content.text).Some?
        {
          UnderEntry(entries, path, content);
          NamesReferenceExactly(path[0].key);
          ReadableUnder(entries[path[0].key]);
          assert ReadableEntry(path[0].key, entries[path[0].key]);
        }
        forall key | key in entries && !ReadableEntry(key, entries[key])
          ensures exists path: seq<Place>, content: Json ::
                    Under(value, path, content) && !(content.Text? && ParseReference(content.text).Some?)
        {
          NamesReferenceExactly(key);
          if IsReferenceKey(key) {
            UnderEntry(entries, [Key(key)], entries[key]);
          } else {
            ReadableUnder(entries[key]);
            var path: seq<Place>, content: Json :|
              Under(entries[key], path, content) && !(content.Text? && ParseReference(content.text).Some?);
            var longer := [Key(key)] + path;
            assert longer[1..] == path;
            UnderEntry(entries, longer, content);
          }
        }
    }
  }
}
