/** Printing and reading librdkafka properties (`session.py`, `properties_syntax.py`). */
module Librdkafka {
  import opened Wrappers
  import opened PropertiesSyntax
  import opened JavaRendering

  // Reading

  function FirstNewline(text: string): (at: nat)
    ensures at <= |text|
    ensures forall i :: 0 <= i < at ==> text[i] != '\n'
    ensures at < |text| ==> text[at] == '\n'
  {
    if text == "" || text[0] == '\n' then 0 else 1 + FirstNewline(text[1..])
  }

  /** `text.split("\n")`. */
  function SplitLines(text: string): (lines: seq<string>)
    ensures |lines| >= 1
  {
    var at := FirstNewline(text);
    if at == |text| then [text] else [text[..at]] + SplitLines(text[at + 1..])
  }

  function WithoutReturn(line: string): string {
    if line != "" && line[|line| - 1] == '\r' then line[..|line| - 1] else line
  }

  function SkipBlank(line: string): string {
    if line != "" && (line[0] == ' ' || line[0] == '\t') then SkipBlank(line[1..]) else line
  }

  predicate IsControl(c: char) {
    (c as int < 32 && c != '\t') || c as int == 127
  }

  predicate Clean(text: string) {
    forall i :: 0 <= i < |text| ==> !IsControl(text[i])
  }

  function FirstEquals(line: string): (at: nat)
    ensures at <= |line|
    ensures forall i :: 0 <= i < at ==> line[i] != '='
    ensures at < |line| ==> line[at] == '='
  {
    if line == "" || line[0] == '=' then 0 else 1 + FirstEquals(line[1..])
  }

  /** One line: nothing when it is blank or a comment, else its entry, if it has one. */
  datatype ReadLine = Skipped | Malformed | Found(entry: Entry)

  function ParseLine(natural: string): ReadLine {
    var line := SkipBlank(WithoutReturn(natural));
    if line == "" || line[0] == '#' then Skipped
    else
      var at := FirstEquals(line);
      if !Clean(line) || at == |line| || at == 0 || !forall i :: 0 <= i < at ==> IsKeyChar(line[i]) then Malformed
      else Found((line[..at], line[at + 1..]))
  }

  function ParseLines(lines: seq<string>, properties: map<string, string>): Option<map<string, string>> {
    if lines == [] then Some(properties)
    else
      match ParseLine(lines[0])
      case Skipped => ParseLines(lines[1..], properties)
      case Malformed => None
      case Found(entry) =>
        var stored := Stored(properties, entry.0, entry.1);
        if stored.None? then None else ParseLines(lines[1..], stored.value)
  }

  /** What a text means as librdkafka properties. */
  function LibrdkafkaProperties(text: string): Option<map<string, string>> {
    ParseLines(SplitLines(text), map[])
  }

  /** `parse_librdkafka_properties`. */
  method ParseLibrdkafkaProperties(text: string) returns (properties: Option<map<string, string>>)
    ensures properties == LibrdkafkaProperties(text)
  {
    hide Stored, SkipBlank, WithoutReturn, IsKeyChar, Clean, FirstEquals, SplitLines;
    var naturals := SplitLines(text);
    var found: map<string, string> := map[];
    for i := 0 to |naturals|
      invariant ParseLines(naturals, map[]) == ParseLines(naturals[i..], found)
    {
      assert naturals[i..][0] == naturals[i] && naturals[i..][1..] == naturals[i + 1..];
      var line := SkipBlank(WithoutReturn(naturals[i]));
      if line == "" || line[0] == '#' {
        continue;
      }
      if !Clean(line) {
        return None;
      }
      var at := FirstEquals(line);
      if at == |line| || at == 0 || !forall k :: 0 <= k < at ==> IsKeyChar(line[k]) {
        return None;
      }
      var stored := Stored(found, line[..at], line[at + 1..]);
      if stored.None? {
        return None;
      }
      found := stored.value;
    }
    return Some(found);
  }

  // Printing

  predicate PrintableEntry(entry: Entry) {
    && (forall i :: 0 <= i < |entry.0| ==> entry.0[i] !in {'=', '\n', '\r'})
    && Plain(entry.1)
  }

  function RawLine(entry: Entry): string {
    entry.0 + "=" + entry.1
  }

  function RenderRawLines(entries: seq<Entry>): string {
    if entries == [] then "" else RawLine(entries[0]) + "\n" + RenderRawLines(entries[1..])
  }

  /** `_render_properties`, for the entries in the order they are printed; `None` is a refusal. */
  function RenderProperties(entries: seq<Entry>): Option<string> {
    if forall i :: 0 <= i < |entries| ==> PrintableEntry(entries[i]) then Some(RenderRawLines(entries)) else None
  }

  /** Printing is refused for a key that would break its line and for a value with a line break. */
  lemma PrintingRefuses(entries: seq<Entry>)
    ensures RenderProperties(entries).Some? <==> forall i :: 0 <= i < |entries| ==>
              && '=' !in entries[i].0 && '\n' !in entries[i].0 && '\r' !in entries[i].0
              && '\n' !in entries[i].1 && '\r' !in entries[i].1
  {
    forall i | 0 <= i < |entries|
      ensures PrintableEntry(entries[i]) <==>
              && '=' !in entries[i].0 && '\n' !in entries[i].0 && '\r' !in entries[i].0
              && '\n' !in entries[i].1 && '\r' !in entries[i].1
    {
      var (key, value) := entries[i];
      assert forall j :: 0 <= j < |key| ==> key[j] in key;
      assert forall j :: 0 <= j < |value| ==> value[j] in value;
    }
  }

  // Reading what was printed

  lemma {:induction false} FirstNewlineOf(line: string, rest: string)
    requires '\n' !in line
    ensures FirstNewline(line + "\n" + rest) == |line|
  {
    if line != "" {
      assert (line + "\n" + rest)[1..] == line[1..] + "\n" + rest;
      FirstNewlineOf(line[1..], rest);
    }
  }

  lemma {:induction false} SplitsRendered(entries: seq<Entry>)
    requires forall i :: 0 <= i < |entries| ==> DottedName(entries[i].0) && PrintableEntry(entries[i])
    ensures SplitLines(RenderRawLines(entries)) == RawLinesOf(entries) + [""]
  {
    if entries == [] {
      assert RawLinesOf(entries) + [""] == [""];
    } else {
      var line, rest := RawLine(entries[0]), RenderRawLines(entries[1..]);
      SplitsRendered(entries[1..]);
      assert '\n' !in line;
      FirstNewlineOf(line, rest);
      var text := line + "\n" + rest;
      assert text[..|line|] == line && text[|line| + 1..] == rest;
      assert [line] + (RawLinesOf(entries[1..]) + [""]) == RawLinesOf(entries) + [""];
    }
  }

  function RawLinesOf(entries: seq<Entry>): seq<string> {
    if entries == [] then [] else [RawLine(entries[0])] + RawLinesOf(entries[1..])
  }

  lemma {:induction false} FirstEqualsOf(key: string, value: string)
    requires forall i :: 0 <= i < |key| ==> key[i] != '='
    ensures FirstEquals(key + "=" + value) == |key|
  {
    if key != "" {
      assert (key + "=" + value)[1..] == key[1..] + "=" + value;
      FirstEqualsOf(key[1..], value);
    }
  }

  lemma DottedIsClean(key: string)
    requires DottedName(key)
    ensures forall i :: 0 <= i < |key| ==> IsKeyChar(key[i]) && key[i] != '=' && !IsControl(key[i])
    ensures key[0] != ' ' && key[0] != '\t' && key[0] != '#'
  {
    assert IsKeyChar(key[0]);
  }

  /** A printed line gives its entry back exactly when its value has no control character. */
  lemma ParsesRawLine(entry: Entry)
    requires DottedName(entry.0) && PrintableEntry(entry)
    ensures ParseLine(RawLine(entry)) == if Clean(entry.1) then Found(entry) else Malformed
  {
    var (key, value) := entry;
    var line := RawLine(entry);
    DottedIsClean(key);
    FirstEqualsOf(key, value);
    assert line[|line| - 1] != '\r';
    assert line[0] == key[0];
    assert line[..|key|] == key && line[|key| + 1..] == value;
    assert forall i :: 0 <= i < |key| ==> line[i] == key[i];
    if Clean(value) {
      forall i | 0 <= i < |line| ensures !IsControl(line[i]) {
        if i > |key| { assert line[i] == value[i - |key| - 1]; }
      }
    } else {
      var i :| 0 <= i < |value| && IsControl(value[i]);
      assert line[|key| + 1 + i] == value[i];
    }
  }

  lemma {:induction false} ParsesRawLines(entries: seq<Entry>, i: nat)
    requires DistinctKeys(entries) && |entries| <= MAX_PROPERTIES && i <= |entries|
    requires forall j :: 0 <= j < |entries| ==> DottedName(entries[j].0) && PrintableEntry(entries[j])
    ensures ParseLines(RawLinesOf(entries[i..]) + [""], MapOf(entries[..i])) ==
            if forall j :: i <= j < |entries| ==> Clean(entries[j].1) then Some(MapOf(entries)) else None
    decreases |entries| - i
  {
    hide DottedName, PrintableEntry, MapOf, RawLine;
    var lines := RawLinesOf(entries[i..]) + [""];
    if i == |entries| {
      assert entries[..i] == entries && entries[i..] == [];
      assert lines == [""] && lines[1..] == [];
    } else {
      var rest := entries[i..];
      assert rest[0] == entries[i] && rest[1..] == entries[i + 1..];
      assert lines[0] == RawLine(entries[i]) && lines[1..] == RawLinesOf(entries[i + 1..]) + [""];
      ParsesRawLine(entries[i]);
      MapOfFront(entries, i);
      assert |entries[i].0| <= MAX_KEY_LENGTH && entries[i].0 != "" by { DottedLength(entries[i].0); }
      ParsesRawLines(entries, i + 1);
    }
  }

  lemma DottedLength(key: string)
    requires DottedName(key)
    ensures 1 <= |key| <= MAX_KEY_LENGTH
  {
  }

  /** Parsing printed librdkafka properties returns the original map exactly when no value has a control
      character; otherwise the document is refused. */
  lemma LibrdkafkaRoundTrip(entries: seq<Entry>)
    requires DistinctKeys(entries) && |entries| <= MAX_PROPERTIES
    requires forall i :: 0 <= i < |entries| ==> DottedName(entries[i].0)
    requires RenderProperties(entries).Some?
    ensures LibrdkafkaProperties(RenderProperties(entries).value) ==
            if forall i :: 0 <= i < |entries| ==> Clean(entries[i].1) then Some(MapOf(entries)) else None
  {
    SplitsRendered(entries);
    ParsesRawLines(entries, 0);
    assert entries[0..] == entries && entries[..0] == [];
  }
}
