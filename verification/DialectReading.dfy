/** What each dialect's reader makes of text printed in the other dialect. */
module DialectReading {
  import opened Wrappers
  import opened PropertiesSyntax
  import opened JavaRendering
  import opened Librdkafka

  // Java text read as librdkafka properties

  function EscapedEntries(entries: seq<Entry>): (escaped: seq<Entry>)
    ensures |escaped| == |entries|
    ensures forall i :: 0 <= i < |entries| ==> escaped[i] == (entries[i].0, EscapeValue(entries[i].1))
  {
    seq(|entries|, i requires 0 <= i < |entries| => (entries[i].0, EscapeValue(entries[i].1)))
  }

  lemma {:induction false} PrintsAlike(entries: seq<Entry>)
    ensures RenderRawLines(EscapedEntries(entries)) == RenderLines(entries)
  {
    if entries != [] {
      PrintsAlike(entries[1..]);
      assert EscapedEntries(entries)[1..] == EscapedEntries(entries[1..]);
    }
  }

  lemma {:induction false} SameKeys(entries: seq<Entry>, others: seq<Entry>)
    requires |entries| == |others| && forall i :: 0 <= i < |entries| ==> entries[i].0 == others[i].0
    ensures MapOf(entries).Keys == MapOf(others).Keys
  {
    if entries != [] {
      var n := |entries| - 1;
      SameKeys(entries[..n], others[..n]);
      assert MapOf(entries).Keys == MapOf(entries[..n]).Keys + {entries[n].0};
      assert MapOf(others).Keys == MapOf(others[..n]).Keys + {others[n].0};
    }
  }

  predicate Dotted(entries: seq<Entry>) {
    forall i :: 0 <= i < |entries| ==> DottedName(entries[i].0) && IsAscii(entries[i].1)
  }

  /** Printed Java text, read as librdkafka properties, is refused or has the same keys. */
  lemma JavaTextElsewhere(entries: seq<Entry>)
    requires DistinctKeys(entries) && |entries| <= MAX_PROPERTIES && Dotted(entries)
    ensures var read := LibrdkafkaProperties(RenderLines(entries));
            read.Some? ==> read.value.Keys == MapOf(entries).Keys
  {
    hide MapOf, DottedName, EscapeValue;
    var escaped := EscapedEntries(entries);
    PrintsAlike(entries);
    forall i | 0 <= i < |escaped| ensures PrintableEntry(escaped[i]) {
      EscapedValueIsPlain(entries[i].1);
      DottedIsClean(entries[i].0);
      DottedUnescapes(entries[i].0);
    }
    LibrdkafkaRoundTrip(escaped);
    SameKeys(entries, escaped);
  }

  /** A value that both dialects print the same way. */
  predicate PlainValue(value: string) {
    && '\\' !in value && (value != "" ==> value[0] != ' ')
    && forall i :: 0 <= i < |value| ==> 32 <= value[i] as int <= 126
  }

  lemma {:induction false} PlainEscapes(value: string)
    requires '\\' !in value && forall i :: 0 <= i < |value| ==> 32 <= value[i] as int <= 126
    ensures EscapeChars(value) == value
  {
    if value != "" {
      PlainEscapes(value[1..]);
      assert [value[0]] + value[1..] == value;
    }
  }

  lemma PlainPrintsAsItIs(value: string)
    requires PlainValue(value)
    ensures EscapeValue(value) == value && Clean(value) && Plain(value) && IsAscii(value)
  {
    EscapesEachChar(value);
    PlainEscapes(value);
  }

  /** Without backslashes and odd characters, both dialects print the same text and read it alike. */
  lemma SharedReading(entries: seq<Entry>)
    requires DistinctKeys(entries) && |entries| <= MAX_PROPERTIES
    requires forall i :: 0 <= i < |entries| ==> DottedName(entries[i].0) && PlainValue(entries[i].1)
    ensures RenderProperties(entries) == Some(RenderLines(entries))
    ensures JavaProperties(RenderLines(entries)) == Some(MapOf(entries))
    ensures LibrdkafkaProperties(RenderLines(entries)) == Some(MapOf(entries))
  {
    hide MapOf, DottedName, EscapeValue, PlainValue, Clean, Plain, IsAscii;
    forall i | 0 <= i < |entries|
      ensures EscapeValue(entries[i].1) == entries[i].1 && Clean(entries[i].1) && IsAscii(entries[i].1)
      ensures PrintableEntry(entries[i])
    {
      PlainPrintsAsItIs(entries[i].1);
      DottedIsClean(entries[i].0);
      DottedUnescapes(entries[i].0);
      PlainKey(entries[i].0);
    }
    assert EscapedEntries(entries) == entries;
    PrintsAlike(entries);
    LibrdkafkaRoundTrip(entries);
    JavaRoundTrip(entries);
  }

  lemma PlainKey(key: string)
    requires DottedName(key)
    ensures forall i :: 0 <= i < |key| ==> key[i] !in {'=', '\n', '\r'}
  {
    DottedIsClean(key);
    DottedUnescapes(key);
  }

  // librdkafka text read as Java properties

  /** The line starts with one of the keys and its equals sign. */
  ghost predicate Keyed(line: string, keys: set<string>) {
    exists key :: key in keys && DottedName(key) && StartsLine(line, key)
  }

  predicate StartsLine(line: string, key: string) {
    |key| < |line| && line[..|key|] == key && line[|key|] == '='
  }

  lemma KeyedStaysKeyed(line: string, more: string, keys: set<string>)
    requires Keyed(line, keys)
    ensures Keyed(line + more, keys)
    ensures SkipSpace(line) == line && line != "" && line[0] !in {'#', '!'}
    ensures Continues(line + more) ==> Keyed((line + more)[..|line + more| - 1], keys)
  {
    var key :| key in keys && DottedName(key) && StartsLine(line, key);
    var joined := line + more;
    DottedIsClean(key);
    assert line[0] == key[0] && joined[..|key|] == key && StartsLine(joined, key);
    if Continues(joined) {
      assert joined[|joined| - 1] == '\\';
      assert |joined| - 1 != |key|;
      assert StartsLine(joined[..|joined| - 1], key);
    }
  }

  lemma {:induction false} LogicalKeyed(naturals: seq<string>, pending: Option<string>, keys: set<string>)
    requires forall i :: 0 <= i < |naturals| ==> naturals[i] == "" || Keyed(naturals[i], keys)
    requires pending.Some? ==> Keyed(pending.value, keys)
    ensures forall i :: 0 <= i < |LogicalLines(naturals, pending).lines| ==>
              Keyed(LogicalLines(naturals, pending).lines[i], keys)
    decreases |naturals|
  {
    hide Keyed;
    if naturals != [] {
      var line := SkipSpace(naturals[0]);
      if naturals[0] != "" {
        KeyedStaysKeyed(naturals[0], "", keys);
        assert naturals[0] + "" == naturals[0];
      }
      if pending.None? && (line == "" || line[0] in {'#', '!'}) {
        LogicalKeyed(naturals[1..], None, keys);
      } else {
        var joined := if pending.None? then line else pending.value + line;
        if pending.Some? {
          KeyedStaysKeyed(pending.value, line, keys);
        }
        if Continues(joined) {
          LogicalKeyed(naturals[1..], Some(joined[..|joined| - 1]), keys);
        } else {
          LogicalKeyed(naturals[1..], None, keys);
        }
      }
    }
  }

  lemma KeyedParses(line: string, keys: set<string>)
    requires Keyed(line, keys)
    ensures ParseJavaLine(line).Some? ==> ParseJavaLine(line).value.0 in keys
  {
    hide Unescape, AfterKey;
    var key :| key in keys && DottedName(key) && StartsLine(line, key);
    var rest := line[|key| + 1..];
    assert line == key + "=" + rest;
    SplitKey(key, rest, 0);
    DottedUnescapes(key);
  }

  lemma {:induction false} LinesKeyed(lines: seq<string>, properties: map<string, string>, keys: set<string>)
    requires forall i :: 0 <= i < |lines| ==> Keyed(lines[i], keys)
    requires properties.Keys <= keys
    ensures ParseJavaLines(lines, properties).Some? ==> ParseJavaLines(lines, properties).value.Keys <= keys
  {
    hide Keyed, ParseJavaLine;
    if lines != [] {
      KeyedParses(lines[0], keys);
      var entry := ParseJavaLine(lines[0]);
      if entry.Some? {
        var stored := Stored(properties, entry.value.0, entry.value.1);
        if stored.Some? {
          LinesKeyed(lines[1..], stored.value, keys);
        }
      }
    }
  }

  lemma {:induction false} RawNaturalLines(entries: seq<Entry>)
    requires forall i :: 0 <= i < |entries| ==> DottedName(entries[i].0) && PrintableEntry(entries[i])
    ensures NaturalLines(RenderRawLines(entries)) == RawLinesOf(entries) + [""]
  {
    if entries == [] {
      assert RawLinesOf(entries) + [""] == [""];
    } else {
      RawNaturalLines(entries[1..]);
      DottedUnescapes(entries[0].0);
      NaturalLinesOf(RawLine(entries[0]), RenderRawLines(entries[1..]));
      assert [RawLine(entries[0])] + (RawLinesOf(entries[1..]) + [""]) == RawLinesOf(entries) + [""];
    }
  }

  lemma {:induction false} RawLinesKeyed(entries: seq<Entry>, keys: set<string>)
    requires forall i :: 0 <= i < |entries| ==> DottedName(entries[i].0) && entries[i].0 in keys
    ensures forall i :: 0 <= i < |RawLinesOf(entries)| ==> Keyed(RawLinesOf(entries)[i], keys)
  {
    if entries != [] {
      RawLinesKeyed(entries[1..], keys);
      assert StartsLine(RawLine(entries[0]), entries[0].0);
    }
  }

  /** Printed librdkafka text, read as Java properties, is refused or has no other keys. */
  lemma LibrdkafkaTextElsewhere(entries: seq<Entry>)
    requires DistinctKeys(entries)
    requires forall i :: 0 <= i < |entries| ==> DottedName(entries[i].0) && PrintableEntry(entries[i])
    ensures var read := JavaProperties(RenderRawLines(entries));
            read.Some? ==> read.value.Keys <= MapOf(entries).Keys
  {
    hide Keyed, DottedName, PrintableEntry, MapOf, NaturalLines, LogicalLines, ParseJavaLines, RawLinesOf, RenderRawLines;
    var keys := MapOf(entries).Keys;
    forall i | 0 <= i < |entries| ensures entries[i].0 in keys {
      EntryInMap(entries, i);
    }
    RawNaturalLines(entries);
    RawLinesKeyed(entries, keys);
    var naturals := RawLinesOf(entries) + [""];
    LogicalKeyed(naturals, None, keys);
    LinesKeyed(LogicalLines(naturals, None).lines, map[], keys);
  }

  lemma {:induction false} EntryInMap(entries: seq<Entry>, i: nat)
    requires DistinctKeys(entries) && i < |entries|
    ensures entries[i].0 in MapOf(entries) && MapOf(entries)[entries[i].0] == entries[i].1
  {
    var n := |entries| - 1;
    if i < n {
      EntryInMap(entries[..n], i);
      assert entries[..n][i] == entries[i];
    }
  }

  /** The entries are exactly those of their map. */
  lemma EntriesOf(entries: seq<Entry>, values: map<string, string>)
    requires DistinctKeys(entries) && MapOf(entries) == values
    ensures forall i :: 0 <= i < |entries| ==> entries[i].0 in values && values[entries[i].0] == entries[i].1
  {
    forall i | 0 <= i < |entries| ensures entries[i].0 in values && values[entries[i].0] == entries[i].1 {
      EntryInMap(entries, i);
    }
  }
}
