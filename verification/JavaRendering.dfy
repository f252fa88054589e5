/** Printing Java properties (`session.py`), and reading back what was printed. */
module JavaRendering {
  import opened Wrappers
  import opened PropertiesSyntax

  type Entry = (string, string)

  // Printing

  /** `text.replace(c, with)`. */
  function Replace(text: string, c: char, with: string): string {
    if text == "" then ""
    else (if text[0] == c then with else [text[0]]) + Replace(text[1..], c, with)
  }

  function EscapeControls(value: string): string {
    Replace(Replace(Replace(Replace(Replace(value, '\\', "\\\\"), '\t', "\\t"), '\n', "\\n"), '\r', "\\r"),
            FORM_FEED, "\\f")
  }

  function EscapeValue(value: string): string {
    var escaped := EscapeControls(value);
    if escaped != "" && escaped[0] == ' ' then "\\" + escaped else escaped
  }

  predicate PrintableJavaKey(key: string) {
    forall i :: 0 <= i < |key| ==> key[i] !in {'=', ':', '\n', '\r'}
  }

  function RenderLine(entry: Entry): string {
    entry.0 + "=" + EscapeValue(entry.1) + "\n"
  }

  function RenderLines(entries: seq<Entry>): string {
    if entries == [] then "" else RenderLine(entries[0]) + RenderLines(entries[1..])
  }

  lemma {:induction false} RenderOneMore(entries: seq<Entry>, next: Entry)
    ensures RenderLines(entries + [next]) == RenderLines(entries) + RenderLine(next)
  {
    if entries == [] {
      assert [next][1..] == [];
    } else {
      assert (entries + [next])[1..] == entries[1..] + [next];
      RenderOneMore(entries[1..], next);
    }
  }

  lemma NoLines()
    ensures forall entries: seq<Entry> :: entries == [] ==> RenderLines(entries) == ""
  {
  }

  lemma PrintableKeys(key: string)
    ensures PrintableJavaKey(key) <==> '=' !in key && ':' !in key && '\n' !in key && '\r' !in key
  {
    assert forall i :: 0 <= i < |key| ==> key[i] in key;
  }

  /** `_render_java_properties`, for the entries in the order they are printed. */
  method RenderJavaProperties(entries: seq<Entry>) returns (text: Option<string>)
    ensures text.Some? <==> forall i :: 0 <= i < |entries| ==> PrintableJavaKey(entries[i].0)
    ensures text.Some? <==> forall i :: 0 <= i < |entries| ==>
              '=' !in entries[i].0 && ':' !in entries[i].0 && '\n' !in entries[i].0 && '\r' !in entries[i].0
    ensures text.Some? ==> text.value == RenderLines(entries)
  {
    hide RenderLines, EscapeValue, PrintableJavaKey;
    forall i | 0 <= i < |entries|
      ensures PrintableJavaKey(entries[i].0) <==>
              '=' !in entries[i].0 && ':' !in entries[i].0 && '\n' !in entries[i].0 && '\r' !in entries[i].0
    {
      PrintableKeys(entries[i].0);
    }
    NoLines();
    var rendered := "";
    for i := 0 to |entries|
      invariant forall j :: 0 <= j < i ==> PrintableJavaKey(entries[j].0)
      invariant rendered == RenderLines(entries[..i])
    {
      var key, value := entries[i].0, entries[i].1;
      if !PrintableJavaKey(key) {
        return None;
      }
      assert entries[..i + 1] == entries[..i] + [entries[i]];
      RenderOneMore(entries[..i], entries[i]);
      assert RenderLine(entries[i]) == key + "=" + EscapeValue(value) + "\n";
      rendered := rendered + (key + "=" + EscapeValue(value) + "\n");
    }
    assert entries[..|entries|] == entries;
    return Some(rendered);
  }

  // One character at a time

  function EscapeChar(c: char): string {
    if c == '\\' then "\\\\"
    else if c == '\t' then "\\t"
    else if c == '\n' then "\\n"
    else if c == '\r' then "\\r"
    else if c == FORM_FEED then "\\f"
    else [c]
  }

  function EscapeChars(value: string): string {
    if value == "" then "" else EscapeChar(value[0]) + EscapeChars(value[1..])
  }

  lemma {:induction false} ReplaceConcat(a: string, b: string, c: char, with: string)
    ensures Replace(a + b, c, with) == Replace(a, c, with) + Replace(b, c, with)
  {
    if a == "" {
      assert a + b == b;
    } else {
      assert (a + b)[1..] == a[1..] + b;
      ReplaceConcat(a[1..], b, c, with);
    }
  }

  lemma ReplaceTwo(a: char, b: char, c: char, with: string)
    requires a != c && b != c
    ensures Replace([a, b], c, with) == [a, b]
  {
    assert [a, b][1..] == [b];
    ReplaceOne(b, c, with);
    assert [a] + [b] == [a, b];
  }

  lemma ReplaceOne(a: char, c: char, with: string)
    ensures Replace([a], c, with) == if a == c then with else [a]
  {
    assert [a][1..] == "";
  }

  /** The five replacements in turn amount to escaping each character once. */
  lemma {:induction false} EscapesEachChar(value: string)
    ensures EscapeControls(value) == EscapeChars(value)
  {
    if value != "" {
      var head, tail := [value[0]], value[1..];
      assert value == head + tail;
      EscapesEachChar(tail);
      EscapesOneChar(value[0]);
      EscapeConcat(head, tail);
    }
  }

  lemma EscapeConcat(a: string, b: string)
    ensures EscapeControls(a + b) == EscapeControls(a) + EscapeControls(b)
  {
    ReplaceConcat(a, b, '\\', "\\\\");
    var a1, b1 := Replace(a, '\\', "\\\\"), Replace(b, '\\', "\\\\");
    ReplaceConcat(a1, b1, '\t', "\\t");
    var a2, b2 := Replace(a1, '\t', "\\t"), Replace(b1, '\t', "\\t");
    ReplaceConcat(a2, b2, '\n', "\\n");
    var a3, b3 := Replace(a2, '\n', "\\n"), Replace(b2, '\n', "\\n");
    ReplaceConcat(a3, b3, '\r', "\\r");
    ReplaceConcat(Replace(a3, '\r', "\\r"), Replace(b3, '\r', "\\r"), FORM_FEED, "\\f");
  }

  lemma EscapesOneChar(c: char)
    ensures EscapeControls([c]) == EscapeChar(c)
  {
    ReplaceOne(c, '\\', "\\\\");
    ReplaceOne(c, '\t', "\\t");
    ReplaceOne(c, '\n', "\\n");
    ReplaceOne(c, '\r', "\\r");
    ReplaceOne(c, FORM_FEED, "\\f");
    ReplaceTwo('\\', '\\', '\t', "\\t");
    ReplaceTwo('\\', '\\', '\n', "\\n");
    ReplaceTwo('\\', '\\', '\r', "\\r");
    ReplaceTwo('\\', '\\', FORM_FEED, "\\f");
    ReplaceTwo('\\', 't', '\n', "\\n");
    ReplaceTwo('\\', 't', '\r', "\\r");
    ReplaceTwo('\\', 't', FORM_FEED, "\\f");
    ReplaceTwo('\\', 'n', '\r', "\\r");
    ReplaceTwo('\\', 'n', FORM_FEED, "\\f");
    ReplaceTwo('\\', 'r', FORM_FEED, "\\f");
  }

  // Escaping inverts

  function CodeUnits(text: string): seq<nat> {
    seq(|text|, i requires 0 <= i < |text| => text[i] as int)
  }

  /** Unescaping undoes the escaping of each character, whatever follows. */
  lemma {:induction false} UnitsOfEscaped(value: string)
    ensures Units(EscapeChars(value)) == Some(CodeUnits(value))
  {
    if value == "" {
    } else {
      UnitsOfEscaped(value[1..]);
      UnitsOfOne(value[0], EscapeChars(value[1..]));
      assert CodeUnits(value) == [value[0] as int] + CodeUnits(value[1..]);
    }
  }

  lemma UnitsOfOne(c: char, rest: string)
    requires Units(rest).Some?
    ensures Units(EscapeChar(c) + rest) == Some([c as int] + Units(rest).value)
  {
    var raw := EscapeChar(c) + rest;
    if |EscapeChar(c)| == 2 {
      EscapedChar(c);
      UnitsOfPair(EscapeChar(c)[1], rest, raw);
    } else {
      assert raw[1..] == rest;
    }
  }

  lemma EscapedChar(c: char)
    ensures |EscapeChar(c)| == 2 ==>
              EscapeChar(c)[0] == '\\' && EscapeChar(c)[1] != 'u' && Escaped(EscapeChar(c)[1]) == c
  {
  }

  lemma UnitsOfPair(letter: char, rest: string, raw: string)
    requires raw == ['\\', letter] + rest && letter != 'u' && Units(rest).Some?
    ensures Units(raw) == Some([Escaped(letter) as int] + Units(rest).value)
  {
    hide Escaped, HexValue;
    assert raw[2..] == rest;
  }

  lemma {:induction false} JoinAscii(text: string)
    requires IsAscii(text)
    ensures JoinSurrogates(CodeUnits(text)) == Some(text)
  {
    if text == "" {
    } else {
      var units := CodeUnits(text);
      assert units[1..] == CodeUnits(text[1..]);
      JoinAscii(text[1..]);
      assert [text[0]] + text[1..] == text;
    }
  }

  lemma EscapedNotEmpty(value: string)
    ensures value != "" ==> EscapeChars(value) != "" && (EscapeChars(value)[0] == ' ' <==> value[0] == ' ')
    ensures value != "" ==> !IsJavaSpace(EscapeChars(value)[0]) || value[0] == ' '
  {
  }

  /** Escape inversion: every ASCII value, whatever its backslashes, spaces and line breaks, comes back. */
  lemma UnescapeEscape(value: string)
    requires IsAscii(value)
    ensures Unescape(EscapeValue(value)) == Some(value)
  {
    EscapesEachChar(value);
    UnitsOfEscaped(value);
    JoinAscii(value);
    EscapedNotEmpty(value);
    var escaped := EscapeChars(value);
    if escaped != "" && escaped[0] == ' ' {
      var raw := "\\" + escaped;
      assert raw[2..] == escaped[1..];
      assert Units(raw) == Cons(' ' as int, Units(escaped[1..]));
      assert Units(escaped) == Cons(' ' as int, Units(escaped[1..]));
    }
  }

  // Printed lines are read as they were printed

  predicate IsKeyChar(c: char) {
    'a' <= c <= 'z' || 'A' <= c <= 'Z' || '0' <= c <= '9' || c == '.' || c == '_' || c == '-'
  }

  /** The dotted names that client properties use. */
  predicate DottedName(key: string) {
    1 <= |key| <= MAX_KEY_LENGTH && forall i :: 0 <= i < |key| ==> IsKeyChar(key[i])
  }

  predicate Plain(text: string) {
    forall i :: 0 <= i < |text| ==> !IsBreak(text[i])
  }

  lemma {:induction false} EscapedIsPlain(value: string)
    requires IsAscii(value)
    ensures Plain(EscapeChars(value)) && IsAscii(EscapeChars(value))
  {
    if value != "" {
      EscapedIsPlain(value[1..]);
    }
  }

  /** Backslash parity of an escaped value: its trailing backslashes come in pairs. */
  lemma {:induction false} EscapedParity(value: string)
    ensures TrailingBackslashes(EscapeChars(value)) % 2 == 0
  {
    if value != "" {
      var n := |value| - 1;
      var front, last := value[..n], value[n];
      EscapedParity(front);
      EscapeCharsConcat(front, [last]);
      assert value == front + [last];
      assert EscapeChars([last]) == EscapeChar(last) by { assert [last][1..] == ""; }
      AppendedParity(EscapeChars(front), last);
    }
  }

  lemma AppendedParity(done: string, last: char)
    ensures TrailingBackslashes(done + EscapeChar(last)) % 2 ==
            if last == '\\' then TrailingBackslashes(done) % 2 else 0
  {
    var all := done + EscapeChar(last);
    if last == '\\' {
      var one := done + "\\";
      assert all[..|all| - 1] == one && one[..|one| - 1] == done;
      assert TrailingBackslashes(one) == 1 + TrailingBackslashes(done);
      assert TrailingBackslashes(all) == 1 + TrailingBackslashes(one);
    } else {
      assert all[|all| - 1] != '\\';
    }
  }

  lemma {:induction false} EscapeCharsConcat(a: string, b: string)
    ensures EscapeChars(a + b) == EscapeChars(a) + EscapeChars(b)
  {
    if a == "" {
      assert a + b == b;
    } else {
      assert (a + b)[1..] == a[1..] + b;
      EscapeCharsConcat(a[1..], b);
    }
  }

  /** Backslash parity: a printed line never asks for a continuation. */
  lemma {:induction false} TrailingInLine(prefix: string, text: string)
    requires prefix != "" && prefix[|prefix| - 1] != '\\'
    ensures TrailingBackslashes(prefix + text) == TrailingBackslashes(text)
  {
    var line := prefix + text;
    if text == "" {
      assert line == prefix;
    } else {
      assert line[..|line| - 1] == prefix + text[..|text| - 1];
      TrailingInLine(prefix, text[..|text| - 1]);
    }
  }

  lemma EscapedValueIsPlain(value: string)
    requires IsAscii(value)
    ensures Plain(EscapeValue(value)) && IsAscii(EscapeValue(value))
    ensures TrailingBackslashes(EscapeValue(value)) % 2 == 0
    ensures EscapeValue(value) != "" ==> !IsJavaSpace(EscapeValue(value)[0])
  {
    EscapesEachChar(value);
    EscapedIsPlain(value);
    EscapedParity(value);
    EscapedNotEmpty(value);
    var escaped := EscapeChars(value);
    if escaped != "" && escaped[0] == ' ' {
      // The line's first blank keeps the leading backslash out of the trailing ones.
      var spaced := "\\" + escaped;
      assert spaced == "\\ " + escaped[1..] && escaped == " " + escaped[1..];
      TrailingInLine("\\ ", escaped[1..]);
      TrailingInLine(" ", escaped[1..]);
    }
  }

  function LineOf(entry: Entry): string {
    entry.0 + "=" + EscapeValue(entry.1)
  }

  lemma {:induction false} FirstBreakOf(line: string, rest: string)
    requires Plain(line)
    ensures FirstBreak(line + "\n" + rest) == |line|
  {
    var text := line + "\n" + rest;
    if line != "" {
      assert text[1..] == line[1..] + "\n" + rest;
      FirstBreakOf(line[1..], rest);
    }
  }

  lemma NaturalLinesOf(line: string, rest: string)
    requires Plain(line)
    ensures NaturalLines(line + "\n" + rest) == [line] + NaturalLines(rest)
  {
    FirstBreakOf(line, rest);
    var text := line + "\n" + rest;
    assert text[..|line|] == line && text[|line| + 1..] == rest;
  }

  lemma {:induction false} SplitKey(key: string, rest: string, at: nat)
    requires DottedName(key) && at <= |key|
    ensures SplitPoint(key + "=" + rest, at, false) == |key|
    decreases |key| - at
  {
    var line := key + "=" + rest;
    if at < |key| {
      assert line[at] == key[at] && IsKeyChar(key[at]);
      SplitKey(key, rest, at + 1);
    }
  }

  lemma {:induction false} PlainUnits(key: string)
    requires forall i :: 0 <= i < |key| ==> IsKeyChar(key[i])
    ensures Units(key) == Some(CodeUnits(key)) && IsAscii(key)
  {
    if key == "" {
      assert CodeUnits(key) == [];
    } else {
      assert IsKeyChar(key[0]) && key[0] != '\\';
      PlainUnits(key[1..]);
      assert Units(key) == Cons(key[0] as int, Units(key[1..]));
      assert CodeUnits(key) == [key[0] as int] + CodeUnits(key[1..]);
    }
  }

  lemma CutsWhereJoined(key: string, escaped: string)
    requires DottedName(key) && (escaped != "" ==> !IsJavaSpace(escaped[0]))
    ensures var line := key + "=" + escaped;
            && line[..SplitPoint(line, 0, false)] == key
            && AfterKey(line[SplitPoint(line, 0, false)..]) == escaped
  {
    var line := key + "=" + escaped;
    SplitKey(key, escaped, 0);
    assert line[..|key|] == key && line[|key|..] == "=" + escaped;
    assert ("=" + escaped)[1..] == escaped;
  }

  /** The split point: a printed line is cut exactly where it was joined, and both halves come back. */
  lemma ParsesEntry(entry: Entry)
    requires DottedName(entry.0) && IsAscii(entry.1)
    ensures ParseJavaLine(LineOf(entry)) == Some(entry)
  {
    hide EscapeValue, SplitPoint, AfterKey, Units, JoinSurrogates, DottedName;
    var (key, value) := entry;
    EscapedValueIsPlain(value);
    DottedUnescapes(key);
    UnescapeEscape(value);
    CutsWhereJoined(key, EscapeValue(value));
  }

  lemma DottedUnescapes(key: string)
    requires DottedName(key)
    ensures Unescape(key) == Some(key) && IsAscii(key) && Plain(key)
  {
    PlainUnits(key);
    JoinAscii(key);
    assert forall i :: 0 <= i < |key| ==> IsKeyChar(key[i]) && !IsBreak(key[i]);
  }

  lemma LineIsLogical(entry: Entry)
    requires DottedName(entry.0) && IsAscii(entry.1)
    ensures !Continues(LineOf(entry)) && Plain(LineOf(entry))
    ensures SkipSpace(LineOf(entry)) == LineOf(entry) && LineOf(entry) != "" && LineOf(entry)[0] !in {'#', '!'}
  {
    hide EscapeValue;
    var (key, value) := entry;
    EscapedValueIsPlain(value);
    DottedUnescapes(key);
    assert LineOf(entry) == key + "=" + EscapeValue(value);
    assert IsKeyChar(key[0]) && LineOf(entry)[0] == key[0];
    TrailingInLine(key + "=", EscapeValue(value));
  }

  lemma NoLinesRead()
    ensures NaturalLines("") == [""]
  {
  }

  lemma {:induction false} LogicalLinesOf(entries: seq<Entry>)
    requires forall i :: 0 <= i < |entries| ==> DottedName(entries[i].0) && IsAscii(entries[i].1)
    ensures NaturalLines(RenderLines(entries)) == LinesOf(entries) + [""]
    ensures LogicalLines(LinesOf(entries) + [""], None) == Lines(LinesOf(entries), false)
  {
    hide EscapeValue, IsAscii, DottedName, NaturalLines;
    NoLinesRead();
    if entries == [] {
      assert LinesOf(entries) + [""] == [""];
      assert [""][1..] == [];
    } else {
      var head, tail := entries[0], entries[1..];
      LogicalLinesOf(tail);
      LineIsLogical(head);
      assert RenderLines(entries) == LineOf(head) + "\n" + RenderLines(tail);
      NaturalLinesOf(LineOf(head), RenderLines(tail));
      var naturals := LinesOf(entries) + [""];
      assert naturals == [LineOf(head)] + (LinesOf(tail) + [""]);
      assert naturals[1..] == LinesOf(tail) + [""];
    }
  }

  function LinesOf(entries: seq<Entry>): seq<string> {
    if entries == [] then [] else [LineOf(entries[0])] + LinesOf(entries[1..])
  }

  function MapOf(entries: seq<Entry>): map<string, string> {
    if entries == [] then map[]
    else
      var last := entries[|entries| - 1];
      MapOf(entries[..|entries| - 1])[last.0 := last.1]
  }

  predicate DistinctKeys(entries: seq<Entry>) {
    forall i, j :: 0 <= i < j < |entries| ==> entries[i].0 != entries[j].0
  }

  lemma FrontIsDistinct(entries: seq<Entry>)
    requires entries != [] && DistinctKeys(entries)
    ensures var n := |entries| - 1;
            DistinctKeys(entries[..n]) && forall i :: 0 <= i < n ==> entries[..n][i].0 != entries[n].0
  {
  }

  lemma {:induction false} MapOfKeys(entries: seq<Entry>)
    requires DistinctKeys(entries)
    ensures |MapOf(entries)| == |entries|
    ensures forall key :: key in MapOf(entries) ==> exists i :: 0 <= i < |entries| && entries[i].0 == key
  {
    if entries != [] {
      var n := |entries| - 1;
      var front, last := entries[..n], entries[n];
      FrontIsDistinct(entries);
      MapOfKeys(front);
      hide DistinctKeys;
      var smaller := MapOf(front);
      forall key | key in MapOf(entries) ensures exists i :: 0 <= i < |entries| && entries[i].0 == key {
        if key in smaller {
          var i :| 0 <= i < |front| && front[i].0 == key;
          assert entries[i].0 == key;
        } else {
          assert entries[n].0 == key;
        }
      }
      assert last.0 !in smaller;
      assert smaller[last.0 := last.1].Keys == smaller.Keys + {last.0};
    }
  }

  lemma MapOfFront(entries: seq<Entry>, i: nat)
    requires i < |entries| && DistinctKeys(entries)
    ensures MapOf(entries[..i + 1]) == MapOf(entries[..i])[entries[i].0 := entries[i].1]
    ensures entries[i].0 !in MapOf(entries[..i]) && |MapOf(entries[..i])| == i
  {
    var front := entries[..i];
    assert entries[..i + 1][..i] == front;
    MapOfKeys(front);
    assert forall j :: 0 <= j < i ==> front[j].0 != entries[i].0;
  }

  lemma {:induction false} ParsesEntries(entries: seq<Entry>, i: nat)
    requires DistinctKeys(entries) && |entries| <= MAX_PROPERTIES && i <= |entries|
    requires forall j :: 0 <= j < |entries| ==> DottedName(entries[j].0) && IsAscii(entries[j].1)
    ensures ParseJavaLines(LinesOf(entries[i..]), MapOf(entries[..i])) == Some(MapOf(entries))
    decreases |entries| - i
  {
    hide ParseJavaLine, LineOf, MapOf, IsAscii;
    if i == |entries| {
      assert entries[..i] == entries;
    } else {
      var rest := entries[i..];
      assert rest[0] == entries[i] && rest[1..] == entries[i + 1..];
      ParsesEntry(entries[i]);
      MapOfFront(entries, i);
      assert LinesOf(rest)[0] == LineOf(entries[i]) && LinesOf(rest)[1..] == LinesOf(entries[i + 1..]);
      ParsesEntries(entries, i + 1);
    }
  }

  /** Parsing printed Java properties returns the original map, for dotted names in any order and any
      ASCII values: backslashes, leading spaces, tabs, line breaks and trailing backslashes included. */
  lemma JavaRoundTrip(entries: seq<Entry>)
    requires DistinctKeys(entries) && |entries| <= MAX_PROPERTIES
    requires forall i :: 0 <= i < |entries| ==> DottedName(entries[i].0) && IsAscii(entries[i].1)
    ensures JavaProperties(RenderLines(entries)) == Some(MapOf(entries))
  {
    LogicalLinesOf(entries);
    ParsesEntries(entries, 0);
    assert entries[0..] == entries && entries[..0] == [];
  }
}
