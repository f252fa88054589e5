/** Whole documents of Java properties: lines, comments, continuations and entries, told from what is written. */
module JavaDocuments {
  import opened Wrappers
  import opened PropertiesSyntax
  import opened JavaGrammar

  // Natural lines

  ghost predicate Unbroken(line: string) {
    forall i :: 0 <= i < |line| ==> line[i] != '\r' && line[i] != '\n'
  }

  /** A carriage return and a newline behind it are one break. */
  ghost predicate Break(mark: string, rest: string) {
    mark == "\r\n" || mark == "\n" || (mark == "\r" && (rest == "" || rest[0] != '\n'))
  }

  ghost predicate Broken(text: string, naturals: seq<string>)
    decreases |naturals|
  {
    && naturals != [] && Unbroken(naturals[0])
    && if |naturals| == 1 then text == naturals[0]
       else
         exists mark, rest ::
           text == naturals[0] + mark + rest && Break(mark, rest) && Broken(rest, naturals[1..])
  }

  lemma {:induction false} FirstBreakIs(line: string, rest: string)
    requires Unbroken(line) && (rest == "" || IsBreak(rest[0]))
    ensures FirstBreak(line + rest) == |line|
  {
    if line == "" {
      assert line + rest == rest;
    } else {
      assert (line + rest)[1..] == line[1..] + rest;
      FirstBreakIs(line[1..], rest);
    }
  }

  lemma BrokenIs(line: string, mark: string, rest: string)
    requires Unbroken(line) && Break(mark, rest)
    ensures NaturalLines(line + mark + rest) == [line] + NaturalLines(rest)
  {
    var text := line + mark + rest;
    assert text == line + (mark + rest);
    FirstBreakIs(line, mark + rest);
    assert text[..|line|] == line && text[|line|..] == mark + rest && text[|line| + |mark|..] == rest;
    assert text[|line|] == mark[0];
    assert |line| + 1 < |text| ==> text[|line| + 1] == (mark + rest)[1];
  }

  lemma BreakAt(text: string) returns (mark: string, rest: string)
    requires FirstBreak(text) < |text|
    ensures text == text[..FirstBreak(text)] + mark + rest && Break(mark, rest)
    ensures NaturalLines(text) == [text[..FirstBreak(text)]] + NaturalLines(rest) && |rest| < |text|
  {
    var at := FirstBreak(text);
    var next := if text[at] == '\r' && at + 1 < |text| && text[at + 1] == '\n' then at + 2 else at + 1;
    mark, rest := text[at..next], text[next..];
    if next == at + 2 {
      assert mark[0] == '\r' && mark[1] == '\n';
    } else {
      assert mark[0] == text[at];
      assert rest != "" ==> rest[0] == text[at + 1];
    }
  }

  /** A text falls into exactly the natural lines it is broken into. */
  lemma {:induction false} BrokenExactly(text: string, naturals: seq<string>)
    ensures Broken(text, naturals) <==> NaturalLines(text) == naturals
    decreases |text|
  {
    hide NaturalLines, Break, Unbroken;
    if FirstBreak(text) == |text| {
      LastLine(text, naturals);
    } else {
      var mark, rest := BreakAt(text);
      var line := text[..FirstBreak(text)];
      assert Unbroken(line) by { FirstIsUnbroken(text); }
      if naturals != [] {
        BrokenExactly(rest, naturals[1..]);
      }
      if Broken(text, naturals) {
        assert |naturals| > 1 by { NotTheLast(text, naturals); }
        var otherMark, otherRest :|
          text == naturals[0] + otherMark + otherRest && Break(otherMark, otherRest) &&
          Broken(otherRest, naturals[1..]);
        OneBreak(text, line, mark, rest, naturals[0], otherMark, otherRest);
        assert naturals == [naturals[0]] + naturals[1..];
      }
      if NaturalLines(text) == naturals {
        assert naturals[0] == line && naturals[1..] == NaturalLines(rest);
        assert |naturals| > 1 by { SomeLine(rest); }
      }
    }
  }

  lemma SomeLine(text: string)
    ensures NaturalLines(text) != []
  {
  }

  lemma FirstIsUnbroken(text: string)
    ensures Unbroken(text[..FirstBreak(text)])
  {
  }

  lemma LastLine(text: string, naturals: seq<string>)
    requires FirstBreak(text) == |text|
    ensures Broken(text, naturals) <==> NaturalLines(text) == naturals
  {
    assert Unbroken(text);
    if |naturals| > 1 {
      MarksBreak(text);
    }
  }

  lemma MarksBreak(text: string)
    ensures forall line, mark, rest :: text == line + mark + rest && Break(mark, rest) ==> !Unbroken(text)
  {
    forall line, mark, rest | text == line + mark + rest && Break(mark, rest) ensures !Unbroken(text) {
      assert text[|line|] == mark[0];
    }
  }

  lemma NotTheLast(text: string, naturals: seq<string>)
    requires FirstBreak(text) < |text| && Broken(text, naturals)
    ensures |naturals| > 1
  {
  }

  lemma OneBreak(text: string, line: string, mark: string, rest: string, otherLine: string, otherMark: string,
                 otherRest: string)
    requires text == line + mark + rest && Unbroken(line) && Break(mark, rest)
    requires text == otherLine + otherMark + otherRest && Unbroken(otherLine) && Break(otherMark, otherRest)
    ensures line == otherLine && mark == otherMark && rest == otherRest
  {
    assert text == line + (mark + rest) && text == otherLine + (otherMark + otherRest);
    FirstBreakIs(line, mark + rest);
    FirstBreakIs(otherLine, otherMark + otherRest);
    var at := |line|;
    assert line == text[..at] && otherLine == text[..at];
    assert text[at..] == mark + rest && text[at..] == otherMark + otherRest;
    assert mark[0] == text[at] && otherMark[0] == text[at];
    assert |mark| == 1 && rest != "" ==> (mark + rest)[1] == rest[0];
    assert |otherMark| == 1 && otherRest != "" ==> (otherMark + otherRest)[1] == otherRest[0];
    assert |mark| == |otherMark|;
    assert mark == text[at..][..|mark|] && otherMark == text[at..][..|mark|];
    assert rest == text[at..][|mark|..] && otherRest == text[at..][|mark|..];
  }

  // Logical lines

  ghost predicate Stripped(natural: string, text: string) {
    && (text != "" ==> !Blank(text[0]))
    && exists blanks :: natural == blanks + text && AllBlank(blanks)
  }

  /** A blank line or a comment. */
  ghost predicate Silent(natural: string) {
    exists text :: Stripped(natural, text) && (text == "" || text[0] == '#' || text[0] == '!')
  }

  /** The text ends in just this number of backslashes. */
  ghost predicate EndsIn(text: string, count: nat) {
    && count <= |text| && (forall i :: |text| - count <= i < |text| ==> text[i] == '\\')
    && (count < |text| ==> text[|text| - count - 1] != '\\')
  }

  ghost predicate AsksForMore(text: string) {
    exists count :: EndsIn(text, count) && count % 2 == 1
  }

  /** A logical line on one or more natural ones: all but the last end in a backslash, which is dropped, and the
      blanks before each are dropped, too. */
  ghost predicate OneLine(pieces: seq<string>, line: string)
    decreases |pieces|, 1
  {
    pieces != [] && exists text :: Stripped(pieces[0], text) && Begins(text, pieces, line)
  }

  ghost predicate Begins(text: string, pieces: seq<string>, line: string)
    requires pieces != []
    decreases |pieces|, 0
  {
    if |pieces| == 1 then line == text && !AsksForMore(text)
    else AsksForMore(text) && text[..|text| - 1] <= line && OneLine(pieces[1..], line[|text| - 1..])
  }

  /** The logical lines of natural ones, without the blank ones and the comments between them. */
  ghost predicate Says(naturals: seq<string>, lines: seq<string>)
    decreases |naturals|
  {
    if naturals == [] then lines == []
    else if Silent(naturals[0]) then Says(naturals[1..], lines)
    else
      && lines != []
      && exists count: nat ::
           && 1 <= count <= |naturals| && OneLine(naturals[..count], lines[0])
           && Says(naturals[count..], lines[1..])
  }

  lemma StrippedExactly(natural: string, text: string)
    ensures Stripped(natural, text) <==> SkipSpace(natural) == text
  {
    hide SkipSpace, Blank;
    var before := SkippedBlanks(natural);
    if Stripped(natural, text) {
      var blanks :| natural == blanks + text && AllBlank(blanks);
      SkipsBlanks(blanks, text);
    }
  }

  lemma SilentExactly(natural: string)
    ensures Silent(natural) <==> var text := SkipSpace(natural); text == "" || text[0] in {'#', '!'}
  {
    hide Stripped, SkipSpace;
    forall text ensures Stripped(natural, text) <==> SkipSpace(natural) == text {
      StrippedExactly(natural, text);
    }
    assert Stripped(natural, SkipSpace(natural));
  }

  lemma {:induction false} BackslashesCount(text: string)
    ensures EndsIn(text, TrailingBackslashes(text))
  {
    if text != "" && text[|text| - 1] == '\\' {
      var front := text[..|text| - 1];
      BackslashesCount(front);
      assert forall i :: 0 <= i < |front| ==> text[i] == front[i];
    }
  }

  lemma EndsInOnce(text: string, count: nat, other: nat)
    requires EndsIn(text, count) && EndsIn(text, other)
    ensures count == other
  {
  }

  lemma AsksExactly(text: string)
    ensures AsksForMore(text) <==> TrailingBackslashes(text) % 2 == 1
  {
    hide TrailingBackslashes, EndsIn;
    BackslashesCount(text);
    if AsksForMore(text) {
      var count :| EndsIn(text, count) && count % 2 == 1;
      EndsInOnce(text, count, TrailingBackslashes(text));
    }
  }

  /** What was pending does not change whether a line asks for more. */
  lemma EvenBefore(pending: string, text: string)
    requires TrailingBackslashes(pending) % 2 == 0
    ensures TrailingBackslashes(pending + text) % 2 == TrailingBackslashes(text) % 2
  {
    hide TrailingBackslashes;
    BackslashesCount(pending);
    BackslashesCount(text);
    var before, count := TrailingBackslashes(pending), TrailingBackslashes(text);
    BackslashesCount(pending + text);
    EndsInOnce(pending + text, TrailingBackslashes(pending + text), if count < |text| then count else before + count);
  }

  lemma OneLess(text: string)
    requires TrailingBackslashes(text) % 2 == 1
    ensures text != "" && TrailingBackslashes(text[..|text| - 1]) % 2 == 0
  {
    hide TrailingBackslashes;
    LastBackslash(text);
  }

  lemma LastBackslash(text: string)
    ensures TrailingBackslashes(text) != 0 ==>
              text != "" && TrailingBackslashes(text) == 1 + TrailingBackslashes(text[..|text| - 1])
  {
  }

  /** The rest of a logical line that has begun, and the lines after it. */
  ghost predicate GoesOn(pending: string, naturals: seq<string>, lines: seq<string>) {
    && lines != []
    && exists count: nat, rest ::
         && 1 <= count <= |naturals| && OneLine(naturals[..count], rest)
         && lines[0] == pending + rest && Says(naturals[count..], lines[1..])
  }

  lemma SaysGoesOn(naturals: seq<string>, lines: seq<string>)
    requires naturals != [] && !Silent(naturals[0])
    ensures Says(naturals, lines) <==> GoesOn("", naturals, lines)
  {
    hide Silent, OneLine;
    if Says(naturals, lines) {
      var count: nat :|
        1 <= count <= |naturals| && OneLine(naturals[..count], lines[0]) && Says(naturals[count..], lines[1..]);
      assert lines[0] == "" + lines[0];
    }
    if GoesOn("", naturals, lines) {
      var count: nat, rest :|
        && 1 <= count <= |naturals| && OneLine(naturals[..count], rest)
        && lines[0] == "" + rest && Says(naturals[count..], lines[1..]);
      assert "" + rest == rest;
    }
  }

  lemma OneLineIs(pieces: seq<string>, line: string)
    requires pieces != []
    ensures OneLine(pieces, line) <==> Begins(SkipSpace(pieces[0]), pieces, line)
  {
    hide Begins, Stripped, SkipSpace;
    StrippedExactly(pieces[0], SkipSpace(pieces[0]));
    if OneLine(pieces, line) {
      var text :| Stripped(pieces[0], text) && Begins(text, pieces, line);
      StrippedExactly(pieces[0], text);
    }
  }

  /** A line that asks for no more is the last piece. */
  lemma LastPiece(pending: string, naturals: seq<string>, lines: seq<string>)
    requires naturals != [] && !AsksForMore(SkipSpace(naturals[0]))
    ensures GoesOn(pending, naturals, lines) <==>
            && lines != [] && lines[0] == pending + SkipSpace(naturals[0]) && Says(naturals[1..], lines[1..])
  {
    hide AsksForMore, SkipSpace, Says, OneLine;
    var text := SkipSpace(naturals[0]);
    forall count: nat, rest | 1 <= count <= |naturals|
      ensures OneLine(naturals[..count], rest) <==> count == 1 && rest == text
    {
      OneLineIs(naturals[..count], rest);
      assert naturals[..count][0] == naturals[0];
    }
  }

  lemma FirstPiece(naturals: seq<string>, count: nat, line: string)
    requires 1 <= count <= |naturals| && AsksForMore(SkipSpace(naturals[0]))
    ensures var text := SkipSpace(naturals[0]);
            text != "" &&
            (OneLine(naturals[..count], line) <==>
             count > 1 && text[..|text| - 1] <= line && OneLine(naturals[1..count], line[|text| - 1..]))
  {
    hide AsksForMore, SkipSpace, Stripped;
    var text := SkipSpace(naturals[0]);
    AsksExactly(text);
    var pieces := naturals[..count];
    assert pieces[0] == naturals[0] && pieces[1..] == naturals[1..count];
    OneLineIs(pieces, line);
  }

  lemma Taken(pending: string, front: string, naturals: seq<string>, lines: seq<string>)
    requires naturals != [] && AsksForMore(SkipSpace(naturals[0])) && GoesOn(pending, naturals, lines)
    requires SkipSpace(naturals[0]) == front + "\\"
    ensures GoesOn(pending + front, naturals[1..], lines)
  {
    hide AsksForMore, SkipSpace, Says, OneLine;
    var count: nat, line :|
      && 1 <= count <= |naturals| && OneLine(naturals[..count], line)
      && lines[0] == pending + line && Says(naturals[count..], lines[1..]);
    FirstPiece(naturals, count, line);
    var rest := line[|front|..];
    assert line == front + rest;
    assert naturals[1..][..count - 1] == naturals[1..count];
    assert pending + (front + rest) == pending + front + rest;
    assert naturals[1..][count - 1..] == naturals[count..];
  }

  lemma Given(pending: string, front: string, naturals: seq<string>, lines: seq<string>)
    requires naturals != [] && AsksForMore(SkipSpace(naturals[0]))
    requires SkipSpace(naturals[0]) == front + "\\" && GoesOn(pending + front, naturals[1..], lines)
    ensures GoesOn(pending, naturals, lines)
  {
    hide AsksForMore, SkipSpace, Says, OneLine;
    var later := naturals[1..];
    var count: nat, rest :|
      && 1 <= count <= |later| && OneLine(later[..count], rest)
      && lines[0] == pending + front + rest && Says(later[count..], lines[1..]);
    var line := front + rest;
    assert later[..count] == naturals[1..count + 1] && front <= line && line[|front|..] == rest;
    FirstPiece(naturals, count + 1, line);
    assert pending + (front + rest) == pending + front + rest;
    assert later[count..] == naturals[count + 1..];
    assert OneLine(naturals[..count + 1], line);
  }

  /** A line that asks for more is dropped its backslash and goes on below. */
  lemma NextPiece(pending: string, naturals: seq<string>, lines: seq<string>)
    requires naturals != [] && AsksForMore(SkipSpace(naturals[0]))
    ensures var text := SkipSpace(naturals[0]);
            text != "" &&
            (GoesOn(pending, naturals, lines) <==> GoesOn(pending + text[..|text| - 1], naturals[1..], lines))
  {
    hide SkipSpace, GoesOn;
    var text := SkipSpace(naturals[0]);
    var front := text[..|text| - 1];
    assert text == front + "\\";
    if GoesOn(pending, naturals, lines) {
      Taken(pending, front, naturals, lines);
    }
    if GoesOn(pending + front, naturals[1..], lines) {
      Given(pending, front, naturals, lines);
    }
  }

  /** The lines that are read are exactly the ones the natural lines say. */
  lemma {:induction false} LogicalExactly(naturals: seq<string>, pending: Option<string>, lines: seq<string>)
    requires pending.Some? ==> TrailingBackslashes(pending.value) % 2 == 0
    ensures LogicalLines(naturals, pending) == Lines(lines, false) <==>
            if pending.None? then Says(naturals, lines) else GoesOn(pending.value, naturals, lines)
    decreases |naturals|
  {
    hide Silent, AsksForMore, SkipSpace, Says, OneLine, GoesOn, TrailingBackslashes;
    if naturals == [] {
      NothingSays(pending, lines);
    } else {
      var text := SkipSpace(naturals[0]);
      SilentExactly(naturals[0]);
      AsksExactly(text);
      if pending.None? && Silent(naturals[0]) {
        SilentSays(naturals, lines);
        LogicalExactly(naturals[1..], None, lines);
      } else {
        var begun := if pending.None? then "" else pending.value;
        var joined := begun + text;
        assert TrailingBackslashes("") == 0 by { NoBackslashes(); }
        EvenBefore(begun, text);
        assert pending.None? ==> joined == text;
        if pending.None? {
          SaysGoesOn(naturals, lines);
        }
        if AsksForMore(text) {
          NextPiece(begun, naturals, lines);
          OneLess(joined);
          assert joined[..|joined| - 1] == begun + text[..|text| - 1];
          LogicalExactly(naturals[1..], Some(joined[..|joined| - 1]), lines);
        } else {
          LastPiece(begun, naturals, lines);
          if lines != [] {
            LogicalExactly(naturals[1..], None, lines[1..]);
          }
          BeforeExactly(joined, LogicalLines(naturals[1..], None), lines);
        }
      }
    }
  }

  lemma BeforeExactly(line: string, rest: Lines, lines: seq<string>)
    ensures Before(line, rest) == Lines(lines, false) <==>
            lines != [] && lines[0] == line && rest == Lines(lines[1..], false)
  {
    if lines != [] && lines[0] == line {
      assert lines == [line] + lines[1..];
    }
  }

  lemma NoBackslashes()
    ensures TrailingBackslashes("") == 0
  {
  }

  lemma NothingSays(pending: Option<string>, lines: seq<string>)
    ensures Says([], lines) <==> lines == []
    ensures pending.Some? ==> !GoesOn(pending.value, [], lines)
  {
  }

  lemma SilentSays(naturals: seq<string>, lines: seq<string>)
    requires naturals != [] && Silent(naturals[0])
    ensures Says(naturals, lines) <==> Says(naturals[1..], lines)
  {
  }

  // Entries

  /** The properties are the former ones and the entries', none of which is given twice. */
  ghost predicate Adds(former: map<string, string>, entries: seq<(string, string)>, properties: map<string, string>) {
    && |former| + |entries| <= 4096
    && (forall i :: 0 <= i < |entries| ==> 1 <= |entries[i].0| <= 256 && entries[i].0 !in former)
    && (forall i, j :: 0 <= i < j < |entries| ==> entries[i].0 != entries[j].0)
    && (forall key :: key in properties ==> key in former || exists i :: 0 <= i < |entries| && entries[i].0 == key)
    && (forall key :: key in former ==> key in properties && properties[key] == former[key])
    && (forall i :: 0 <= i < |entries| ==>
          entries[i].0 in properties && properties[entries[i].0] == entries[i].1)
  }

  lemma AddsNothing(former: map<string, string>, properties: map<string, string>)
    ensures |former| <= 4096 ==> (Adds(former, [], properties) <==> former == properties)
  {
  }

  lemma AddsOne(former: map<string, string>, entries: seq<(string, string)>, properties: map<string, string>)
    requires entries != [] && |former| <= 4096
    ensures Adds(former, entries, properties) <==>
            && 1 <= |entries[0].0| <= 256 && entries[0].0 !in former && |former| < 4096
            && Adds(former[entries[0].0 := entries[0].1], entries[1..], properties)
  {
    var (key, value) := entries[0];
    var more := former[key := value];
    if key !in former {
      assert more.Keys == former.Keys + {key};
      assert |more| == |former| + 1;
    }
    if Adds(former, entries, properties) {
      AddsRest(former, entries, properties);
    }
    if key !in former && Adds(more, entries[1..], properties) && 1 <= |key| <= 256 {
      AddsFirst(former, entries, properties);
    }
  }

  lemma AddsRest(former: map<string, string>, entries: seq<(string, string)>, properties: map<string, string>)
    requires entries != [] && Adds(former, entries, properties)
    ensures Adds(former[entries[0].0 := entries[0].1], entries[1..], properties)
  {
    var (key, value) := entries[0];
    var more, rest := former[key := value], entries[1..];
    assert more.Keys == former.Keys + {key};
    forall other | other in properties ensures other in more || exists i :: 0 <= i < |rest| && rest[i].0 == other {
      if other !in more {
        var i :| 0 <= i < |entries| && entries[i].0 == other;
        assert rest[i - 1].0 == other;
      }
    }
  }

  lemma AddsFirst(former: map<string, string>, entries: seq<(string, string)>, properties: map<string, string>)
    requires entries != [] && entries[0].0 !in former && 1 <= |entries[0].0| <= 256
    requires Adds(former[entries[0].0 := entries[0].1], entries[1..], properties)
    ensures Adds(former, entries, properties)
  {
    var (key, value) := entries[0];
    var more, rest := former[key := value], entries[1..];
    assert more.Keys == former.Keys + {key};
    assert forall i :: 1 <= i < |entries| ==> entries[i] == rest[i - 1];
    forall other | other in properties ensures other in former || exists i :: 0 <= i < |entries| && entries[i].0 == other {
      if other !in more {
        var i :| 0 <= i < |rest| && rest[i].0 == other;
        assert entries[i + 1].0 == other;
      } else if other !in former {
        assert entries[0].0 == other;
      }
    }
  }

  ghost predicate LinesSay(lines: seq<string>, entries: seq<(string, string)>) {
    |lines| == |entries| && forall i :: 0 <= i < |lines| ==> LineSays(lines[i], entries[i].0, entries[i].1)
  }

  lemma {:induction false} EntriesExactly(lines: seq<string>, former: map<string, string>,
                                          properties: map<string, string>)
    requires |former| <= 4096
    ensures ParseJavaLines(lines, former) == Some(properties) <==>
            exists entries :: LinesSay(lines, entries) && Adds(former, entries, properties)
    decreases |lines|
  {
    hide LineSays, ParseJavaLine, Adds;
    if lines == [] {
      AddsNothing(former, properties);
      assert LinesSay([], []);
    } else {
      var entry := ParseJavaLine(lines[0]);
      forall key, value ensures LineSays(lines[0], key, value) <==> entry == Some((key, value)) {
        LineExactly(lines[0], key, value);
      }
      if entry.Some? {
        EntryExactly(lines, entry.value, former, properties);
      } else {
        NoLineSays(lines);
      }
    }
  }

  lemma {:induction false} EntryExactly(lines: seq<string>, entry: (string, string), former: map<string, string>,
                                        properties: map<string, string>)
    requires lines != [] && ParseJavaLine(lines[0]) == Some(entry) && |former| <= 4096
    requires forall key, value :: LineSays(lines[0], key, value) <==> entry == (key, value)
    ensures ParseJavaLines(lines, former) == Some(properties) <==>
            exists entries :: LinesSay(lines, entries) && Adds(former, entries, properties)
    decreases |lines|, 0
  {
    hide LineSays, ParseJavaLine, Adds;
    var more := former[entry.0 := entry.1];
    if entry.0 !in former && |former| < 4096 {
      assert more.Keys == former.Keys + {entry.0};
      EntriesExactly(lines[1..], more, properties);
    }
    if entries: seq<(string, string)> :| LinesSay(lines, entries) && Adds(former, entries, properties) {
      AddsOne(former, entries, properties);
      assert LineSays(lines[0], entries[0].0, entries[0].1);
      assert LinesSay(lines[1..], entries[1..]);
    }
    if ParseJavaLines(lines, former) == Some(properties) {
      var rest :| LinesSay(lines[1..], rest) && Adds(more, rest, properties);
      SaysFirst(lines, entry, rest);
      AddsOne(former, [entry] + rest, properties);
      assert ([entry] + rest)[1..] == rest;
    }
  }

  lemma SaysFirst(lines: seq<string>, entry: (string, string), rest: seq<(string, string)>)
    requires lines != [] && LineSays(lines[0], entry.0, entry.1) && LinesSay(lines[1..], rest)
    ensures LinesSay(lines, [entry] + rest)
  {
    hide LineSays;
    var entries := [entry] + rest;
    forall i | 0 <= i < |lines| ensures LineSays(lines[i], entries[i].0, entries[i].1) {
      if i > 0 {
        assert lines[1..][i - 1] == lines[i] && rest[i - 1] == entries[i];
      }
    }
  }

  lemma NoLineSays(lines: seq<string>)
    requires lines != [] && forall key, value :: !LineSays(lines[0], key, value)
    ensures forall entries :: !LinesSay(lines, entries)
  {
    hide LineSays;
    forall entries: seq<(string, string)> | |lines| == |entries| ensures !LinesSay(lines, entries) {
      assert !LineSays(lines[0], entries[0].0, entries[0].1);
    }
  }

  /** A document of Java properties, from its text to what its lines say. */
  ghost predicate JavaSays(text: string, properties: map<string, string>) {
    exists naturals, lines, entries ::
      && Broken(text, naturals) && Says(naturals, lines) && LinesSay(lines, entries)
      && Adds(map[], entries, properties)
  }

  /** A text is read as exactly the properties it says. */
  lemma JavaSaysExactly(text: string, properties: map<string, string>)
    ensures JavaSays(text, properties) <==> JavaProperties(text) == Some(properties)
  {
    hide Broken, Says, LinesSay, Adds, NaturalLines, LogicalLines, ParseJavaLines;
    var naturals := NaturalLines(text);
    var logical := LogicalLines(naturals, None);
    if JavaSays(text, properties) {
      var others, lines, entries :|
        && Broken(text, others) && Says(others, lines) && LinesSay(lines, entries)
        && Adds(map[], entries, properties);
      BrokenExactly(text, others);
      LogicalExactly(others, None, lines);
      EntriesExactly(lines, map[], properties);
    }
    if JavaProperties(text) == Some(properties) {
      BrokenExactly(text, naturals);
      LogicalExactly(naturals, None, logical.lines);
      EntriesExactly(logical.lines, map[], properties);
    }
  }
}
