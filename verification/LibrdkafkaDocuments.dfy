/** Whole documents of librdkafka properties, told from what is written. */
module LibrdkafkaDocuments {
  import opened Wrappers
  import opened PropertiesSyntax
  import opened JavaRendering
  import opened Librdkafka
  import JavaDocuments

  /** Lines with a newline between two neighbours. */
  ghost predicate Broken(text: string, lines: seq<string>)
    decreases |lines|
  {
    && lines != [] && (forall i :: 0 <= i < |lines[0]| ==> lines[0][i] != '\n')
    && if |lines| == 1 then text == lines[0]
       else lines[0] + "\n" <= text && Broken(text[|lines[0]| + 1..], lines[1..])
  }

  ghost predicate Blank(c: char) {
    c as int == 32 || c as int == 9
  }

  /** What a line has without the blanks before it and the carriage return behind it. */
  ghost predicate Holds(line: string, content: string) {
    && (content != "" ==> !Blank(content[0]))
    && exists blanks, end ::
         && line == blanks + content + end && (forall i :: 0 <= i < |blanks| ==> Blank(blanks[i]))
         && (end == "\r" || (end == "" && (line != "" ==> line[|line| - 1] != '\r')))
  }

  ghost predicate Silent(line: string) {
    exists content :: Holds(line, content) && (content == "" || content[0] == '#')
  }

  ghost predicate LetterOrDigit(c: char) {
    'A' <= c <= 'Z' || 'a' <= c <= 'z' || '0' <= c <= '9'
  }

  /** A dotted name, and a value without control characters other than tabs. */
  ghost predicate LineSays(line: string, key: string, value: string) {
    && Holds(line, key + "=" + value)
    && key != "" && (forall c :: c in key ==> LetterOrDigit(c) || c == '.' || c == '_' || c == '-')
    && forall c :: c in value ==> c as int == 9 || (c as int >= 32 && c as int != 127)
  }

  /** The entries of lines, without the blank ones and the comments between them. */
  ghost predicate LinesSay(lines: seq<string>, entries: seq<Entry>)
    decreases |lines|
  {
    if lines == [] then entries == []
    else if Silent(lines[0]) then LinesSay(lines[1..], entries)
    else entries != [] && LineSays(lines[0], entries[0].0, entries[0].1) && LinesSay(lines[1..], entries[1..])
  }

  ghost predicate LibrdkafkaSays(text: string, properties: map<string, string>) {
    exists lines, entries ::
      Broken(text, lines) && LinesSay(lines, entries) && JavaDocuments.Adds(map[], entries, properties)
  }

  // Reading

  lemma MarkedLine(text: string, line: string)
    requires forall i :: 0 <= i < |line| ==> line[i] != '\n'
    ensures line + "\n" <= text <==> FirstNewline(text) < |text| && line == text[..FirstNewline(text)]
  {
    hide FirstNewline;
    var at, marked := FirstNewline(text), line + "\n";
    assert marked[|line|] == '\n' && forall i :: 0 <= i < |line| ==> marked[i] == line[i];
    if marked <= text {
      assert text[|line|] == '\n' && forall i :: 0 <= i < |line| ==> text[i] == line[i];
      assert at == |line|;
      assert text[..at] == marked[..at] == line;
    }
    if at < |text| && line == text[..at] {
      assert text[..at + 1] == marked;
    }
  }

  lemma BrokenMeans(text: string, lines: seq<string>)
    ensures lines == [] ==> !Broken(text, lines)
    ensures |lines| == 1 ==> (Broken(text, lines) <==> FirstNewline(text) == |text| && text == lines[0])
    ensures |lines| > 1 ==>
              (Broken(text, lines) <==>
               var at := FirstNewline(text);
               at < |text| && lines[0] == text[..at] && Broken(text[at + 1..], lines[1..]))
  {
    if |lines| > 1 && forall i :: 0 <= i < |lines[0]| ==> lines[0][i] != '\n' {
      MarkedLine(text, lines[0]);
    }
  }

  /** A text falls into exactly the lines it is broken into. */
  lemma {:induction false} BrokenExactly(text: string, lines: seq<string>)
    ensures Broken(text, lines) <==> SplitLines(text) == lines
    decreases |text|
  {
    hide Broken;
    var at := FirstNewline(text);
    BrokenMeans(text, lines);
    if at < |text| && lines != [] {
      BrokenExactly(text[at + 1..], lines[1..]);
      assert lines == [lines[0]] + lines[1..];
    }
  }

  lemma {:induction false} SkipsBlanks(blanks: string, rest: string)
    requires (forall i :: 0 <= i < |blanks| ==> Blank(blanks[i])) && (rest != "" ==> !Blank(rest[0]))
    ensures SkipBlank(blanks + rest) == rest
  {
    if blanks == "" {
      assert blanks + rest == rest;
    } else {
      assert (blanks + rest)[1..] == blanks[1..] + rest;
      SkipsBlanks(blanks[1..], rest);
    }
  }

  lemma {:induction false} SkippedBlanks(text: string) returns (blanks: string)
    ensures text == blanks + SkipBlank(text) && (forall i :: 0 <= i < |blanks| ==> Blank(blanks[i]))
    ensures SkipBlank(text) != "" ==> !Blank(SkipBlank(text)[0])
  {
    if text != "" && (text[0] == ' ' || text[0] == '\t') {
      var more := SkippedBlanks(text[1..]);
      blanks := [text[0]] + more;
    } else {
      blanks := "";
    }
  }

  lemma HoldsExactly(line: string, content: string)
    ensures Holds(line, content) <==> SkipBlank(WithoutReturn(line)) == content
  {
    hide SkipBlank, Blank;
    var bare := WithoutReturn(line);
    var before := SkippedBlanks(bare);
    var end := line[|bare|..];
    assert line == before + SkipBlank(bare) + end;
    if Holds(line, content) {
      var blanks, mark :|
        && line == blanks + content + mark && (forall i :: 0 <= i < |blanks| ==> Blank(blanks[i]))
        && (mark == "\r" || (mark == "" && (line != "" ==> line[|line| - 1] != '\r')));
      assert bare == blanks + content;
      SkipsBlanks(blanks, content);
    }
  }

  lemma SilentExactly(line: string)
    ensures Silent(line) <==> ParseLine(line) == Skipped
  {
    hide Holds, SkipBlank, Clean, WithoutReturn;
    forall content ensures Holds(line, content) <==> SkipBlank(WithoutReturn(line)) == content {
      HoldsExactly(line, content);
    }
    assert Holds(line, SkipBlank(WithoutReturn(line)));
  }

  /** A line gives exactly the entry it says. */
  lemma LineExactly(line: string, key: string, value: string)
    ensures LineSays(line, key, value) <==> ParseLine(line) == Found((key, value))
  {
    hide Holds, SkipBlank, WithoutReturn;
    var content := SkipBlank(WithoutReturn(line));
    HoldsExactly(line, key + "=" + value);
    if LineSays(line, key, value) {
      KeyIsClean(key);
      ValueIsClean(value);
      FirstEqualsOf(key, value);
      assert content[..|key|] == key && content[|key| + 1..] == value && content[0] == key[0] && key[0] in key;
      CleanParts(key, value);
    }
    if ParseLine(line) == Found((key, value)) {
      var at := FirstEquals(content);
      assert content == content[..at] + "=" + content[at + 1..];
      CleanParts(key, value);
      ValueIsClean(value);
    }
  }

  lemma KeyIsClean(key: string)
    requires forall c :: c in key ==> LetterOrDigit(c) || c == '.' || c == '_' || c == '-'
    ensures Clean(key) && forall i :: 0 <= i < |key| ==> IsKeyChar(key[i]) && key[i] != '='
  {
    forall i | 0 <= i < |key| ensures IsKeyChar(key[i]) && key[i] != '=' && !IsControl(key[i]) {
      assert key[i] in key;
    }
  }

  lemma ValueIsClean(value: string)
    ensures Clean(value) <==> forall c :: c in value ==> c as int == 9 || (c as int >= 32 && c as int != 127)
  {
    if forall c :: c in value ==> c as int == 9 || (c as int >= 32 && c as int != 127) {
      assert forall i :: 0 <= i < |value| ==> value[i] in value;
    }
  }

  lemma CleanParts(key: string, value: string)
    ensures Clean(key + "=" + value) <==> Clean(key) && Clean(value)
  {
    var line := key + "=" + value;
    assert forall i :: 0 <= i < |key| ==> line[i] == key[i];
    assert forall i :: 0 <= i < |value| ==> line[|key| + 1 + i] == value[i];
    if Clean(key) && Clean(value) {
      forall i | 0 <= i < |line| ensures !IsControl(line[i]) {
        if i > |key| {
          assert line[i] == value[i - |key| - 1];
        }
      }
    }
  }

  lemma {:induction false} EntriesExactly(lines: seq<string>, former: map<string, string>,
                                          properties: map<string, string>)
    requires |former| <= 4096
    ensures ParseLines(lines, former) == Some(properties) <==>
            exists entries :: LinesSay(lines, entries) && JavaDocuments.Adds(former, entries, properties)
    decreases |lines|
  {
    hide LineSays, ParseLine, JavaDocuments.Adds, Silent;
    if lines == [] {
      JavaDocuments.AddsNothing(former, properties);
      assert LinesSay([], []);
    } else {
      var read := ParseLine(lines[0]);
      SilentExactly(lines[0]);
      forall key, value ensures LineSays(lines[0], key, value) <==> read == Found((key, value)) {
        LineExactly(lines[0], key, value);
      }
      match read {
        case Skipped => EntriesExactly(lines[1..], former, properties);
        case Malformed =>
        case Found(entry) => EntryExactly(lines, entry, former, properties);
      }
    }
  }

  lemma {:induction false} EntryExactly(lines: seq<string>, entry: Entry, former: map<string, string>,
                                        properties: map<string, string>)
    requires lines != [] && ParseLine(lines[0]) == Found(entry) && |former| <= 4096
    requires !Silent(lines[0])
    requires forall key, value :: LineSays(lines[0], key, value) <==> entry == (key, value)
    ensures ParseLines(lines, former) == Some(properties) <==>
            exists entries :: LinesSay(lines, entries) && JavaDocuments.Adds(former, entries, properties)
    decreases |lines|, 0
  {
    hide LineSays, ParseLine, JavaDocuments.Adds, Silent;
    var more := former[entry.0 := entry.1];
    if entry.0 !in former && |former| < 4096 {
      assert more.Keys == former.Keys + {entry.0};
      EntriesExactly(lines[1..], more, properties);
    }
    if entries :| LinesSay(lines, entries) && JavaDocuments.Adds(former, entries, properties) {
      JavaDocuments.AddsOne(former, entries, properties);
      assert entries[0] == entry;
      assert LinesSay(lines[1..], entries[1..]);
    }
    if ParseLines(lines, former) == Some(properties) {
      var rest :| LinesSay(lines[1..], rest) && JavaDocuments.Adds(more, rest, properties);
      var entries := [entry] + rest;
      assert entries[1..] == rest;
      JavaDocuments.AddsOne(former, entries, properties);
      assert LinesSay(lines, entries);
    }
  }

  /** A text is read as exactly the properties it says. */
  lemma LibrdkafkaSaysExactly(text: string, properties: map<string, string>)
    ensures LibrdkafkaSays(text, properties) <==> LibrdkafkaProperties(text) == Some(properties)
  {
    hide Broken, LinesSay, JavaDocuments.Adds, SplitLines, ParseLines;
    if LibrdkafkaSays(text, properties) {
      var lines, entries :|
        Broken(text, lines) && LinesSay(lines, entries) && JavaDocuments.Adds(map[], entries, properties);
      BrokenExactly(text, lines);
      EntriesExactly(lines, map[], properties);
    }
    if LibrdkafkaProperties(text) == Some(properties) {
      BrokenExactly(text, SplitLines(text));
      EntriesExactly(SplitLines(text), map[], properties);
    }
  }
}
