/** Reading Java and librdkafka properties (`properties_syntax.py`).

    Every reader is an index loop proved equal to a recursive reading of the same text; the recursive
    one is what the round trips are about. A rejected document is `None`: the messages, which name
    lines and keys, are not modelled. */
module PropertiesSyntax {
  import opened Wrappers

  const MAX_PROPERTIES := 4096
  const MAX_KEY_LENGTH := 256
  const FORM_FEED: char := '\U{000C}'

  predicate IsJavaSpace(c: char) {
    c == ' ' || c == '\t' || c == FORM_FEED
  }

  predicate IsBreak(c: char) {
    c == '\r' || c == '\n'
  }

  predicate IsAscii(text: string) {
    forall i :: 0 <= i < |text| ==> text[i] as int < 128
  }

  // Natural and logical lines

  function FirstBreak(text: string): (at: nat)
    ensures at <= |text|
    ensures forall i :: 0 <= i < at ==> !IsBreak(text[i])
    ensures at < |text| ==> IsBreak(text[at])
  {
    if text == "" || IsBreak(text[0]) then 0 else 1 + FirstBreak(text[1..])
  }

  /** `re.split(r"\r\n|\r|\n", text)`. */
  function NaturalLines(text: string): (lines: seq<string>)
    ensures |lines| >= 1
  {
    var at := FirstBreak(text);
    if at == |text| then [text]
    else
      var next := if text[at] == '\r' && at + 1 < |text| && text[at + 1] == '\n' then at + 2 else at + 1;
      [text[..at]] + NaturalLines(text[next..])
  }

  function SkipSpace(line: string): string {
    if line != "" && IsJavaSpace(line[0]) then SkipSpace(line[1..]) else line
  }

  function TrailingBackslashes(line: string): (count: nat)
    ensures count <= |line|
  {
    if line == "" || line[|line| - 1] != '\\' then 0 else 1 + TrailingBackslashes(line[..|line| - 1])
  }

  /** `_continues`. */
  predicate Continues(line: string) {
    TrailingBackslashes(line) % 2 == 1
  }

  datatype Lines = Lines(lines: seq<string>, dangling: bool)

  function Before(line: string, rest: Lines): Lines {
    Lines([line] + rest.lines, rest.dangling)
  }

  /** The logical lines of the natural ones, when `pending` is the start of a continued line. */
  function LogicalLines(naturals: seq<string>, pending: Option<string>): Lines {
    if naturals == [] then Lines([], pending.Some?)
    else
      var line := SkipSpace(naturals[0]);
      if pending.None? && (line == "" || line[0] in {'#', '!'}) then LogicalLines(naturals[1..], None)
      else
        var joined := if pending.None? then line else pending.value + line;
        if Continues(joined) then LogicalLines(naturals[1..], Some(joined[..|joined| - 1]))
        else Before(joined, LogicalLines(naturals[1..], None))
  }

  function Onto(done: seq<string>, rest: Lines): Lines {
    Lines(done + rest.lines, rest.dangling)
  }

  /** `_java_logical_lines`. */
  method JavaLogicalLines(text: string) returns (logical: Lines)
    ensures logical == LogicalLines(NaturalLines(text), None)
  {
    var naturals := NaturalLines(text);
    var pending: Option<string> := None;
    var lines: seq<string> := [];
    for i := 0 to |naturals|
      invariant LogicalLines(naturals, None) == Onto(lines, LogicalLines(naturals[i..], pending))
    {
      var line := SkipSpace(naturals[i]);
      assert naturals[i..][0] == naturals[i] && naturals[i..][1..] == naturals[i + 1..];
      if pending.None? {
        if line == "" || line[0] in {'#', '!'} {
          continue;
        }
      } else {
        line := pending.value + line;
      }
      if Continues(line) {
        pending := Some(line[..|line| - 1]);
        continue;
      }
      pending := None;
      assert lines + ([line] + LogicalLines(naturals[i + 1..], None).lines)
          == (lines + [line]) + LogicalLines(naturals[i + 1..], None).lines;
      lines := lines + [line];
    }
    return Lines(lines, pending.Some?);
  }

  // Keys and values

  predicate EndsKey(c: char) {
    c == '=' || c == ':' || IsJavaSpace(c)
  }

  /** Where the key ends: the first unescaped `=`, `:` or whitespace at or after `index`. */
  function SplitPoint(line: string, index: nat, escaped: bool): (at: nat)
    requires index <= |line|
    ensures index <= at <= |line|
    decreases |line| - index
  {
    if index == |line| then index
    else if escaped then SplitPoint(line, index + 1, false)
    else if line[index] == '\\' then SplitPoint(line, index + 1, true)
    else if EndsKey(line[index]) then index
    else SplitPoint(line, index + 1, false)
  }

  function AfterKey(rest: string): string {
    var stripped := SkipSpace(rest);
    if stripped != "" && (stripped[0] == '=' || stripped[0] == ':') then SkipSpace(stripped[1..]) else stripped
  }

  /** `_split_java_line`. */
  method SplitJavaLine(line: string) returns (key: string, rest: string)
    ensures key == line[..SplitPoint(line, 0, false)]
    ensures rest == AfterKey(line[SplitPoint(line, 0, false)..])
  {
    var index := 0;
    var escaped := false;
    while index < |line|
      invariant 0 <= index <= |line|
      invariant SplitPoint(line, 0, false) == SplitPoint(line, index, escaped)
    {
      var character := line[index];
      if escaped {
        escaped := false;
      } else if character == '\\' {
        escaped := true;
      } else if EndsKey(character) {
        break;
      }
      index := index + 1;
    }
    key := line[..index];
    rest := SkipSpace(line[index..]);
    if rest != "" && (rest[0] == '=' || rest[0] == ':') {
      rest := SkipSpace(rest[1..]);
    }
  }

  /** A character that stands for another one after a backslash. */
  function Escaped(c: char): char {
    match c
    case 't' => '\t'
    case 'n' => '\n'
    case 'r' => '\r'
    case 'f' => FORM_FEED
    case _ => c
  }

  function HexDigit(c: char): Option<nat> {
    if '0' <= c <= '9' then Some(c as int - '0' as int)
    else if 'a' <= c <= 'f' then Some(c as int - 'a' as int + 10)
    else if 'A' <= c <= 'F' then Some(c as int - 'A' as int + 10)
    else None
  }

  /** The number four hexadecimal digits denote. */
  function HexValue(digits: string): (value: Option<nat>)
    ensures value.Some? ==> value.value < 0x10000
  {
    if |digits| != 4 then None
    else
      var a, b, c, d := HexDigit(digits[0]), HexDigit(digits[1]), HexDigit(digits[2]), HexDigit(digits[3]);
      if a.None? || b.None? || c.None? || d.None? then None
      else Some(((a.value * 16 + b.value) * 16 + c.value) * 16 + d.value)
  }

  function Cons(unit: nat, rest: Option<seq<nat>>): Option<seq<nat>> {
    if rest.None? then None else Some([unit] + rest.value)
  }

  function UpTo(text: string, end: nat): string {
    if end <= |text| then text[..end] else text
  }

  /** The code units an escaped text stands for. */
  function Units(raw: string): Option<seq<nat>> {
    if raw == "" then Some([])
    else if raw[0] != '\\' then Cons(raw[0] as int, Units(raw[1..]))
    else if |raw| == 1 then Some([])
    else if raw[1] != 'u' then Cons(Escaped(raw[1]) as int, Units(raw[2..]))
    else
      var digits := UpTo(raw[2..], 4);
      if HexValue(digits).None? then None else Cons(HexValue(digits).value, Units(raw[6..]))
  }

  predicate IsHigh(unit: nat) {
    0xD800 <= unit < 0xDC00
  }

  predicate IsLow(unit: nat) {
    0xDC00 <= unit < 0xE000
  }

  predicate IsScalar(unit: nat) {
    unit < 0xD800 || 0xE000 <= unit < 0x11_0000
  }

  /** `_joined_surrogates`: pairs become one character, and a lone surrogate is an error. */
  function JoinSurrogates(units: seq<nat>): Option<string> {
    if units == [] then Some("")
    else if |units| > 1 && IsHigh(units[0]) && IsLow(units[1]) then
      var rest := JoinSurrogates(units[2..]);
      if rest.None? then None
      else
        var point := 0x10000 + (units[0] - 0xD800) * 0x400 + (units[1] - 0xDC00);
        Some([point as char] + rest.value)
    else if !IsScalar(units[0]) then None
    else
      var rest := JoinSurrogates(units[1..]);
      if rest.None? then None else Some([units[0] as char] + rest.value)
  }

  function Unescape(raw: string): Option<string> {
    var units := Units(raw);
    if units.None? then None else JoinSurrogates(units.value)
  }

  function Prepend(done: seq<nat>, rest: Option<seq<nat>>): Option<seq<nat>> {
    if rest.None? then None else Some(done + rest.value)
  }

  lemma PrependCons(done: seq<nat>, unit: nat, rest: Option<seq<nat>>)
    ensures Prepend([], rest) == rest
    ensures Prepend(done + [unit], rest) == Prepend(done, Cons(unit, rest))
  {
    if rest.Some? {
      assert [] + rest.value == rest.value;
      assert done + [unit] + rest.value == done + ([unit] + rest.value);
    }
  }

  /** `_java_unescape`. */
  method JavaUnescape(raw: string) returns (text: Option<string>)
    ensures text == Unescape(raw)
  {
    var characters: seq<nat> := [];
    var index := 0;
    assert raw[0..] == raw;
    PrependCons([], 0, Units(raw));
    while index < |raw|
      invariant 0 <= index <= |raw|
      invariant Units(raw) == Prepend(characters, Units(raw[index..]))
    {
      ghost var rest := raw[index..];
      var character := raw[index];
      index := index + 1;
      if character != '\\' {
        assert rest[1..] == raw[index..];
        PrependCons(characters, character as int, Units(raw[index..]));
        characters := characters + [character as int];
        continue;
      }
      if index == |raw| {
        continue;
      }
      var escape := raw[index];
      index := index + 1;
      assert rest[2..] == raw[index..];
      if escape != 'u' {
        PrependCons(characters, Escaped(escape) as int, Units(raw[index..]));
        characters := characters + [Escaped(escape) as int];
        continue;
      }
      var digits := UpTo(raw[index..], 4);
      var value := HexValue(digits);
      if value.None? {
        return None;
      }
      index := index + 4;
      assert rest[6..] == raw[index..] && rest[2..] == raw[index - 4..];
      PrependCons(characters, value.value, Units(raw[index..]));
      characters := characters + [value.value];
    }
    assert raw[index..] == "" && characters + [] == characters;
    return JoinSurrogates(characters);
  }

  // Documents

  /** `_store`. */
  function Stored(properties: map<string, string>, key: string, value: string): Option<map<string, string>> {
    if key == "" || |key| > MAX_KEY_LENGTH || key in properties || |properties| >= MAX_PROPERTIES then None
    else Some(properties[key := value])
  }

  function ParseJavaLine(line: string): Option<(string, string)> {
    if !IsAscii(line) then None
    else
      var at := SplitPoint(line, 0, false);
      var key, value := Unescape(line[..at]), Unescape(AfterKey(line[at..]));
      if key.None? || value.None? then None else Some((key.value, value.value))
  }

  function ParseJavaLines(lines: seq<string>, properties: map<string, string>): Option<map<string, string>> {
    if lines == [] then Some(properties)
    else
      var entry := ParseJavaLine(lines[0]);
      if entry.None? then None
      else
        var stored := Stored(properties, entry.value.0, entry.value.1);
        if stored.None? then None else ParseJavaLines(lines[1..], stored.value)
  }

  /** What a text means as Java properties. */
  function JavaProperties(text: string): Option<map<string, string>> {
    var logical := LogicalLines(NaturalLines(text), None);
    if logical.dangling then None else ParseJavaLines(logical.lines, map[])
  }

  /** `parse_java_properties`. */
  method ParseJavaProperties(text: string) returns (properties: Option<map<string, string>>)
    ensures properties == JavaProperties(text)
  {
    var logical := JavaLogicalLines(text);
    var found: map<string, string> := map[];
    for i := 0 to |logical.lines|
      invariant ParseJavaLines(logical.lines, map[]) == ParseJavaLines(logical.lines[i..], found)
    {
      var line := logical.lines[i];
      assert logical.lines[i..][1..] == logical.lines[i + 1..];
      if !IsAscii(line) {
        return None;
      }
      var rawKey, rawValue := SplitJavaLine(line);
      var key := JavaUnescape(rawKey);
      var value := JavaUnescape(rawValue);
      if key.None? || value.None? {
        return None;
      }
      var stored := Stored(found, key.value, value.value);
      if stored.None? {
        return None;
      }
      found := stored.value;
    }
    return if logical.dangling then None else Some(found);
  }
}
