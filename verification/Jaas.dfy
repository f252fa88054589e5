/** Reading JAAS configuration (`properties_syntax.py`), and printing it (`kafka.py`). */
module Jaas {
  import opened Wrappers
  import opened PropertiesSyntax
  import opened JavaRendering

  datatype Token = Word(text: string) | Quoted(text: string) | Number | Symbol(character: char)

  datatype JaasEntry = JaasEntry(loginModule: string, controlFlag: string, options: map<string, string>)

  // Tokens

  predicate IsDigit(c: char) {
    '0' <= c <= '9'
  }

  predicate StartsWord(c: char) {
    'a' <= c <= 'z' || 'A' <= c <= 'Z' || c == '_' || c == '$' || c as int >= 160
  }

  predicate ContinuesWord(c: char) {
    StartsWord(c) || IsDigit(c) || c == '.' || c == '-'
  }

  predicate ContinuesNumber(c: char) {
    IsDigit(c) || c == '.'
  }

  /** How many of the first characters satisfy `part`. */
  function RunLength(text: string, part: char -> bool): (length: nat)
    ensures length <= |text|
    ensures forall i :: 0 <= i < length ==> part(text[i])
    ensures length < |text| ==> !part(text[length])
  {
    if text == "" || !part(text[0]) then 0 else 1 + RunLength(text[1..], part)
  }

  /** How much text there is up to and including the first `*` `/`: all of it when there is none. */
  function CloseLength(text: string): (length: nat)
    ensures length <= |text|
  {
    if |text| < 2 then |text| else if text[0] == '*' && text[1] == '/' then 2 else 1 + CloseLength(text[1..])
  }

  /** `_skip_comment`, of a text that starts with `/`: how much of it the comment takes. */
  function CommentLength(text: string): (length: nat)
    requires text != "" && text[0] == '/'
    ensures 0 < length <= |text|
  {
    if |text| > 1 && text[1] == '*' then 2 + CloseLength(text[2..]) else FirstBreak(text)
  }

  predicate IsOctal(c: char) {
    '0' <= c <= '7'
  }

  function JaasEscaped(c: char): char {
    match c
    case 'a' => '\U{0007}'
    case 'b' => '\U{0008}'
    case 'f' => FORM_FEED
    case 'n' => '\n'
    case 'r' => '\r'
    case 't' => '\t'
    case 'v' => '\U{000B}'
    case _ => c
  }

  function OctalLength(text: string, limit: nat): (length: nat)
    ensures length <= |text| && length <= limit
    ensures limit > 0 && text != "" && IsOctal(text[0]) ==> length > 0
    ensures forall i :: 0 <= i < length ==> IsOctal(text[i])
  {
    if limit == 0 || text == "" || !IsOctal(text[0]) then 0 else 1 + OctalLength(text[1..], limit - 1)
  }

  function OctalDigit(c: char): (value: nat)
    requires IsOctal(c)
    ensures value < 8
  {
    c as int - '0' as int
  }

  function OctalValue(digits: string): nat
    requires 1 <= |digits| <= 3 && forall i :: 0 <= i < |digits| ==> IsOctal(digits[i])
  {
    if |digits| == 1 then OctalDigit(digits[0])
    else if |digits| == 2 then OctalDigit(digits[0]) * 8 + OctalDigit(digits[1])
    else (OctalDigit(digits[0]) * 8 + OctalDigit(digits[1])) * 8 + OctalDigit(digits[2])
  }

  /** `_jaas_escape`: the character an escape stands for, and how much text it takes after its
      backslash. */
  function DecodeEscape(text: string): (decoded: (nat, nat))
    requires text != ""
    ensures 0 < decoded.1 <= |text|
  {
    if !IsOctal(text[0]) then (JaasEscaped(text[0]) as int, 1)
    else
      var length := OctalLength(text, if text[0] <= '3' then 3 else 2);
      (OctalValue(text[..length]), length)
  }

  lemma OctalIsCharacter(text: string)
    requires text != "" && IsOctal(text[0])
    ensures DecodeEscape(text).0 < 256
  {
  }

  function EscapedCharacter(text: string): (c: char)
    requires text != ""
  {
    if IsOctal(text[0]) then
      OctalIsCharacter(text);
      DecodeEscape(text).0 as char
    else JaasEscaped(text[0])
  }

  /** One character of a quoted value and how much text it takes. */
  function NextQuoted(text: string): (next: (char, nat))
    requires text != ""
    ensures 0 < next.1 <= |text|
  {
    if text[0] == '\\' && |text| > 1 then (EscapedCharacter(text[1..]), 1 + DecodeEscape(text[1..]).1)
    else (text[0], 1)
  }

  /** The value of a quoted token and the text after it, from just behind its opening quote. */
  function ReadQuoted(text: string, quote: char): (read: Option<(string, string)>)
    ensures read.Some? ==> |read.value.1| < |text|
  {
    if text == "" then None
    else if text[0] == quote then Some(("", text[1..]))
    else if IsBreak(text[0]) then None
    else
      var (c, used) := NextQuoted(text);
      var rest := ReadQuoted(text[used..], quote);
      if rest.None? then None else Some(([c] + rest.value.0, rest.value.1))
  }

  function Followed(token: Token, rest: Option<seq<Token>>): Option<seq<Token>> {
    if rest.None? then None else Some([token] + rest.value)
  }

  /** What a text starts with, and how much of the text that takes. */
  datatype Lexeme = Blank(used: nat) | Token(token: Token, used: nat) | Unterminated

  function Lex(text: string): (lexeme: Lexeme)
    requires text != ""
    ensures !lexeme.Unterminated? ==> 0 < lexeme.used <= |text|
  {
    var c := text[0];
    if c as int <= 32 then Blank(1)
    else if c == '/' then Blank(CommentLength(text))
    else if c == '"' || c == '\'' then
      var read := ReadQuoted(text[1..], c);
      if read.None? then Unterminated else Token(Quoted(read.value.0), |text| - |read.value.1|)
    else if StartsWord(c) then
      var length := 1 + RunLength(text[1..], ContinuesWord);
      Token(Word(text[..length]), length)
    else if IsDigit(c) || c == '.' || c == '-' then Token(Number, 1 + RunLength(text[1..], ContinuesNumber))
    else Token(Symbol(c), 1)
  }

  /** The tokens of a text; `None` when a quoted value does not end. */
  function Tokens(text: string): Option<seq<Token>>
    decreases |text|
  {
    if text == "" then Some([])
    else
      match Lex(text)
      case Blank(used) => Tokens(text[used..])
      case Unterminated => None
      case Token(token, used) => Followed(token, Tokens(text[used..]))
  }

  // Entries

  /** The options up to the semicolon, and the tokens after it. */
  function ReadOptions(tokens: seq<Token>, options: map<string, string>):
    (read: Option<(map<string, string>, seq<Token>)>)
    ensures read.Some? ==> |read.value.1| < |tokens|
  {
    if tokens == [] then None
    else if tokens[0] == Symbol(';') then Some((options, tokens[1..]))
    else if |tokens| < 3 || !tokens[0].Word? || tokens[1] != Symbol('=') || !(tokens[2].Word? || tokens[2].Quoted?) then
      None
    else if tokens[0].text in options then None
    else ReadOptions(tokens[3..], options[tokens[0].text := tokens[2].text])
  }

  /** `_jaas_entry`. */
  function ReadEntry(tokens: seq<Token>): (read: Option<(JaasEntry, seq<Token>)>)
    ensures read.Some? ==> |read.value.1| < |tokens|
  {
    if |tokens| < 2 || !tokens[0].Word? || !tokens[1].Word? then None
    else
      var options := ReadOptions(tokens[2..], map[]);
      if options.None? then None
      else Some((JaasEntry(tokens[0].text, tokens[1].text, options.value.0), options.value.1))
  }

  function ReadEntries(tokens: seq<Token>): Option<seq<JaasEntry>>
    decreases |tokens|
  {
    if tokens == [] then Some([])
    else
      var entry := ReadEntry(tokens);
      if entry.None? then None
      else
        var rest := ReadEntries(entry.value.1);
        if rest.None? then None else Some([entry.value.0] + rest.value)
  }

  /** What a text means as JAAS configuration. */
  function JaasEntries(text: string): Option<seq<JaasEntry>> {
    var tokens := Tokens(text);
    if tokens.None? then None else ReadEntries(tokens.value)
  }

  // The index-driven readers

  function Ahead<T>(done: seq<T>, rest: Option<seq<T>>): Option<seq<T>> {
    if rest.None? then None else Some(done + rest.value)
  }

  lemma AheadNothing<T>(rest: Option<seq<T>>)
    ensures Ahead([], rest) == rest
  {
    if rest.Some? {
      assert [] + rest.value == rest.value;
    }
  }

  lemma AheadOne(done: seq<Token>, token: Token, rest: Option<seq<Token>>)
    ensures Ahead(done + [token], rest) == Ahead(done, Followed(token, rest))
  {
    if rest.Some? {
      assert done + [token] + rest.value == done + ([token] + rest.value);
    }
  }

  lemma AheadEntry(done: seq<JaasEntry>, entry: JaasEntry, rest: Option<seq<JaasEntry>>)
    ensures Ahead(done + [entry], rest) == Ahead(done, Ahead([entry], rest))
  {
    if rest.Some? {
      assert done + [entry] + rest.value == done + ([entry] + rest.value);
    }
  }

  function Onward(done: string, rest: Option<(string, string)>): Option<(string, string)> {
    if rest.None? then None else Some((done + rest.value.0, rest.value.1))
  }

  lemma QuotedStep(done: string, text: string, index: nat, quote: char)
    requires index < |text| && text[index] != quote && !IsBreak(text[index])
    ensures var (c, used) := NextQuoted(text[index..]);
            Onward(done, ReadQuoted(text[index..], quote)) ==
            Onward(done + [c], ReadQuoted(text[index + used..], quote))
  {
    hide EscapedCharacter, DecodeEscape;
    var here := text[index..];
    var (c, used) := NextQuoted(here);
    assert here[used..] == text[index + used..];
    var rest := ReadQuoted(text[index + used..], quote);
    assert ReadQuoted(here, quote) == Onward([c], rest);
    if rest.Some? {
      assert done + ([c] + rest.value.0) == done + [c] + rest.value.0;
    }
  }

  /** `_quoted`, from its opening quote. */
  method QuotedValue(text: string, start: nat) returns (read: Option<(string, nat)>)
    requires start < |text|
    ensures match ReadQuoted(text[start + 1..], text[start])
            case None => read.None?
            case Some((value, rest)) =>
              read.Some? && read.value.0 == value && start < read.value.1 <= |text| && text[read.value.1..] == rest
  {
    hide EscapedCharacter, DecodeEscape, NextQuoted;
    var quote := text[start];
    var characters := "";
    var index := start + 1;
    ghost var whole := ReadQuoted(text[index..], quote);
    assert whole == Onward(characters, whole) by { if whole.Some? { assert "" + whole.value.0 == whole.value.0; } }
    while index < |text| && text[index] != quote
      invariant start < index <= |text|
      invariant whole == Onward(characters, ReadQuoted(text[index..], quote))
    {
      if IsBreak(text[index]) {
        break;
      }
      QuotedStep(characters, text, index, quote);
      var (c, used) := NextQuoted(text[index..]);
      characters := characters + [c];
      index := index + used;
    }
    if index >= |text| || text[index] != quote {
      return None;
    }
    assert text[index..][1..] == text[index + 1..] && characters + "" == characters;
    return Some((characters, index + 1));
  }

  /** The inner loops of `_jaas_tokens`, over the characters of a word or number. */
  method RunEnd(text: string, start: nat, part: char -> bool) returns (end: nat)
    requires start <= |text|
    ensures end == start + RunLength(text[start..], part)
  {
    end := start;
    while end < |text| && part(text[end])
      invariant start <= end <= |text|
      invariant RunLength(text[start..], part) == end - start + RunLength(text[end..], part)
    {
      assert text[end..][1..] == text[end + 1..];
      end := end + 1;
    }
  }

  /** One turn of `_jaas_tokens`. */
  method NextLexeme(text: string, index: nat) returns (lexeme: Lexeme)
    requires index < |text|
    ensures lexeme == Lex(text[index..])
  {
    hide ReadQuoted, RunLength, CommentLength, ContinuesWord, ContinuesNumber;
    var character := text[index];
    ghost var here := text[index..];
    assert here[1..] == text[index + 1..];
    if character as int <= 32 {
      return Blank(1);
    }
    if character == '/' {
      return Blank(CommentLength(text[index..]));
    }
    if character == '"' || character == '\'' {
      var read := QuotedValue(text, index);
      return if read.None? then Unterminated else Token(Quoted(read.value.0), read.value.1 - index);
    }
    if StartsWord(character) {
      var end := RunEnd(text, index + 1, ContinuesWord);
      assert here[..end - index] == text[index..end];
      return Token(Word(text[index..end]), end - index);
    }
    if IsDigit(character) || character == '.' || character == '-' {
      var end := RunEnd(text, index + 1, ContinuesNumber);
      return Token(Number, end - index);
    }
    return Token(Symbol(character), 1);
  }

  /** `_jaas_tokens`. */
  method JaasTokens(text: string) returns (tokens: Option<seq<Token>>)
    ensures tokens == Tokens(text)
  {
    hide Lex;
    var found: seq<Token> := [];
    var index := 0;
    assert text[0..] == text;
    AheadNothing(Tokens(text));
    while index < |text|
      invariant 0 <= index <= |text|
      invariant Tokens(text) == Ahead(found, Tokens(text[index..]))
    {
      var lexeme := NextLexeme(text, index);
      ghost var here := text[index..];
      match lexeme {
        case Unterminated =>
          return None;
        case Blank(used) =>
          assert here[used..] == text[index + used..];
          index := index + used;
        case Token(token, used) =>
          assert here[used..] == text[index + used..];
          AheadOne(found, token, Tokens(text[index + used..]));
          found := found + [token];
          index := index + used;
      }
    }
    assert found + [] == found && text[index..] == "";
    return Some(found);
  }

  /** `_jaas_entry` and the loop around it. */
  method ParseJaasEntries(text: string) returns (entries: Option<seq<JaasEntry>>)
    ensures entries == JaasEntries(text)
  {
    var lexed := JaasTokens(text);
    if lexed.None? {
      return None;
    }
    var tokens := lexed.value;
    var found: seq<JaasEntry> := [];
    var index := 0;
    assert tokens[0..] == tokens;
    AheadNothing(ReadEntries(tokens));
    while index < |tokens|
      invariant 0 <= index <= |tokens|
      invariant ReadEntries(tokens) == Ahead(found, ReadEntries(tokens[index..]))
    {
      var read := ParseJaasEntry(tokens, index);
      if read.None? {
        return None;
      }
      AheadEntry(found, read.value.0, ReadEntries(tokens[read.value.1..]));
      found := found + [read.value.0];
      index := read.value.1;
    }
    assert found + [] == found && tokens[index..] == [];
    return Some(found);
  }

  method ParseJaasEntry(tokens: seq<Token>, start: nat) returns (read: Option<(JaasEntry, nat)>)
    requires start <= |tokens|
    ensures match ReadEntry(tokens[start..])
            case None => read.None?
            case Some((entry, rest)) =>
              read.Some? && read.value.0 == entry && start < read.value.1 <= |tokens| && tokens[read.value.1..] == rest
  {
    if |tokens| - start < 2 || !tokens[start].Word? || !tokens[start + 1].Word? {
      return None;
    }
    var index := start + 2;
    var options: map<string, string> := map[];
    assert tokens[start..][2..] == tokens[index..];
    while index < |tokens| && tokens[index] != Symbol(';')
      invariant start + 2 <= index <= |tokens|
      invariant ReadOptions(tokens[start + 2..], map[]) == ReadOptions(tokens[index..], options)
    {
      if |tokens| - index < 3 || !tokens[index].Word? || tokens[index + 1] != Symbol('=') {
        return None;
      }
      if !(tokens[index + 2].Word? || tokens[index + 2].Quoted?) {
        return None;
      }
      if tokens[index].text in options {
        return None;
      }
      assert tokens[index..][3..] == tokens[index + 3..];
      options := options[tokens[index].text := tokens[index + 2].text];
      index := index + 3;
    }
    if index >= |tokens| {
      return None;
    }
    assert tokens[index..][1..] == tokens[index + 1..];
    return Some((JaasEntry(tokens[start].text, tokens[start + 1].text, options), index + 1));
  }
}
