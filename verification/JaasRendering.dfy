/** Printing JAAS entries (`kafka.py`), and reading back what was printed. */
module JaasRendering {
  import opened Wrappers
  import opened PropertiesSyntax
  import opened JavaRendering
  import opened Jaas

  /** `_validate_credential_text`: what every renderer can represent. */
  predicate ValidText(value: string) {
    value != "" && forall i :: 0 <= i < |value| ==> value[i] !in {'\0', '\r', '\n'}
  }

  function QuoteValue(value: string): string {
    "\"" + Replace(Replace(value, '\\', "\\\\"), '"', "\\\"") + "\""
  }

  /** `_jaas_value`. */
  function JaasValue(value: string): Option<string> {
    if ValidText(value) then Some(QuoteValue(value)) else None
  }

  function RenderOptions(options: seq<Entry>): string {
    if options == [] then ""
    else " " + options[0].0 + "=" + QuoteValue(options[0].1) + RenderOptions(options[1..])
  }

  /** A login module entry with its quoted options, as `_add_java_authentication` and
      `_add_java_oauth` print it. */
  function RenderEntry(loginModule: string, options: seq<Entry>): string {
    loginModule + " required" + RenderOptions(options) + ";"
  }

  // Quoting inverts

  function QuoteChar(c: char): string {
    if c == '\\' then "\\\\" else if c == '"' then "\\\"" else [c]
  }

  function QuoteChars(value: string): string {
    if value == "" then "" else QuoteChar(value[0]) + QuoteChars(value[1..])
  }

  lemma {:induction false} QuotesEachChar(value: string)
    ensures Replace(Replace(value, '\\', "\\\\"), '"', "\\\"") == QuoteChars(value)
  {
    if value != "" {
      var head, tail := [value[0]], value[1..];
      assert value == head + tail;
      QuotesEachChar(tail);
      ReplaceConcat(head, tail, '\\', "\\\\");
      ReplaceConcat(Replace(head, '\\', "\\\\"), Replace(tail, '\\', "\\\\"), '"', "\\\"");
      ReplaceOne(value[0], '\\', "\\\\");
      ReplaceOne(value[0], '"', "\\\"");
      ReplaceTwo('\\', '\\', '"', "\\\"");
    }
  }

  /** Reading a quoted value back gives the value and leaves what follows it. */
  lemma {:induction false} ReadsQuoted(value: string, rest: string)
    requires Plain(value)
    ensures ReadQuoted(QuoteChars(value) + "\"" + rest, '"') == Some((value, rest))
  {
    var text := QuoteChars(value) + "\"" + rest;
    if value == "" {
      assert text[1..] == rest;
    } else {
      var tail := QuoteChars(value[1..]) + "\"" + rest;
      ReadsQuoted(value[1..], rest);
      assert text == QuoteChar(value[0]) + tail;
      assert [value[0]] + value[1..] == value;
      if |QuoteChar(value[0])| == 2 {
        assert text[1..][0] == value[0] && !IsOctal(value[0]);
        assert text[2..] == tail;
      } else {
        assert text[1..] == tail;
      }
    }
  }

  // Tokens of printed text

  predicate IsWord(word: string) {
    word != "" && StartsWord(word[0]) && forall i :: 0 <= i < |word| ==> ContinuesWord(word[i])
  }

  lemma {:induction false} RunOfWord(word: string, rest: string)
    requires forall i :: 0 <= i < |word| ==> ContinuesWord(word[i])
    requires rest == "" || !ContinuesWord(rest[0])
    ensures RunLength(word + rest, ContinuesWord) == |word|
  {
    if word == "" {
      assert word + rest == rest;
    } else {
      assert (word + rest)[1..] == word[1..] + rest;
      RunOfWord(word[1..], rest);
    }
  }

  lemma TokensOfWord(word: string, rest: string)
    requires IsWord(word) && (rest == "" || !ContinuesWord(rest[0]))
    ensures Tokens(word + rest) == Followed(Word(word), Tokens(rest))
  {
    hide ReadQuoted;
    var text := word + rest;
    assert text[1..] == word[1..] + rest;
    RunOfWord(word[1..], rest);
    assert text[..|word|] == word && text[|word|..] == rest;
    assert Lex(text) == Token(Word(word), |word|);
  }

  lemma TokensOfBlank(rest: string)
    ensures Tokens(" " + rest) == Tokens(rest)
  {
    assert (" " + rest)[1..] == rest;
    assert Lex(" " + rest) == Blank(1);
  }

  lemma TokensOfSymbol(c: char, rest: string)
    requires c == '=' || c == ';'
    ensures Tokens([c] + rest) == Followed(Symbol(c), Tokens(rest))
  {
    assert ([c] + rest)[1..] == rest;
    assert Lex([c] + rest) == Token(Symbol(c), 1);
  }

  lemma TokensOfQuoted(value: string, rest: string)
    requires Plain(value)
    ensures Tokens(QuoteValue(value) + rest) == Followed(Quoted(value), Tokens(rest))
  {
    QuotesEachChar(value);
    ReadsQuoted(value, rest);
    var text := QuoteValue(value) + rest;
    assert text[1..] == QuoteChars(value) + "\"" + rest;
    var used := |text| - |rest|;
    assert text[used..] == rest;
    assert Lex(text) == Token(Quoted(value), used);
  }

  function OptionTokens(options: seq<Entry>): seq<Token> {
    if options == [] then []
    else [Word(options[0].0), Symbol('='), Quoted(options[0].1)] + OptionTokens(options[1..])
  }

  predicate PrintableOptions(options: seq<Entry>) {
    forall i :: 0 <= i < |options| ==> IsWord(options[i].0) && ValidText(options[i].1)
  }

  lemma TokensOfOption(name: string, value: string, rest: string)
    requires IsWord(name) && Plain(value)
    ensures Tokens(" " + name + "=" + QuoteValue(value) + rest) ==
            Followed(Word(name), Followed(Symbol('='), Followed(Quoted(value), Tokens(rest))))
  {
    hide Lex, QuoteValue, IsWord, Tokens;
    var quoted := QuoteValue(value) + rest;
    assert " " + name + "=" + QuoteValue(value) + rest == " " + (name + (['='] + quoted));
    TokensOfBlank(name + (['='] + quoted));
    TokensOfWord(name, ['='] + quoted);
    TokensOfSymbol('=', quoted);
    TokensOfQuoted(value, rest);
  }

  lemma {:induction false} TokensOfOptions(options: seq<Entry>)
    requires PrintableOptions(options)
    ensures Tokens(RenderOptions(options) + ";") == Some(OptionTokens(options) + [Symbol(';')])
  {
    hide Lex, QuoteValue, ValidText, IsWord, Tokens;
    if options == [] {
      assert RenderOptions(options) + ";" == [';'] + "";
      TokensOfSymbol(';', "");
      assert Tokens("") == Some([]) by { NoTokens(); }
      var last := [Symbol(';')];
      assert OptionTokens(options) + last == last && last + [] == last;
    } else {
      var (name, value) := options[0];
      var rest := RenderOptions(options[1..]) + ";";
      TokensOfOptions(options[1..]);
      ValidIsPlain(value);
      assert RenderOptions(options) + ";" == " " + name + "=" + QuoteValue(value) + rest;
      TokensOfOption(name, value, rest);
      FollowedInTurn(Word(name), Symbol('='), Quoted(value), OptionTokens(options[1..]), Symbol(';'));
    }
  }

  lemma FollowedInTurn(first: Token, second: Token, third: Token, later: seq<Token>, last: Token)
    ensures Followed(first, Followed(second, Followed(third, Some(later + [last])))) ==
            Some([first, second, third] + later + [last])
  {
    assert [first] + ([second] + ([third] + (later + [last]))) == [first, second, third] + later + [last];
  }

  lemma NoTokens()
    ensures Tokens("") == Some([])
  {
  }

  lemma ValidIsPlain(value: string)
    requires ValidText(value)
    ensures Plain(value)
  {
  }

  // Entries of printed tokens

  lemma {:induction false} ReadsOptions(options: seq<Entry>, i: nat)
    requires DistinctKeys(options) && i <= |options|
    ensures ReadOptions(OptionTokens(options[i..]) + [Symbol(';')], MapOf(options[..i])) == Some((MapOf(options), []))
    decreases |options| - i
  {
    hide MapOf;
    var tokens := OptionTokens(options[i..]) + [Symbol(';')];
    if i == |options| {
      assert options[..i] == options && tokens == [Symbol(';')];
      assert tokens[1..] == [];
    } else {
      var rest := options[i..];
      assert rest[0] == options[i] && rest[1..] == options[i + 1..];
      assert tokens[0] == Word(options[i].0) && tokens[1] == Symbol('=') && tokens[2] == Quoted(options[i].1);
      assert tokens[3..] == OptionTokens(options[i + 1..]) + [Symbol(';')];
      MapOfFront(options, i);
      ReadsOptions(options, i + 1);
    }
  }

  /** JAAS quoting inverts: reading a printed entry gives one login module with exactly the printed
      options, whatever quotes and backslashes their values hold. */
  lemma JaasInverts(loginModule: string, options: seq<Entry>)
    requires IsWord(loginModule) && DistinctKeys(options) && PrintableOptions(options)
    ensures JaasEntries(RenderEntry(loginModule, options)) ==
            Some([JaasEntry(loginModule, "required", MapOf(options))])
  {
    hide Lex, IsWord, PrintableOptions, MapOf, RenderOptions;
    var rest := RenderOptions(options) + ";";
    TokensOfOptions(options);
    RequiredIsWord();
    StartsApart(options);
    assert RenderEntry(loginModule, options) == loginModule + (" " + ("required" + rest));
    TokensOfWord(loginModule, " " + ("required" + rest));
    TokensOfBlank("required" + rest);
    TokensOfWord("required", rest);
    var later := OptionTokens(options) + [Symbol(';')];
    var tokens := [Word(loginModule), Word("required")] + later;
    assert [Word(loginModule)] + ([Word("required")] + later) == tokens;
    assert tokens[2..] == later;
    ReadsOptions(options, 0);
    assert options[0..] == options && options[..0] == [];
    assert MapOf(options[..0]) == map[] by { NoEntries(); }
    assert ReadEntry(tokens) == Some((JaasEntry(loginModule, "required", MapOf(options)), []));
    assert ReadEntries([]) == Some([]);
    var entry := JaasEntry(loginModule, "required", MapOf(options));
    assert [entry] + [] == [entry];
  }

  lemma NoEntries()
    ensures MapOf([]) == map[]
  {
  }

  lemma RequiredIsWord()
    ensures IsWord("required")
  {
  }

  lemma StartsApart(options: seq<Entry>)
    ensures !ContinuesWord((RenderOptions(options) + ";")[0])
  {
  }
}
