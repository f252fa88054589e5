/** Whole JAAS configurations: tokens, comments and login module entries, told from what is written. */
module JaasDocuments {
  import opened Wrappers
  import opened PropertiesSyntax
  import opened JavaRendering
  import opened Jaas
  import opened JaasGrammar

  // Tokens

  ghost predicate IsWordStart(c: char) {
    'A' <= c <= 'Z' || 'a' <= c <= 'z' || c == '_' || c == '$' || c as int >= 160
  }

  ghost predicate IsWordPart(c: char) {
    IsWordStart(c) || 48 <= c as int <= 57 || c == '.' || c == '-'
  }

  ghost predicate IsNumberPart(c: char) {
    48 <= c as int <= 57 || c == '.'
  }

  /** A comment is closed somewhere in the text. */
  ghost predicate Closed(text: string) {
    exists i :: 0 <= i < |text| - 1 && text[i] == '*' && text[i + 1] == '/'
  }

  /** A comment up to its first close, or to the end of a text that never closes it. */
  ghost predicate BlockComment(piece: string, rest: string) {
    && |piece| >= 2 && piece[0] == '/' && piece[1] == '*'
    && (|| (&& |piece| >= 4 && piece[|piece| - 2] == '*' && piece[|piece| - 1] == '/'
            && !Closed(piece[2..|piece| - 1]))
        || (rest == "" && !Closed(piece[2..])))
  }

  /** A slash that opens no block comments the rest of its line. */
  ghost predicate LineComment(piece: string, rest: string) {
    && piece != "" && piece[0] == '/' && (|piece| > 1 ==> piece[1] != '*')
    && (forall i :: 0 <= i < |piece| ==> piece[i] != '\r' && piece[i] != '\n')
    && (rest == "" || rest[0] == '\r' || rest[0] == '\n')
  }

  ghost predicate WordIs(piece: string, rest: string, word: string) {
    && piece == word && word != "" && IsWordStart(word[0]) && (forall i :: 1 <= i < |word| ==> IsWordPart(word[i]))
    && (rest != "" ==> !IsWordPart(rest[0]))
  }

  ghost predicate IsNumberStart(c: char) {
    48 <= c as int <= 57 || c == '.' || c == '-'
  }

  ghost predicate NumberIs(piece: string, rest: string) {
    && piece != "" && IsNumberStart(piece[0]) && (forall i :: 1 <= i < |piece| ==> IsNumberPart(piece[i]))
    && (rest != "" ==> !IsNumberPart(rest[0]))
  }

  /** A piece of text and the token it stands for, if any. */
  ghost predicate Piece(piece: string, rest: string, token: Option<Token>) {
    match token
    case None => (|piece| == 1 && piece[0] as int <= 32) || BlockComment(piece, rest) || LineComment(piece, rest)
    case Some(Word(word)) => WordIs(piece, rest, word)
    case Some(Quoted(value)) =>
      && piece != "" && (piece[0] == '"' || piece[0] == '\'')
      && QuotedIs(piece[1..] + rest, piece[0], value, rest)
    case Some(Number) => NumberIs(piece, rest)
    case Some(Symbol(c)) =>
      && piece == [c] && c as int > 32 && c !in {'/', '"', '\''} && !IsWordStart(c) && !IsNumberStart(c)
  }

  /** A text of pieces, and the tokens they stand for. */
  ghost predicate Spells(text: string, tokens: seq<Token>)
    decreases |text|
  {
    if text == "" then tokens == []
    else
      exists used: nat, token ::
        && 0 < used <= |text| && Piece(text[..used], text[used..], token)
        && (token.Some? ==> tokens != [] && tokens[0] == token.value)
        && Spells(text[used..], if token.Some? then tokens[1..] else tokens)
  }

  // Reading tokens

  lemma PartsExactly(c: char)
    ensures IsWordStart(c) <==> StartsWord(c)
    ensures IsWordPart(c) <==> ContinuesWord(c)
    ensures IsNumberPart(c) <==> ContinuesNumber(c)
    ensures IsNumberStart(c) <==> IsDigit(c) || c == '.' || c == '-'
  {
  }

  lemma RunExactly(text: string, part: char -> bool, length: nat)
    requires length <= |text|
    ensures RunLength(text, part) == length <==>
            (forall i :: 0 <= i < length ==> part(text[i])) && (length < |text| ==> !part(text[length]))
  {
    hide RunLength;
    var run := RunLength(text, part);
  }

  lemma {:induction false} CloseExactly(text: string, length: nat)
    requires length <= |text|
    ensures CloseLength(text) == length <==>
            || (length >= 2 && text[length - 2] == '*' && text[length - 1] == '/' && !Closed(text[..length - 1]))
            || (length == |text| && !Closed(text))
  {
    if |text| >= 2 && !(text[0] == '*' && text[1] == '/') {
      ClosedFurther(text);
      var rest := text[1..];
      if length > 0 {
        CloseExactly(rest, length - 1);
        if length > 2 {
          assert rest[..length - 2] == text[..length - 1][1..];
          ClosedFurther(text[..length - 1]);
        }
      }
    } else if |text| >= 2 {
      assert Closed(text);
      if length > 2 {
        assert text[..length - 1][0] == '*' && text[..length - 1][1] == '/';
      }
    }
  }

  lemma ClosedFurther(text: string)
    requires |text| >= 2 && !(text[0] == '*' && text[1] == '/')
    ensures Closed(text) <==> Closed(text[1..])
  {
    var rest := text[1..];
    if i :| 0 <= i < |text| - 1 && text[i] == '*' && text[i + 1] == '/' {
      assert rest[i - 1] == '*' && rest[i] == '/';
    }
    if i :| 0 <= i < |rest| - 1 && rest[i] == '*' && rest[i + 1] == '/' {
      assert text[i + 1] == '*' && text[i + 2] == '/';
    }
  }

  lemma BlockExactly(text: string, used: nat)
    requires 2 <= used <= |text| && text[0] == '/' && text[1] == '*'
    ensures BlockComment(text[..used], text[used..]) <==> CommentLength(text) == used
  {
    hide Closed, CloseLength;
    var inside := text[2..];
    CloseExactly(inside, used - 2);
    var piece := text[..used];
    assert used == |text| ==> piece == text;
    assert piece[2..] == inside[..used - 2];
    if used > 3 {
      assert piece[2..used - 1] == inside[..used - 3];
      assert piece[used - 2] == inside[used - 4] && piece[used - 1] == inside[used - 3];
    }
  }

  lemma LineExactly(text: string, used: nat)
    requires 0 < used <= |text| && text[0] == '/' && (|text| > 1 ==> text[1] != '*')
    ensures LineComment(text[..used], text[used..]) <==> CommentLength(text) == used
  {
    hide FirstBreak;
    var piece, rest := text[..used], text[used..];
    assert rest != "" ==> rest[0] == text[used];
    assert forall i :: 0 <= i < used ==> piece[i] == text[i];
  }

  /** A comment is skipped exactly as far as it reaches. */
  lemma CommentExactly(text: string, used: nat)
    requires 0 < used <= |text| && text[0] == '/'
    ensures BlockComment(text[..used], text[used..]) || LineComment(text[..used], text[used..]) <==>
            CommentLength(text) == used
  {
    hide Closed, CloseLength, FirstBreak;
    if |text| > 1 && text[1] == '*' {
      if used >= 2 {
        BlockExactly(text, used);
      }
    } else {
      LineExactly(text, used);
    }
  }

  lemma WordExactly(text: string, used: nat, word: string)
    requires 0 < used <= |text| && StartsWord(text[0])
    ensures WordIs(text[..used], text[used..], word) <==>
            1 + RunLength(text[1..], ContinuesWord) == used && word == text[..used]
  {
    hide RunLength, IsWordStart, IsWordPart, StartsWord, ContinuesWord;
    var rest := text[1..];
    RunExactly(rest, ContinuesWord, used - 1);
    forall c ensures IsWordStart(c) <==> StartsWord(c) ensures IsWordPart(c) <==> ContinuesWord(c) {
      PartsExactly(c);
    }
    assert used < |text| ==> text[used..][0] == text[used] == rest[used - 1];
    assert forall i :: 1 <= i < used ==> text[..used][i] == rest[i - 1];
    assert forall i :: 0 <= i < used - 1 ==> rest[i] == text[..used][i + 1];
  }

  lemma NumberExactly(text: string, used: nat)
    requires 0 < used <= |text| && IsNumberStart(text[0])
    ensures NumberIs(text[..used], text[used..]) <==> 1 + RunLength(text[1..], ContinuesNumber) == used
  {
    hide RunLength, IsNumberStart, IsNumberPart, ContinuesNumber;
    var rest := text[1..];
    RunExactly(rest, ContinuesNumber, used - 1);
    forall c ensures IsNumberPart(c) <==> ContinuesNumber(c) {
      PartsExactly(c);
    }
    assert used < |text| ==> text[used..][0] == text[used] == rest[used - 1];
    assert forall i :: 1 <= i < used ==> text[..used][i] == rest[i - 1];
    assert forall i :: 0 <= i < used - 1 ==> rest[i] == text[..used][i + 1];
  }

  lemma {:induction false} QuotedEnds(text: string, quote: char, value: string, after: string)
    requires QuotedIs(text, quote, value, after)
    ensures |after| < |text| && text[|text| - |after|..] == after
    decreases |value|
  {
    hide Glyph;
    if value != "" {
      var glyph, rest :|
        text == glyph + rest && Glyph(value[0], glyph, rest, quote) && QuotedIs(rest, quote, value[1..], after);
      QuotedEnds(rest, quote, value[1..], after);
      assert text[|text| - |after|..] == rest[|rest| - |after|..];
    }
  }

  lemma QuoteExactly(text: string, used: nat, value: string)
    requires 0 < used <= |text| && (text[0] == '"' || text[0] == '\'')
    ensures Piece(text[..used], text[used..], Some(Quoted(value))) <==>
            Lex(text) == Lexeme.Token(Quoted(value), used)
  {
    hide QuotedIs, ReadQuoted;
    var read := ReadQuoted(text[1..], text[0]);
    assert text[..used][1..] + text[used..] == text[1..];
    QuotedExactly(text[1..], text[0], value, text[used..]);
    if read.Some? {
      QuotedExactly(text[1..], text[0], read.value.0, read.value.1);
      QuotedEnds(text[1..], text[0], read.value.0, read.value.1);
      var end := |text| - |read.value.1|;
      assert text[end..] == read.value.1;
      assert used == end ==> text[used..] == read.value.1;
      assert text[used..] == read.value.1 ==> used == end;
    }
  }

  function LexemeOf(token: Option<Token>, used: nat): Lexeme {
    match token
    case None => Blank(used)
    case Some(found) => Lexeme.Token(found, used)
  }

  lemma FirstOfPiece(piece: string, rest: string, token: Option<Token>)
    requires Piece(piece, rest, token)
    ensures piece != ""
    ensures match token
            case None => piece[0] as int <= 32 || piece[0] == '/'
            case Some(Word(_)) => IsWordStart(piece[0])
            case Some(Quoted(_)) => piece[0] == '"' || piece[0] == '\''
            case Some(Number) => IsNumberStart(piece[0])
            case Some(Symbol(c)) =>
              && piece[0] == c && c as int > 32 && c !in {'/', '"', '\''} && !IsWordStart(c) && !IsNumberStart(c)
  {
    hide QuotedIs, Closed, IsWordStart, IsNumberStart, IsWordPart, IsNumberPart;
  }

  /** A text begins with exactly the piece that is read off it. */
  lemma PieceExactly(text: string, used: nat, token: Option<Token>)
    requires 0 < used <= |text|
    ensures Piece(text[..used], text[used..], token) <==> Lex(text) == LexemeOf(token, used)
  {
    hide QuotedIs, ReadQuoted, BlockComment, LineComment, WordIs, NumberIs, CommentLength, RunLength, IsWordStart,
      IsNumberStart, StartsWord;
    var piece, rest, c := text[..used], text[used..], text[0];
    assert piece[0] == c;
    PartsExactly(c);
    if Piece(piece, rest, token) {
      FirstOfPiece(piece, rest, token);
    }
    KindsApart(c);
    if c as int <= 32 {
      NoComment(piece, rest);
    } else if c == '/' {
      CommentExactly(text, used);
    } else if c == '"' || c == '\'' {
      if token.Some? && token.value.Quoted? {
        QuoteExactly(text, used, token.value.text);
      }
      NoComment(piece, rest);
    } else if StartsWord(c) {
      if token.Some? && token.value.Word? {
        WordExactly(text, used, token.value.text);
      }
      NoComment(piece, rest);
    } else if IsNumberStart(c) {
      NumberExactly(text, used);
      NoComment(piece, rest);
    } else {
      NoComment(piece, rest);
    }
  }

  lemma NoComment(piece: string, rest: string)
    requires piece != "" && piece[0] != '/'
    ensures !BlockComment(piece, rest) && !LineComment(piece, rest)
  {
  }

  lemma KindsApart(c: char)
    ensures IsWordStart(c) ==> !IsNumberStart(c) && c as int > 32 && c !in {'/', '"', '\''}
    ensures IsNumberStart(c) ==> c as int > 32 && c !in {'/', '"', '\''}
  {
  }

  /** A text whose first piece is known spells its token, if it has one, and what the rest spells. */
  lemma SpellsOn(text: string, tokens: seq<Token>, used: nat, token: Option<Token>)
    requires 0 < used <= |text| && Lex(text) == LexemeOf(token, used)
    ensures Spells(text, tokens) <==>
            && (token.Some? ==> tokens != [] && tokens[0] == token.value)
            && Spells(text[used..], if token.Some? then tokens[1..] else tokens)
  {
    hide Piece, Lex;
    PieceExactly(text, used, token);
    if Spells(text, tokens) {
      var length: nat, other :|
        && 0 < length <= |text| && Piece(text[..length], text[length..], other)
        && (other.Some? ==> tokens != [] && tokens[0] == other.value)
        && Spells(text[length..], if other.Some? then tokens[1..] else tokens);
      PieceExactly(text, length, other);
      assert length == used && other == token;
    }
  }

  lemma NothingSpelled(text: string)
    requires text != "" && Lex(text).Unterminated?
    ensures forall tokens :: !Spells(text, tokens)
  {
    hide Piece, Lex;
    forall used: nat, token | 0 < used <= |text| ensures !Piece(text[..used], text[used..], token) {
      PieceExactly(text, used, token);
    }
  }

  /** The tokens of a text are exactly the ones it spells. */
  lemma {:induction false} SpellsExactly(text: string, tokens: seq<Token>)
    ensures Spells(text, tokens) <==> Tokens(text) == Some(tokens)
    decreases |text|
  {
    hide Lex, Spells;
    if text == "" {
      assert Spells(text, tokens) <==> tokens == [] by { EmptySpells(tokens); }
    } else {
      match Lex(text) {
        case Unterminated => NothingSpelled(text);
        case Blank(used) =>
          SpellsOn(text, tokens, used, None);
          SpellsExactly(text[used..], tokens);
        case Token(token, used) =>
          SpellsOn(text, tokens, used, Some(token));
          if tokens != [] {
            SpellsExactly(text[used..], tokens[1..]);
            assert tokens == [tokens[0]] + tokens[1..];
          }
      }
    }
  }

  lemma EmptySpells(tokens: seq<Token>)
    ensures Spells("", tokens) <==> tokens == []
  {
  }

  // Entries

  /** The tokens of options: a name, an equals sign and a value each. */
  ghost function OptionTokens(options: seq<(string, Token)>): seq<Token> {
    if options == [] then []
    else [Word(options[0].0), Symbol('='), options[0].1] + OptionTokens(options[1..])
  }

  /** The options found are the former ones and the listed ones, whose values are words or quoted and none of which is
      listed twice. */
  ghost predicate Lists(former: map<string, string>, options: seq<(string, Token)>, found: map<string, string>) {
    && (forall i :: 0 <= i < |options| ==> (options[i].1.Word? || options[i].1.Quoted?) && options[i].0 !in former)
    && (forall i, j :: 0 <= i < j < |options| ==> options[i].0 != options[j].0)
    && (forall key :: key in found ==> key in former || exists i :: 0 <= i < |options| && options[i].0 == key)
    && (forall key :: key in former ==> key in found && found[key] == former[key])
    && (forall i :: 0 <= i < |options| ==> options[i].0 in found && found[options[i].0] == options[i].1.text)
  }

  /** A login module, its control flag, its options and a semicolon. */
  ghost predicate EntryIs(tokens: seq<Token>, entry: JaasEntry, after: seq<Token>) {
    exists options ::
      && tokens == [Word(entry.loginModule), Word(entry.controlFlag)] + (OptionTokens(options) + [Symbol(';')] + after)
      && Lists(map[], options, entry.options)
  }

  ghost predicate EntriesAre(tokens: seq<Token>, entries: seq<JaasEntry>)
    decreases |entries|
  {
    if entries == [] then tokens == []
    else exists after :: EntryIs(tokens, entries[0], after) && EntriesAre(after, entries[1..])
  }

  /** A JAAS configuration, from its text to its entries. */
  ghost predicate JaasSays(text: string, entries: seq<JaasEntry>) {
    exists tokens :: Spells(text, tokens) && EntriesAre(tokens, entries)
  }

  // Reading entries

  lemma ListsRest(former: map<string, string>, options: seq<(string, Token)>, found: map<string, string>)
    requires options != [] && Lists(former, options, found)
    ensures Lists(former[options[0].0 := options[0].1.text], options[1..], found)
  {
    var more, rest := former[options[0].0 := options[0].1.text], options[1..];
    forall key | key in found ensures key in more || exists i :: 0 <= i < |rest| && rest[i].0 == key {
      if key !in more {
        var i :| 0 <= i < |options| && options[i].0 == key;
        assert rest[i - 1].0 == key;
      }
    }
  }

  lemma ListsFirst(former: map<string, string>, option: (string, Token), rest: seq<(string, Token)>,
                   found: map<string, string>)
    requires (option.1.Word? || option.1.Quoted?) && option.0 !in former
    requires Lists(former[option.0 := option.1.text], rest, found)
    ensures Lists(former, [option] + rest, found)
  {
    var more, options := former[option.0 := option.1.text], [option] + rest;
    assert option.0 in more;
    forall key | key in found ensures key in former || exists i :: 0 <= i < |options| && options[i].0 == key {
      if key !in more {
        var i :| 0 <= i < |rest| && rest[i].0 == key;
        assert options[i + 1].0 == key;
      } else if key !in former {
        assert options[0].0 == key;
      }
    }
  }

  lemma OptionFirst(option: (string, Token), rest: seq<(string, Token)>, tail: seq<Token>)
    ensures OptionTokens([option] + rest) + tail ==
            [Word(option.0), Symbol('='), option.1] + (OptionTokens(rest) + tail)
  {
    assert ([option] + rest)[1..] == rest;
  }

  /** Options that are read were listed. */
  lemma {:induction false} OptionsListed(tokens: seq<Token>, former: map<string, string>)
    returns (options: seq<(string, Token)>)
    requires ReadOptions(tokens, former).Some?
    ensures var (found, after) := ReadOptions(tokens, former).value;
            tokens == OptionTokens(options) + [Symbol(';')] + after && Lists(former, options, found)
    decreases |tokens|
  {
    hide Lists;
    if tokens[0] == Symbol(';') {
      options := [];
      assert Lists(former, options, former) by { ListsNothing(former); }
    } else {
      var option := (tokens[0].text, tokens[2]);
      var (found, after) := ReadOptions(tokens, former).value;
      var rest := OptionsListed(tokens[3..], former[option.0 := option.1.text]);
      options := [option] + rest;
      ListsFirst(former, option, rest, found);
      var tail := [Symbol(';')] + after;
      OptionFirst(option, rest, tail);
      assert OptionTokens(rest) + [Symbol(';')] + after == OptionTokens(rest) + tail;
      assert OptionTokens(options) + [Symbol(';')] + after == OptionTokens(options) + tail;
      assert tokens == [Word(option.0), Symbol('='), option.1] + tokens[3..];
    }
  }

  lemma ListsNothing(former: map<string, string>)
    ensures forall found :: Lists(former, [], found) <==> found == former
  {
  }

  /** Options that are listed are read. */
  lemma {:induction false} OptionsRead(options: seq<(string, Token)>, former: map<string, string>,
                                       found: map<string, string>, after: seq<Token>)
    requires Lists(former, options, found)
    ensures ReadOptions(OptionTokens(options) + [Symbol(';')] + after, former) == Some((found, after))
    decreases |options|
  {
    hide Lists;
    var tokens := OptionTokens(options) + [Symbol(';')] + after;
    if options == [] {
      ListsNothing(former);
      assert tokens == [Symbol(';')] + after && tokens[1..] == after;
    } else {
      var option, rest := options[0], options[1..];
      ListsRest(former, options, found);
      ListsNew(former, options, found);
      OptionsRead(rest, former[option.0 := option.1.text], found, after);
      var tail := [Symbol(';')] + after;
      assert options == [option] + rest;
      OptionFirst(option, rest, tail);
      assert tokens == OptionTokens(options) + tail;
      assert OptionTokens(rest) + tail == OptionTokens(rest) + [Symbol(';')] + after;
      assert tokens[3..] == OptionTokens(rest) + [Symbol(';')] + after;
      assert tokens[0] == Word(option.0) && tokens[1] == Symbol('=') && tokens[2] == option.1;
    }
  }

  lemma ListsNew(former: map<string, string>, options: seq<(string, Token)>, found: map<string, string>)
    requires options != [] && Lists(former, options, found)
    ensures options[0].0 !in former && (options[0].1.Word? || options[0].1.Quoted?)
  {
  }

  /** Tokens begin with exactly the entry that is read off them. */
  lemma EntryExactly(tokens: seq<Token>, entry: JaasEntry, after: seq<Token>)
    ensures EntryIs(tokens, entry, after) <==> ReadEntry(tokens) == Some((entry, after))
  {
    hide Lists, ReadOptions, OptionTokens;
    if EntryIs(tokens, entry, after) {
      var options :|
        && tokens == [Word(entry.loginModule), Word(entry.controlFlag)] + (OptionTokens(options) + [Symbol(';')] + after)
        && Lists(map[], options, entry.options);
      OptionsRead(options, map[], entry.options, after);
      assert tokens[2..] == OptionTokens(options) + [Symbol(';')] + after;
    }
    if ReadEntry(tokens) == Some((entry, after)) {
      var options := OptionsListed(tokens[2..], map[]);
      assert tokens == [tokens[0], tokens[1]] + tokens[2..];
    }
  }

  lemma {:induction false} EntriesExactly(tokens: seq<Token>, entries: seq<JaasEntry>)
    ensures EntriesAre(tokens, entries) <==> ReadEntries(tokens) == Some(entries)
    decreases |tokens|
  {
    hide EntryIs, ReadEntry;
    if entries != [] {
      forall after ensures EntryIs(tokens, entries[0], after) <==> ReadEntry(tokens) == Some((entries[0], after)) {
        EntryExactly(tokens, entries[0], after);
      }
      var read := ReadEntry(tokens);
      if tokens != [] && read.Some? {
        EntriesExactly(read.value.1, entries[1..]);
        assert entries == [entries[0]] + entries[1..];
      } else if tokens == [] {
        assert read.None? by { NothingRead(); }
      }
    }
  }

  lemma NothingRead()
    ensures ReadEntry([]).None?
  {
  }

  /** A text is read as exactly the entries it says. */
  lemma JaasSaysExactly(text: string, entries: seq<JaasEntry>)
    ensures JaasSays(text, entries) <==> JaasEntries(text) == Some(entries)
  {
    hide Spells, EntriesAre, Tokens, ReadEntries;
    if tokens :| Spells(text, tokens) && EntriesAre(tokens, entries) {
      SpellsExactly(text, tokens);
      EntriesExactly(tokens, entries);
    }
    if JaasEntries(text) == Some(entries) {
      var tokens := Tokens(text).value;
      SpellsExactly(text, tokens);
      EntriesExactly(tokens, entries);
    }
  }
}
