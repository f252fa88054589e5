/** How JAAS configuration is written: comments, words, quoted values with their escapes, and entries. The reader
    inverts it. */
module JaasGrammar {
  import opened Wrappers
  import opened PropertiesSyntax
  import opened JavaRendering
  import opened Jaas

  // Quoted values

  /** An octal digit of a number below eight. */
  ghost predicate Octal(value: nat, c: char) {
    value < 8 && c as int == 48 + value
  }

  ghost predicate OctalNext(rest: string) {
    rest != "" && 48 <= rest[0] as int <= 55
  }

  /** One to three octal digits, as many as there are, for a number below 256. */
  ghost predicate OctalEscape(value: nat, glyph: string, rest: string) {
    && glyph != "" && glyph[0] == '\\'
    && match |glyph|
       case 2 => Octal(value, glyph[1]) && !OctalNext(rest)
       case 3 =>
         Octal(value / 8, glyph[1]) && Octal(value % 8, glyph[2]) && (value / 8 > 3 || !OctalNext(rest))
       case 4 =>
         value < 256 && Octal(value / 64, glyph[1]) && Octal(value / 8 % 8, glyph[2]) && Octal(value % 8, glyph[3])
       case _ => false
  }

  ghost predicate ControlLetter(letter: char, c: char) {
    || (letter == 'a' && c as int == 7) || (letter == 'b' && c as int == 8) || (letter == 't' && c as int == 9)
    || (letter == 'n' && c as int == 10) || (letter == 'v' && c as int == 11) || (letter == 'f' && c as int == 12)
    || (letter == 'r' && c as int == 13)
  }

  /** The ways to write a character of a quoted value: itself, by its letter, by its code, or behind a backslash. */
  ghost predicate Glyph(c: char, glyph: string, rest: string, quote: char) {
    || (glyph == [c] && c != '\\' && c != quote && c != '\r' && c != '\n')
    || (|glyph| == 2 && glyph[0] == '\\' && ControlLetter(glyph[1], c))
    || (glyph == ['\\', c] && c !in {'a', 'b', 't', 'n', 'v', 'f', 'r'} && !(48 <= c as int <= 55))
    || OctalEscape(c as int, glyph, rest)
  }

  /** A quoted value up to and with its closing quote, and what follows it. */
  ghost predicate QuotedIs(text: string, quote: char, value: string, after: string)
    decreases |value|
  {
    if value == "" then text == [quote] + after
    else
      exists glyph, rest ::
        text == glyph + rest && Glyph(value[0], glyph, rest, quote) && QuotedIs(rest, quote, value[1..], after)
  }

  // Reading quoted values

  lemma OctalRun(text: string, limit: nat)
    ensures OctalNext(text) <==> text != "" && IsOctal(text[0])
    ensures limit > 0 && !OctalNext(text) ==> OctalLength(text, limit) == 0
    ensures limit > 0 && OctalNext(text) ==> OctalLength(text, limit) == 1 + OctalLength(text[1..], limit - 1)
    ensures OctalLength(text, 0) == 0
  {
  }

  /** How far an octal escape reaches. */
  lemma OctalReach(text: string)
    requires OctalNext(text)
    ensures var length := OctalLength(text, if text[0] <= '3' then 3 else 2);
            && 1 <= length <= 3 && length <= |text| && (length == 3 ==> text[0] <= '3')
            && (forall i :: 0 <= i < length ==> IsOctal(text[i]))
            && (length == 1 ==> !OctalNext(text[1..]))
            && (length == 2 ==> text[0] > '3' || !OctalNext(text[2..]))
            && (length >= 2 ==> OctalNext(text[1..]))
            && (length == 3 ==> OctalNext(text[2..]))
  {
    var limit := if text[0] <= '3' then 3 else 2;
    OctalRun(text, limit);
    OctalRun(text[1..], limit - 1);
    assert |text| > 1 ==> text[1..][1..] == text[2..];
    if OctalNext(text[1..]) {
      OctalRun(text[2..], limit - 2);
      if limit == 3 && OctalNext(text[2..]) {
        OctalRun(text[3..], 0);
      }
    }
  }

  lemma OctalPlaces(value: nat, a: nat, b: nat, c: nat)
    requires a < 8 && b < 8 && c < 8
    ensures value == (a * 8 + b) * 8 + c <==> a == value / 64 && b == value / 8 % 8 && c == value % 8
  {
    if value == (a * 8 + b) * 8 + c {
      assert value / 8 == a * 8 + b;
    }
  }

  lemma ThreePlaces(value: nat, a: char, b: char, c: char)
    requires IsOctal(a) && IsOctal(b) && IsOctal(c)
    ensures (value < 256 && Octal(value / 64, a) && Octal(value / 8 % 8, b) && Octal(value % 8, c)) <==>
            a <= '3' && value == (OctalDigit(a) * 8 + OctalDigit(b)) * 8 + OctalDigit(c)
  {
    OctalPlaces(value, OctalDigit(a), OctalDigit(b), OctalDigit(c));
  }

  /** An octal escape is read as its character, and only it is read there. */
  lemma OctalReads(text: string, length: nat)
    requires OctalNext(text) && length <= |text|
    ensures forall value: nat ::
              OctalEscape(value, "\\" + text[..length], text[length..]) <==>
              (EscapedCharacter(text) as int, DecodeEscape(text).1) == (value, length)
  {
    hide OctalLength;
    OctalReach(text);
    var reach := OctalLength(text, if text[0] <= '3' then 3 else 2);
    var glyph := "\\" + text[..length];
    assert forall i :: 0 <= i < length ==> glyph[1 + i] == text[i];
    OctalIsCharacter(text);
    forall value: nat ensures OctalEscape(value, glyph, text[length..]) <==>
      (EscapedCharacter(text) as int, DecodeEscape(text).1) == (value, length)
    {
      match length {
        case 1 => assert OctalNext(text[1..]) <==> reach > 1;
        case 2 => TwoOctal(text, value, reach);
        case 3 => ThreeOctal(text, value, reach);
        case _ =>
      }
    }
  }

  lemma TwoOctal(text: string, value: nat, reach: nat)
    requires OctalNext(text) && 2 <= |text|
    requires reach == OctalLength(text, if text[0] <= '3' then 3 else 2)
    ensures OctalEscape(value, "\\" + text[..2], text[2..]) <==>
            reach == 2 && OctalValue(text[..2]) == value
  {
  }

  lemma ThreeOctal(text: string, value: nat, reach: nat)
    requires OctalNext(text) && 3 <= |text|
    requires reach == OctalLength(text, if text[0] <= '3' then 3 else 2)
    ensures OctalEscape(value, "\\" + text[..3], text[3..]) <==>
            reach == 3 && OctalValue(text[..3]) == value
  {
    hide OctalLength, Octal;
    OctalReach(text);
    var glyph := "\\" + text[..3];
    assert glyph[1] == text[0] && glyph[2] == text[1] && glyph[3] == text[2];
    assert text[1..][0] == text[1] && text[2..][0] == text[2];
    if IsOctal(text[1]) && IsOctal(text[2]) {
      ThreePlaces(value, text[0], text[1], text[2]);
      assert reach == 3 <==> text[0] <= '3';
    } else {
      OnlyOctal(value, text[1], text[2]);
    }
  }

  lemma OnlyOctal(value: nat, b: char, c: char)
    ensures Octal(value / 8 % 8, b) ==> IsOctal(b)
    ensures Octal(value % 8, c) ==> IsOctal(c)
  {
  }

  lemma PlainGlyph(text: string, quote: char, length: nat, c: char)
    requires 0 < length <= |text| && text[0] != '\\' && text[0] != quote && !IsBreak(text[0])
    ensures Glyph(c, text[..length], text[length..], quote) <==> length == 1 && c == text[0]
  {
    hide OctalEscape, ControlLetter;
    var glyph := text[..length];
    assert glyph[0] == text[0];
    EscapeStarts(c, glyph, text[length..]);
  }

  lemma OctalGlyph(after: string, quote: char, length: nat, c: char)
    requires length <= |after| && OctalNext(after)
    ensures Glyph(c, "\\" + after[..length], after[length..], quote) <==>
            (EscapedCharacter(after), DecodeEscape(after).1) == (c, length)
  {
    hide OctalEscape, DecodeEscape, EscapedCharacter, ControlLetter;
    var glyph, rest := "\\" + after[..length], after[length..];
    assert length > 0 ==> glyph[1] == after[0];
    OctalRun(after, 3);
    OctalReads(after, length);
    SimpleReads(after, c);
    assert OctalEscape(c as int, glyph, rest) <==> (EscapedCharacter(after) as int, DecodeEscape(after).1) == (c as int, length);
    assert glyph == ['\\', c] ==> glyph[1] == c && IsOctal(c);
    assert glyph == [c] ==> glyph[0] == c;
    assert |glyph| == 2 ==> !ControlLetter(glyph[1], c);
  }

  lemma LetterGlyph(after: string, quote: char, length: nat, c: char)
    requires length <= |after| && after != "" && !IsOctal(after[0])
    ensures Glyph(c, "\\" + after[..length], after[length..], quote) <==>
            (EscapedCharacter(after), DecodeEscape(after).1) == (c, length)
  {
    hide OctalEscape, DecodeEscape, EscapedCharacter, ControlLetter;
    var glyph, rest := "\\" + after[..length], after[length..];
    assert length > 0 ==> glyph[1] == after[0];
    SimpleReads(after, c);
    EscapeStarts(c, glyph, rest);
  }

  /** A glyph is read as its character, and nothing else is. */
  lemma GlyphExactly(text: string, quote: char, length: nat, c: char)
    requires 0 < length <= |text| && (quote == '"' || quote == '\'')
    requires text[0] != quote && !IsBreak(text[0]) && |text| > 1
    ensures Glyph(c, text[..length], text[length..], quote) <==> NextQuoted(text) == (c, length)
  {
    hide Glyph, DecodeEscape, EscapedCharacter;
    if text[0] != '\\' {
      PlainGlyph(text, quote, length, c);
    } else {
      var after := text[1..];
      assert text[..length] == "\\" + after[..length - 1] && text[length..] == after[length - 1..];
      OctalRun(after, 3);
      if IsOctal(after[0]) {
        OctalGlyph(after, quote, length - 1, c);
      } else {
        LetterGlyph(after, quote, length - 1, c);
      }
    }
  }

  lemma EscapeStarts(c: char, glyph: string, rest: string)
    ensures OctalEscape(c as int, glyph, rest) ==> |glyph| > 1 && glyph[0] == '\\' && IsOctal(glyph[1])
  {
  }

  lemma SimpleReads(text: string, c: char)
    requires text != ""
    ensures IsOctal(text[0]) ==> !ControlLetter(text[0], c)
    ensures !IsOctal(text[0]) ==>
              && DecodeEscape(text).1 == 1
              && (EscapedCharacter(text) == c <==>
                  ControlLetter(text[0], c) || (c == text[0] && c !in {'a', 'b', 't', 'n', 'v', 'f', 'r'}))
  {
  }

  lemma GlyphStarts(c: char, glyph: string, rest: string, quote: char)
    requires Glyph(c, glyph, rest, quote) && (quote == '"' || quote == '\'')
    ensures glyph != "" && glyph[0] != quote && !IsBreak(glyph[0])
  {
    hide OctalEscape;
    EscapeStarts(c, glyph, rest);
  }

  lemma {:induction false} QuotedStarts(text: string, quote: char, value: string, after: string)
    requires QuotedIs(text, quote, value, after) && (quote == '"' || quote == '\'')
    ensures text != "" && (value == "" <==> text[0] == quote)
    ensures value != "" ==> |text| > 1 && !IsBreak(text[0])
    decreases |value|
  {
    hide Glyph;
    if value != "" {
      var glyph, rest :|
        text == glyph + rest && Glyph(value[0], glyph, rest, quote) && QuotedIs(rest, quote, value[1..], after);
      GlyphStarts(value[0], glyph, rest, quote);
      QuotedStarts(rest, quote, value[1..], after);
      assert text[0] == glyph[0];
    }
  }

  lemma QuotedFurther(text: string, quote: char, value: string, after: string)
    requires (quote == '"' || quote == '\'') && |text| > 1 && text[0] != quote && !IsBreak(text[0])
    ensures var (c, used) := NextQuoted(text);
            QuotedIs(text, quote, value, after) <==>
            value != "" && value[0] == c && QuotedIs(text[used..], quote, value[1..], after)
  {
    hide Glyph, NextQuoted;
    var (c, used) := NextQuoted(text);
    GlyphExactly(text, quote, used, c);
    assert text == text[..used] + text[used..];
    if QuotedIs(text, quote, value, after) {
      assert value != "" by { QuotedStarts(text, quote, value, after); }
      var glyph, rest :|
        text == glyph + rest && Glyph(value[0], glyph, rest, quote) && QuotedIs(rest, quote, value[1..], after);
      GlyphStarts(value[0], glyph, rest, quote);
      assert glyph == text[..|glyph|] && rest == text[|glyph|..];
      GlyphExactly(text, quote, |glyph|, value[0]);
    }
  }

  /** A quoted value is read exactly as it is written. */
  lemma {:induction false} QuotedExactly(text: string, quote: char, value: string, after: string)
    requires quote == '"' || quote == '\''
    ensures QuotedIs(text, quote, value, after) <==> ReadQuoted(text, quote) == Some((value, after))
    decreases |text|
  {
    hide NextQuoted, QuotedIs;
    if QuotedIs(text, quote, value, after) {
      QuotedStarts(text, quote, value, after);
    }
    if text == "" {
    } else if text[0] == quote {
      ClosingQuote(text, quote, after);
    } else if |text| > 1 && !IsBreak(text[0]) {
      QuotedFurther(text, quote, value, after);
      var (c, used) := NextQuoted(text);
      if value != "" {
        QuotedExactly(text[used..], quote, value[1..], after);
        assert value == [value[0]] + value[1..];
      }
    } else {
      assert ReadQuoted(text, quote).None? by { TooShort(text, quote); }
    }
  }

  lemma ClosingQuote(text: string, quote: char, after: string)
    requires text != "" && text[0] == quote
    ensures QuotedIs(text, quote, "", after) <==> text[1..] == after
  {
    assert text == [quote] + text[1..];
  }

  lemma TooShort(text: string, quote: char)
    requires text != "" && text[0] != quote && (IsBreak(text[0]) || |text| == 1)
    ensures ReadQuoted(text, quote).None?
  {
  }
}
