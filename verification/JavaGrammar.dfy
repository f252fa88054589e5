/** How a text is written as Java properties, told from what is written: the characters behind each escape, the
    separators of a line and the lines of a document. The reader inverts it. */
module JavaGrammar {
  import opened Wrappers
  import opened PropertiesSyntax

  // Characters

  const LOWER_DIGITS := "0123456789abcdef"
  const UPPER_DIGITS := "0123456789ABCDEF"

  /** A hexadecimal digit of a number below sixteen, in either case. */
  ghost predicate Digit(value: nat, c: char) {
    value < 16 && (c == LOWER_DIGITS[value] || c == UPPER_DIGITS[value])
  }

  /** The escape of a code unit: four hexadecimal digits. */
  ghost predicate UnicodeEscape(unit: nat, glyph: string) {
    && unit < 0x10000 && |glyph| == 6 && glyph[0] == '\\' && glyph[1] == 'u'
    && Digit(unit / 0x1000, glyph[2]) && Digit(unit / 0x100 % 16, glyph[3])
    && Digit(unit / 0x10 % 16, glyph[4]) && Digit(unit % 16, glyph[5])
  }

  /** A letter after a backslash that stands for a control character. */
  ghost predicate ControlLetter(letter: char, c: char) {
    || (letter == 't' && c as int == 9) || (letter == 'n' && c as int == 10)
    || (letter == 'f' && c as int == 12) || (letter == 'r' && c as int == 13)
  }

  /** The ways to write one character: itself, behind a backslash, by its letter, or by its UTF-16 code. */
  ghost predicate Glyph(c: char, glyph: string) {
    || (glyph == [c] && c != '\\')
    || (glyph == ['\\', c] && c !in {'t', 'n', 'f', 'r', 'u'})
    || (|glyph| == 2 && glyph[0] == '\\' && ControlLetter(glyph[1], c))
    || UnicodeEscape(c as int, glyph)
    || (&& c as int >= 0x10000 && |glyph| == 12
        && UnicodeEscape(0xD800 + (c as int - 0x10000) / 0x400, glyph[..6])
        && UnicodeEscape(0xDC00 + (c as int - 0x10000) % 0x400, glyph[6..]))
  }

  /** A text written glyph by glyph. */
  ghost predicate Glyphs(text: string, raw: string)
    decreases |text|
  {
    if text == "" then raw == ""
    else exists glyph, rest :: raw == glyph + rest && Glyph(text[0], glyph) && Glyphs(text[1..], rest)
  }

  /** The same, perhaps with a backslash at the end, which says nothing. */
  ghost predicate Writes(text: string, raw: string) {
    Glyphs(text, raw) || (raw != "" && raw[|raw| - 1] == '\\' && Glyphs(text, raw[..|raw| - 1]))
  }

  // Reading characters

  lemma DigitExactly(c: char, value: nat)
    ensures Digit(value, c) <==> HexDigit(c) == Some(value)
  {
  }

  lemma FourDigits(digits: string, unit: nat)
    requires |digits| == 4
    ensures UnicodeEscape(unit, "\\u" + digits) <==> HexValue(digits) == Some(unit)
  {
    hide Digit, HexDigit;
    forall i, value: nat | 0 <= i < 4 ensures Digit(value, digits[i]) <==> HexDigit(digits[i]) == Some(value) {
      DigitExactly(digits[i], value);
    }
    HexDigitBound(digits);
    var glyph := "\\u" + digits;
    assert glyph[2] == digits[0] && glyph[3] == digits[1] && glyph[4] == digits[2] && glyph[5] == digits[3];
    if UnicodeEscape(unit, glyph) {
      Places(unit, unit / 0x1000, unit / 0x100 % 16, unit / 0x10 % 16, unit % 16);
      assert HexDigit(digits[0]) == Some(unit / 0x1000) && HexDigit(digits[1]) == Some(unit / 0x100 % 16);
      assert HexDigit(digits[2]) == Some(unit / 0x10 % 16) && HexDigit(digits[3]) == Some(unit % 16);
      assert HexValue(digits) == Some(unit);
    }
    if HexValue(digits) == Some(unit) {
      Places(unit, HexDigit(digits[0]).value, HexDigit(digits[1]).value, HexDigit(digits[2]).value,
             HexDigit(digits[3]).value);
      assert UnicodeEscape(unit, glyph);
    }
  }

  lemma HexDigitBound(digits: string)
    ensures forall i :: 0 <= i < |digits| && HexDigit(digits[i]).Some? ==> HexDigit(digits[i]).value < 16
  {
  }

  /** The digits of a number of four hexadecimal places. */
  lemma Places(unit: nat, a: nat, b: nat, c: nat, d: nat)
    requires a < 16 && b < 16 && c < 16 && d < 16
    ensures unit == ((a * 16 + b) * 16 + c) * 16 + d <==>
            a == unit / 0x1000 && b == unit / 0x100 % 16 && c == unit / 0x10 % 16 && d == unit % 16
  {
  }

  function Put(c: char, rest: Option<string>): Option<string> {
    if rest.None? then None else Some([c] + rest.value)
  }

  lemma PairArithmetic(point: nat)
    requires 0x10000 <= point < 0x11_0000
    ensures var high, low := 0xD800 + (point - 0x10000) / 0x400, 0xDC00 + (point - 0x10000) % 0x400;
            && IsHigh(high) && IsLow(low) && 0x10000 + (high - 0xD800) * 0x400 + (low - 0xDC00) == point
  {
  }

  /** An escape gives its code unit, whatever follows. */
  lemma EscapeReads(unit: nat, glyph: string, rest: string)
    requires UnicodeEscape(unit, glyph)
    ensures Units(glyph + rest) == Cons(unit, Units(rest))
  {
    hide Digit, HexValue;
    var raw := glyph + rest;
    var digits := glyph[2..];
    assert glyph == "\\u" + digits;
    FourDigits(digits, unit);
    assert raw[0] == '\\' && raw[1] == 'u' && raw[2..][..4] == digits && raw[6..] == rest;
  }

  lemma CharacterReads(c: char, glyph: string, rest: string)
    requires (glyph == [c] && c != '\\') || (glyph == ['\\', c] && c !in {'t', 'n', 'f', 'r', 'u'})
             || (|glyph| == 2 && glyph[0] == '\\' && ControlLetter(glyph[1], c))
    ensures Units(glyph + rest) == Cons(c as int, Units(rest))
  {
    var raw := glyph + rest;
    if |glyph| == 1 {
      assert raw[1..] == rest;
    } else {
      assert raw[0] == '\\' && raw[1] == glyph[1] && raw[2..] == rest;
      assert Escaped(raw[1]) == c;
    }
  }

  lemma JoinScalar(unit: nat, units: seq<nat>)
    requires IsScalar(unit)
    ensures JoinSurrogates([unit] + units) == Put(unit as char, JoinSurrogates(units))
  {
    assert ([unit] + units)[1..] == units;
  }

  lemma JoinPair(high: nat, low: nat, units: seq<nat>)
    requires IsHigh(high) && IsLow(low)
    ensures JoinSurrogates([high, low] + units) ==
            Put((0x10000 + (high - 0xD800) * 0x400 + (low - 0xDC00)) as char, JoinSurrogates(units))
  {
    assert ([high, low] + units)[2..] == units;
  }

  /** A glyph is read as its character, whatever follows. */
  lemma GlyphReads(c: char, glyph: string, rest: string)
    requires Glyph(c, glyph)
    ensures Unescape(glyph + rest) == Put(c, Unescape(rest))
  {
    hide Units, UnicodeEscape, ControlLetter, JoinSurrogates;
    var units := Units(rest);
    if !UnicodeEscape(c as int, glyph) && |glyph| == 12 {
      var high, low := 0xD800 + (c as int - 0x10000) / 0x400, 0xDC00 + (c as int - 0x10000) % 0x400;
      PairArithmetic(c as int);
      EscapeReads(low, glyph[6..], rest);
      EscapeReads(high, glyph[..6], glyph[6..] + rest);
      assert glyph[..6] + (glyph[6..] + rest) == glyph + rest;
      if units.Some? {
        assert [high] + ([low] + units.value) == [high, low] + units.value;
        JoinPair(high, low, units.value);
      }
    } else {
      if UnicodeEscape(c as int, glyph) {
        EscapeReads(c as int, glyph, rest);
      } else {
        CharacterReads(c, glyph, rest);
      }
      if units.Some? {
        JoinScalar(c as int, units.value);
      }
    }
  }

  lemma {:induction false} GlyphsRead(text: string, raw: string, rest: string)
    requires Glyphs(text, raw)
    ensures Unescape(raw + rest) == if Unescape(rest).None? then None else Some(text + Unescape(rest).value)
    decreases |text|
  {
    hide Glyph, Unescape;
    if text == "" {
      assert raw + rest == rest;
      assert Unescape(rest).Some? ==> "" + Unescape(rest).value == Unescape(rest).value;
    } else {
      var glyph, tail :| raw == glyph + tail && Glyph(text[0], glyph) && Glyphs(text[1..], tail);
      assert glyph + tail + rest == glyph + (tail + rest);
      GlyphReads(text[0], glyph, tail + rest);
      GlyphsRead(text[1..], tail, rest);
      if Unescape(rest).Some? {
        assert text == [text[0]] + text[1..];
        assert [text[0]] + (text[1..] + Unescape(rest).value) == text + Unescape(rest).value;
      }
    }
  }

  // Every accepted text was written

  /** Only an escape gives half of a pair. */
  lemma HalvesAreEscaped(raw: string)
    requires Units(raw).Some? && Units(raw).value != [] && !IsScalar(Units(raw).value[0])
    requires Units(raw).value[0] < 0x10000
    ensures |raw| >= 6 && UnicodeEscape(Units(raw).value[0], raw[..6])
    ensures Units(raw) == Cons(Units(raw).value[0], Units(raw[6..]))
  {
    hide HexValue, UnicodeEscape;
    assert |raw| > 1 && raw[0] == '\\' && raw[1] == 'u';
    var digits := UpTo(raw[2..], 4);
    assert |digits| == 4 by { FourGiven(digits); }
    assert raw[..6] == "\\u" + digits;
    FourDigits(digits, HexValue(digits).value);
  }

  lemma FourGiven(digits: string)
    requires HexValue(digits).Some?
    ensures |digits| == 4
  {
  }

  /** What an accepted text begins with. */
  lemma FirstGlyph(raw: string) returns (c: char, glyph: string, rest: string)
    requires raw != "" && raw != "\\" && Unescape(raw).Some?
    ensures raw == glyph + rest && glyph != "" && Glyph(c, glyph)
  {
    hide HexValue, UnicodeEscape, JoinSurrogates;
    var units := Units(raw).value;
    if raw[0] != '\\' {
      c, glyph, rest := raw[0], raw[..1], raw[1..];
    } else if raw[1] != 'u' {
      c, glyph, rest := Escaped(raw[1]), raw[..2], raw[2..];
    } else {
      var digits := UpTo(raw[2..], 4);
      FourGiven(digits);
      FourDigits(digits, HexValue(digits).value);
      assert raw[..6] == "\\u" + digits;
      if IsScalar(units[0]) {
        c, glyph, rest := units[0] as char, raw[..6], raw[6..];
      } else {
        c, glyph, rest := FirstPair(raw);
      }
    }
  }

  lemma FirstPair(raw: string) returns (c: char, glyph: string, rest: string)
    requires Unescape(raw).Some? && Units(raw).value != [] && !IsScalar(Units(raw).value[0])
    requires Units(raw).value[0] < 0x10000
    ensures raw == glyph + rest && glyph != "" && Glyph(c, glyph)
  {
    hide Units, UnicodeEscape;
    var units := Units(raw).value;
    HalvesAreEscaped(raw);
    assert IsHigh(units[0]) && IsLow(units[1]);
    assert Units(raw[6..]).value == units[1..];
    HalvesAreEscaped(raw[6..]);
    var point := 0x10000 + (units[0] - 0xD800) * 0x400 + (units[1] - 0xDC00);
    c, glyph, rest := point as char, raw[..12], raw[12..];
    assert glyph[..6] == raw[..6] && glyph[6..] == raw[6..][..6];
    Halves(units[0], units[1]);
  }

  lemma Halves(high: nat, low: nat)
    requires IsHigh(high) && IsLow(low)
    ensures var point := 0x10000 + (high - 0xD800) * 0x400 + (low - 0xDC00);
            && 0x10000 <= point < 0x11_0000
            && high == 0xD800 + (point - 0x10000) / 0x400 && low == 0xDC00 + (point - 0x10000) % 0x400
  {
  }

  /** Reading inverts writing: a text is read from exactly what writes it. */
  lemma {:induction false} WritesExactly(text: string, raw: string)
    ensures Writes(text, raw) <==> Unescape(raw) == Some(text)
    decreases |raw|
  {
    hide Glyph, Unescape, Glyphs;
    NothingRead();
    if Glyphs(text, raw) {
      GlyphsRead(text, raw, "");
      assert raw + "" == raw && text + "" == text;
    } else if Writes(text, raw) {
      GlyphsRead(text, raw[..|raw| - 1], "\\");
      assert raw[..|raw| - 1] + "\\" == raw && text + "" == text;
    }
    if Unescape(raw) == Some(text) {
      ReadIsWritten(text, raw);
    }
  }

  lemma NothingRead()
    ensures Unescape("") == Some("") && Unescape("\\") == Some("")
    ensures Glyphs("", "")
  {
  }

  lemma {:induction false} ReadIsWritten(text: string, raw: string)
    requires Unescape(raw) == Some(text)
    ensures Writes(text, raw)
    decreases |raw|
  {
    hide Glyph, Unescape, Glyphs;
    NothingRead();
    if raw == "" {
    } else if raw == "\\" {
      assert raw[..|raw| - 1] == "";
    } else {
      var c, glyph, rest := FirstGlyph(raw);
      GlyphReads(c, glyph, rest);
      assert text == [c] + text[1..];
      ReadIsWritten(text[1..], rest);
      OneMoreGlyph(text, glyph, rest);
      if !Glyphs(text[1..], rest) {
        OneMoreGlyph(text, glyph, rest[..|rest| - 1]);
        assert glyph + rest[..|rest| - 1] == raw[..|raw| - 1];
      }
    }
  }

  lemma OneMoreGlyph(text: string, glyph: string, rest: string)
    requires text != "" && Glyph(text[0], glyph)
    ensures Glyphs(text[1..], rest) ==> Glyphs(text, glyph + rest)
  {
  }

  /** An escape for half of a pair, without the other half beside it, is refused. */
  lemma LoneSurrogateIsRefused(text: string, before: string, unit: nat, glyph: string, rest: string)
    requires Glyphs(text, before) && UnicodeEscape(unit, glyph)
    requires 0xDC00 <= unit < 0xE000 ||
             (0xD800 <= unit < 0xDC00 &&
              (|rest| < 6 || forall low :: 0xDC00 <= low < 0xE000 ==> !UnicodeEscape(low, rest[..6])))
    ensures Unescape(before + glyph + rest).None?
  {
    hide Units, UnicodeEscape, Glyphs;
    GlyphsRead(text, before, glyph + rest);
    assert before + (glyph + rest) == before + glyph + rest;
    EscapeReads(unit, glyph, rest);
    if Units(rest).Some? && Units(rest).value != [] && IsLow(Units(rest).value[0]) {
      HalvesAreEscaped(rest);
    }
  }

  // Lines

  ghost predicate Blank(c: char) {
    c as int == 32 || c as int == 9 || c as int == 12
  }

  ghost predicate AllBlank(text: string) {
    forall i :: 0 <= i < |text| ==> Blank(text[i])
  }

  ghost predicate Separates(c: char) {
    c == '=' || c == ':' || Blank(c)
  }

  /** A key is written like any text, but a separator in it needs an escape. */
  ghost predicate KeyGlyph(c: char, glyph: string) {
    Glyph(c, glyph) && (|glyph| == 1 ==> !Separates(c))
  }

  ghost predicate KeyGlyphs(key: string, raw: string)
    decreases |key|
  {
    if key == "" then raw == ""
    else exists glyph, rest :: raw == glyph + rest && KeyGlyph(key[0], glyph) && KeyGlyphs(key[1..], rest)
  }

  /** What stands between a key and its value: blanks, and with or without blanks one `=` or `:`. */
  ghost predicate Gap(gap: string, value: string) {
    && (gap == "" ==> value == "") && (value != "" ==> !Blank(value[0]))
    && exists before, sign, behind ::
         && gap == before + sign + behind && AllBlank(before) && AllBlank(behind)
         && (sign == "=" || sign == ":" ||
             (sign == "" && behind == "" && (value != "" ==> value[0] != '=' && value[0] != ':')))
  }

  ghost predicate KeyWrites(key: string, raw: string, ends: bool) {
    || KeyGlyphs(key, raw)
    || (ends && raw != "" && raw[|raw| - 1] == '\\' && KeyGlyphs(key, raw[..|raw| - 1]))
  }

  /** One entry on one line. */
  ghost predicate LineSays(line: string, key: string, value: string) {
    && (forall c :: c in line ==> c as int < 128)
    && exists rawKey, gap, rawValue ::
         && line == rawKey + gap + rawValue && KeyWrites(key, rawKey, gap == "") && Gap(gap, rawValue)
         && Writes(value, rawValue)
  }

  // Reading lines

  lemma SeparatesExactly(c: char)
    ensures Blank(c) <==> IsJavaSpace(c)
    ensures Separates(c) <==> EndsKey(c)
  {
  }

  lemma {:induction false} SplitShift(line: string, index: nat, escaped: bool)
    requires 1 <= index <= |line|
    ensures SplitPoint(line, index, escaped) == 1 + SplitPoint(line[1..], index - 1, escaped)
    decreases |line| - index
  {
    hide EndsKey;
    if index < |line| {
      assert line[1..][index - 1] == line[index];
      if escaped || line[index] == '\\' || !EndsKey(line[index]) {
        SplitShift(line, index + 1, !escaped && line[index] == '\\');
      }
    }
  }

  /** Where the key of a line ends. */
  function Cut(line: string): (at: nat)
    ensures at <= |line|
  {
    SplitPoint(line, 0, false)
  }

  lemma CutSteps(line: string)
    ensures Cut("") == 0
    ensures line != "" && line[0] != '\\' ==> Cut(line) == if EndsKey(line[0]) then 0 else 1 + Cut(line[1..])
    ensures |line| > 1 && line[0] == '\\' ==> Cut(line) == 2 + Cut(line[2..])
    ensures line == "\\" ==> Cut(line) == 1
  {
    hide EndsKey;
    if |line| > 1 && line[0] == '\\' {
      SplitShift(line, 1, true);
      SplitShift(line[1..], 1, false);
      assert line[1..][1..] == line[2..];
    } else if line != "" {
      SplitShift(line, 1, false);
    }
  }

  lemma {:induction false} CutPlain(text: string, rest: string)
    requires forall i :: 0 <= i < |text| ==> text[i] != '\\' && !EndsKey(text[i])
    ensures Cut(text + rest) == |text| + Cut(rest)
  {
    hide EndsKey, Cut;
    if text == "" {
      assert text + rest == rest;
    } else {
      CutSteps(text + rest);
      assert (text + rest)[1..] == text[1..] + rest;
      CutPlain(text[1..], rest);
    }
  }

  lemma DigitsArePlain(value: nat, c: char)
    requires Digit(value, c)
    ensures c != '\\' && !EndsKey(c)
  {
  }

  lemma CutEscape(unit: nat, glyph: string, rest: string)
    requires UnicodeEscape(unit, glyph)
    ensures Cut(glyph + rest) == 6 + Cut(rest)
  {
    hide Digit, EndsKey, Cut;
    var digits := glyph[2..];
    DigitsArePlain(unit / 0x1000, digits[0]);
    DigitsArePlain(unit / 0x100 % 16, digits[1]);
    DigitsArePlain(unit / 0x10 % 16, digits[2]);
    DigitsArePlain(unit % 16, digits[3]);
    CutPlain(digits, rest);
    CutSteps(glyph + rest);
    assert (glyph + rest)[2..] == digits + rest;
  }

  lemma CutGlyph(c: char, glyph: string, rest: string)
    requires KeyGlyph(c, glyph)
    ensures Cut(glyph + rest) == |glyph| + Cut(rest)
  {
    hide UnicodeEscape, EndsKey, Cut, ControlLetter;
    SeparatesExactly(c);
    if |glyph| == 12 && !UnicodeEscape(c as int, glyph) {
      CutEscape(0xD800 + (c as int - 0x10000) / 0x400, glyph[..6], glyph[6..] + rest);
      CutEscape(0xDC00 + (c as int - 0x10000) % 0x400, glyph[6..], rest);
      assert glyph[..6] + (glyph[6..] + rest) == glyph + rest;
    } else if UnicodeEscape(c as int, glyph) {
      CutEscape(c as int, glyph, rest);
      assert |glyph| == 6 by { EscapeLength(c as int, glyph); }
    } else if |glyph| == 1 {
      CutSteps(glyph + rest);
      assert (glyph + rest)[1..] == rest;
    } else {
      CutSteps(glyph + rest);
      assert (glyph + rest)[2..] == rest;
    }
  }

  lemma EscapeLength(unit: nat, glyph: string)
    requires UnicodeEscape(unit, glyph)
    ensures |glyph| == 6
  {
  }

  lemma {:induction false} CutKey(key: string, raw: string, rest: string)
    requires KeyGlyphs(key, raw)
    ensures Cut(raw + rest) == |raw| + Cut(rest)
    decreases |key|
  {
    hide KeyGlyph, Cut;
    if key == "" {
      assert raw + rest == rest;
    } else {
      var glyph, tail :| raw == glyph + tail && KeyGlyph(key[0], glyph) && KeyGlyphs(key[1..], tail);
      CutGlyph(key[0], glyph, tail + rest);
      CutKey(key[1..], tail, rest);
      assert glyph + (tail + rest) == raw + rest;
    }
  }

  lemma {:induction false} KeyGlyphsAreGlyphs(key: string, raw: string)
    requires KeyGlyphs(key, raw)
    ensures Glyphs(key, raw)
    decreases |key|
  {
    hide Glyph;
    if key != "" {
      var glyph, tail :| raw == glyph + tail && KeyGlyph(key[0], glyph) && KeyGlyphs(key[1..], tail);
      KeyGlyphsAreGlyphs(key[1..], tail);
    }
  }

  /** A written text without a separator in it is a written key. */
  lemma {:induction false} UncutGlyphs(key: string, raw: string, rest: string)
    requires Glyphs(key, raw) && Cut(raw + rest) >= |raw|
    ensures KeyGlyphs(key, raw)
    decreases |key|
  {
    hide Glyph, Cut, Separates;
    if key != "" {
      var glyph, tail :| raw == glyph + tail && Glyph(key[0], glyph) && Glyphs(key[1..], tail);
      assert glyph + (tail + rest) == raw + rest;
      if |glyph| == 1 {
        assert glyph == [key[0]] && key[0] != '\\' by { ShortGlyph(key[0], glyph); }
        CutSteps(raw + rest);
        SeparatesExactly(key[0]);
        assert (raw + rest)[0] == key[0];
      }
      assert KeyGlyph(key[0], glyph);
      CutGlyph(key[0], glyph, tail + rest);
      UncutGlyphs(key[1..], tail, rest);
    }
  }

  lemma ShortGlyph(c: char, glyph: string)
    requires Glyph(c, glyph) && |glyph| == 1
    ensures glyph == [c] && c != '\\'
  {
  }

  lemma {:induction false} CutStops(line: string, index: nat, escaped: bool)
    requires index <= |line|
    ensures var at := SplitPoint(line, index, escaped); at < |line| ==> EndsKey(line[at])
    decreases |line| - index
  {
    hide EndsKey;
    if index < |line| && (escaped || line[index] == '\\' || !EndsKey(line[index])) {
      CutStops(line, index + 1, !escaped && line[index] == '\\');
    }
  }

  lemma KeyIsCut(key: string, raw: string, rest: string)
    requires KeyWrites(key, raw, rest == "") && (rest == "" || EndsKey(rest[0]))
    ensures Cut(raw + rest) == |raw| && Unescape(raw) == Some(key)
  {
    hide KeyGlyphs, Cut, Unescape, EndsKey;
    WritesExactly(key, raw);
    if KeyGlyphs(key, raw) {
      KeyGlyphsAreGlyphs(key, raw);
      CutKey(key, raw, rest);
      SeparatorCuts(rest);
    } else {
      var front := raw[..|raw| - 1];
      KeyGlyphsAreGlyphs(key, front);
      CutKey(key, front, "\\");
      CutSteps("\\");
      assert front + "\\" == raw && raw + rest == raw;
    }
  }

  lemma SeparatorCuts(rest: string)
    requires rest == "" || EndsKey(rest[0])
    ensures Cut(rest) == 0
  {
    CutSteps(rest);
  }

  lemma CutIsKey(line: string, key: string)
    requires Unescape(line[..Cut(line)]) == Some(key)
    ensures KeyWrites(key, line[..Cut(line)], Cut(line) == |line|)
  {
    hide KeyGlyphs, Cut, Unescape, Glyphs;
    var raw, rest := line[..Cut(line)], line[Cut(line)..];
    assert line == raw + rest;
    ReadIsWritten(key, raw);
    if Glyphs(key, raw) {
      UncutGlyphs(key, raw, rest);
    } else {
      var front := raw[..|raw| - 1];
      assert raw + rest == front + ("\\" + rest);
      UncutGlyphs(key, front, "\\" + rest);
      CutKey(key, front, "\\" + rest);
      CutSteps("\\" + rest);
    }
  }

  // Gaps

  lemma {:induction false} SkipsBlanks(blanks: string, rest: string)
    requires AllBlank(blanks) && (rest != "" ==> !Blank(rest[0]))
    ensures SkipSpace(blanks + rest) == rest
  {
    if blanks == "" {
      assert blanks + rest == rest;
    } else {
      assert (blanks + rest)[1..] == blanks[1..] + rest;
      SkipsBlanks(blanks[1..], rest);
    }
  }

  lemma {:induction false} SkippedBlanks(text: string) returns (blanks: string)
    ensures text == blanks + SkipSpace(text) && AllBlank(blanks)
    ensures SkipSpace(text) != "" ==> !Blank(SkipSpace(text)[0])
    ensures text != "" && Blank(text[0]) ==> blanks != ""
  {
    if text != "" && IsJavaSpace(text[0]) {
      var more := SkippedBlanks(text[1..]);
      blanks := [text[0]] + more;
    } else {
      blanks := "";
    }
  }

  lemma BlanksAreSkipped(before: string, value: string)
    requires AllBlank(before) && (value != "" ==> !Blank(value[0]) && value[0] != '=' && value[0] != ':')
    ensures AfterKey(before + value) == value
  {
    hide SkipSpace, Blank;
    SkipsBlanks(before, value);
  }

  lemma SignIsSkipped(before: string, sign: char, behind: string, value: string)
    requires AllBlank(before) && AllBlank(behind) && (sign == '=' || sign == ':')
    requires value != "" ==> !Blank(value[0])
    ensures AfterKey(before + [sign] + behind + value) == value
  {
    hide SkipSpace, Blank;
    var signed := [sign] + (behind + value);
    assert before + [sign] + behind + value == before + signed;
    assert signed[1..] == behind + value && signed[0] == sign;
    SignsAreNoBlanks(sign);
    SkipsBlanks(before, signed);
    SkipsBlanks(behind, value);
  }

  lemma GapIsSkipped(gap: string, value: string)
    requires Gap(gap, value)
    ensures AfterKey(gap + value) == value
    ensures gap + value == "" || EndsKey((gap + value)[0])
  {
    hide SkipSpace, Blank, AfterKey;
    var before, sign, behind :|
      && gap == before + sign + behind && AllBlank(before) && AllBlank(behind)
      && (sign == "=" || sign == ":" ||
          (sign == "" && behind == "" && (value != "" ==> value[0] != '=' && value[0] != ':')));
    if sign == "" {
      assert gap + value == before + value;
      BlanksAreSkipped(before, value);
    } else {
      assert sign == [sign[0]];
      SignIsSkipped(before, sign[0], behind, value);
    }
    if gap != "" {
      SeparatesExactly(gap[0]);
      assert gap[0] == if before != "" then before[0] else sign[0];
    }
  }

  lemma AsciiExactly(line: string)
    ensures (forall c :: c in line ==> c as int < 128) <==> IsAscii(line)
  {
    if forall c :: c in line ==> c as int < 128 {
      assert forall i :: 0 <= i < |line| ==> line[i] in line;
    }
  }

  lemma SignsAreNoBlanks(c: char)
    requires c == '=' || c == ':'
    ensures !Blank(c)
  {
  }

  lemma SkippedIsGap(text: string) returns (gap: string)
    requires text == "" || EndsKey(text[0])
    ensures text == gap + AfterKey(text) && Gap(gap, AfterKey(text))
  {
    hide SkipSpace, Blank;
    var value := AfterKey(text);
    var before := SkippedBlanks(text);
    var stripped := SkipSpace(text);
    if text != "" {
      SeparatesExactly(text[0]);
    }
    if stripped != "" && (stripped[0] == '=' || stripped[0] == ':') {
      var behind := SkippedBlanks(stripped[1..]);
      var sign := stripped[..1];
      gap := before + sign + behind;
      assert text == gap + value;
    } else {
      gap := before + "" + "";
      assert AllBlank("");
    }
  }

  /** A line is read as exactly the entry it says. */
  lemma LineExactly(line: string, key: string, value: string)
    ensures LineSays(line, key, value) <==> ParseJavaLine(line) == Some((key, value))
  {
    hide Writes, Gap, KeyWrites, Cut, AfterKey, Unescape, EndsKey;
    AsciiExactly(line);
    if LineSays(line, key, value) {
      var rawKey, gap, rawValue :|
        && line == rawKey + gap + rawValue && KeyWrites(key, rawKey, gap == "") && Gap(gap, rawValue)
        && Writes(value, rawValue);
      GapIsSkipped(gap, rawValue);
      var rest := gap + rawValue;
      assert line == rawKey + rest;
      assert gap == "" <==> rest == "" by { EmptyGap(gap, rawValue); }
      KeyIsCut(key, rawKey, rest);
      assert line[..|rawKey|] == rawKey && line[|rawKey|..] == rest;
      WritesExactly(value, rawValue);
      assert Cut(line) == SplitPoint(line, 0, false) by { CutIsSplit(line); }
    }
    if ParseJavaLine(line) == Some((key, value)) {
      CutIsSplit(line);
      var at := Cut(line);
      CutIsKey(line, key);
      var rest := line[at..];
      CutStops(line, 0, false);
      var gap := SkippedIsGap(rest);
      WritesExactly(value, AfterKey(rest));
      EmptyGap(gap, AfterKey(rest));
      assert line == line[..at] + gap + AfterKey(rest);
    }
  }

  lemma EmptyGap(gap: string, value: string)
    requires Gap(gap, value)
    ensures gap == "" <==> gap + value == ""
  {
  }

  lemma CutIsSplit(line: string)
    ensures Cut(line) == SplitPoint(line, 0, false)
  {
  }
}
