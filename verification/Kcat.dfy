/** The `kcat` option scan and the command it prepares (`adapter_policy.py`). */
module Kcat {
  import opened Wrappers

  const FlagOptions := "CPLQqvEVhlTZeJOuU"
  const ValueOptions := "GtpbDKcmFXdzkHofsr"
  const ConnectionOptions := "Frb"

  /** An option letter with its value, if it takes one. */
  datatype Choice = Choice(letter: char, value: Option<string>)

  datatype AdapterError =
    | NotSupported(argument: string)
    | ValueRequired(letter: char)
    | Overrides(letter: char)
    | RegistryRequired
    | RegistryUnsuitable

  // The grammar

  /** One element of a command line: a word that is no option, or a group of flags that may end with an option
      whose value is attached to it or is the next argument. */
  datatype Element =
    | Operand(word: string)
    | Flags(flags: string)
    | Attached(flags: string, letter: char, value: string)
    | Separate(flags: string, letter: char, value: string)

  ghost predicate AllFlags(letters: string) {
    forall i :: 0 <= i < |letters| ==> letters[i] in "CPLQqvEVhlTZeJOuU"
  }

  ghost predicate TakesValue(letter: char) {
    letter in "GtpbDKcmFXdzkHofsr"
  }

  ghost predicate WellFormed(element: Element) {
    match element
    case Operand(word) => word == "-" || !("-" <= word)
    case Flags(flags) => flags != "" && AllFlags(flags)
    case Attached(flags, letter, value) => AllFlags(flags) && TakesValue(letter) && value != ""
    case Separate(flags, letter, _) => AllFlags(flags) && TakesValue(letter)
  }

  function Arguments(element: Element): seq<string> {
    match element
    case Operand(word) => [word]
    case Flags(flags) => ["-" + flags]
    case Attached(flags, letter, value) => ["-" + flags + [letter] + value]
    case Separate(flags, letter, value) => ["-" + flags + [letter], value]
  }

  function FlagChoices(flags: string): seq<Choice> {
    if flags == "" then [] else [Choice(flags[0], None)] + FlagChoices(flags[1..])
  }

  function Choices(element: Element): seq<Choice> {
    match element
    case Operand(_) => []
    case Flags(flags) => FlagChoices(flags)
    case Attached(flags, letter, value) => FlagChoices(flags) + [Choice(letter, Some(value))]
    case Separate(flags, letter, value) => FlagChoices(flags) + [Choice(letter, Some(value))]
  }

  /** A whole command line: its elements and, after `--`, words that are not read. */
  datatype Line = Line(elements: seq<Element>, unread: Option<seq<string>>)

  ghost predicate LineWellFormed(line: Line) {
    forall i :: 0 <= i < |line.elements| ==> WellFormed(line.elements[i])
  }

  function Rest(unread: Option<seq<string>>): seq<string> {
    match unread
    case None => []
    case Some(words) => ["--"] + words
  }

  function LineArguments(line: Line): seq<string>
    decreases |line.elements|
  {
    if line.elements == [] then Rest(line.unread)
    else Arguments(line.elements[0]) + LineArguments(line.(elements := line.elements[1..]))
  }

  function LineChoices(line: Line): seq<Choice>
    decreases |line.elements|
  {
    if line.elements == [] then []
    else Choices(line.elements[0]) + LineChoices(line.(elements := line.elements[1..]))
  }

  // The scan

  /** The options of a command line and whether the scan stopped at `--`. */
  datatype Scanned = Scanned(choices: seq<Choice>, stopped: bool)

  type Scanning = Result<Scanned, AdapterError>

  function Prepend(choices: seq<Choice>, rest: Scanning): Scanning {
    match rest
    case Err(error) => Err(error)
    case Ok(scanned) => Ok(Scanned(choices + scanned.choices, scanned.stopped))
  }

  lemma PrependTwice(first: seq<Choice>, second: seq<Choice>, rest: Scanning)
    ensures Prepend(first, Prepend(second, rest)) == Prepend(first + second, rest)
  {
    if rest.Ok? {
      assert first + (second + rest.value.choices) == first + second + rest.value.choices;
    }
  }

  lemma PrependNothing(rest: Scanning)
    ensures Prepend([], rest) == rest
  {
    if rest.Ok? {
      assert [] + rest.value.choices == rest.value.choices;
    }
  }

  predicate IsOperand(word: string) {
    word == "" || word[0] != '-' || word == "-"
  }

  function Scan(arguments: seq<string>): Scanning
    decreases |arguments|, 0
  {
    if arguments == [] then Ok(Scanned([], false))
    else if arguments[0] == "--" then Ok(Scanned([], true))
    else if IsOperand(arguments[0]) then Scan(arguments[1..])
    else if IsLong(arguments[0]) then Err(NotSupported(arguments[0]))
    else ScanLetters(arguments[0][1..], arguments[1..])
  }

  predicate IsLong(word: string) {
    |word| >= 2 && word[0] == '-' && word[1] == '-'
  }

  /** The letters of a group, with the arguments after it. */
  function ScanLetters(letters: string, following: seq<string>): Scanning
    decreases |following|, 1 + |letters|
  {
    if letters == "" then Scan(following)
    else if letters[0] in FlagOptions then Prepend([Choice(letters[0], None)], ScanLetters(letters[1..], following))
    else if letters[0] !in ValueOptions then Err(NotSupported(['-', letters[0]]))
    else if letters[1..] != "" then Prepend([Choice(letters[0], Some(letters[1..]))], Scan(following))
    else if following == [] then Err(ValueRequired(letters[0]))
    else Prepend([Choice(letters[0], Some(following[0]))], Scan(following[1..]))
  }

  /** `_kcat_options`. */
  method KcatOptions(arguments: seq<string>) returns (options: Result<seq<Choice>, AdapterError>)
    ensures options == Found(Scan(arguments))
  {
    var found: seq<Choice> := [];
    var index := 0;
    assert arguments[0..] == arguments;
    PrependNothing(Scan(arguments));
    while index < |arguments|
      invariant 0 <= index <= |arguments|
      invariant Scan(arguments) == Prepend(found, Scan(arguments[index..]))
    {
      var argument := arguments[index];
      assert arguments[index..][0] == argument && arguments[index..][1..] == arguments[index + 1..];
      if argument == "--" {
        break;
      }
      if IsOperand(argument) {
        index := index + 1;
        continue;
      }
      if IsLong(argument) {
        return Err(NotSupported(argument));
      }
      ghost var start := index;
      var position := 1;
      while position < |argument|
        invariant 1 <= position <= |argument| && index == start
        invariant Scan(arguments) == Prepend(found, ScanLetters(argument[position..], arguments[index + 1..]))
      {
        var letter := argument[position];
        assert argument[position..][0] == letter && argument[position..][1..] == argument[position + 1..];
        position := position + 1;
        if letter in FlagOptions {
          PrependTwice(found, [Choice(letter, None)], ScanLetters(argument[position..], arguments[index + 1..]));
          found := found + [Choice(letter, None)];
          continue;
        }
        if letter !in ValueOptions {
          return Err(NotSupported(['-', letter]));
        }
        var value := argument[position..];
        if value == "" {
          index := index + 1;
          if index >= |arguments| {
            return Err(ValueRequired(letter));
          }
          value := arguments[index];
          assert arguments[index..][1..] == arguments[index + 1..];
        }
        PrependTwice(found, [Choice(letter, Some(value))], Scan(arguments[index + 1..]));
        found := found + [Choice(letter, Some(value))];
        break;
      }
      index := index + 1;
    }
    assert found + [] == found;
    options := Ok(found);
  }

  function Found(scanned: Scanning): Result<seq<Choice>, AdapterError> {
    match scanned
    case Err(error) => Err(error)
    case Ok(found) => Ok(found.choices)
  }

  // The scan reads the grammar

  lemma {:induction false} ScanFlags(flags: string, tail: string, following: seq<string>)
    requires AllFlags(flags)
    ensures ScanLetters(flags + tail, following) == Prepend(FlagChoices(flags), ScanLetters(tail, following))
  {
    if flags == "" {
      assert flags + tail == tail;
      PrependNothing(ScanLetters(tail, following));
    } else {
      assert (flags + tail)[0] == flags[0] && (flags + tail)[1..] == flags[1..] + tail;
      ScanFlags(flags[1..], tail, following);
      PrependTwice([Choice(flags[0], None)], FlagChoices(flags[1..]), ScanLetters(tail, following));
    }
  }

  lemma NoFlagIsValue(letter: char)
    ensures letter in ValueOptions ==> letter !in FlagOptions
    ensures letter == '-' ==> letter !in ValueOptions && letter !in FlagOptions
  {
  }

  lemma OptionLetters(letter: char)
    ensures TakesValue(letter) <==> letter in ValueOptions
    ensures letter in "CPLQqvEVhlTZeJOuU" <==> letter in FlagOptions
  {
  }

  lemma ScanGroupArgument(letters: string, following: seq<string>)
    requires letters != "" && letters[0] != '-'
    ensures Scan(["-" + letters] + following) == ScanLetters(letters, following)
  {
    var argument := "-" + letters;
    assert argument[1..] == letters;
    assert ([argument] + following)[1..] == following;
    assert argument[0] == '-' && argument[1] == letters[0];
  }

  lemma ScanAttached(flags: string, letter: char, value: string, following: seq<string>)
    requires AllFlags(flags) && TakesValue(letter) && value != ""
    ensures Scan(["-" + flags + [letter] + value] + following) ==
            Prepend(FlagChoices(flags) + [Choice(letter, Some(value))], Scan(following))
  {
    hide Scan, FlagOptions, ValueOptions;
    var tail := [letter] + value;
    OptionLetters(letter);
    OptionLetters((flags + [letter])[0]);
    NoFlagIsValue((flags + [letter])[0]);
    NoFlagIsValue(letter);
    assert "-" + flags + [letter] + value == "-" + (flags + tail);
    assert (flags + tail)[0] == (flags + [letter])[0];
    ScanGroupArgument(flags + tail, following);
    ScanFlags(flags, tail, following);
    assert tail[1..] == value;
    PrependTwice(FlagChoices(flags), [Choice(letter, Some(value))], Scan(following));
  }

  lemma ScanSeparate(flags: string, letter: char, value: string, following: seq<string>)
    requires AllFlags(flags) && TakesValue(letter)
    ensures Scan(["-" + flags + [letter], value] + following) ==
            Prepend(FlagChoices(flags) + [Choice(letter, Some(value))], Scan(following))
  {
    hide Scan, FlagOptions, ValueOptions;
    var group := flags + [letter];
    OptionLetters(letter);
    OptionLetters(group[0]);
    NoFlagIsValue(group[0]);
    NoFlagIsValue(letter);
    assert "-" + flags + [letter] == "-" + group;
    assert ["-" + group, value] + following == ["-" + group] + ([value] + following);
    ScanGroupArgument(group, [value] + following);
    ScanFlags(flags, [letter], [value] + following);
    assert ([value] + following)[1..] == following;
    PrependTwice(FlagChoices(flags), [Choice(letter, Some(value))], Scan(following));
  }

  /** Every element is read as its options. */
  lemma ScanElement(element: Element, following: seq<string>)
    requires WellFormed(element)
    ensures Scan(Arguments(element) + following) == Prepend(Choices(element), Scan(following))
  {
    hide ScanLetters, FlagOptions, ValueOptions;
    match element
    case Operand(word) =>
      assert ([word] + following)[1..] == following;
      PrependNothing(Scan(following));
    case Flags(flags) =>
      OptionLetters(flags[0]);
      NoFlagIsValue(flags[0]);
      ScanGroupArgument(flags, following);
      ScanFlags(flags, "", following);
      assert flags + "" == flags;
      NoLetters(following);
    case Attached(flags, letter, value) => ScanAttached(flags, letter, value, following);
    case Separate(flags, letter, value) => ScanSeparate(flags, letter, value, following);
  }

  lemma NoLetters(following: seq<string>)
    ensures ScanLetters("", following) == Scan(following)
  {
  }

  /** Every command line of the grammar is scanned to its options. */
  lemma {:induction false} ScanIsComplete(line: Line)
    requires LineWellFormed(line)
    ensures Scan(LineArguments(line)) == Ok(Scanned(LineChoices(line), line.unread.Some?))
    decreases |line.elements|
  {
    if line.elements != [] {
      var rest := line.(elements := line.elements[1..]);
      ScanIsComplete(rest);
      ScanElement(line.elements[0], LineArguments(rest));
    }
  }

  lemma LineLonger(element: Element, line: Line)
    requires WellFormed(element) && LineWellFormed(line)
    ensures var longer := Line([element] + line.elements, line.unread);
            LineWellFormed(longer) && LineArguments(longer) == Arguments(element) + LineArguments(line)
  {
    var longer := Line([element] + line.elements, line.unread);
    assert longer.elements[1..] == line.elements;
    assert longer.(elements := line.elements) == line;
  }

  lemma Regroup(flags: string, letters: string)
    requires letters != ""
    ensures flags + [letters[0]] + letters[1..] == flags + letters
    ensures "-" + flags + [letters[0]] + letters[1..] == "-" + flags + letters
    ensures "-" + (flags + [letters[0]]) + letters[1..] == "-" + flags + letters
  {
  }

  /** The element at the start of arguments whose scan succeeds, and what follows it. */
  lemma {:induction false} GroupElement(flags: string, letters: string, following: seq<string>)
    returns (element: Element, rest: seq<string>)
    requires AllFlags(flags) && flags + letters != "" && ScanLetters(letters, following).Ok?
    ensures WellFormed(element) && Arguments(element) + rest == ["-" + flags + letters] + following
    ensures |rest| <= |following| && Scan(rest).Ok?
    decreases |letters|
  {
    hide Scan;
    if letters == "" {
      element, rest := Flags(flags), following;
      assert "-" + flags + letters == "-" + flags;
    } else if letters[0] in FlagOptions {
      Regroup(flags, letters);
      element, rest := GroupElement(flags + [letters[0]], letters[1..], following);
    } else if letters[1..] != "" {
      element, rest := Attached(flags, letters[0], letters[1..]), following;
      Regroup(flags, letters);
    } else {
      element, rest := Separate(flags, letters[0], following[0]), following[1..];
      assert letters == [letters[0]];
      assert [following[0]] + following[1..] == following;
    }
  }

  /** Whatever the scan accepts is a command line of the grammar. */
  lemma {:induction false} ScanIsSound(arguments: seq<string>) returns (line: Line)
    requires Scan(arguments).Ok?
    ensures LineWellFormed(line) && LineArguments(line) == arguments
    ensures Scan(arguments) == Ok(Scanned(LineChoices(line), line.unread.Some?))
    decreases |arguments|
  {
    if arguments == [] {
      line := Line([], None);
    } else if arguments[0] == "--" {
      line := Line([], Some(arguments[1..]));
    } else if IsOperand(arguments[0]) {
      line := ScanIsSound(arguments[1..]);
      LineLonger(Operand(arguments[0]), line);
      line := Line([Operand(arguments[0])] + line.elements, line.unread);
    } else {
      assert arguments[0] == "-" + "" + arguments[0][1..];
      var element, rest := GroupElement("", arguments[0][1..], arguments[1..]);
      line := ScanIsSound(rest);
      LineLonger(element, line);
      line := Line([element] + line.elements, line.unread);
      assert [arguments[0]] + arguments[1..] == arguments;
    }
    ScanIsComplete(line);
  }

  // The scan distributes over concatenation

  function After(scanned: Scanning, rest: seq<string>): Scanning {
    match scanned
    case Ok(Scanned(choices, false)) => Prepend(choices, Scan(rest))
    case _ => scanned
  }

  lemma AfterPrepended(choices: seq<Choice>, scanned: Scanning, rest: seq<string>)
    ensures After(Prepend(choices, scanned), rest) == Prepend(choices, After(scanned, rest))
  {
    if scanned.Ok? && !scanned.value.stopped {
      PrependTwice(choices, scanned.value.choices, Scan(rest));
    }
  }

  /** Unless the first part ends in the middle of an option, scanning two parts is scanning the first and, if
      it did not stop, then the second. */
  lemma {:induction false} ScanDistributes(first: seq<string>, second: seq<string>)
    requires !(Scan(first).Err? && Scan(first).error.ValueRequired?)
    ensures Scan(first + second) == After(Scan(first), second)
    decreases |first|, 0
  {
    if first == [] {
      assert first + second == second;
      PrependNothing(Scan(second));
    } else {
      assert (first + second)[0] == first[0] && (first + second)[1..] == first[1..] + second;
      if first[0] == "--" {
      } else if IsOperand(first[0]) {
        ScanDistributes(first[1..], second);
      } else if !IsLong(first[0]) {
        LettersDistribute(first[0][1..], first[1..], second);
      }
    }
  }

  lemma {:induction false} LettersDistribute(letters: string, first: seq<string>, second: seq<string>)
    requires var scanned := ScanLetters(letters, first); !(scanned.Err? && scanned.error.ValueRequired?)
    ensures ScanLetters(letters, first + second) == After(ScanLetters(letters, first), second)
    decreases |first|, 1 + |letters|
  {
    if letters == "" {
      ScanDistributes(first, second);
    } else if letters[0] in FlagOptions {
      LettersDistribute(letters[1..], first, second);
      AfterPrepended([Choice(letters[0], None)], ScanLetters(letters[1..], first), second);
    } else if letters[0] in ValueOptions {
      if letters[1..] != "" {
        ScanDistributes(first, second);
        AfterPrepended([Choice(letters[0], Some(letters[1..]))], Scan(first), second);
      } else {
        assert (first + second)[0] == first[0] && (first + second)[1..] == first[1..] + second;
        ScanDistributes(first[1..], second);
        AfterPrepended([Choice(letters[0], Some(first[0]))], Scan(first[1..]), second);
      }
    }
  }

  /** A first part that ends in the middle of an option takes the next argument as its value, whatever it is; and
      the scan goes on behind it. */
  lemma ScanCutInOption(first: seq<string>, second: seq<string>)
    requires Scan(first).Err? && Scan(first).error.ValueRequired? && second != []
    ensures var whole := first + [second[0]];
            && Scan(whole).Ok? && !Scan(whole).value.stopped
            && Scan(first + second) == After(Scan(whole), second[1..])
  {
    hide Scan, After;
    var whole := first + [second[0]];
    PendingTakesNext(first, second[0]);
    assert first + second == whole + second[1..];
    ScanDistributes(whole, second[1..]);
  }

  lemma {:induction false} PendingTakesNext(first: seq<string>, next: string)
    requires Scan(first).Err? && Scan(first).error.ValueRequired?
    ensures Scan(first + [next]).Ok? && !Scan(first + [next]).value.stopped
    decreases |first|, 0
  {
    assert (first + [next])[0] == first[0] && (first + [next])[1..] == first[1..] + [next];
    if IsOperand(first[0]) {
      PendingTakesNext(first[1..], next);
    } else {
      PendingLetters(first[0][1..], first[1..], next);
    }
  }

  lemma {:induction false} PendingLetters(letters: string, first: seq<string>, next: string)
    requires var scanned := ScanLetters(letters, first); scanned.Err? && scanned.error.ValueRequired?
    ensures var scanned := ScanLetters(letters, first + [next]); scanned.Ok? && !scanned.value.stopped
    decreases |first|, 1 + |letters|
  {
    if letters == "" {
      PendingTakesNext(first, next);
    } else if letters[0] in FlagOptions {
      PendingLetters(letters[1..], first, next);
    } else if letters[1..] != "" {
      PendingTakesNext(first, next);
    } else if first == [] {
      assert (first + [next])[1..] == [];
    } else {
      assert (first + [next])[0] == first[0] && (first + [next])[1..] == first[1..] + [next];
      PendingTakesNext(first[1..], next);
    }
  }

  // Overrides

  /** `value.partition("=")`. */
  function Partition(value: string): (parts: (string, bool, string))
    ensures '=' !in parts.0
    ensures value == parts.0 + (if parts.1 then "=" else "") + parts.2
    ensures !parts.1 ==> parts.2 == ""
  {
    if value == "" then ("", false, "")
    else if value[0] == '=' then ("", true, value[1..])
    else
      var rest := Partition(value[1..]);
      ([value[0]] + rest.0, rest.1, rest.2)
  }

  /** Whether a property given to a running session leaves the profile's connection alone. */
  predicate SafeProperty(value: string) {
    var (name, separator, setting) := Partition(value);
    && separator && setting != "" && name in {"group.id", "broker.address.family"}
    && (name != "broker.address.family" || setting in {"v4", "v6", "any"})
  }

  predicate IsConnection(choice: Choice) {
    choice.letter in ConnectionOptions
  }

  predicate IsOverride(choice: Choice) {
    IsConnection(choice) || (choice.letter == 'X' && (choice.value.None? || !SafeProperty(choice.value.value)))
  }

  /** The first option that would override the profile. */
  function FirstOverride(choices: seq<Choice>): (letter: Option<char>)
    ensures letter.None? <==> forall i :: 0 <= i < |choices| ==> !IsOverride(choices[i])
  {
    if choices == [] then None
    else if IsOverride(choices[0]) then Some(choices[0].letter)
    else
      var rest := FirstOverride(choices[1..]);
      assert choices == [choices[0]] + choices[1..];
      rest
  }

  /** `_reject_kcat_overrides`. */
  method RejectKcatOverrides(arguments: seq<string>) returns (options: Result<seq<Choice>, AdapterError>)
    ensures options == Accepted(Scan(arguments))
  {
    var found :- KcatOptions(arguments);
    var i := 0;
    assert found[0..] == found;
    while i < |found|
      invariant i <= |found| && FirstOverride(found) == FirstOverride(found[i..])
    {
      if IsConnection(found[i]) {
        return Err(Overrides(found[i].letter));
      }
      if found[i].letter == 'X' && (found[i].value.None? || !SafeProperty(found[i].value.value)) {
        return Err(Overrides('X'));
      }
      i := i + 1;
    }
    options := Ok(found);
  }

  function Accepted(scanned: Scanning): Result<seq<Choice>, AdapterError> {
    match scanned
    case Err(error) => Err(error)
    case Ok(found) =>
      var override := FirstOverride(found.choices);
      if override.Some? then Err(Overrides(override.value)) else Ok(found.choices)
  }

  // The prepared command

  datatype Registry = Registry(confluent: bool, hasAuth: bool, url: string)

  /** `str.lower` on the letters that can become an ASCII letter: the capitals and the Kelvin sign. */
  function Lower(c: char): char {
    if 'A' <= c <= 'Z' then c - 'A' + 'a' else if c == '\U{212A}' then 'k' else c
  }

  function Lowered(text: string): string {
    seq(|text|, i requires 0 <= i < |text| => Lower(text[i]))
  }

  predicate NamesRegistry(choice: Choice) {
    choice.letter == 's' && choice.value.Some? && Lowered(choice.value.value) in {"avro", "key=avro", "value=avro"}
  }

  predicate UsesRegistry(choices: seq<Choice>) {
    exists i :: 0 <= i < |choices| && NamesRegistry(choices[i])
  }

  predicate Suitable(registry: Option<Registry>) {
    registry.Some? && registry.value.confluent && !registry.value.hasAuth
  }

  function Prepared(prepared: seq<string>, registry: Option<Registry>): Result<seq<string>, AdapterError>
    requires prepared != []
  {
    match Accepted(Scan(prepared[1..]))
    case Err(error) => Err(error)
    case Ok(options) =>
      if !UsesRegistry(options) then Ok(prepared)
      else if registry.None? then Err(RegistryRequired)
      else if !Suitable(registry) then Err(RegistryUnsuitable)
      else Ok([prepared[0], "-r", registry.value.url] + prepared[1..])
  }

  // What the profile keeps

  /** The settings that leave the profile's connection alone. */
  ghost predicate Harmless(setting: string) {
    || (exists id :: setting == "group.id=" + id && id != "")
    || setting == "broker.address.family=" + "v4" || setting == "broker.address.family=" + "v6"
    || setting == "broker.address.family=" + "any"
  }

  /** An option that would replace the profile's connection, or part of it. */
  ghost predicate Overriding(choice: Choice) {
    || choice.letter == 'F' || choice.letter == 'r' || choice.letter == 'b'
    || (choice.letter == 'X' && (choice.value == None || !Harmless(choice.value.value)))
  }

  /** A word in small letters, whatever the case it is written in; the Kelvin sign is a capital k. */
  ghost predicate Written(text: string, word: string) {
    && |text| == |word|
    && forall i :: 0 <= i < |word| ==>
         || (text[i] == word[i] && !('A' <= text[i] <= 'Z'))
         || ('a' <= word[i] <= 'z' && text[i] as int == word[i] as int - 32)
         || (word[i] == 'k' && text[i] as int == 0x212A)
  }

  /** Some option asks for Avro keys, values or both. */
  ghost predicate NeedsRegistry(choices: seq<Choice>) {
    exists i :: 0 <= i < |choices| && AsksForAvro(choices[i])
  }

  ghost predicate AsksForAvro(choice: Choice) {
    && choice.letter == 's' && choice.value != None
    && (Written(choice.value.value, "avro") || Written(choice.value.value, "key=avro") ||
        Written(choice.value.value, "value=avro"))
  }

  lemma {:induction false} PartitionOf(name: string, setting: string)
    requires '=' !in name
    ensures Partition(name + "=" + setting) == (name, true, setting)
  {
    var value := name + "=" + setting;
    if name != "" {
      assert value[1..] == name[1..] + "=" + setting;
      PartitionOf(name[1..], setting);
      assert name == [name[0]] + name[1..];
    } else {
      assert value[1..] == setting;
    }
  }

  lemma SettingsArePlain()
    ensures '=' !in "group.id" && '=' !in "broker.address.family"
    ensures "group.id" != "broker.address.family"
    ensures "group.id=" == "group.id" + "=" && "broker.address.family=" == "broker.address.family" + "="
  {
    assert "group.id"[0] != "broker.address.family"[0];
  }

  lemma HarmlessExactly(setting: string)
    ensures Harmless(setting) <==> SafeProperty(setting)
  {
    hide Partition;
    SettingsArePlain();
    var (name, separator, value) := Partition(setting);
    if exists id :: setting == "group.id=" + id && id != "" {
      var id :| setting == "group.id=" + id && id != "";
      assert setting == "group.id" + "=" + id;
      PartitionOf("group.id", id);
    }
    forall family | setting == "broker.address.family=" + family
      ensures Partition(setting) == ("broker.address.family", true, family)
    {
      assert setting == "broker.address.family" + "=" + family;
      PartitionOf("broker.address.family", family);
    }
    if SafeProperty(setting) {
      assert setting == name + "=" + value;
    }
  }

  lemma OverridingExactly(choice: Choice)
    ensures Overriding(choice) <==> IsOverride(choice)
  {
    hide SafeProperty, Harmless;
    if choice.value.Some? {
      HarmlessExactly(choice.value.value);
    }
  }

  lemma WrittenExactly(text: string, word: string)
    requires forall i :: 0 <= i < |word| ==> word[i] == '=' || 'a' <= word[i] <= 'z'
    ensures Written(text, word) <==> Lowered(text) == word
  {
    if Written(text, word) {
      assert forall i :: 0 <= i < |word| ==> Lowered(text)[i] == word[i];
    }
    if Lowered(text) == word {
      assert forall i :: 0 <= i < |word| ==> Lower(text[i]) == word[i];
    }
  }

  lemma AsksForAvroExactly(choice: Choice)
    ensures AsksForAvro(choice) <==> NamesRegistry(choice)
  {
    hide Written, Lowered;
    if choice.value.Some? {
      WrittenExactly(choice.value.value, "avro");
      WrittenExactly(choice.value.value, "key=avro");
      WrittenExactly(choice.value.value, "value=avro");
    }
  }

  lemma ChoicesExactly(choices: seq<Choice>)
    ensures NeedsRegistry(choices) <==> UsesRegistry(choices)
    ensures forall i :: 0 <= i < |choices| ==> (Overriding(choices[i]) <==> IsOverride(choices[i]))
  {
    hide AsksForAvro, NamesRegistry, Overriding, IsOverride;
    forall i | 0 <= i < |choices|
      ensures AsksForAvro(choices[i]) <==> NamesRegistry(choices[i])
      ensures Overriding(choices[i]) <==> IsOverride(choices[i])
    {
      AsksForAvroExactly(choices[i]);
      OverridingExactly(choices[i]);
    }
  }

  /** The command runs the user's program with the user's options in their order, none of which replaces the profile's
      connection. Before them it has the profile's Registry, exactly when an Avro option needs it. */
  ghost predicate KeepsProfile(prepared: seq<string>, command: seq<string>, registry: Option<Registry>) {
    && prepared != [] && command != [] && command[0] == prepared[0]
    && var mine, all := Scan(prepared[1..]), Scan(command[1..]);
    && mine.Ok? && all.Ok? && all.value.stopped == mine.value.stopped
    && (forall i :: 0 <= i < |mine.value.choices| ==> !Overriding(mine.value.choices[i]))
    && (if NeedsRegistry(mine.value.choices) then
          && registry != None && registry.value.confluent && !registry.value.hasAuth
          && all.value.choices == [Choice('r', Some(registry.value.url))] + mine.value.choices
        else command == prepared)
  }

  lemma PreparedKeepsProfile(prepared: seq<string>, registry: Option<Registry>)
    requires prepared != [] && Prepared(prepared, registry).Ok?
    ensures KeepsProfile(prepared, Prepared(prepared, registry).value, registry)
  {
    hide Scan, Overriding, IsOverride, NeedsRegistry, UsesRegistry;
    var command := Prepared(prepared, registry).value;
    var mine := Scan(prepared[1..]).value.choices;
    ChoicesExactly(mine);
    if UsesRegistry(mine) {
      var url := registry.value.url;
      assert command[1..] == ["-r", url] + prepared[1..];
      ScanElement(Separate("", 'r', url), prepared[1..]);
      assert "-" + "" + ['r'] == "-r";
      assert Arguments(Separate("", 'r', url)) == ["-r", url];
      assert FlagChoices("") + [Choice('r', Some(url))] == [Choice('r', Some(url))];
    }
  }

  /** A command line that may be run: it can be read, keeps the profile and has the Registry it needs. */
  ghost predicate Acceptable(line: Line, registry: Option<Registry>) {
    && LineWellFormed(line)
    && (forall i :: 0 <= i < |LineChoices(line)| ==> !Overriding(LineChoices(line)[i]))
    && (NeedsRegistry(LineChoices(line)) ==> registry != None && registry.value.confluent && !registry.value.hasAuth)
  }

  /** What becomes of a command line that can be read: the first overriding option is refused, and then a Registry that
      is missing or cannot be used. */
  ghost predicate Outcome(prepared: seq<string>, choices: seq<Choice>, registry: Option<Registry>,
                          command: Result<seq<string>, AdapterError>)
    requires prepared != []
  {
    if exists i :: 0 <= i < |choices| && Overriding(choices[i]) then
      exists i ::
        && 0 <= i < |choices| && Overriding(choices[i]) && (forall j :: 0 <= j < i ==> !Overriding(choices[j]))
        && command == Err(Overrides(choices[i].letter))
    else if !NeedsRegistry(choices) then command == Ok(prepared)
    else
      match registry
      case None => command == Err(RegistryRequired)
      case Some(Registry(confluent, hasAuth, url)) =>
        command == if confluent && !hasAuth then Ok([prepared[0], "-r", url] + prepared[1..]) else Err(RegistryUnsuitable)
  }

  lemma {:induction false} FirstOverrideIs(choices: seq<Choice>) returns (i: nat)
    requires FirstOverride(choices).Some?
    ensures i < |choices| && IsOverride(choices[i]) && (forall j :: 0 <= j < i ==> !IsOverride(choices[j]))
    ensures FirstOverride(choices) == Some(choices[i].letter)
  {
    if IsOverride(choices[0]) {
      i := 0;
    } else {
      var later := FirstOverrideIs(choices[1..]);
      i := later + 1;
      assert forall j :: 1 <= j < i ==> choices[j] == choices[1..][j - 1];
    }
  }

  lemma LineOutcome(prepared: seq<string>, line: Line, registry: Option<Registry>)
    requires prepared != [] && LineWellFormed(line) && LineArguments(line) == prepared[1..]
    ensures Outcome(prepared, LineChoices(line), registry, Prepared(prepared, registry))
  {
    hide Scan, LineArguments, LineChoices, LineWellFormed, IsOverride, UsesRegistry, Overriding, NeedsRegistry;
    ScanIsComplete(line);
    var choices := LineChoices(line);
    ChoicesExactly(choices);
    if FirstOverride(choices).Some? {
      var i := FirstOverrideIs(choices);
      assert Overriding(choices[i]);
    }
  }

  lemma OutcomeAccepts(prepared: seq<string>, line: Line, registry: Option<Registry>,
                       command: Result<seq<string>, AdapterError>)
    requires prepared != [] && LineWellFormed(line) && Outcome(prepared, LineChoices(line), registry, command)
    ensures command.Ok? <==> Acceptable(line, registry)
  {
    hide LineChoices, LineWellFormed, Overriding, NeedsRegistry;
  }

  /** A command is accepted exactly when its arguments are such a line. */
  lemma PreparedWhen(prepared: seq<string>, registry: Option<Registry>)
    requires prepared != []
    ensures Prepared(prepared, registry).Ok? <==>
            exists line: Line :: LineArguments(line) == prepared[1..] && Acceptable(line, registry)
  {
    hide Scan, LineArguments, LineChoices, Overriding, NeedsRegistry, Outcome, LineWellFormed;
    if Prepared(prepared, registry).Ok? {
      var line := ScanIsSound(prepared[1..]);
      LineOutcome(prepared, line, registry);
      OutcomeAccepts(prepared, line, registry, Prepared(prepared, registry));
    }
    forall line: Line | LineArguments(line) == prepared[1..] && Acceptable(line, registry)
      ensures Prepared(prepared, registry).Ok? {
      LineOutcome(prepared, line, registry);
      OutcomeAccepts(prepared, line, registry, Prepared(prepared, registry));
    }
  }

  /** What cannot be read is refused as such. */
  lemma Unreadable(prepared: seq<string>, registry: Option<Registry>)
    requires prepared != [] && forall line :: LineWellFormed(line) ==> LineArguments(line) != prepared[1..]
    ensures Prepared(prepared, registry).Err?
    ensures Prepared(prepared, registry).error.NotSupported? || Prepared(prepared, registry).error.ValueRequired?
  {
    hide Scan, LineArguments, LineChoices, LineWellFormed;
    ReadByScan(prepared[1..]);
    ScanErrors(prepared[1..]);
  }

  lemma ReadByScan(arguments: seq<string>)
    ensures Scan(arguments).Ok? ==> exists line :: LineWellFormed(line) && LineArguments(line) == arguments
  {
    hide Scan, LineArguments, LineChoices, LineWellFormed;
    if Scan(arguments).Ok? {
      var line := ScanIsSound(arguments);
    }
  }

  lemma {:induction false} ScanErrors(arguments: seq<string>)
    requires Scan(arguments).Err?
    ensures Scan(arguments).error.NotSupported? || Scan(arguments).error.ValueRequired?
    decreases |arguments|, 0
  {
    if IsOperand(arguments[0]) {
      ScanErrors(arguments[1..]);
    } else if !IsLong(arguments[0]) {
      LetterErrors(arguments[0][1..], arguments[1..]);
    }
  }

  lemma {:induction false} LetterErrors(letters: string, following: seq<string>)
    requires ScanLetters(letters, following).Err?
    ensures var error := ScanLetters(letters, following).error; error.NotSupported? || error.ValueRequired?
    decreases |following|, 1 + |letters|
  {
    if letters == "" {
      ScanErrors(following);
    } else if letters[0] in FlagOptions {
      LetterErrors(letters[1..], following);
    } else if letters[0] in ValueOptions && letters[1..] != "" {
      ScanErrors(following);
    } else if letters[0] in ValueOptions && following != [] {
      ScanErrors(following[1..]);
    }
  }

  /** `prepare_kcat_command`. */
  method PrepareKcatCommand(prepared: seq<string>, registry: Option<Registry>)
    returns (command: Result<seq<string>, AdapterError>)
    requires prepared != []
    ensures command.Ok? ==> KeepsProfile(prepared, command.value, registry)
    ensures command.Ok? <==> exists line: Line :: LineArguments(line) == prepared[1..] && Acceptable(line, registry)
    ensures forall line :: LineWellFormed(line) && LineArguments(line) == prepared[1..] ==>
                             Outcome(prepared, LineChoices(line), registry, command)
    ensures (forall line :: LineWellFormed(line) ==> LineArguments(line) != prepared[1..]) ==>
              command.Err? && (command.error.NotSupported? || command.error.ValueRequired?)
    ensures command == Prepared(prepared, registry)
  {
    hide KeepsProfile, Acceptable, LineArguments, UsesRegistry, Scan, LineWellFormed, Outcome, LineChoices;
    PreparedWhen(prepared, registry);
    if Prepared(prepared, registry).Ok? {
      PreparedKeepsProfile(prepared, registry);
    }
    forall line | LineWellFormed(line) && LineArguments(line) == prepared[1..]
      ensures Outcome(prepared, LineChoices(line), registry, Prepared(prepared, registry))
    {
      LineOutcome(prepared, line, registry);
    }
    if forall line :: LineWellFormed(line) ==> LineArguments(line) != prepared[1..] {
      Unreadable(prepared, registry);
    }
    var options :- RejectKcatOverrides(prepared[1..]);
    if UsesRegistry(options) {
      if registry.None? {
        return Err(RegistryRequired);
      }
      if !registry.value.confluent || registry.value.hasAuth {
        return Err(RegistryUnsuitable);
      }
      return Ok([prepared[0], "-r", registry.value.url] + prepared[1..]);
    }
    command := Ok(prepared);
  }
}
