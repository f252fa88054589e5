/** The `security` commands of a macOS vault and the length of their lines (`macos_vault.py`).

    Texts are UTF-8 encoded, so a character here is a byte and a length counts bytes. */
module KeychainLines {
  import opened Wrappers

  const LINE_BUDGET := 4000
  const MAX_PIECES := 999
  const MIN_PIECE_BYTES := 256
  const SERVICE_NAME := "kantrip"

  type Byte = value: int | 0 <= value < 256

  datatype Command =
    | Add(account: string, title: string, count: nat, data: seq<Byte>)
    | Delete(account: string)

  // Numbers

  function Digit(value: nat): (c: char)
    requires value < 10
    ensures '0' <= c <= '9'
  {
    '0' + value as char
  }

  /** `str(value)`. */
  function Decimal(value: nat): (text: string)
    ensures text != "" && forall i :: 0 <= i < |text| ==> '0' <= text[i] <= '9'
  {
    if value < 10 then [Digit(value)] else Decimal(value / 10) + [Digit(value % 10)]
  }

  function Number(digits: string): nat
    requires forall i :: 0 <= i < |digits| ==> '0' <= digits[i] <= '9'
  {
    if digits == "" then 0
    else Number(digits[..|digits| - 1]) * 10 + (digits[|digits| - 1] as int - '0' as int)
  }

  lemma {:induction false} NumberOfDecimal(value: nat)
    ensures Number(Decimal(value)) == value
  {
    var text := Decimal(value);
    if value < 10 {
      assert text[..0] == "";
    } else {
      NumberOfDecimal(value / 10);
      assert text[..|text| - 1] == Decimal(value / 10);
    }
  }

  lemma DecimalIsOneToOne(a: nat, b: nat)
    requires Decimal(a) == Decimal(b)
    ensures a == b
  {
    NumberOfDecimal(a);
    NumberOfDecimal(b);
  }

  /** Larger numbers are never shorter. */
  lemma {:induction false} WiderDecimal(a: nat, b: nat)
    requires a <= b
    ensures |Decimal(a)| <= |Decimal(b)|
  {
    if 10 <= a {
      WiderDecimal(a / 10, b / 10);
    }
  }

  /** `data.hex()`. */
  function Hex(data: seq<Byte>): (text: string)
    ensures |text| == 2 * |data|
  {
    if data == [] then "" else [HexDigit(data[0] / 16), HexDigit(data[0] % 16)] + Hex(data[1..])
  }

  function HexDigit(value: int): char
    requires 0 <= value < 16
  {
    if value < 10 then '0' + value as char else 'a' + (value - 10) as char
  }

  const HEX_DIGITS := "0123456789abcdef"

  /** Two digits for each byte, the sixteens before the ones. */
  ghost predicate HexOf(data: seq<Byte>, text: string) {
    && |text| == 2 * |data|
    && forall i :: 0 <= i < |data| ==>
         text[2 * i] == HEX_DIGITS[data[i] / 16] && text[2 * i + 1] == HEX_DIGITS[data[i] % 16]
  }

  lemma HexDigitIs(value: int)
    requires 0 <= value < 16
    ensures HexDigit(value) == HEX_DIGITS[value] && HexDigit(value) in HEX_DIGITS
  {
  }

  lemma {:induction false} HexExactly(data: seq<Byte>)
    ensures HexOf(data, Hex(data))
  {
    hide HexDigit;
    if data != [] {
      var text, rest := Hex(data), Hex(data[1..]);
      HexExactly(data[1..]);
      assert text[2..] == rest;
      forall i | 0 <= i < |data|
        ensures text[2 * i] == HEX_DIGITS[data[i] / 16] && text[2 * i + 1] == HEX_DIGITS[data[i] % 16]
      {
        if i == 0 {
          HexDigitIs(data[0] / 16);
          HexDigitIs(data[0] % 16);
        } else {
          assert text[2 * i] == rest[2 * (i - 1)] && text[2 * i + 1] == rest[2 * (i - 1) + 1];
        }
      }
    }
  }

  /** `bytes.fromhex`, for the digits that are printed. */
  function FromHex(text: string): Option<seq<Byte>> {
    if text == "" then Some([])
    else if |text| == 1 || text[0] !in HEX_DIGITS || text[1] !in HEX_DIGITS then None
    else
      var rest := FromHex(text[2..]);
      if rest.None? then None else Some([HexValue(text[0]) * 16 + HexValue(text[1])] + rest.value)
  }

  function HexValue(c: char): (value: nat)
    requires c in HEX_DIGITS
    ensures value < 16 && HEX_DIGITS[value] == c
  {
    assert exists i :: 0 <= i < |HEX_DIGITS| && HEX_DIGITS[i] == c;
    var value :| 0 <= value < |HEX_DIGITS| && HEX_DIGITS[value] == c;
    value
  }

  lemma DigitComesBack(value: nat)
    requires value < 16
    ensures HexDigit(value) in HEX_DIGITS && HexValue(HexDigit(value)) == value
  {
    HexDigitIs(value);
    DigitsDiffer(HexValue(HexDigit(value)), value);
  }

  lemma DigitsDiffer(value: nat, other: nat)
    requires value < 16 && other < 16 && HEX_DIGITS[value] == HEX_DIGITS[other]
    ensures value == other
  {
  }

  /** Decoding printed bytes gives the bytes. */
  lemma {:induction false} FromHexInverts(data: seq<Byte>)
    ensures FromHex(Hex(data)) == Some(data)
  {
    hide HexDigit, HexValue, HEX_DIGITS;
    if data != [] {
      var text := Hex(data);
      DigitComesBack(data[0] / 16);
      DigitComesBack(data[0] % 16);
      assert text[2..] == Hex(data[1..]);
      FromHexInverts(data[1..]);
      assert data == [data[0]] + data[1..];
    }
  }

  // Names

  function PieceAccount(reference: string, index: nat): string {
    if index == 0 then reference else reference + "#" + Decimal(index)
  }

  function PieceLabel(title: string, index: nat, count: nat): string {
    if count == 1 then title else title + ", part " + Decimal(index + 1) + " of " + Decimal(count)
  }

  lemma AccountsDiffer(reference: string, index: nat, other: string, otherIndex: nat)
    requires '#' !in reference && '#' !in other
    requires PieceAccount(reference, index) == PieceAccount(other, otherIndex)
    ensures reference == other && index == otherIndex
  {
    var account := PieceAccount(reference, index);
    if index != 0 {
      assert account[|reference|] == '#';
    }
    if otherIndex != 0 {
      assert account[|other|] == '#';
    }
    if index != 0 && otherIndex != 0 {
      assert forall i :: 0 <= i < |reference| ==> account[i] == reference[i] && account[i] != '#';
      assert forall i :: 0 <= i < |other| ==> account[i] == other[i] && account[i] != '#';
      assert |reference| == |other|;
      assert account[|reference| + 1..] == Decimal(index) && account[|other| + 1..] == Decimal(otherIndex);
      DecimalIsOneToOne(index, otherIndex);
    }
  }

  // Lines

  function AddLine(account: string, title: string, count: nat, data: seq<Byte>, path: string): string {
    "add-generic-password -U -a \"" + account + "\" -s " + SERVICE_NAME + " -l \"" + title + "\" -G " +
    Decimal(count) + " -X " + Hex(data) + " \"" + path + "\""
  }

  function DeleteLine(account: string, path: string): string {
    "delete-generic-password -a \"" + account + "\" -s " + SERVICE_NAME + " \"" + path + "\""
  }

  function Line(command: Command, path: string): string {
    match command
    case Add(account, title, count, data) => AddLine(account, title, count, data, path)
    case Delete(account) => DeleteLine(account, path)
  }

  lemma CutOnce(mark: char, a: string, b: string, afterA: string, afterB: string)
    requires a + [mark] + afterA == b + [mark] + afterB && mark !in a && mark !in b
    ensures a == b && afterA == afterB
  {
    var text := a + [mark] + afterA;
    assert text[|a|] == mark && text[|b|] == mark;
    assert forall i :: 0 <= i < |a| ==> text[i] == a[i] && a[i] in a;
    assert forall i :: 0 <= i < |b| ==> text[i] == b[i] && b[i] in b;
    assert |a| == |b|;
    assert a == text[..|a|] && b == text[..|b|];
    assert afterA == text[|a| + 1..] && afterB == text[|b| + 1..];
  }

  predicate Quotable(text: string) {
    '"' !in text
  }

  lemma HexIsPlain(data: seq<Byte>)
    ensures ' ' !in Hex(data)
  {
    hide HexDigit, HEX_DIGITS, Hex;
    NoDigitIsBlank();
    HexExactly(data);
    forall i | 0 <= i < |Hex(data)| ensures Hex(data)[i] != ' ' {
      var byte := data[i / 2];
      assert i == 2 * (i / 2) || i == 2 * (i / 2) + 1;
      assert Hex(data)[i] == HEX_DIGITS[byte / 16] || Hex(data)[i] == HEX_DIGITS[byte % 16];
    }
  }

  lemma NoDigitIsBlank()
    ensures |HEX_DIGITS| == 16 && forall value :: 0 <= value < 16 ==> HEX_DIGITS[value] != ' '
  {
  }

  lemma Peeled(front: string, x: string, y: string)
    requires front + x == front + y
    ensures x == y
  {
    assert (front + x)[|front|..] == x && (front + y)[|front|..] == y;
  }

  const ADD_START := "add-generic-password -U -a \""
  const SERVICE_LABEL := " -s " + SERVICE_NAME + " -l \""

  function BytesPart(data: seq<Byte>, path: string): string {
    "-X " + (Hex(data) + " " + ("\"" + path + "\""))
  }

  function CountPart(count: nat, data: seq<Byte>, path: string): string {
    " -G " + (Decimal(count) + " " + BytesPart(data, path))
  }

  lemma AddLineParts(account: string, title: string, count: nat, data: seq<Byte>, path: string)
    ensures AddLine(account, title, count, data, path) ==
            ADD_START + (account + "\"" + (SERVICE_LABEL + (title + "\"" + CountPart(count, data, path))))
  {
    hide Decimal, Hex;
  }

  lemma BytesPartSays(data: seq<Byte>, data': seq<Byte>, path: string)
    requires BytesPart(data, path) == BytesPart(data', path)
    ensures data == data'
  {
    hide Hex;
    var end := "\"" + path + "\"";
    Peeled("-X ", Hex(data) + " " + end, Hex(data') + " " + end);
    HexIsPlain(data);
    HexIsPlain(data');
    CutOnce(' ', Hex(data), Hex(data'), end, end);
    FromHexInverts(data);
    FromHexInverts(data');
  }

  lemma CountPartSays(count: nat, data: seq<Byte>, count': nat, data': seq<Byte>, path: string)
    requires CountPart(count, data, path) == CountPart(count', data', path)
    ensures count == count' && data == data'
  {
    hide Decimal, BytesPart;
    var bytes, bytes' := BytesPart(data, path), BytesPart(data', path);
    Peeled(" -G ", Decimal(count) + " " + bytes, Decimal(count') + " " + bytes');
    CutOnce(' ', Decimal(count), Decimal(count'), bytes, bytes');
    DecimalIsOneToOne(count, count');
    BytesPartSays(data, data', path);
  }

  /** The printed text of an addition names its account, label, count and bytes. */
  lemma AddLineSays(account: string, title: string, count: nat, data: seq<Byte>, account': string, title': string,
                    count': nat, data': seq<Byte>, path: string)
    requires Quotable(account) && Quotable(title) && Quotable(account') && Quotable(title')
    requires AddLine(account, title, count, data, path) == AddLine(account', title', count', data', path)
    ensures account == account' && title == title' && count == count' && data == data'
  {
    hide AddLine, CountPart, ADD_START, SERVICE_LABEL;
    AddLineParts(account, title, count, data, path);
    AddLineParts(account', title', count', data', path);
    var part, part' := CountPart(count, data, path), CountPart(count', data', path);
    var named, named' := title + "\"" + part, title' + "\"" + part';
    Peeled(ADD_START, account + "\"" + (SERVICE_LABEL + named), account' + "\"" + (SERVICE_LABEL + named'));
    CutOnce('"', account, account', SERVICE_LABEL + named, SERVICE_LABEL + named');
    Peeled(SERVICE_LABEL, named, named');
    CutOnce('"', title, title', part, part');
    CountPartSays(count, data, count', data', path);
  }

  lemma DeleteLineSays(account: string, account': string, path: string)
    requires Quotable(account) && Quotable(account') && DeleteLine(account, path) == DeleteLine(account', path)
    ensures account == account'
  {
    var end := " -s " + SERVICE_NAME + " \"" + path + "\"";
    var start := "delete-generic-password -a \"";
    assert DeleteLine(account, path) == start + (account + "\"" + end);
    assert DeleteLine(account', path) == start + (account' + "\"" + end);
    Peeled(start, account + "\"" + end, account' + "\"" + end);
    CutOnce('"', account, account', end, end);
  }

  predicate QuotableCommand(command: Command) {
    Quotable(command.account) && (command.Add? ==> Quotable(command.title))
  }

  /** A printed line determines its command. */
  lemma LineSays(command: Command, other: Command, path: string)
    requires QuotableCommand(command) && QuotableCommand(other) && Line(command, path) == Line(other, path)
    ensures command == other
  {
    hide AddLine, DeleteLine;
    match (command, other) {
      case (Add(account, title, count, data), Add(account', title', count', data')) =>
        AddLineSays(account, title, count, data, account', title', count', data', path);
      case (Delete(account), Delete(account')) => DeleteLineSays(account, account', path);
      case (Add(account, title, count, data), Delete(account')) => LinesApart(account, title, count, data, account', path);
      case (Delete(account), Add(account', title, count, data)) => LinesApart(account', title, count, data, account, path);
    }
  }

  lemma LinesApart(account: string, title: string, count: nat, data: seq<Byte>, account': string, path: string)
    ensures AddLine(account, title, count, data, path) != DeleteLine(account', path)
  {
    assert AddLine(account, title, count, data, path)[0] == 'a' && DeleteLine(account', path)[0] == 'd';
  }

  /** `_piece_capacity`: how many bytes every piece may have, if that is enough. */
  function PieceCapacity(reference: string, title: string, path: string): (capacity: Option<nat>)
    ensures capacity.Some? ==> capacity.value >= MIN_PIECE_BYTES
  {
    var longest := |AddLine(PieceAccount(reference, MAX_PIECES), PieceLabel(title, MAX_PIECES, MAX_PIECES),
                            MAX_PIECES, [], path)|;
    if longest > LINE_BUDGET || (LINE_BUDGET - longest) / 2 < MIN_PIECE_BYTES then None
    else Some((LINE_BUDGET - longest) / 2)
  }

  /** The longest line that names a piece with this much data. */
  function LongestLine(reference: string, title: string, data: seq<Byte>, path: string): string {
    AddLine(PieceAccount(reference, MAX_PIECES), PieceLabel(title, MAX_PIECES, MAX_PIECES), MAX_PIECES, data, path)
  }

  /** The capacity is the largest one: a line with another byte may be too long, and there is no capacity when even
      the smallest pieces may not fit. */
  lemma CapacityIsLargest(reference: string, title: string, path: string, data: seq<Byte>)
    ensures match PieceCapacity(reference, title, path)
            case Some(capacity) => |LongestLine(reference, title, data, path)| <= 4000 <==> |data| <= capacity
            case None => |data| >= 256 ==> |LongestLine(reference, title, data, path)| > 4000
  {
    hide PieceAccount, PieceLabel, Decimal;
    var longest := |LongestLine(reference, title, [], path)|;
    assert |LongestLine(reference, title, data, path)| == longest + 2 * |data|;
  }

  /** `_split`. */
  function Split(data: seq<Byte>, size: nat): (pieces: seq<seq<Byte>>)
    requires size > 0
    ensures forall i :: 0 <= i < |pieces| ==> 0 < |pieces[i]| <= size
    ensures data != [] ==> pieces != []
  {
    if data == [] then [] else if |data| <= size then [data] else [data[..size]] + Split(data[size..], size)
  }

  function Concat(pieces: seq<seq<Byte>>): seq<Byte> {
    if pieces == [] then [] else pieces[0] + Concat(pieces[1..])
  }

  /** Splitting loses nothing. */
  lemma {:induction false} SplitConcat(data: seq<Byte>, size: nat)
    requires size > 0
    ensures Concat(Split(data, size)) == data
  {
    if |data| > size {
      SplitConcat(data[size..], size);
      assert data[..size] + data[size..] == data;
      assert Split(data, size)[1..] == Split(data[size..], size);
    } else if data != [] {
      assert Split(data, size)[1..] == [];
    }
  }

  /** All pieces but the last are as large as they may be. */
  lemma {:induction false} SplitsEvenly(data: seq<Byte>, size: nat, i: nat)
    requires size > 0 && i < |Split(data, size)| - 1
    ensures |Split(data, size)[i]| == size
  {
    if i > 0 {
      SplitsEvenly(data[size..], size, i - 1);
    }
  }

  function PieceCommands(reference: string, title: string, pieces: seq<seq<Byte>>): (commands: seq<Command>)
    requires pieces != []
    ensures |commands| == |pieces| - 1
    ensures forall i :: 0 <= i < |commands| ==>
              commands[i] == Add(PieceAccount(reference, i + 1), PieceLabel(title, i + 1, |pieces|), 0, pieces[i + 1])
  {
    seq(|pieces| - 1, i requires 0 <= i < |pieces| - 1 =>
      Add(PieceAccount(reference, i + 1), PieceLabel(title, i + 1, |pieces|), 0, pieces[i + 1]))
  }

  function DeleteCommands(reference: string, from: nat, previous: nat): (commands: seq<Command>)
    ensures |commands| == if from <= previous then previous - from else 0
    ensures forall i :: 0 <= i < |commands| ==> commands[i] == Delete(PieceAccount(reference, from + i))
  {
    if from <= previous then
      seq(previous - from, i requires 0 <= i < previous - from => Delete(PieceAccount(reference, from + i)))
    else []
  }

  /** The batch of `_write`: pieces first, the head last, then the deletion of old pieces beyond it. */
  function WriteCommands(reference: string, title: string, pieces: seq<seq<Byte>>, previous: nat): seq<Command>
    requires pieces != []
  {
    PieceCommands(reference, title, pieces) +
    [Add(reference, PieceLabel(title, 0, |pieces|), |pieces|, pieces[0])] +
    DeleteCommands(reference, |pieces|, previous)
  }

  lemma LabelFits(title: string, index: nat, count: nat)
    requires index < count <= MAX_PIECES
    ensures |PieceLabel(title, index, count)| <= |PieceLabel(title, MAX_PIECES, MAX_PIECES)|
  {
    WiderDecimal(index + 1, MAX_PIECES + 1);
    WiderDecimal(count, MAX_PIECES);
  }

  lemma AccountFits(reference: string, index: nat)
    requires index <= MAX_PIECES
    ensures |PieceAccount(reference, index)| <= |PieceAccount(reference, MAX_PIECES)|
  {
    WiderDecimal(index, MAX_PIECES);
  }

  lemma AddLineFits(reference: string, title: string, index: nat, count: nat, stored: nat, data: seq<Byte>, path: string)
    requires PieceCapacity(reference, title, path).Some?
    requires index < count <= MAX_PIECES && stored <= MAX_PIECES
    requires |data| <= PieceCapacity(reference, title, path).value
    ensures |AddLine(PieceAccount(reference, index), PieceLabel(title, index, count), stored, data, path)| <= LINE_BUDGET
  {
    LabelFits(title, index, count);
    AccountFits(reference, index);
    WiderDecimal(stored, MAX_PIECES);
  }

  lemma DeleteLineFits(reference: string, title: string, index: nat, path: string)
    requires PieceCapacity(reference, title, path).Some? && index <= MAX_PIECES
    ensures |DeleteLine(PieceAccount(reference, index), path)| <= LINE_BUDGET
  {
    AccountFits(reference, index);
  }

  /** Every generated line fits the budget, for any reference, title, path and value the capacity check
      admits: so the length check before a batch never fires. */
  lemma LinesFit(reference: string, title: string, path: string, data: seq<Byte>, previous: nat, k: nat)
    requires PieceCapacity(reference, title, path).Some? && data != [] && previous <= MAX_PIECES
    requires var pieces := Split(data, PieceCapacity(reference, title, path).value);
             |pieces| <= MAX_PIECES && k < |WriteCommands(reference, title, pieces, previous)|
    ensures var pieces := Split(data, PieceCapacity(reference, title, path).value);
            |Line(WriteCommands(reference, title, pieces, previous)[k], path)| <= LINE_BUDGET
  {
    hide PieceCapacity, AddLine, DeleteLine, PieceLabel, PieceAccount;
    var pieces := Split(data, PieceCapacity(reference, title, path).value);
    var count := |pieces|;
    var command := WriteCommands(reference, title, pieces, previous)[k];
    if k < count - 1 {
      assert command == PieceCommands(reference, title, pieces)[k];
      AddLineFits(reference, title, k + 1, count, 0, pieces[k + 1], path);
    } else if k == count - 1 {
      assert command == Add(reference, PieceLabel(title, 0, count), count, pieces[0]);
      assert PieceAccount(reference, 0) == reference by { HeadAccount(reference); }
      AddLineFits(reference, title, 0, count, count, pieces[0], path);
    } else {
      assert command == DeleteCommands(reference, count, previous)[k - count];
      DeleteLineFits(reference, title, k, path);
    }
  }

  lemma HeadAccount(reference: string)
    ensures PieceAccount(reference, 0) == reference
  {
  }
}
