/** Credentials stored as numbered keychain items (`macos_vault.py`).

    The keychain is a map of items. A batch of commands can stop after any line; a call can fail. */
module MacOSVault {
  import opened Wrappers
  import opened KeychainLines

  /** The number of pieces is kept beside the first one; other pieces carry zero. */
  datatype Item = Item(count: nat, data: seq<Byte>)

  type Items = map<string, Item>

  // Commands

  function Step(items: Items, command: Command): Items {
    match command
    case Add(account, _, count, data) => items[account := Item(count, data)]
    case Delete(account) => items - {account}
  }

  function Run(items: Items, commands: seq<Command>): Items {
    if commands == [] then items
    else Step(Run(items, commands[..|commands| - 1]), commands[|commands| - 1])
  }

  lemma RunOneMore(items: Items, commands: seq<Command>, k: nat)
    requires k < |commands|
    ensures Run(items, commands[..k + 1]) == Step(Run(items, commands[..k]), commands[k])
  {
    assert commands[..k + 1][..k] == commands[..k];
  }

  // Reading

  datatype Reading = Missing | Invalid | Incomplete | Value(data: seq<Byte>)

  /** Pieces `from` to `count - 1`, if they all exist. */
  function PiecesFrom(items: Items, reference: string, from: nat, count: nat): Option<seq<Byte>>
    decreases count - from
  {
    if from >= count then Some([])
    else if PieceAccount(reference, from) !in items then None
    else
      var rest := PiecesFrom(items, reference, from + 1, count);
      if rest.None? then None else Some(items[PieceAccount(reference, from)].data + rest.value)
  }

  /** What `_read` makes of an entry. */
  function Read(items: Items, reference: string): Reading {
    if reference !in items then Missing
    else
      var head := items[reference];
      if !(1 <= head.count <= MAX_PIECES) then Invalid
      else
        var rest := PiecesFrom(items, reference, 1, head.count);
        if rest.None? then Incomplete else Value(head.data + rest.value)
  }

  // Writing

  ghost predicate Same(before: Items, after: Items, account: string) {
    (account in after <==> account in before) && (account in before ==> after[account] == before[account])
  }

  ghost predicate NothingStored(items: Items, reference: string) {
    forall index: nat {:trigger PieceAccount(reference, index)} :: PieceAccount(reference, index) !in items
  }

  /** Nothing that belongs to another reference differs. */
  ghost predicate OthersSame(before: Items, after: Items, reference: string) {
    forall other: string, index: nat {:trigger PieceAccount(other, index)} ::
      '#' !in other && other != reference ==> Same(before, after, PieceAccount(other, index))
  }

  /** Piece `index` of the entry after the first `k` lines of a batch. */
  ghost predicate PieceWritten(before: Items, after: Items, reference: string, pieces: seq<seq<Byte>>, previous: nat,
                               k: nat, index: nat)
    requires pieces != []
  {
    var account, count := PieceAccount(reference, index), |pieces|;
    if index == 0 && count <= k then account in after && after[account] == Item(count, pieces[0])
    else if 0 < index < count && index <= k then account in after && after[account] == Item(0, pieces[index])
    else if count <= index < previous && index < k then account !in after
    else Same(before, after, account)
  }

  ghost predicate Written(before: Items, after: Items, reference: string, pieces: seq<seq<Byte>>, previous: nat, k: nat)
    requires pieces != []
  {
    forall index: nat {:trigger PieceAccount(reference, index)} ::
      PieceWritten(before, after, reference, pieces, previous, k, index)
  }

  /** The batch, wherever it stops, has changed exactly the items its lines name. */
  lemma {:induction false} BatchPrefix(before: Items, reference: string, title: string, pieces: seq<seq<Byte>>,
                                       previous: nat, k: nat)
    requires '#' !in reference && pieces != []
    requires k <= |WriteCommands(reference, title, pieces, previous)|
    ensures var after := Run(before, WriteCommands(reference, title, pieces, previous)[..k]);
            Written(before, after, reference, pieces, previous, k) && OthersSame(before, after, reference)
  {
    hide *;
    var commands := WriteCommands(reference, title, pieces, previous);
    if k == 0 {
      NothingWritten(before, reference, pieces, previous, commands);
    } else {
      BatchPrefix(before, reference, title, pieces, previous, k - 1);
      RunOneMore(before, commands, k - 1);
      CommandAt(reference, title, pieces, previous, k - 1);
      var middle := Run(before, commands[..k - 1]);
      OneMoreWritten(before, middle, reference, title, pieces, previous, k - 1, commands[k - 1]);
      OneMoreSame(before, middle, reference, LineIndex(|pieces|, k - 1), commands[k - 1]);
    }
  }

  lemma NothingWritten(before: Items, reference: string, pieces: seq<seq<Byte>>, previous: nat, commands: seq<Command>)
    requires pieces != []
    ensures Run(before, commands[..0]) == before
    ensures Written(before, before, reference, pieces, previous, 0) && OthersSame(before, before, reference)
  {
    assert commands[..0] == [];
    forall index: nat ensures PieceWritten(before, before, reference, pieces, previous, 0, index) {
    }
  }

  function Target(command: Command): string {
    match command
    case Add(account, _, _, _) => account
    case Delete(account) => account
  }

  lemma OneMoreSame(before: Items, middle: Items, reference: string, line: nat, command: Command)
    requires '#' !in reference && OthersSame(before, middle, reference)
    requires Target(command) == PieceAccount(reference, line)
    ensures OthersSame(before, Step(middle, command), reference)
  {
    hide PieceAccount;
    var after := Step(middle, command);
    forall other: string, index: nat | '#' !in other && other != reference
      ensures Same(before, after, PieceAccount(other, index)) {
      assert Same(before, middle, PieceAccount(other, index));
      AccountsDifferUnlessSame(reference, line, other, index);
    }
  }

  lemma OneMoreWritten(before: Items, middle: Items, reference: string, title: string, pieces: seq<seq<Byte>>,
                       previous: nat, k: nat, command: Command)
    requires '#' !in reference && pieces != [] && Written(before, middle, reference, pieces, previous, k)
    requires WritesPiece(command, reference, title, pieces, previous, k)
    ensures Written(before, Step(middle, command), reference, pieces, previous, k + 1)
  {
    hide PieceAccount, PieceLabel;
    var after, next := Step(middle, command), k + 1;
    forall index: nat ensures PieceWritten(before, after, reference, pieces, previous, next, index) {
      assert PieceWritten(before, middle, reference, pieces, previous, k, index);
      AccountsDifferUnlessSame(reference, LineIndex(|pieces|, k), reference, index);
    }
  }

  /** Which piece line `k` of a batch is about. */
  function LineIndex(count: nat, k: nat): nat {
    if k + 1 < count then k + 1 else if k + 1 == count then 0 else k
  }

  predicate WritesPiece(command: Command, reference: string, title: string, pieces: seq<seq<Byte>>, previous: nat, k: nat)
    requires pieces != []
  {
    var index, count := LineIndex(|pieces|, k), |pieces|;
    if k < count then
      command == Add(PieceAccount(reference, index), PieceLabel(title, index, count),
                     if index == 0 then count else 0, pieces[index])
    else command == Delete(PieceAccount(reference, index)) && k < previous
  }

  lemma CommandAt(reference: string, title: string, pieces: seq<seq<Byte>>, previous: nat, k: nat)
    requires pieces != [] && k < |WriteCommands(reference, title, pieces, previous)|
    ensures var command := WriteCommands(reference, title, pieces, previous)[k];
            WritesPiece(command, reference, title, pieces, previous, k) &&
            Target(command) == PieceAccount(reference, LineIndex(|pieces|, k))
  {
    hide PieceAccount, PieceLabel, PieceCommands, DeleteCommands;
    var count := |pieces|;
    var first, last := PieceCommands(reference, title, pieces), DeleteCommands(reference, count, previous);
    HeadAccount(reference);
    var command := WriteCommands(reference, title, pieces, previous)[k];
    if k + 1 < count {
      assert command == first[k];
    } else if k >= count {
      assert command == last[k - count];
    }
  }

  lemma AccountsDifferUnlessSame(reference: string, index: nat, other: string, otherIndex: nat)
    requires '#' !in reference && '#' !in other
    ensures PieceAccount(reference, index) == PieceAccount(other, otherIndex) <==>
            reference == other && index == otherIndex
  {
    if PieceAccount(reference, index) == PieceAccount(other, otherIndex) {
      AccountsDiffer(reference, index, other, otherIndex);
    }
  }

  // What a reader sees of a write

  lemma {:induction false} PiecesRead(items: Items, reference: string, pieces: seq<seq<Byte>>, from: nat)
    requires 0 < from <= |pieces|
    requires forall index: nat {:trigger PieceAccount(reference, index)} :: from <= index < |pieces| ==>
               PieceAccount(reference, index) in items && items[PieceAccount(reference, index)].data == pieces[index]
    ensures PiecesFrom(items, reference, from, |pieces|) == Some(Concat(pieces[from..]))
    decreases |pieces| - from
  {
    if from < |pieces| {
      PiecesRead(items, reference, pieces, from + 1);
      assert pieces[from..][1..] == pieces[from + 1..];
      assert PieceAccount(reference, from) in items;
    } else {
      assert pieces[from..] == [];
    }
  }

  /** An entry whose pieces are all in place reads as their concatenation. */
  lemma WholeEntryReads(items: Items, reference: string, pieces: seq<seq<Byte>>)
    requires 0 < |pieces| <= MAX_PIECES
    requires reference in items && items[reference] == Item(|pieces|, pieces[0])
    requires forall index: nat {:trigger PieceAccount(reference, index)} :: 0 < index < |pieces| ==>
               PieceAccount(reference, index) in items && items[PieceAccount(reference, index)].data == pieces[index]
    ensures Read(items, reference) == Value(Concat(pieces))
  {
    PiecesRead(items, reference, pieces, 1);
  }

  /** Once the head has landed the entry reads as the new value, whatever it was before. */
  lemma ReadsNewValue(before: Items, reference: string, title: string, pieces: seq<seq<Byte>>, previous: nat, k: nat)
    requires '#' !in reference && 0 < |pieces| <= MAX_PIECES
    requires |pieces| <= k <= |WriteCommands(reference, title, pieces, previous)|
    ensures Read(Run(before, WriteCommands(reference, title, pieces, previous)[..k]), reference) ==
            Value(Concat(pieces))
  {
    var after := Run(before, WriteCommands(reference, title, pieces, previous)[..k]);
    BatchPrefix(before, reference, title, pieces, previous, k);
    assert PieceWritten(before, after, reference, pieces, previous, k, 0);
    forall index: nat | 0 < index < |pieces|
      ensures PieceAccount(reference, index) in after && after[PieceAccount(reference, index)].data == pieces[index] {
      assert PieceWritten(before, after, reference, pieces, previous, k, index);
    }
    WholeEntryReads(after, reference, pieces);
  }

  /** A fresh reference reads as absent until its head lands and as the whole value afterwards. */
  lemma FreshWriteIsAllOrNothing(before: Items, reference: string, title: string, pieces: seq<seq<Byte>>, k: nat)
    requires '#' !in reference && 0 < |pieces| <= MAX_PIECES && reference !in before
    requires k <= |WriteCommands(reference, title, pieces, 0)|
    ensures Read(Run(before, WriteCommands(reference, title, pieces, 0)[..k]), reference) ==
            if k < |pieces| then Missing else Value(Concat(pieces))
  {
    if k < |pieces| {
      BatchPrefix(before, reference, title, pieces, 0, k);
      assert PieceWritten(before, Run(before, WriteCommands(reference, title, pieces, 0)[..k]),
                          reference, pieces, 0, k, 0);
    } else {
      ReadsNewValue(before, reference, title, pieces, 0, k);
    }
  }

  /** The pieces of a complete entry. */
  ghost predicate Complete(items: Items, reference: string, pieces: seq<seq<Byte>>) {
    && 0 < |pieces| <= MAX_PIECES
    && reference in items && items[reference] == Item(|pieces|, pieces[0])
    && forall index: nat {:trigger PieceAccount(reference, index)} :: 0 < index < |pieces| ==>
         PieceAccount(reference, index) in items && items[PieceAccount(reference, index)].data == pieces[index]
  }

  /** What an overwrite stopped before its head leaves: new pieces up to `k` under the old head. */
  function Mixed(former: seq<seq<Byte>>, pieces: seq<seq<Byte>>, k: nat): (mixed: seq<seq<Byte>>)
    ensures |mixed| == |former|
  {
    seq(|former|, i requires 0 <= i < |former| => if 0 < i < |pieces| && i <= k then pieces[i] else former[i])
  }

  /** Overwriting a complete entry never yields an incomplete read: it reads as the new value once the head
      has landed, and until then as exactly the pieces under the old head, some of them new. */
  lemma OverwriteNeverIncomplete(before: Items, reference: string, title: string, former: seq<seq<Byte>>,
                                 pieces: seq<seq<Byte>>, k: nat)
    requires '#' !in reference && Complete(before, reference, former) && 0 < |pieces| <= MAX_PIECES
    requires k <= |WriteCommands(reference, title, pieces, |former|)|
    ensures Read(Run(before, WriteCommands(reference, title, pieces, |former|)[..k]), reference) ==
            Value(Concat(if k < |pieces| then Mixed(former, pieces, k) else pieces))
  {
    if k < |pieces| {
      var after := Run(before, WriteCommands(reference, title, pieces, |former|)[..k]);
      var mixed := Mixed(former, pieces, k);
      BatchPrefix(before, reference, title, pieces, |former|, k);
      assert PieceWritten(before, after, reference, pieces, |former|, k, 0);
      forall index: nat | 0 < index < |mixed|
        ensures PieceAccount(reference, index) in after && after[PieceAccount(reference, index)].data == mixed[index] {
        assert PieceWritten(before, after, reference, pieces, |former|, k, index);
      }
      WholeEntryReads(after, reference, mixed);
    } else {
      ReadsNewValue(before, reference, title, pieces, |former|, k);
    }
  }

  /** A finished write reads back the exact bytes. */
  lemma FinishedWriteReadsBack(before: Items, reference: string, title: string, data: seq<Byte>, size: nat, previous: nat)
    requires '#' !in reference && size > 0 && data != [] && |Split(data, size)| <= MAX_PIECES
    ensures Read(Run(before, WriteCommands(reference, title, Split(data, size), previous)), reference) == Value(data)
  {
    var commands := WriteCommands(reference, title, Split(data, size), previous);
    assert commands[..|commands|] == commands;
    ReadsNewValue(before, reference, title, Split(data, size), previous, |commands|);
    SplitConcat(data, size);
  }

  /** Whatever values of these many pieces are written over each other, and wherever the batch stops, a reader
      sees the former or the new one. */
  ghost predicate OverwriteIsSafe(reference: string, title: string, count: nat, newCount: nat) {
    forall before: Items, former: seq<seq<Byte>>, pieces: seq<seq<Byte>>, k: nat
      {:trigger WriteCommands(reference, title, pieces, |former|)[..k], Complete(before, reference, former)} ::
      (&& |former| == count && |pieces| == newCount && pieces != [] && Complete(before, reference, former)
       && k <= |WriteCommands(reference, title, pieces, |former|)|) ==>
        Read(Run(before, WriteCommands(reference, title, pieces, |former|)[..k]), reference) in
          {Value(Concat(former)), Value(Concat(pieces))}
  }

  /** That holds exactly when the former or the new value has only one piece. */
  lemma OverwriteIsSafeWhen(reference: string, title: string, count: nat, newCount: nat)
    requires '#' !in reference && 0 < count <= MAX_PIECES && 0 < newCount <= MAX_PIECES
    ensures OverwriteIsSafe(reference, title, count, newCount) <==> count == 1 || newCount == 1
  {
    hide Read, Run, WriteCommands, Complete, Mixed, Concat;
    if count == 1 || newCount == 1 {
      forall before: Items, former: seq<seq<Byte>>, pieces: seq<seq<Byte>>, k: nat |
        && |former| == count && |pieces| == newCount && pieces != [] && Complete(before, reference, former)
        && k <= |WriteCommands(reference, title, pieces, |former|)|
        ensures Read(Run(before, WriteCommands(reference, title, pieces, |former|)[..k]), reference) in
                  {Value(Concat(former)), Value(Concat(pieces))}
      {
        OverwriteNeverIncomplete(before, reference, title, former, pieces, k);
        if k < newCount {
          MixedAlone(former, pieces, k);
        }
      }
    } else {
      OverwriteMixes(reference, title, count, newCount);
    }
  }

  lemma MixedAlone(former: seq<seq<Byte>>, pieces: seq<seq<Byte>>, k: nat)
    requires (|former| == 1 || |pieces| == 1) && k < |pieces|
    ensures Mixed(former, pieces, k) == former
  {
  }

  /** With two pieces or more on both sides, ones written over by twos can read as both. */
  lemma OverwriteMixes(reference: string, title: string, count: nat, newCount: nat)
    requires '#' !in reference && 1 < count <= MAX_PIECES && 1 < newCount <= MAX_PIECES
    ensures !OverwriteIsSafe(reference, title, count, newCount)
  {
    hide Read, Run, WriteCommands, Complete, Concat, Mixed;
    var former: seq<seq<Byte>>, pieces: seq<seq<Byte>> := seq(count, _ => [1]), seq(newCount, _ => [2]);
    var before := Run(map[], WriteCommands(reference, title, former, 0));
    WholeWriteIsComplete(map[], reference, title, former);
    BatchLength(reference, title, pieces, count);
    OverwriteNeverIncomplete(before, reference, title, former, pieces, 1);
    MixedOnesAndTwos(count, newCount);
    assert Read(Run(before, WriteCommands(reference, title, pieces, |former|)[..1]), reference) !in
             {Value(Concat(former)), Value(Concat(pieces))};
  }

  lemma BatchLength(reference: string, title: string, pieces: seq<seq<Byte>>, previous: nat)
    requires pieces != []
    ensures |WriteCommands(reference, title, pieces, previous)| >= |pieces|
  {
  }

  lemma MixedOnesAndTwos(count: nat, newCount: nat)
    requires 1 < count && 1 < newCount
    ensures var former: seq<seq<Byte>>, pieces: seq<seq<Byte>> := seq(count, _ => [1]), seq(newCount, _ => [2]);
            Concat(Mixed(former, pieces, 1)) !in {Concat(former), Concat(pieces)}
  {
    var former: seq<seq<Byte>>, pieces: seq<seq<Byte>> := seq(count, _ => [1]), seq(newCount, _ => [2]);
    var mixed := Mixed(former, pieces, 1);
    ConcatOfSingles(former);
    ConcatOfSingles(pieces);
    ConcatOfSingles(mixed);
    assert Concat(mixed)[1] == 2 && Concat(former)[1] == 1;
    assert Concat(mixed)[0] == 1 && Concat(pieces)[0] == 2;
  }

  lemma WholeWriteIsComplete(before: Items, reference: string, title: string, pieces: seq<seq<Byte>>)
    requires '#' !in reference && 0 < |pieces| <= MAX_PIECES
    ensures Complete(Run(before, WriteCommands(reference, title, pieces, 0)), reference, pieces)
  {
    var commands := WriteCommands(reference, title, pieces, 0);
    var after := Run(before, commands);
    assert commands[..|commands|] == commands;
    BatchPrefix(before, reference, title, pieces, 0, |commands|);
    HeadAccount(reference);
    assert PieceWritten(before, after, reference, pieces, 0, |commands|, 0);
    forall index: nat | 0 < index < |pieces|
      ensures PieceAccount(reference, index) in after && after[PieceAccount(reference, index)].data == pieces[index] {
      assert PieceWritten(before, after, reference, pieces, 0, |commands|, index);
    }
  }

  lemma {:induction false} ConcatOfSingles(pieces: seq<seq<Byte>>)
    requires forall i :: 0 <= i < |pieces| ==> |pieces[i]| == 1
    ensures |Concat(pieces)| == |pieces| && forall i :: 0 <= i < |pieces| ==> Concat(pieces)[i] == pieces[i][0]
  {
    if pieces != [] {
      ConcatOfSingles(pieces[1..]);
    }
  }

  /** Why a reference is written only once: an overwrite stopped in the middle can read as a value that was
      never stored. */
  lemma InterruptedOverwriteCanMix(reference: string, title: string)
    requires '#' !in reference
    ensures var pieces := [[3], [4]];
            var before := map[PieceAccount(reference, 0) := Item(2, [1]), PieceAccount(reference, 1) := Item(0, [2])];
            Read(Run(before, WriteCommands(reference, title, pieces, 2)[..1]), reference) == Value([1, 4])
  {
    var former: seq<seq<Byte>>, pieces: seq<seq<Byte>> := [[1], [2]], [[3], [4]];
    var before := map[PieceAccount(reference, 0) := Item(2, [1]), PieceAccount(reference, 1) := Item(0, [2])];
    AccountsDifferUnlessSame(reference, 0, reference, 1);
    assert Complete(before, reference, former);
    OverwriteNeverIncomplete(before, reference, title, former, pieces, 1);
    assert Mixed(former, pieces, 1) == [[1], [4]];
    assert [[1], [4]][1..] == [[4]] && [[4]][1..] == [];
  }

  // Deleting

  /** The order in which `delete` removes an entry: the head last, or ascending pieces when there is no head. */
  function DeleteOrder(items: Items, reference: string): seq<nat> {
    if reference in items then
      var count := items[reference].count;
      seq(count, i requires 0 <= i < count => count - 1 - i)
    else
      Ascending(items, reference, 1)
  }

  /** The consecutive pieces from `from` on. */
  function Ascending(items: Items, reference: string, from: nat): seq<nat>
    decreases Later(items, reference, from)
  {
    if PieceAccount(reference, from) !in items then []
    else
      FewerLater(items, reference, from);
      [from] + Ascending(items, reference, from + 1)
  }

  lemma {:induction false} AscendingOrder(items: Items, reference: string, from: nat)
    ensures var order := Ascending(items, reference, from);
            && (forall i :: 0 <= i < |order| ==> order[i] == from + i && PieceAccount(reference, from + i) in items)
            && PieceAccount(reference, from + |order|) !in items
    decreases Later(items, reference, from)
  {
    hide PieceAccount, Later;
    if PieceAccount(reference, from) in items {
      FewerLater(items, reference, from);
      AscendingOrder(items, reference, from + 1);
      var order, rest := Ascending(items, reference, from), Ascending(items, reference, from + 1);
      forall i | 0 <= i < |order| ensures order[i] == from + i && PieceAccount(reference, from + i) in items {
        if i > 0 {
          assert order[i] == rest[i - 1] == from + 1 + (i - 1) && PieceAccount(reference, from + 1 + (i - 1)) in items;
        }
      }
    }
  }

  /** The items that can still be pieces from `from` on. */
  ghost function Later(items: Items, reference: string, from: nat): set<string> {
    set account | account in items.Keys && LaterAccount(reference, from, account)
  }

  ghost predicate LaterAccount(reference: string, from: nat, account: string) {
    exists index: nat {:trigger PieceAccount(reference, index)} :: from <= index && account == PieceAccount(reference, index)
  }

  lemma FewerLater(items: Items, reference: string, from: nat)
    requires PieceAccount(reference, from) in items
    ensures Later(items, reference, from + 1) < Later(items, reference, from)
  {
    var account := PieceAccount(reference, from);
    assert LaterAccount(reference, from, account);
    if LaterAccount(reference, from + 1, account) {
      var index: nat :| from + 1 <= index && account == PieceAccount(reference, index);
      SamePiece(reference, from, index);
    }
    forall other | LaterAccount(reference, from + 1, other) ensures LaterAccount(reference, from, other) {
    }
    assert account in Later(items, reference, from) && account !in Later(items, reference, from + 1);
  }

  lemma SamePiece(reference: string, a: nat, b: nat)
    requires PieceAccount(reference, a) == PieceAccount(reference, b)
    ensures a == b
  {
    if a != 0 && b != 0 {
      var account := PieceAccount(reference, a);
      assert account[|reference| + 1..] == Decimal(a) && account[|reference| + 1..] == Decimal(b);
      DecimalIsOneToOne(a, b);
    }
  }

  function Without(items: Items, reference: string, indices: seq<nat>): Items {
    items - (set index | index in indices :: PieceAccount(reference, index))
  }

  lemma WithoutHolds(items: Items, reference: string, indices: seq<nat>, index: nat)
    ensures PieceAccount(reference, index) in Without(items, reference, indices) <==>
            PieceAccount(reference, index) in items && index !in indices
  {
    var removed := set i | i in indices :: PieceAccount(reference, i);
    if PieceAccount(reference, index) in removed {
      var other :| other in indices && PieceAccount(reference, index) == PieceAccount(reference, other);
      SamePiece(reference, index, other);
    }
  }

  /** What a completed delete can remove altogether: pieces below the head's count, or, without a head,
      consecutive pieces from 1 on. */
  ghost predicate Collectable(items: Items, reference: string) {
    forall index: nat {:trigger PieceAccount(reference, index)} :: PieceAccount(reference, index) in items ==>
      if reference in items then index < items[reference].count
      else 0 < index && forall earlier: nat {:trigger PieceAccount(reference, earlier)} ::
                          0 < earlier < index ==> PieceAccount(reference, earlier) in items
  }

  lemma HeadlessOrder(items: Items, reference: string)
    ensures var order := Ascending(items, reference, 1);
            && (forall index: nat {:trigger index in order} :: index in order <==> 0 < index < |order| + 1)
            && (forall index: nat {:trigger PieceAccount(reference, index)} ::
                  0 < index < |order| + 1 ==> PieceAccount(reference, index) in items)
            && PieceAccount(reference, |order| + 1) !in items
  {
    hide PieceAccount, Ascending;
    AscendingOrder(items, reference, 1);
    var order := Ascending(items, reference, 1);
    forall index: nat | 0 < index < |order| + 1 ensures index in order && PieceAccount(reference, index) in items {
      assert order[index - 1] == 1 + (index - 1) && PieceAccount(reference, 1 + (index - 1)) in items;
    }
  }

  /** A completed delete leaves no item exactly when the entry was collectable. */
  lemma DeleteLeavesNothing(items: Items, reference: string)
    requires reference in items ==> items[reference].count > 0
    ensures NothingStored(Without(items, reference, DeleteOrder(items, reference)), reference) <==>
            Collectable(items, reference)
  {
    hide PieceAccount, Without, NothingStored, Collectable, Ascending;
    var order := DeleteOrder(items, reference);
    var after := Without(items, reference, order);
    forall index: nat ensures PieceAccount(reference, index) in after <==>
                              PieceAccount(reference, index) in items && index !in order {
      WithoutHolds(items, reference, order, index);
    }
    if reference in items {
      forall index: nat ensures index in order <==> index < |order| {
        if index < |order| {
          assert order[|order| - 1 - index] == index;
        }
      }
      HeadedDelete(items, after, reference);
    } else {
      HeadlessOrder(items, reference);
      HeadlessDelete(items, after, reference, |order|);
    }
  }

  lemma HeadedDelete(items: Items, after: Items, reference: string)
    requires reference in items
    requires forall index: nat {:trigger PieceAccount(reference, index)} :: PieceAccount(reference, index) in after <==>
               PieceAccount(reference, index) in items && !(index < items[reference].count)
    ensures NothingStored(after, reference) <==> Collectable(items, reference)
  {
    hide PieceAccount;
  }

  /** Removing pieces 1 to `count` removes everything when the pieces are consecutive, and only then. */
  lemma HeadlessDelete(items: Items, after: Items, reference: string, count: nat)
    requires reference !in items && PieceAccount(reference, count + 1) !in items
    requires forall index: nat {:trigger PieceAccount(reference, index)} :: 0 < index < count + 1 ==>
               PieceAccount(reference, index) in items
    requires forall index: nat {:trigger PieceAccount(reference, index)} :: PieceAccount(reference, index) in after <==>
               PieceAccount(reference, index) in items && !(0 < index < count + 1)
    ensures NothingStored(after, reference) <==> Collectable(items, reference)
  {
    if NothingStored(after, reference) {
      forall index: nat | PieceAccount(reference, index) in items
        ensures 0 < index < count + 1 {
        assert PieceAccount(reference, index) !in after;
      }
    } else {
      var index: nat :| PieceAccount(reference, index) in after;
      assert PieceAccount(reference, 0) == reference;
      assert index > count + 1 && PieceAccount(reference, index) in items;
    }
  }

  // Runs of one write and any number of deletes

  /** A write of a fresh reference leaves a collectable entry wherever it stops. */
  lemma InterruptedWriteIsCollectable(before: Items, reference: string, title: string, pieces: seq<seq<Byte>>, k: nat)
    requires '#' !in reference && pieces != [] && NothingStored(before, reference)
    requires k <= |WriteCommands(reference, title, pieces, 0)|
    ensures Collectable(Run(before, WriteCommands(reference, title, pieces, 0)[..k]), reference)
  {
    var after := Run(before, WriteCommands(reference, title, pieces, 0)[..k]);
    BatchPrefix(before, reference, title, pieces, 0, k);
    assert PieceAccount(reference, 0) == reference;
    forall index: nat ensures PieceAccount(reference, index) in after <==>
                              if index == 0 then |pieces| <= k else index < |pieces| && index <= k {
      assert PieceWritten(before, after, reference, pieces, 0, k, index);
      assert PieceAccount(reference, index) !in before;
    }
    assert PieceWritten(before, after, reference, pieces, 0, k, 0);
  }

  /** An interrupted delete of an entry that still has its head leaves a collectable entry. */
  lemma InterruptedDeleteIsCollectable(items: Items, reference: string, k: nat)
    requires reference in items && Collectable(items, reference) && k <= |DeleteOrder(items, reference)|
    requires items[reference].count > 0
    ensures var after := Without(items, reference, DeleteOrder(items, reference)[..k]);
            Collectable(after, reference) && (reference in after ==> after[reference] == items[reference])
  {
    var order := DeleteOrder(items, reference);
    var after := Without(items, reference, order[..k]);
    forall index: nat ensures PieceAccount(reference, index) in after <==>
                              PieceAccount(reference, index) in items && index !in order[..k] {
      WithoutHolds(items, reference, order[..k], index);
    }
    assert PieceAccount(reference, 0) == reference;
    if k == |order| {
      forall index: nat | index < |order| ensures index in order[..k] {
        assert order[..k][|order| - 1 - index] == index;
      }
    }
    assert forall i :: 0 <= i < k ==> order[i] == |order| - 1 - i;
    assert k < |order| ==> 0 !in order[..k];
  }

  /** One attempt to retire an entry that still has its head, stopped before step `k`. */
  ghost predicate DeleteAttempt(before: Items, after: Items, reference: string) {
    && reference in before
    && exists k: nat {:trigger DeleteOrder(before, reference)[..k]} ::
         k <= |DeleteOrder(before, reference)| && after == Without(before, reference, DeleteOrder(before, reference)[..k])
  }

  /** The states of a vault from a fresh reference on: one write that may stop anywhere, then deletes of an
      entry that still has its head, any number of them interrupted anywhere. */
  ghost predicate EntryHistory(states: seq<Items>, reference: string, title: string, pieces: seq<seq<Byte>>)
    requires pieces != []
  {
    && |states| >= 2
    && NothingStored(states[0], reference)
    && (exists k: nat {:trigger WriteCommands(reference, title, pieces, 0)[..k]} ::
          && k <= |WriteCommands(reference, title, pieces, 0)|
          && states[1] == Run(states[0], WriteCommands(reference, title, pieces, 0)[..k]))
    && forall i :: 1 < i < |states| ==> DeleteAttempt(states[i - 1], states[i], reference)
  }

  /** After any such history one completed delete leaves no item of the reference. */
  lemma {:induction false} RetiringEndsEmpty(states: seq<Items>, reference: string, title: string, pieces: seq<seq<Byte>>)
    requires '#' !in reference && pieces != [] && EntryHistory(states, reference, title, pieces)
    ensures var last := states[|states| - 1];
            && Collectable(last, reference) && (reference in last ==> last[reference].count == |pieces|)
            && NothingStored(Without(last, reference, DeleteOrder(last, reference)), reference)
  {
    var last := states[|states| - 1];
    if |states| == 2 {
      var k: nat :| k <= |WriteCommands(reference, title, pieces, 0)| &&
        states[1] == Run(states[0], WriteCommands(reference, title, pieces, 0)[..k]);
      InterruptedWriteIsCollectable(states[0], reference, title, pieces, k);
      BatchPrefix(states[0], reference, title, pieces, 0, k);
      assert PieceAccount(reference, 0) == reference;
      assert PieceWritten(states[0], last, reference, pieces, 0, k, 0);
    } else {
      var earlier := states[..|states| - 1];
      RetiringEndsEmpty(earlier, reference, title, pieces);
      var before := earlier[|earlier| - 1];
      assert DeleteAttempt(before, last, reference);
      var k: nat :| k <= |DeleteOrder(before, reference)| &&
        last == Without(before, reference, DeleteOrder(before, reference)[..k]);
      InterruptedDeleteIsCollectable(before, reference, k);
    }
    DeleteLeavesNothing(last, reference);
  }

  /** A delete of an entry without its head can be finished after an interruption exactly when it was stopped
      before its first step or after its last; in between, later deletes find nothing although pieces remain. */
  lemma InterruptedHeadlessDelete(items: Items, reference: string, k: nat)
    requires reference !in items && Collectable(items, reference) && k <= |DeleteOrder(items, reference)|
    ensures var order := DeleteOrder(items, reference);
            var after := Without(items, reference, order[..k]);
            && (Collectable(after, reference) <==> k == 0 || k == |order|)
            && (0 < k ==> DeleteOrder(after, reference) == [])
            && (k < |order| ==> PieceAccount(reference, k + 1) in after)
  {
    hide PieceAccount, Without, Ascending;
    var order := DeleteOrder(items, reference);
    var after := Without(items, reference, order[..k]);
    HeadlessOrder(items, reference);
    AscendingOrder(items, reference, 1);
    assert PieceAccount(reference, 0) == reference by { HeadAccount(reference); }
    forall index: nat ensures PieceAccount(reference, index) in after <==> k < index < |order| + 1 {
      WithoutHolds(items, reference, order[..k], index);
      AscendingPrefix(order, k, index);
      assert PieceAccount(reference, index) in items ==> 0 < index < |order| + 1;
    }
    assert reference !in after;
    HeadlessAfter(after, reference, k, |order|);
    if 0 < k {
      NothingFound(after, reference);
    }
  }

  lemma AscendingPrefix(order: seq<nat>, k: nat, index: nat)
    requires k <= |order| && forall i :: 0 <= i < |order| ==> order[i] == 1 + i
    ensures index in order[..k] <==> 0 < index < k + 1
  {
    if 0 < index < k + 1 {
      assert order[..k][index - 1] == index;
    }
  }

  lemma HeadlessAfter(after: Items, reference: string, k: nat, count: nat)
    requires reference !in after && k <= count
    requires forall index: nat {:trigger PieceAccount(reference, index)} ::
               PieceAccount(reference, index) in after <==> k < index < count + 1
    ensures Collectable(after, reference) <==> k == 0 || k == count
  {
    hide PieceAccount;
    if 0 < k < count {
      var first, next := 1, k + 1;
      assert PieceAccount(reference, first) !in after && PieceAccount(reference, next) in after;
    }
  }

  lemma NothingFound(items: Items, reference: string)
    requires reference !in items && PieceAccount(reference, 1) !in items
    ensures DeleteOrder(items, reference) == []
  {
  }

  /** Such a state is reached: a write of three pieces stopped before its head, then a delete stopped after one
      step. The second piece stays, and no later delete finds it. */
  lemma HeadlessDeleteIsNotRestartable(reference: string, title: string)
    requires '#' !in reference
    ensures var items := Run(map[], WriteCommands(reference, title, [[1], [2], [3]], 0)[..2]);
            && |DeleteOrder(items, reference)| == 2
            && var after := Without(items, reference, DeleteOrder(items, reference)[..1]);
            && PieceAccount(reference, 2) in after
            && DeleteOrder(after, reference) == [] && !Collectable(after, reference)
  {
    var pieces := [[1], [2], [3]];
    var items := Run(map[], WriteCommands(reference, title, pieces, 0)[..2]);
    InterruptedWriteIsCollectable(map[], reference, title, pieces, 2);
    BatchPrefix(map[], reference, title, pieces, 0, 2);
    StoppedBeforeHead(items, reference, pieces);
    InterruptedHeadlessDelete(items, reference, 1);
  }

  lemma StoppedBeforeHead(items: Items, reference: string, pieces: seq<seq<Byte>>)
    requires |pieces| == 3 && Written(map[], items, reference, pieces, 0, 2)
    ensures reference !in items && |DeleteOrder(items, reference)| == 2
  {
    hide PieceAccount, Ascending;
    assert PieceAccount(reference, 0) == reference by { HeadAccount(reference); }
    assert PieceWritten(map[], items, reference, pieces, 0, 2, 0);
    HeadlessOrder(items, reference);
    assert PieceWritten(map[], items, reference, pieces, 0, 2, 1);
    assert PieceWritten(map[], items, reference, pieces, 0, 2, 2);
    assert PieceWritten(map[], items, reference, pieces, 0, 2, 3);
    assert PieceAccount(reference, 1) in items && PieceAccount(reference, 2) in items;
    assert PieceAccount(reference, 3) !in items;
  }
}
