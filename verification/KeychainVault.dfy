/** Reading, writing and deleting entries of the macOS vault (`macos_vault.py`).

    Every call to `security` can fail, and the process can die between two calls or in a batch: a method that
    does not return `Ok` may have stopped anywhere. */
module KeychainVault {
  import opened Wrappers
  import opened KeychainLines
  import opened MacOSVault

  datatype VaultError = CommandFailed | EntryInvalid | EntryIncomplete | PathTooLong | ValueTooLarge

  predicate LinesWithin(commands: seq<Command>, path: string) {
    forall k :: 0 <= k < |commands| ==> |Line(commands[k], path)| <= LINE_BUDGET
  }

  /** A batch that stopped after some line. */
  ghost predicate BatchStopped(before: Items, after: Items, commands: seq<Command>) {
    exists k: nat {:trigger commands[..k]} :: k <= |commands| && after == Run(before, commands[..k])
  }

  lemma StoppedBatch(before: Items, after: Items, commands: seq<Command>, k: nat)
    requires k <= |commands| && after == Run(before, commands[..k])
    ensures BatchStopped(before, after, commands)
  {
  }

  lemma NothingRan(items: Items, commands: seq<Command>)
    ensures Run(items, commands[..0]) == items && BatchStopped(items, items, commands)
  {
    assert commands[..0] == [];
  }

  /** The batch that stores `data`. */
  ghost predicate WriteStopped(before: Items, after: Items, reference: string, title: string, path: string, data: seq<Byte>)
    requires data != []
  {
    || after == before
    || (PieceCapacity(reference, title, path).Some? &&
        var pieces := Split(data, PieceCapacity(reference, title, path).value);
        BatchStopped(before, after, WriteCommands(reference, title, pieces, PreviousCount(before, reference))))
  }

  function PreviousCount(items: Items, reference: string): nat {
    if reference in items then items[reference].count else 0
  }

  ghost predicate DeleteStopped(before: Items, after: Items, reference: string) {
    var order := DeleteOrder(before, reference);
    exists k: nat {:trigger order[..k]} :: k <= |order| && after == Without(before, reference, order[..k])
  }

  lemma WithoutOneMore(items: Items, reference: string, order: seq<nat>, k: nat)
    requires k < |order|
    ensures Without(items, reference, order[..k + 1]) ==
            Without(items, reference, order[..k]) - {PieceAccount(reference, order[k])}
  {
    hide PieceAccount;
    assert order[..k + 1] == order[..k] + [order[k]];
    var fewer := set index | index in order[..k] :: PieceAccount(reference, index);
    var more := set index | index in order[..k + 1] :: PieceAccount(reference, index);
    assert more == fewer + {PieceAccount(reference, order[k])};
  }

  lemma WithoutNone(items: Items, reference: string, order: seq<nat>)
    ensures Without(items, reference, order[..0]) == items
  {
    assert order[..0] == [];
  }

  lemma OthersKept(items: Items, reference: string, indices: seq<nat>)
    requires '#' !in reference
    ensures OthersSame(items, Without(items, reference, indices), reference)
  {
    hide PieceAccount;
    var after := Without(items, reference, indices);
    forall other: string, index: nat | '#' !in other && other != reference
      ensures Same(items, after, PieceAccount(other, index)) {
      forall line ensures PieceAccount(reference, line) != PieceAccount(other, index) {
        AccountsDifferUnlessSame(reference, line, other, index);
      }
    }
  }

  lemma StoppedAt(before: Items, after: Items, reference: string, k: nat)
    requires '#' !in reference && k <= |DeleteOrder(before, reference)|
    requires after == Without(before, reference, DeleteOrder(before, reference)[..k])
    ensures DeleteStopped(before, after, reference) && OthersSame(before, after, reference)
  {
    OthersKept(before, reference, DeleteOrder(before, reference)[..k]);
  }

  lemma HeadlessStep(items: Items, reference: string, index: nat)
    requires reference !in items && 1 <= index <= |DeleteOrder(items, reference)| + 1
    ensures var order := DeleteOrder(items, reference);
            var now := Without(items, reference, order[..index - 1]);
            && (PieceAccount(reference, index) in now <==> index <= |order|)
            && (index <= |order| ==>
                  Without(items, reference, order[..index]) == now - {PieceAccount(reference, index)})
  {
    hide PieceAccount, Without, Ascending;
    var order := DeleteOrder(items, reference);
    HeadlessOrder(items, reference);
    AscendingOrder(items, reference, 1);
    WithoutHolds(items, reference, order[..index - 1], index);
    assert index !in order[..index - 1];
    if index <= |order| {
      WithoutOneMore(items, reference, order, index - 1);
    }
  }

  /** What the entry reads as when the pieces before `from` are `read`. */
  function Whole(items: Items, reference: string, from: nat, count: nat, read: seq<Byte>): Reading {
    match PiecesFrom(items, reference, from, count)
    case None => Incomplete
    case Some(rest) => Value(read + rest)
  }

  class Vault {
    const path: string
    var items: Items

    constructor (path: string)
      ensures this.path == path && items == map[]
    {
      this.path := path;
      items := map[];
    }

    method Find(account: string) returns (found: Result<Option<Item>, VaultError>)
      ensures found.Ok? ==> found.value == if account in items then Some(items[account]) else None
      ensures found.Err? ==> found.error == CommandFailed
    {
      var failed: bool := *;
      if failed {
        return Err(CommandFailed);
      }
      found := Ok(if account in items then Some(items[account]) else None);
    }

    method PieceCount(reference: string) returns (count: Result<Option<nat>, VaultError>)
      ensures count.Ok? && count.value.None? ==> reference !in items
      ensures (count.Ok? && count.value.Some?) ==>
                (reference in items && count.value.value == items[reference].count && 1 <= count.value.value <= MAX_PIECES)
      ensures count.Err? && count.error == EntryInvalid ==> Read(items, reference) == Reading.Invalid
    {
      var head :- Find(reference);
      if head.None? {
        return Ok(None);
      }
      if !(1 <= head.value.count <= MAX_PIECES) {
        return Err(EntryInvalid);
      }
      count := Ok(Some(head.value.count));
    }

    method ReadEntry(reference: string) returns (data: Result<Option<seq<Byte>>, VaultError>)
      ensures match data
              case Ok(None) => Read(items, reference) == Missing
              case Ok(Some(value)) => Read(items, reference) == Value(value)
              case Err(EntryInvalid) => Read(items, reference) == Reading.Invalid
              case Err(EntryIncomplete) => Read(items, reference) == Incomplete
              case Err(error) => error == CommandFailed
    {
      var head :- Find(reference);
      if head.None? {
        return Ok(None);
      }
      var count := head.value.count;
      if !(1 <= count <= MAX_PIECES) {
        return Err(EntryInvalid);
      }
      var pieces, index := head.value.data, 1;
      while index < count
        invariant 1 <= index <= count
        invariant Read(items, reference) == Whole(items, reference, index, count, pieces)
      {
        var piece :- Find(PieceAccount(reference, index));
        if piece.None? {
          return Err(EntryIncomplete);
        }
        pieces := pieces + piece.value.data;
        index := index + 1;
      }
      data := Ok(Some(pieces));
    }

    /** `security -i`. Lines beyond the budget would be cut and their rest run as commands. */
    method RunBatch(commands: seq<Command>) returns (clean: bool)
      requires LinesWithin(commands, path)
      modifies this`items
      ensures BatchStopped(old(items), items, commands)
      ensures clean ==> items == Run(old(items), commands)
    {
      hide Run, Step, BatchStopped;
      var k: nat := 0;
      NothingRan(items, commands);
      while k < |commands|
        invariant k <= |commands| && items == Run(old(items), commands[..k])
        invariant BatchStopped(old(items), items, commands)
      {
        var stops: bool := *;
        if stops {
          return false;
        }
        RunOneMore(old(items), commands, k);
        items := Step(items, commands[k]);
        k := k + 1;
        StoppedBatch(old(items), items, commands, k);
      }
      assert commands[..k] == commands;
      clean := *;
    }

    method Write(reference: string, title: string, data: seq<Byte>) returns (saved: Result<(), VaultError>)
      requires '#' !in reference && data != []
      modifies this`items
      ensures WriteStopped(old(items), items, reference, title, path, data)
      ensures OthersSame(old(items), items, reference)
      ensures saved.Ok? ==> Read(items, reference) == Value(data)
      ensures reference !in old(items) ==> Read(items, reference) in {Missing, Value(data)}
      ensures Read(old(items), reference).Value? ==> Read(items, reference).Value?
    {
      var count :- PieceCount(reference);
      var previous := if count.None? then 0 else count.value;
      var capacity := PieceCapacity(reference, title, path);
      if capacity.None? {
        return Err(PathTooLong);
      }
      var pieces := Split(data, capacity.value);
      if |pieces| > MAX_PIECES {
        return Err(ValueTooLarge);
      }
      var commands := WriteCommands(reference, title, pieces, previous);
      BatchFits(reference, title, path, data, previous);
      var clean := RunBatch(commands);
      BatchSeen(old(items), items, reference, title, data, capacity.value, previous);
      FinishedWriteReadsBack(old(items), reference, title, data, capacity.value, previous);
      if !clean {
        return Err(CommandFailed);
      }
      saved := Ok(());
    }

    method DeleteItem(account: string) returns (deleted: Result<bool, VaultError>)
      modifies this`items
      ensures deleted.Ok? ==> items == old(items) - {account} && deleted.value == (account in old(items))
      ensures deleted.Err? ==> items == old(items) || items == old(items) - {account}
    {
      var failed: bool, effective: bool := *, *;
      if failed {
        if effective {
          items := items - {account};
        }
        return Err(CommandFailed);
      }
      deleted := Ok(account in items);
      items := items - {account};
    }

    method Delete(reference: string) returns (done: Result<(), VaultError>)
      requires '#' !in reference
      modifies this`items
      ensures DeleteStopped(old(items), items, reference)
      ensures OthersSame(old(items), items, reference)
      ensures done.Ok? ==> items == Without(old(items), reference, DeleteOrder(old(items), reference))
      ensures done.Ok? ==> (NothingStored(items, reference) <==> Collectable(old(items), reference))
      ensures done.Ok? && reference in old(items) ==> 1 <= old(items)[reference].count <= MAX_PIECES
    {
      ghost var order := DeleteOrder(old(items), reference);
      WithoutNone(items, reference, order);
      StoppedAt(items, items, reference, 0);
      var count :- PieceCount(reference);
      if count.None? {
        done := DeletePieces(reference);
      } else {
        done := DeleteFromHead(reference, count.value);
      }
      DeleteLeavesNothing(old(items), reference);
    }

    method DeletePieces(reference: string) returns (done: Result<(), VaultError>)
      requires '#' !in reference && reference !in items
      modifies this`items
      ensures DeleteStopped(old(items), items, reference)
      ensures OthersSame(old(items), items, reference)
      ensures done.Ok? ==> items == Without(old(items), reference, DeleteOrder(old(items), reference))
    {
      ghost var order := DeleteOrder(old(items), reference);
      hide PieceAccount, Without, DeleteOrder, DeleteStopped, OthersSame;
      WithoutNone(items, reference, order);
      StoppedAt(items, items, reference, 0);
      var index, more := 1, true;
      while more
        invariant 1 <= index <= |order| + 1
        invariant items == Without(old(items), reference, order[..index - 1])
        invariant DeleteStopped(old(items), items, reference) && OthersSame(old(items), items, reference)
        invariant !more ==> index == |order| + 1
        decreases |order| + 1 - index, more
      {
        HeadlessStep(old(items), reference, index);
        ghost var now := items;
        var deleted := DeleteItem(PieceAccount(reference, index));
        if deleted.Err? {
          if items != now {
            StoppedAt(old(items), items, reference, index);
          }
          return Err(deleted.error);
        }
        more := deleted.value;
        if more {
          StoppedAt(old(items), items, reference, index);
          index := index + 1;
        }
      }
      assert order[..|order|] == order;
      done := Ok(());
    }

    method DeleteFromHead(reference: string, count: nat) returns (done: Result<(), VaultError>)
      requires '#' !in reference && reference in items && items[reference].count == count && count > 0
      modifies this`items
      ensures DeleteStopped(old(items), items, reference)
      ensures OthersSame(old(items), items, reference)
      ensures done.Ok? ==> items == Without(old(items), reference, DeleteOrder(old(items), reference))
    {
      hide PieceAccount, Without, DeleteStopped, OthersSame;
      ghost var order := DeleteOrder(old(items), reference);
      WithoutNone(items, reference, order);
      StoppedAt(items, items, reference, 0);
      var index := count;
      while index > 1
        invariant 1 <= index <= count
        invariant items == Without(old(items), reference, order[..count - index])
        invariant DeleteStopped(old(items), items, reference) && OthersSame(old(items), items, reference)
      {
        index := index - 1;
        WithoutOneMore(old(items), reference, order, count - 1 - index);
        ghost var now := items;
        var deleted := DeleteItem(PieceAccount(reference, index));
        if items != now {
          StoppedAt(old(items), items, reference, count - index);
        }
        if deleted.Err? {
          return Err(deleted.error);
        }
        StoppedAt(old(items), items, reference, count - index);
      }
      HeadAccount(reference);
      WithoutOneMore(old(items), reference, order, count - 1);
      assert order[..count] == order;
      var deleted := DeleteItem(reference);
      if items == Without(old(items), reference, order) {
        StoppedAt(old(items), items, reference, count);
      }
      if deleted.Err? {
        return Err(deleted.error);
      }
      done := Ok(());
    }
  }

  lemma BatchFits(reference: string, title: string, path: string, data: seq<Byte>, previous: nat)
    requires PieceCapacity(reference, title, path).Some? && data != [] && previous <= MAX_PIECES
    requires |Split(data, PieceCapacity(reference, title, path).value)| <= MAX_PIECES
    ensures LinesWithin(WriteCommands(reference, title, Split(data, PieceCapacity(reference, title, path).value), previous),
                        path)
  {
    hide PieceCapacity, Line, WriteCommands;
    var commands := WriteCommands(reference, title, Split(data, PieceCapacity(reference, title, path).value), previous);
    forall k | 0 <= k < |commands| ensures |Line(commands[k], path)| <= LINE_BUDGET {
      LinesFit(reference, title, path, data, previous, k);
    }
  }

  /** Wherever the batch stopped, a reader sees a whole entry, or none where there was none. */
  lemma BatchSeen(before: Items, after: Items, reference: string, title: string, data: seq<Byte>, size: nat, previous: nat)
    requires '#' !in reference && size > 0 && data != [] && |Split(data, size)| <= MAX_PIECES
    requires previous == PreviousCount(before, reference)
    requires BatchStopped(before, after, WriteCommands(reference, title, Split(data, size), previous))
    ensures OthersSame(before, after, reference)
    ensures reference !in before ==> Read(after, reference) in {Missing, Value(data)}
    ensures Read(before, reference).Value? ==> Read(after, reference).Value?
  {
    hide Run, WriteCommands, PieceAccount, Split;
    var pieces := Split(data, size);
    var commands := WriteCommands(reference, title, pieces, previous);
    var k: nat :| k <= |commands| && after == Run(before, commands[..k]);
    BatchPrefix(before, reference, title, pieces, previous, k);
    SplitConcat(data, size);
    if reference !in before {
      FreshWriteIsAllOrNothing(before, reference, title, pieces, k);
    } else if Read(before, reference).Value? {
      var former := StoredPieces(before, reference);
      OverwriteNeverIncomplete(before, reference, title, former, pieces, k);
    }
  }

  /** An entry that can be read is complete. */
  lemma StoredPieces(items: Items, reference: string) returns (pieces: seq<seq<Byte>>)
    requires Read(items, reference).Value?
    ensures Complete(items, reference, pieces) && |pieces| == items[reference].count
  {
    var count := items[reference].count;
    AllHeld(items, reference, 1, count);
    pieces := seq(count, i requires 0 <= i < count => if i == 0 then items[reference].data else
                    if PieceAccount(reference, i) in items then items[PieceAccount(reference, i)].data else []);
  }

  lemma {:induction false} AllHeld(items: Items, reference: string, from: nat, count: nat)
    requires PiecesFrom(items, reference, from, count).Some?
    ensures forall index: nat {:trigger PieceAccount(reference, index)} ::
              from <= index < count ==> PieceAccount(reference, index) in items
    decreases count - from
  {
    if from < count {
      AllHeld(items, reference, from + 1, count);
    }
  }
}
