/** One process's hold on both stores, where any operation can fail.

    A `Connection` is what a process has while it holds the maintenance lock: the database with at
    most one open transaction, and the vault. Every call may fail, before or after it takes effect.
    Each durable change is appended to `trace` as one action, so `trace` is a run of the protocol
    and the process may have died at any of its points. */
module Stores {
  import opened Wrappers
  import opened References
  import opened Documents
  import opened TwoStores

  datatype Fault = Works | FailsBefore | FailsAfter

  ghost predicate Unused(w: World, id: Uuid) {
    && id !in w.database.journal && id !in w.history.owners
    && forall r :: r in w.history.issued ==> r.credentialId != id
  }

  /** The identities still to be drawn are distinct and were never used. */
  ghost predicate Supplied(w: World, supply: seq<Uuid>, drawn: nat) {
    && drawn <= |supply|
    && (forall i :: 0 <= i < |supply| ==> IsCanonicalUuid(supply[i]))
    && (forall i, j :: 0 <= i < j < |supply| ==> supply[i] != supply[j])
    && (forall i :: drawn <= i < |supply| ==> Unused(w, supply[i]))
  }

  predicate DrawnBefore(supply: seq<Uuid>, drawn: nat, id: Uuid) {
    exists i :: 0 <= i < drawn && i < |supply| && supply[i] == id
  }

  /** Using identities that were drawn leaves the rest of the supply unused. */
  lemma StillSupplied(before: World, after: World, supply: seq<Uuid>, drawn: nat)
    requires Supplied(before, supply, drawn)
    requires forall id :: id in after.database.journal ==>
               id in before.database.journal || DrawnBefore(supply, drawn, id)
    requires forall id :: id in after.history.owners ==>
               id in before.history.owners || DrawnBefore(supply, drawn, id)
    requires forall r :: r in after.history.issued ==>
               r in before.history.issued || DrawnBefore(supply, drawn, r.credentialId)
    ensures Supplied(after, supply, drawn)
  {
    hide IsCanonicalUuid;
    forall i | drawn <= i < |supply| ensures Unused(after, supply[i]) {
      assert Unused(before, supply[i]);
    }
  }

  lemma RunExtends(worlds: seq<World>, next: World)
    requires IsRun(worlds) && Step(worlds[|worlds| - 1], next)
    ensures IsRun(worlds + [next])
  {
    hide Step;
    var longer := worlds + [next];
    forall i | 0 <= i < |longer| - 1 ensures Step(longer[i], longer[i + 1]) {
      if i < |worlds| - 1 {
        assert Step(worlds[i], worlds[i + 1]);
      }
    }
  }

  class Connection {
    var database: Database
    var vault: map<Reference, Secret>
    var transaction: Option<Database>
    const supply: seq<Uuid>
    var drawn: nat
    ghost var history: History
    ghost var trace: seq<World>
    ghost var faults: nat       // how many calls failed so far
    ghost var blind: nat        // how many inspections could not read the database

    ghost function Current(): World
      reads `database, `vault, `history
    {
      World(database, vault, history)
    }

    ghost predicate Valid()
      reads `database, `vault, `history, `trace, `drawn
    {
      && IsRun(trace) && trace[|trace| - 1] == Current()
      && Supplied(Current(), supply, drawn)
    }

    function Left(): nat
      reads `drawn
    {
      if drawn <= |supply| then |supply| - drawn else 0
    }

    constructor (database: Database, vault: map<Reference, Secret>, supply: seq<Uuid>, ghost history: History)
      requires Supplied(World(database, vault, history), supply, 0)
      ensures Valid() && Current() == World(database, vault, history)
      ensures this.supply == supply && drawn == 0 && transaction.None? && faults == 0 && blind == 0
    {
      this.database, this.vault, this.transaction := database, vault, None;
      this.supply, this.drawn := supply, 0;
      this.history, this.trace := history, [World(database, vault, history)];
      this.faults, this.blind := 0, 0;
    }

    /** Whether the next call works, and if not, whether its effect happens anyway. */
    method Draw() returns (fault: Fault)
      modifies `faults
      ensures faults >= old(faults)
      ensures fault.Works? <==> faults == old(faults)
    {
      fault := *;
      if !fault.Works? {
        faults := faults + 1;
      }
    }

    method NewUuid() returns (id: Uuid)
      requires Valid() && Left() > 0
      modifies `drawn
      ensures Valid() && drawn == old(drawn) + 1
      ensures id == supply[old(drawn)] && IsCanonicalUuid(id) && Unused(Current(), id)
    {
      id := supply[drawn];
      drawn := drawn + 1;
    }

    /** `BEGIN IMMEDIATE`. */
    method Begin() returns (ok: bool)
      modifies `transaction, `faults
      ensures faults >= old(faults)
      ensures ok <==> old(transaction).None? && faults == old(faults)
      ensures ok ==> transaction == Some(database)
    {
      var fault := Draw();
      ok := fault.Works? && transaction.None?;
      if transaction.None? && !fault.FailsBefore? {
        transaction := Some(database);
      }
    }

    /** `ROLLBACK`, when a transaction is open. */
    method Rollback() returns (ok: bool)
      modifies `transaction, `faults
      ensures faults >= old(faults)
      ensures ok ==> transaction.None?
      ensures !ok ==> faults > old(faults) && old(transaction).Some?
    {
      if transaction.None? {
        return true;
      }
      var fault := Draw();
      ok := fault.Works?;
      if !fault.FailsBefore? {
        transaction := None;
      }
    }

    /** The action happened, as the latest point of the run. */
    ghost predicate Took(action: Action, before: World, past: seq<World>)
      reads `database, `vault, `history, `trace
    {
      Enabled(action, before) && Current() == Apply(action, before) && trace == past + [Current()]
    }

    /** `COMMIT`, which switches the database to the open transaction in one durable action. Its
        failure does not say whether it took effect. */
    method Commit(ghost action: Action) returns (acknowledged: bool)
      requires Valid() && transaction.Some?
      requires Enabled(action, Current())
      requires Apply(action, Current()).database == transaction.value && Apply(action, Current()).vault == vault
      requires Supplied(Apply(action, Current()), supply, drawn)
      modifies `database, `transaction, `history, `trace, `faults
      ensures Valid() && faults >= old(faults)
      ensures acknowledged <==> faults == old(faults)
      ensures Took(action, old(Current()), old(trace)) || (Current() == old(Current()) && trace == old(trace))
      ensures acknowledged ==> Took(action, old(Current()), old(trace)) && transaction.None?
      ensures transaction.Some? ==> Current() == old(Current()) && trace == old(trace)
      ensures old(Consistent(Current())) ==> Consistent(Current())
    {
      hide Consistent, Enabled, Apply, Supplied, IsRun, Step;
      ghost var before := Current();
      var fault := Draw();
      acknowledged := fault.Works?;
      if fault.FailsBefore? {
        var open: bool := *;
        if !open {
          transaction := None;
        }
        return;
      }
      database, transaction := transaction.value, None;
      history := Apply(action, before).history;
      trace := trace + [Current()];
      Taken(action, before, Current(), old(trace));
    }

    /** Stores a secret under a queued reference. */
    method SetSecret(reference: Reference, value: Secret) returns (ok: bool)
      requires Valid() && IsJournaled(database.journal, reference)
      requires reference in history.issued && history.issued[reference] == value
      modifies `vault, `trace, `faults
      ensures Valid() && faults >= old(faults)
      ensures ok <==> faults == old(faults)
      ensures vault == old(vault) || vault == old(vault)[reference := value]
      ensures ok ==> vault == old(vault)[reference := value]
      ensures old(trace) <= trace
      ensures old(Consistent(Current())) ==> Consistent(Current())
    {
      hide Consistent, Apply, Supplied, IsRun, Step;
      ghost var before := Current();
      var fault := Draw();
      ok := fault.Works?;
      if !fault.FailsBefore? {
        vault := vault[reference := value];
        trace := trace + [Current()];
        assert Current() == Apply(Store(reference), before) by { Applied(Store(reference), before); }
        Taken(Store(reference), before, Current(), old(trace));
        SameSupply(before, Current(), supply, drawn);
      }
    }

    /** The secret, or nothing when the vault fails or has none. */
    method GetSecret(reference: Reference) returns (secret: Option<Secret>)
      modifies `faults
      ensures faults >= old(faults)
      ensures secret.Some? <==> faults == old(faults) && reference in vault
      ensures secret.Some? ==> secret.value == vault[reference]
    {
      var fault := Draw();
      secret := if fault.Works? && reference in vault then Some(vault[reference]) else None;
    }

    /** Deletes the secret of a queued reference that no profile holds. */
    method DeleteSecret(reference: Reference) returns (ok: bool)
      requires Valid() && IsJournaled(database.journal, reference) && !IsLive(database.profiles, reference)
      modifies `vault, `trace, `faults
      ensures Valid() && faults >= old(faults)
      ensures ok <==> faults == old(faults)
      ensures vault == old(vault) || vault == old(vault) - {reference}
      ensures ok ==> vault == old(vault) - {reference}
      ensures old(trace) <= trace
      ensures old(Consistent(Current())) ==> Consistent(Current())
    {
      hide Consistent, Apply, Supplied, IsRun, Step, IsLive;
      ghost var before := Current();
      var fault := Draw();
      ok := fault.Works?;
      if !fault.FailsBefore? {
        vault := vault - {reference};
        trace := trace + [Current()];
        assert Current() == Apply(Erase(reference), before) by { Applied(Erase(reference), before); }
        Taken(Erase(reference), before, Current(), old(trace));
        SameSupply(before, Current(), supply, drawn);
      }
    }

    /** What an inspection connection reads, if it can read at all. */
    method Inspect() returns (reading: Option<Database>)
      modifies `faults, `blind
      ensures faults >= old(faults)
      ensures blind == if reading.None? then old(blind) + 1 else old(blind)
      ensures reading.None? <==> faults > old(faults)
      ensures reading.Some? ==> reading.value == database
    {
      var fault := Draw();
      if fault.Works? {
        reading := Some(database);
      } else {
        reading := None;
        blind := blind + 1;
      }
    }
  }

  lemma Applied(action: Action, before: World)
    requires Enabled(action, before)
    ensures match action
            case Store(reference) =>
              Apply(action, before) ==
              World(before.database, before.vault[reference := before.history.issued[reference]], before.history)
            case Erase(reference) =>
              Apply(action, before) == World(before.database, before.vault - {reference}, before.history)
            case _ => true
  {
  }

  lemma SameSupply(before: World, after: World, supply: seq<Uuid>, drawn: nat)
    requires Supplied(before, supply, drawn)
    requires before.database == after.database && before.history == after.history
    ensures Supplied(after, supply, drawn)
  {
    StillSupplied(before, after, supply, drawn);
  }

  lemma Taken(action: Action, before: World, after: World, past: seq<World>)
    requires IsRun(past) && past[|past| - 1] == before
    requires Enabled(action, before) && after == Apply(action, before)
    ensures IsRun(past + [after])
    ensures Consistent(before) ==> Consistent(after)
  {
    hide Consistent, Enabled, Apply;
    assert StepBy(action, before, after);
    RunExtends(past, after);
    if Consistent(before) {
      StepKeepsConsistent(before, after);
    }
  }
}
