/** Processes that share the two stores under the maintenance lock (`profile_storage.py`, `profiles.py`).

    Any number of processes interleave: they acquire the lock, act, release it, or die at any
    moment. A mutation's durable actions are the steps of `TwoStores`; a snapshot reads its row and
    then each secret in separate steps. */
module Locking {
  import opened Wrappers
  import opened References
  import opened Documents
  import opened TwoStores

  type Process = nat

  datatype Snapshot = Snapshot(name: string, profileId: Uuid, revision: nat, document: Document,
                               secrets: map<Field, Secret>)

  datatype Phase =
    | Outside                                                            // holds nothing
    | Mutating                                                           // in writable_connection or a repair
    | Opening(name: string)                                              // in resolve_profile_snapshot
    | Fetching(name: string, row: Row, fetched: map<Field, Secret>)      // row read, secrets being read
    | Returned(snapshot: Snapshot)                                       // snapshot handed out, lock released

  datatype System = System(world: World, lock: Option<Process>, phases: map<Process, Phase>)

  function PhaseOf(s: System, p: Process): Phase {
    if p in s.phases then s.phases[p] else Outside
  }

  function Moved(s: System, p: Process, phase: Phase): System {
    s.(phases := s.phases[p := phase])
  }

  function Released(s: System, p: Process, phase: Phase): System {
    s.(lock := if s.lock == Some(p) then None else s.lock, phases := s.phases[p := phase])
  }

  datatype Move =
    | Acquire(phase: Phase)
    | Mutate(after: World)
    | Open
    | Fetch(field: Field)
    | Return
    | GiveUp     // an operation ends, in success or failure, and its `with` block closes the lock
    | Die        // the process is killed, and the operating system closes the lock

  ghost predicate CanMove(move: Move, s: System, p: Process) {
    var phase := PhaseOf(s, p);
    match move
    case Acquire(next) => s.lock.None? && (phase.Outside? || phase.Returned?) && (next.Mutating? || next.Opening?)
    case Mutate(after) => phase.Mutating? && Step(s.world, after)
    case Open => phase.Opening? && phase.name in s.world.database.profiles
    case Fetch(field) =>
      && phase.Fetching?
      && var references := ProfileReferences(phase.row.document);
      && field in references && references[field] in s.world.vault
    case Return => phase.Fetching? && phase.fetched.Keys == ProfileReferences(phase.row.document).Keys
    case GiveUp => !phase.Outside? && !phase.Returned?
    case Die => true
  }

  function AfterMove(move: Move, s: System, p: Process): System
    requires CanMove(move, s, p)
  {
    var phase := PhaseOf(s, p);
    match move
    case Acquire(next) => Moved(s.(lock := Some(p)), p, next)
    case Mutate(after) => s.(world := after)
    case Open => Moved(s, p, Fetching(phase.name, s.world.database.profiles[phase.name], map[]))
    case Fetch(field) =>
      var secret := s.world.vault[ProfileReferences(phase.row.document)[field]];
      Moved(s, p, phase.(fetched := phase.fetched[field := secret]))
    case Return =>
      var snapshot := Snapshot(phase.name, phase.row.id, phase.row.revision, phase.row.document, phase.fetched);
      Released(s, p, Returned(snapshot))
    case GiveUp => Released(s, p, Outside)
    case Die => Released(s, p, Outside)
  }

  ghost predicate Next(s: System, t: System) {
    exists move, p :: CanMove(move, s, p) && t == AfterMove(move, s, p)
  }

  ghost predicate IsBehaviour(systems: seq<System>) {
    && systems != []
    && Consistent(systems[0].world) && systems[0].lock.None? && systems[0].phases == map[]
    && forall i :: 0 <= i < |systems| - 1 ==> Next(systems[i], systems[i + 1])
  }

  /** The generation a snapshot claims to be. */
  ghost predicate Coherent(history: History, snapshot: Snapshot) {
    var key := (snapshot.profileId, snapshot.revision);
    key in history.generations && history.generations[key] == Generation(snapshot.document, snapshot.secrets)
  }

  ghost predicate PhaseSound(s: System, p: Process) {
    var phase := PhaseOf(s, p);
    && (phase.Mutating? || phase.Opening? || phase.Fetching? ==> s.lock == Some(p))
    && (phase.Fetching? ==>
          && phase.name in s.world.database.profiles
          && phase.row == s.world.database.profiles[phase.name]
          && var key := (phase.row.id, phase.row.revision);
          && key in s.world.history.generations
          && forall field :: field in phase.fetched ==>
               field in s.world.history.generations[key].secrets &&
               phase.fetched[field] == s.world.history.generations[key].secrets[field])
    && (phase.Returned? ==> Coherent(s.world.history, phase.snapshot))
  }

  ghost predicate Sound(s: System) {
    Consistent(s.world) && forall p :: PhaseSound(s, p)
  }

  lemma MutationKeepsSound(s: System, p: Process, after: World)
    requires Sound(s) && CanMove(Mutate(after), s, p)
    ensures Sound(AfterMove(Mutate(after), s, p))
  {
    hide Consistent, Step, ProfileReferences;
    StepKeepsConsistent(s.world, after);
    StepExtends(s.world, after);
    var t := AfterMove(Mutate(after), s, p);
    forall q ensures PhaseSound(t, q) {
      assert PhaseSound(s, q) && PhaseSound(s, p);
    }
  }

  lemma NextKeepsSound(s: System, t: System)
    requires Sound(s) && Next(s, t)
    ensures Sound(t)
  {
    hide Consistent, Step, ProfileReferences;
    var move, p :| CanMove(move, s, p) && t == AfterMove(move, s, p);
    match move
    case Mutate(after) =>
      MutationKeepsSound(s, p, after);
    case Open => ReadingKeepsSound(s, p, move);
    case Fetch(_) => ReadingKeepsSound(s, p, move);
    case Return => ReadingKeepsSound(s, p, move);
    case _ => LockMoveKeepsSound(s, p, move);
  }

  lemma ReadingKeepsSound(s: System, p: Process, move: Move)
    requires Sound(s) && CanMove(move, s, p) && (move.Open? || move.Fetch? || move.Return?)
    ensures Sound(AfterMove(move, s, p))
  {
    hide Consistent, Step, ProfileReferences;
    var t := AfterMove(move, s, p);
    match move {
      case Open => OpenedRow(s, p);
      case Fetch(field) => FetchedSecret(s, p, field);
      case Return => ReturnedSnapshot(s, p);
    }
    forall q ensures PhaseSound(t, q) {
      assert PhaseSound(s, q) && PhaseSound(s, p);
    }
  }

  lemma LockMoveKeepsSound(s: System, p: Process, move: Move)
    requires Sound(s) && CanMove(move, s, p) && (move.Acquire? || move.GiveUp? || move.Die?)
    ensures Sound(AfterMove(move, s, p))
  {
    hide Consistent, Step, ProfileReferences, Coherent;
    var t := AfterMove(move, s, p);
    forall q ensures PhaseSound(t, q) {
      assert PhaseSound(s, q) && PhaseSound(s, p);
    }
  }

  lemma OpenedRow(s: System, p: Process)
    requires Sound(s) && CanMove(Open, s, p)
    ensures RowRecorded(s.world.history, s.world.database.profiles[PhaseOf(s, p).name])
  {
    hide ProfileReferences;
  }

  lemma FetchedSecret(s: System, p: Process, field: Field)
    requires Sound(s) && CanMove(Fetch(field), s, p)
    ensures var row := PhaseOf(s, p).row;
            && (row.id, row.revision) in s.world.history.generations
            && var generation := s.world.history.generations[(row.id, row.revision)];
            && field in generation.secrets
            && generation.secrets[field] == s.world.vault[ProfileReferences(row.document)[field]]
  {
    hide ProfileReferences;
    assert PhaseSound(s, p);
    assert RowRecorded(s.world.history, PhaseOf(s, p).row);
  }

  lemma ReturnedSnapshot(s: System, p: Process)
    requires Sound(s) && CanMove(Return, s, p)
    ensures var phase := PhaseOf(s, p);
            Coherent(s.world.history,
                     Snapshot(phase.name, phase.row.id, phase.row.revision, phase.row.document, phase.fetched))
  {
    hide ProfileReferences;
    assert PhaseSound(s, p);
    assert RowRecorded(s.world.history, PhaseOf(s, p).row);
    var row := PhaseOf(s, p).row;
    assert PhaseOf(s, p).fetched == s.world.history.generations[(row.id, row.revision)].secrets;
  }

  lemma {:induction false} BehaviourIsSound(systems: seq<System>, i: nat)
    requires IsBehaviour(systems) && i < |systems|
    ensures Sound(systems[i])
  {
    hide Consistent, Next;
    if i > 0 {
      BehaviourIsSound(systems, i - 1);
      NextKeepsSound(systems[i - 1], systems[i]);
    }
  }

  /** At most one process is ever between acquiring and releasing the lock. */
  lemma LockExcludes(systems: seq<System>, i: nat, p: Process, q: Process)
    requires IsBehaviour(systems) && i < |systems|
    requires !PhaseOf(systems[i], p).Outside? && !PhaseOf(systems[i], p).Returned?
    requires !PhaseOf(systems[i], q).Outside? && !PhaseOf(systems[i], q).Returned?
    ensures p == q
  {
    BehaviourIsSound(systems, i);
    assert PhaseSound(systems[i], p) && PhaseSound(systems[i], q);
  }

  /** Whatever other processes did, or wherever they died, a snapshot that is returned holds exactly
      the values supplied for the one revision it read: none missing, none from another generation. */
  lemma SnapshotIsOneGeneration(systems: seq<System>, i: nat, p: Process)
    requires IsBehaviour(systems) && i < |systems| && PhaseOf(systems[i], p).Returned?
    ensures var snapshot, history := PhaseOf(systems[i], p).snapshot, systems[i].world.history;
            && Coherent(history, snapshot)
            && snapshot.secrets.Keys == ProfileReferences(snapshot.document).Keys
  {
    BehaviourIsSound(systems, i);
    assert PhaseSound(systems[i], p);
    SnapshotIsComplete(systems, i, p);
  }

  lemma {:induction false} SnapshotIsComplete(systems: seq<System>, i: nat, p: Process)
    requires IsBehaviour(systems) && i < |systems| && PhaseOf(systems[i], p).Returned?
    ensures var snapshot := PhaseOf(systems[i], p).snapshot;
            snapshot.secrets.Keys == ProfileReferences(snapshot.document).Keys
  {
    hide Consistent, Step, ProfileReferences;
    if PhaseOf(systems[i - 1], p) == PhaseOf(systems[i], p) {
      SnapshotIsComplete(systems, i - 1, p);
    } else {
      assert Next(systems[i - 1], systems[i]);
    }
  }

  /** A snapshot always finds its secrets: a fetch of a field the row names cannot miss. */
  lemma FetchNeverMisses(systems: seq<System>, i: nat, p: Process, field: Field)
    requires IsBehaviour(systems) && i < |systems| && PhaseOf(systems[i], p).Fetching?
    requires field in ProfileReferences(PhaseOf(systems[i], p).row.document)
    ensures ProfileReferences(PhaseOf(systems[i], p).row.document)[field] in systems[i].world.vault
  {
    BehaviourIsSound(systems, i);
    hide ProfileReferences;
    var s := systems[i];
    assert PhaseSound(s, p);
    var references := ProfileReferences(PhaseOf(s, p).row.document);
    assert references[field] in references.Values;
    assert IsLive(s.world.database.profiles, references[field]);
  }

  // A sequential mutation, cut off anywhere

  /** The system states in which process `p` has performed the first `k` durable actions of a run. */
  function Performing(s: System, worlds: seq<World>, k: nat): (systems: seq<System>)
    requires k < |worlds|
    ensures |systems| == k + 1
  {
    seq(k + 1, i requires 0 <= i < k + 1 => s.(world := worlds[i]))
  }

  lemma Joined(first: seq<System>, second: seq<System>, i: nat)
    requires first != [] && second != [] && first[|first| - 1] == second[0]
    requires |first| - 1 <= i < |first| + |second| - 1
    ensures (first + second[1..])[i] == second[i - (|first| - 1)]
  {
  }

  lemma MutatesNext(s: System, p: Process, after: World)
    requires PhaseOf(s, p).Mutating? && Step(s.world, after) && s.lock == Some(p)
    ensures Next(s, s.(world := after))
  {
    hide Step;
    assert CanMove(Mutate(after), s, p) && s.(world := after) == AfterMove(Mutate(after), s, p);
  }

  lemma DiesNext(s: System, p: Process)
    requires PhaseOf(s, p).Mutating?
    ensures Next(s, Released(s, p, Outside))
  {
    assert CanMove(Die, s, p) && Released(s, p, Outside) == AfterMove(Die, s, p);
  }

  /** Any prefix of a mutation's durable actions, followed by the death of its process, is a
      behaviour of the system: so what holds of every behaviour holds after every such crash. */
  lemma CrashAnywhere(systems: seq<System>, p: Process, worlds: seq<World>, k: nat)
    requires IsBehaviour(systems) && IsRun(worlds) && k < |worlds|
    requires systems[|systems| - 1].world == worlds[0]
    requires PhaseOf(systems[|systems| - 1], p).Mutating?
    ensures var last := systems[|systems| - 1];
            var crashed := systems + Performing(last, worlds, k)[1..] + [Released(last.(world := worlds[k]), p, Outside)];
            && IsBehaviour(crashed)
            && crashed[|crashed| - 1].world == worlds[k]
            && crashed[|crashed| - 1].lock.None?
  {
    hide Consistent, Step, ProfileReferences;
    var last := systems[|systems| - 1];
    var working := systems + Performing(last, worlds, k)[1..];
    BehaviourIsSound(systems, |systems| - 1);
    assert PhaseSound(last, p);
    assert last.(world := worlds[0]) == last;
    forall i | 0 <= i < |working| - 1 ensures Next(working[i], working[i + 1]) {
      if i >= |systems| - 1 {
        var j := i - (|systems| - 1);
        Joined(systems, Performing(last, worlds, k), i);
        Joined(systems, Performing(last, worlds, k), i + 1);
        assert Step(worlds[j], worlds[j + 1]);
        MutatesNext(last.(world := worlds[j]), p, worlds[j + 1]);
      }
    }
    var final := working[|working| - 1];
    Joined(systems, Performing(last, worlds, k), |working| - 1);
    assert final == last.(world := worlds[k]);
    DiesNext(final, p);
    var crashed := working + [Released(final, p, Outside)];
    forall i | 0 <= i < |crashed| - 1 ensures Next(crashed[i], crashed[i + 1]) {
      if i < |working| - 1 {
        assert crashed[i] == working[i] && crashed[i + 1] == working[i + 1];
      }
    }
  }
}
