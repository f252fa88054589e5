/** Deciding from the database whether a mutation happened (`mutation_outcomes.py`).

    A COMMIT can fail after it took effect. The program then reads the database back and compares
    it with the states before and after. `LostAcknowledgement` shows that the comparison is right in
    both states; `EditVerdictHoldsLater`, `AddVerdictHoldsLater` and `RemovalVerdictHoldsLater` show
    what a verdict means at any later time. */
module MutationOutcomes {
  import opened Wrappers
  import opened References
  import opened Documents
  import opened TwoStores

  datatype Outcome = NotCommitted | Committed | Unknown

  datatype RowState = RowState(name: string, row: Row)

  datatype Evidence = Evidence(before: Option<RowState>, after: Option<RowState>,
                               removed: seq<CleanupRecord>, added: seq<CleanupRecord>)

  /** `read_profile_row_state`. */
  function ReadRowState(database: Database, name: string): Option<RowState> {
    if name in database.profiles then Some(RowState(name, database.profiles[name])) else None
  }

  predicate HoldsRecord(journal: map<Uuid, CleanupRecord>, record: CleanupRecord) {
    && record.recordId in journal
    && journal[record.recordId].reference == record.reference
    && journal[record.recordId].createdAt == record.createdAt
  }

  predicate RecordsMatch(journal: map<Uuid, CleanupRecord>, present: seq<CleanupRecord>, absent: seq<CleanupRecord>) {
    && (forall i :: 0 <= i < |present| ==> HoldsRecord(journal, present[i]))
    && (forall i :: 0 <= i < |absent| ==> absent[i].recordId !in journal)
  }

  /** `_cleanup_records_match`. */
  method CleanupRecordsMatch(journal: map<Uuid, CleanupRecord>, present: seq<CleanupRecord>, absent: seq<CleanupRecord>)
    returns (matching: bool)
    ensures matching <==>
            && (forall i :: 0 <= i < |present| ==>
                  && present[i].recordId in journal
                  && journal[present[i].recordId].reference == present[i].reference
                  && journal[present[i].recordId].createdAt == present[i].createdAt)
            && forall i :: 0 <= i < |absent| ==> absent[i].recordId !in journal
  {
    for i := 0 to |present|
      invariant forall j :: 0 <= j < i ==> HoldsRecord(journal, present[j])
    {
      var id := present[i].recordId;
      if id !in journal ||
         (journal[id].reference, journal[id].createdAt) != (present[i].reference, present[i].createdAt) {
        return false;
      }
    }
    for i := 0 to |absent|
      invariant forall j :: 0 <= j < i ==> absent[j].recordId !in journal
    {
      if absent[i].recordId in journal {
        return false;
      }
    }
    return true;
  }

  /** The database is in the state the evidence describes as "before". */
  predicate InBefore(database: Database, evidence: Evidence, name: string) {
    ReadRowState(database, name) == evidence.before &&
    RecordsMatch(database.journal, evidence.removed, evidence.added)
  }

  predicate InAfter(database: Database, evidence: Evidence, name: string) {
    ReadRowState(database, name) == evidence.after &&
    RecordsMatch(database.journal, evidence.added, evidence.removed)
  }

  function EvidenceName(evidence: Evidence): Option<string> {
    if evidence.after.Some? then Some(evidence.after.value.name)
    else if evidence.before.Some? then Some(evidence.before.value.name)
    else None
  }

  /** What a reading of the database says about the mutation. */
  function Verdict(database: Database, evidence: Evidence): Outcome {
    match EvidenceName(evidence)
    case None => Unknown
    case Some(name) =>
      var before, after := InBefore(database, evidence, name), InAfter(database, evidence, name);
      if after && !before then Committed else if before && !after then NotCommitted else Unknown
  }

  /** A database shows a state: the row as it is there, or its absence, and the journal rows that are present and the
      identities that are absent. The row's name is the one after the mutation, or else the one before it. */
  ghost predicate Shows(database: Database, evidence: Evidence, state: Option<RowState>, present: seq<CleanupRecord>,
                        absent: seq<CleanupRecord>) {
    && (evidence.after != None || evidence.before != None)
    && var name := if evidence.after != None then evidence.after.value.name else evidence.before.value.name;
    && (match state
        case None => name !in database.profiles
        case Some(RowState(known, row)) => known == name && name in database.profiles && database.profiles[name] == row)
    && (forall record :: record in present ==>
          && record.recordId in database.journal
          && database.journal[record.recordId].reference == record.reference
          && database.journal[record.recordId].createdAt == record.createdAt)
    && forall record :: record in absent ==> record.recordId !in database.journal
  }

  lemma ShowsExactly(database: Database, evidence: Evidence, name: string)
    requires EvidenceName(evidence) == Some(name)
    ensures InBefore(database, evidence, name) <==>
            Shows(database, evidence, evidence.before, evidence.removed, evidence.added)
    ensures InAfter(database, evidence, name) <==>
            Shows(database, evidence, evidence.after, evidence.added, evidence.removed)
  {
    forall records: seq<CleanupRecord>, i | 0 <= i < |records| ensures records[i] in records {
    }
  }

  /** `_inspect_mutation_outcome`; `reading` is what the inspection connection could read, if it
      could be opened and read at all. */
  method InspectMutationOutcome(reading: Option<Database>, evidence: Evidence) returns (outcome: Outcome)
    ensures outcome == if reading.None? then Unknown else Verdict(reading.value, evidence)
    ensures reading.Some? ==>
              var before := Shows(reading.value, evidence, evidence.before, evidence.removed, evidence.added);
              var after := Shows(reading.value, evidence, evidence.after, evidence.added, evidence.removed);
              outcome == if after && !before then Committed else if before && !after then NotCommitted else Unknown
  {
    if reading.Some? && EvidenceName(evidence).Some? {
      ShowsExactly(reading.value, evidence, EvidenceName(evidence).value);
    }
    if reading.None? {
      return Unknown;
    }
    var database := reading.value;
    var name;
    if evidence.after.Some? {
      name := evidence.after.value.name;
    } else if evidence.before.Some? {
      name := evidence.before.value.name;
    } else {
      return Unknown;
    }
    var current := ReadRowState(database, name);
    var beforeCleanup := CleanupRecordsMatch(database.journal, evidence.removed, evidence.added);
    var afterCleanup := CleanupRecordsMatch(database.journal, evidence.added, evidence.removed);
    var beforeMatches := current == evidence.before && beforeCleanup;
    var afterMatches := current == evidence.after && afterCleanup;
    if afterMatches && !beforeMatches {
      return Committed;
    }
    if beforeMatches && !afterMatches {
      return NotCommitted;
    }
    return Unknown;
  }

  // What the verdict means

  /** Actions that change a profile row. */
  predicate Switches(action: Action) {
    action.Create? || action.Update? || action.Remove?
  }

  /** The evidence the program collects before it attempts the action. */
  function EvidenceOf(action: Action, w: World): Evidence
    requires Switches(action)
    requires !action.Create? ==> action.name in w.database.profiles
  {
    match action
    case Create(name, document, staged, _) =>
      Evidence(None, Some(RowState(name, Row(document.id, 1, document))), staged, [])
    case Update(name, document, staged, retired, _) =>
      var row := w.database.profiles[name];
      Evidence(Some(RowState(name, row)), Some(RowState(name, Row(row.id, row.revision + 1, document))),
               staged, retired)
    case Remove(name, retired) =>
      Evidence(Some(RowState(name, w.database.profiles[name])), None, [], retired)
  }

  /** The records added and removed by one transaction never share an identity. */
  lemma ReplacedRecords(journal: map<Uuid, CleanupRecord>, staged: seq<CleanupRecord>, retired: seq<CleanupRecord>)
    requires Stored(journal, staged) && Insertable(journal, retired)
    ensures RecordsMatch(journal, staged, retired)
    ensures RecordsMatch(WithRecords(WithoutRecords(journal, staged), retired), retired, staged)
  {
    var shrunk := WithoutRecords(journal, staged);
    WithRecordsHolds(shrunk, retired);
    forall i | 0 <= i < |staged| ensures staged[i].recordId !in WithRecords(shrunk, retired) {
      assert Names(staged, staged[i].recordId);
    }
  }

  /** When the acknowledgement of a COMMIT is lost, reading the database back decides correctly
      whether it took effect. */
  lemma LostAcknowledgement(w: World, action: Action)
    requires Consistent(w) && Switches(action) && Enabled(action, w)
    ensures Verdict(w.database, EvidenceOf(action, w)) == NotCommitted
    ensures Verdict(Apply(action, w).database, EvidenceOf(action, w)) == Committed
  {
    hide Consistent, ProfileReferences, WellOwned, IsCanonical, IsCanonicalUuid, Intended, Insertable, Stored,
      WithRecords, WithoutRecords, RecordsMatch;
    var journal := w.database.journal;
    match action
    case Create(name, document, staged, _) =>
      NothingAdded(journal, staged);
      ReplacedRecords(journal, staged, []);
    case Update(name, document, staged, retired, _) =>
      ReplacedRecords(journal, staged, retired);
    case Remove(name, retired) =>
      NothingRemoved(journal, retired);
      ReplacedRecords(journal, [], retired);
  }

  lemma NothingAdded(journal: map<Uuid, CleanupRecord>, staged: seq<CleanupRecord>)
    ensures Insertable(journal, [])
    ensures WithRecords(WithoutRecords(journal, staged), []) == WithoutRecords(journal, staged)
  {
  }

  lemma NothingRemoved(journal: map<Uuid, CleanupRecord>, retired: seq<CleanupRecord>)
    ensures Stored(journal, [])
    ensures WithRecords(WithoutRecords(journal, []), retired) == WithRecords(journal, retired)
  {
    assert WithoutRecords(journal, []) == journal;
  }

  /** However much later the database is read, and whatever happened in between: "committed" means
      that this very generation was recorded since, and "not committed" means that it never was. */
  lemma EditVerdictHoldsLater(worlds: seq<World>, i: nat, j: nat, action: Action)
    requires IsRun(worlds) && Consistent(worlds[0]) && i <= j < |worlds|
    requires action.Update? && Enabled(action, worlds[i])
    ensures var row := worlds[i].database.profiles[action.name];
            var generation := (row.id, row.revision + 1);
            && generation !in worlds[i].history.generations
            && var verdict := Verdict(worlds[j].database, EvidenceOf(action, worlds[i]));
            && (verdict == Committed ==>
                  && generation in worlds[j].history.generations
                  && worlds[j].history.generations[generation].document == action.document)
            && (verdict == NotCommitted ==> generation !in worlds[j].history.generations)
  {
    hide ProfileReferences, Verdict, EvidenceOf, Step, Supplies, IsLive, IsJournaled, RowsKeyed, JournalKeyed, Balanced,
      WellOwned, Enabled;
    VerdictOfEdit(worlds[i], worlds[j].database, action);
    RunKeepsConsistent(worlds, i, j);
    RunKeepsConsistent(worlds, i, i);
    NextRevisionIsNew(worlds[i], action.name);
    if action.name in worlds[j].database.profiles {
      assert RowRecorded(worlds[j].history, worlds[j].database.profiles[action.name]);
    }
  }

  lemma VerdictOfEdit(w: World, database: Database, action: Action)
    requires action.Update? && Enabled(action, w)
    ensures action.name in w.database.profiles
    ensures var row, verdict := w.database.profiles[action.name], Verdict(database, EvidenceOf(action, w));
            && (verdict == Committed ==>
                  && action.name in database.profiles && action.document.id == row.id
                  && database.profiles[action.name] == Row(row.id, row.revision + 1, action.document))
            && (verdict == NotCommitted ==> action.name in database.profiles && database.profiles[action.name] == row)
  {
    hide ProfileReferences, WellOwned, Intended, Insertable, Stored, RecordsMatch, Ready;
  }

  /** The identities of the records are not used again once their rows are gone. */
  ghost predicate NeverReused(worlds: seq<World>, i: nat, j: nat, records: seq<CleanupRecord>)
    requires i <= j < |worlds|
  {
    forall k, id :: i < k <= j && Names(records, id) && id in worlds[k].database.journal ==>
                      id in worlds[k - 1].database.journal
  }

  /** Whether this document was ever stored as that revision of its profile. */
  predicate WasStored(history: History, id: Uuid, revision: nat, document: Document) {
    (id, revision) in history.generations && history.generations[(id, revision)].document == document
  }

  lemma VerdictOfAdd(w: World, database: Database, action: Action)
    requires action.Create? && Enabled(action, w)
    ensures Verdict(database, EvidenceOf(action, w)) == Committed ==>
              action.name in database.profiles && database.profiles[action.name] == Row(action.document.id, 1, action.document)
    ensures Verdict(database, EvidenceOf(action, w)) == NotCommitted && action.staged != [] ==>
              action.staged[0].recordId in database.journal
  {
    hide ProfileReferences, WellOwned, Intended;
  }

  /** For an addition, "committed" always means that the document was stored; and "not committed" that it never
      was, if secrets were staged for it. */
  lemma AddVerdictHoldsLater(worlds: seq<World>, i: nat, j: nat, action: Action)
    requires IsRun(worlds) && Consistent(worlds[0]) && i <= j < |worlds|
    requires action.Create? && Enabled(action, worlds[i])
    ensures var verdict := Verdict(worlds[j].database, EvidenceOf(action, worlds[i]));
            && !WasStored(worlds[i].history, action.document.id, 1, action.document)
            && (verdict == Committed ==> WasStored(worlds[j].history, action.document.id, 1, action.document))
            && (verdict == NotCommitted && action.staged != [] && NeverReused(worlds, i, j, action.staged) ==>
                  !WasStored(worlds[j].history, action.document.id, 1, action.document))
  {
    hide ProfileReferences, WellOwned, IsCanonical, IsCanonicalUuid, Intended, Insertable, Step, Supplies, IsLive,
      IsJournaled, NeverReused, Verdict, EvidenceOf, Ready, Enabled;
    NotYetStored(worlds, i, action);
    RunKeepsConsistent(worlds, i, j);
    VerdictOfAdd(worlds[i], worlds[j].database, action);
    if action.name in worlds[j].database.profiles {
      assert RowRecorded(worlds[j].history, worlds[j].database.profiles[action.name]);
    }
    if action.staged != [] && action.staged[0].recordId in worlds[j].database.journal &&
       NeverReused(worlds, i, j, action.staged)
    {
      StagedNeverStored(worlds, i, j, action);
    }
  }

  /** While a staged record remains, its document was not stored. */
  lemma {:induction false} StagedNeverStored(worlds: seq<World>, i: nat, j: nat, action: Action)
    requires IsRun(worlds) && Consistent(worlds[0]) && i <= j < |worlds|
    requires action.Create? && Enabled(action, worlds[i]) && NeverReused(worlds, i, j, action.staged)
    requires action.staged != [] && action.staged[0].recordId in worlds[j].database.journal
    ensures worlds[j].database.journal[action.staged[0].recordId] == action.staged[0]
    ensures !WasStored(worlds[j].history, action.document.id, 1, action.document)
    decreases j
  {
    hide Consistent, Step, Enabled, Names, ProfileReferences, RowRecorded;
    if i == j {
      NotYetStored(worlds, i, action);
    } else {
      FirstIsNamed(action.staged);
      StagedNeverStored(worlds, i, j - 1, action);
      RunKeepsConsistent(worlds, i, j - 1);
      RunKeepsConsistent(worlds, i, j);
      StagedOneMore(worlds[i], worlds[j - 1], worlds[j], action);
    }
  }

  lemma FirstIsNamed(records: seq<CleanupRecord>)
    requires records != []
    ensures Names(records, records[0].recordId)
  {
  }

  lemma NotYetStored(worlds: seq<World>, i: nat, action: Action)
    requires IsRun(worlds) && Consistent(worlds[0]) && i < |worlds|
    requires action.Create? && Enabled(action, worlds[i])
    ensures !WasStored(worlds[i].history, action.document.id, 1, action.document)
    ensures action.staged != [] ==> worlds[i].database.journal[action.staged[0].recordId] == action.staged[0]
  {
    hide ProfileReferences, WellOwned, Intended, Step;
    RunKeepsConsistent(worlds, i, i);
  }

  lemma StagedOneMore(start: World, before: World, after: World, action: Action)
    requires Consistent(before) && Consistent(after) && Step(before, after)
    requires action.Create? && Enabled(action, start) && action.staged != []
    requires action.staged[0].recordId in before.database.journal && action.staged[0].recordId in after.database.journal
    requires before.database.journal[action.staged[0].recordId] == action.staged[0]
    requires !WasStored(before.history, action.document.id, 1, action.document)
    ensures after.database.journal[action.staged[0].recordId] == action.staged[0]
    ensures !WasStored(after.history, action.document.id, 1, action.document)
  {
    hide ProfileReferences, WellOwned, IsCanonical, Intended, Supplies, RowRecorded;
    var step :| StepBy(step, before, after);
    JournalRowsStay(step, before, action.staged[0].recordId);
    assert Covers(action.staged, action.staged[0].reference);
    assert IsJournaled(after.database.journal, action.staged[0].reference);
    StoredIsLive(step, before, action.document, action.staged[0].reference);
  }

  /** No action rewrites a journal row. */
  lemma JournalRowsStay(step: Action, before: World, id: Uuid)
    requires Enabled(step, before) && id in before.database.journal
    ensures var journal := Apply(step, before).database.journal;
            id in journal ==> journal[id] == before.database.journal[id]
  {
    hide ProfileReferences, WellOwned, Intended;
    var journal := before.database.journal;
    match step
    case Journal(records, _) => WithRecordsHolds(journal, records);
    case Update(_, _, staged, retired, _) => WithRecordsHolds(WithoutRecords(journal, staged), retired);
    case Remove(_, retired) => WithRecordsHolds(journal, retired);
    case _ =>
  }

  /** Storing a first revision makes its references live. */
  lemma StoredIsLive(step: Action, before: World, document: Document, reference: Reference)
    requires Consistent(before) && Enabled(step, before)
    requires !WasStored(before.history, document.id, 1, document)
    requires reference in ProfileReferences(document).Values
    ensures WasStored(Apply(step, before).history, document.id, 1, document) ==>
              IsLive(Apply(step, before).database.profiles, reference)
  {
    hide ProfileReferences, WellOwned, Intended, IsJournaled, Supplies, RowRecorded;
    var after := Apply(step, before);
    if WasStored(after.history, document.id, 1, document) {
      assert step.Create? && step.document == document;
      assert after.database.profiles[step.name].document == document;
    }
  }

  /** The exception: an added profile without secrets that was removed again reads as never added. */
  lemma SecretlessAddCanMislead(w: World, action: Action)
    requires Consistent(w) && action.Create? && Enabled(action, w) && action.staged == []
    ensures var added := Apply(action, w);
            && Enabled(Remove(action.name, []), added)
            && var removed := Apply(Remove(action.name, []), added);
            && Verdict(removed.database, EvidenceOf(action, w)) == NotCommitted
            && WasStored(removed.history, action.document.id, 1, action.document)
  {
    hide WellOwned, Intended, ProfileReferences;
  }

  /** The identities of the action's records appear in the journal through this action only. */
  ghost predicate QueuesAlone(worlds: seq<World>, i: nat, j: nat, action: Action)
    requires action.Remove? && i <= j < |worlds|
  {
    forall k, id :: i < k <= j && Names(action.retired, id) && id in worlds[k].database.journal ==>
                      id in worlds[k - 1].database.journal || StepBy(action, worlds[k - 1], worlds[k])
  }

  /** The removal was made at some point between two times of a run. */
  ghost predicate Happened(worlds: seq<World>, i: nat, j: nat, action: Action)
    requires i <= j < |worlds|
  {
    exists k :: i < k <= j && StepBy(action, worlds[k - 1], worlds[k])
  }

  /** For a removal that retires a secret, "committed" means that this very removal was made, and "not committed"
      that the row has been stored all the time. */
  lemma RemovalVerdictHoldsLater(worlds: seq<World>, i: nat, j: nat, k: nat, action: Action)
    requires IsRun(worlds) && Consistent(worlds[0]) && i <= k <= j < |worlds|
    requires action.Remove? && Enabled(action, worlds[i])
    ensures var verdict := Verdict(worlds[j].database, EvidenceOf(action, worlds[i]));
            && (verdict == Committed ==> action.name !in worlds[j].database.profiles)
            && (verdict == Committed && action.retired != [] && QueuesAlone(worlds, i, j, action) ==>
                  Happened(worlds, i, j, action))
            && (verdict == NotCommitted ==>
                  ReadRowState(worlds[k].database, action.name) == ReadRowState(worlds[i].database, action.name))
  {
    hide Verdict, EvidenceOf, Enabled, QueuesAlone, Happened, Step, Consistent;
    VerdictOfRemoval(worlds[i], worlds[j].database, action);
    if ReadRowState(worlds[j].database, action.name) == ReadRowState(worlds[i].database, action.name) {
      RowStayed(worlds, i, j, k, action.name);
    }
    if action.retired != [] && action.retired[0].recordId in worlds[j].database.journal &&
       QueuesAlone(worlds, i, j, action)
    {
      QueuedByRemoval(worlds, i, j, action);
    }
  }

  lemma VerdictOfRemoval(w: World, database: Database, action: Action)
    requires action.Remove? && Enabled(action, w)
    ensures action.name in w.database.profiles
    ensures action.retired != [] ==> action.retired[0].recordId !in w.database.journal
    ensures var verdict := Verdict(database, EvidenceOf(action, w));
            && (verdict == Committed ==> action.name !in database.profiles)
            && (verdict == Committed && action.retired != [] ==> action.retired[0].recordId in database.journal)
            && (verdict == NotCommitted ==> ReadRowState(database, action.name) == ReadRowState(w.database, action.name))
  {
    hide ProfileReferences, Covers;
  }

  lemma {:induction false} QueuedByRemoval(worlds: seq<World>, i: nat, j: nat, action: Action)
    requires i <= j < |worlds| && action.Remove? && action.retired != [] && QueuesAlone(worlds, i, j, action)
    requires action.retired[0].recordId !in worlds[i].database.journal
    requires action.retired[0].recordId in worlds[j].database.journal
    ensures Happened(worlds, i, j, action)
    decreases j
  {
    hide StepBy, Names;
    FirstIsNamed(action.retired);
    if !StepBy(action, worlds[j - 1], worlds[j]) {
      QueuedByRemoval(worlds, i, j - 1, action);
    }
  }

  /** The exception: a removal that retires nothing reads as made whenever the row is gone, whoever removed it. */
  lemma SecretlessRemovalReadsAny(w: World, database: Database, action: Action)
    requires action.Remove? && Enabled(action, w) && action.retired == []
    ensures Verdict(database, EvidenceOf(action, w)) == Committed <==> action.name !in database.profiles
  {
    hide ProfileReferences, Covers;
  }

  /** A row that is stored at two times was stored all the time between them. */
  lemma {:induction false} RowStayed(worlds: seq<World>, i: nat, j: nat, k: nat, name: string)
    requires IsRun(worlds) && Consistent(worlds[0]) && i <= k <= j < |worlds|
    requires name in worlds[i].database.profiles
    requires ReadRowState(worlds[j].database, name) == ReadRowState(worlds[i].database, name)
    ensures ReadRowState(worlds[k].database, name) == ReadRowState(worlds[i].database, name)
    decreases j
  {
    hide Consistent, Step;
    if k < j {
      RunKeepsConsistent(worlds, i, j - 1);
      RowComesOnce(worlds[i], worlds[j - 1], worlds[j], name);
      RowStayed(worlds, i, j - 1, k, name);
    }
  }

  lemma RowComesOnce(start: World, before: World, after: World, name: string)
    requires Consistent(start) && Consistent(before) && Step(before, after) && Extends(start.history, before.history)
    requires name in start.database.profiles && name in after.database.profiles
    requires after.database.profiles[name] == start.database.profiles[name]
    ensures name in before.database.profiles && before.database.profiles[name] == start.database.profiles[name]
  {
    hide Consistent, StepBy, ProfileReferences;
    var step :| StepBy(step, before, after);
    RowAfter(step, before, after, name);
    StoredBefore(start, before.history, name);
  }

  lemma StoredBefore(start: World, later: History, name: string)
    requires Consistent(start) && Extends(start.history, later) && name in start.database.profiles
    ensures var row := start.database.profiles[name];
            (row.id, row.revision) in later.generations && row.id in later.owners
  {
    hide ProfileReferences, Supplies, RowsKeyed, JournalKeyed, Balanced;
    assert RowRecorded(start.history, start.database.profiles[name]);
  }

  /** A row is either the one that was there, or new in the history. */
  lemma RowAfter(step: Action, before: World, after: World, name: string)
    requires Consistent(before) && StepBy(step, before, after) && name in after.database.profiles
    ensures var row := after.database.profiles[name];
            || (name in before.database.profiles && before.database.profiles[name] == row)
            || row.id !in before.history.owners || (row.id, row.revision) !in before.history.generations
  {
    hide Consistent, ProfileReferences, WellOwned, Intended, Insertable, Ready, Covers, WithRecords, WithoutRecords, Stored;
    if step.Update? && step.name == name {
      NextRevisionIsNew(before, name);
    }
  }

  // Exit statuses

  /** How an operation ends: the exceptions the handlers of `profiles.py` distinguish. */
  datatype Failure =
    | StoreError(status: nat)                    // ProfileStoreError and ProfileInputError
    | MutationError(committed: Option<bool>)     // CredentialMutationError
    | SecretStoreError
    | DatabaseError                              // sqlite3.Error
    | ReconciliationError

  /** `profile_mutation_error`. */
  function ProfileMutationStatus(committed: Option<bool>): nat {
    if committed == Some(true) then 3 else if committed.None? then 4 else 1
  }

  /** `classify_post_commit_error`. */
  function PostCommitStatus(status: nat, outcome: Outcome): nat {
    if outcome != Committed || status in {3, 4} then status else 3
  }

  /** `database_mutation_error`. */
  function DatabaseStatus(outcome: Outcome): nat {
    match outcome
    case Committed => 3
    case Unknown => 4
    case NotCommitted => 1
  }

  /** The `except` clauses shared by `add_profile`, `edit_profile` and `remove_profile`; `None` is an
      exception none of them catches. */
  function HandlerStatus(failure: Failure, outcome: Outcome): Option<nat> {
    match failure
    case MutationError(committed) => Some(ProfileMutationStatus(committed))
    case SecretStoreError => Some(1)
    case StoreError(status) => Some(PostCommitStatus(status, outcome))
    case DatabaseError => Some(DatabaseStatus(outcome))
    case ReconciliationError => None
  }
}
