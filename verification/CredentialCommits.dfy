/** The two committing mutations: replacing a profile row with its credentials, and removing one
    (`credential_mutations.py`). */
module CredentialCommits {
  import opened Wrappers
  import opened References
  import opened Documents
  import opened StoredReferences
  import opened TwoStores
  import opened ProfileAuth
  import opened MutationOutcomes
  import opened Stores
  import opened Reconciliation
  import opened CredentialMutations
  import opened ProfileSwitches

  // Committing with inspection

  /** `COMMIT`, and when it fails the inspection of what the database holds instead. The failure says
      correctly whether the action happened, or that nobody could look. */
  method CommitOrInspect(c: Connection, ghost action: Action, evidence: Evidence) returns (failure: Option<Failure>)
    requires c.Valid() && Consistent(c.Current()) && c.transaction.Some?
    requires Switches(action) && Enabled(action, c.Current()) && evidence == EvidenceOf(action, c.Current())
    requires Apply(action, c.Current()).database == c.transaction.value && Apply(action, c.Current()).vault == c.vault
    requires Supplied(Apply(action, c.Current()), c.supply, c.drawn)
    modifies c`database, c`transaction, c`history, c`trace, c`faults, c`blind
    ensures c.Valid() && Consistent(c.Current()) && c.faults >= old(c.faults) && c.blind >= old(c.blind)
    ensures old(c.trace) <= c.trace
    ensures failure.None? <==> c.faults == old(c.faults)
    ensures match failure
            case None => c.Took(action, old(c.Current()), old(c.trace)) && c.transaction.None?
            case Some(MutationError(Some(true))) => c.Took(action, old(c.Current()), old(c.trace))
            case Some(MutationError(Some(false))) => c.Current() == old(c.Current())
            case Some(MutationError(None)) =>
              && c.blind > old(c.blind)
              && (c.Took(action, old(c.Current()), old(c.trace)) || c.Current() == old(c.Current()))
            case Some(_) => false
  {
    hide Consistent, Supplied, IsRun, Enabled, Apply, Verdict, EvidenceOf, Switches;
    ghost var before := c.Current();
    LostAcknowledgement(before, action);
    var acknowledged := c.Commit(action);
    if acknowledged {
      return None;
    }
    var _ := c.Rollback();
    var reading := c.Inspect();
    var outcome := InspectMutationOutcome(reading, evidence);
    var committed := match outcome case Committed => Some(true) case NotCommitted => Some(false) case Unknown => None;
    return Some(MutationError(committed));
  }

  // Replacing a row

  function ActionOf(switch: Switch, staged: seq<CleanupRecord>, retired: seq<CleanupRecord>,
                    secrets: map<Field, Secret>): Action {
    match switch
    case InsertRow(name, document) => Create(name, document, staged, secrets)
    case UpdateRow(name, _, _, document) => Update(name, document, staged, retired, secrets)
  }

  /** The row was switched, and its new generation recorded with the values behind it. */
  ghost predicate Switched(before: World, after: World, switch: Switch, secrets: map<Field, Secret>) {
    var row := SwitchedRow(switch);
    && after.database.profiles == before.database.profiles[switch.name := row]
    && after.history.generations ==
       before.history.generations[(row.id, row.revision) := Generation(switch.document, secrets)]
    && after.history.issued == before.history.issued
  }

  ghost predicate Unswitched(before: World, after: World) {
    after.database.profiles == before.database.profiles && after.history == before.history
  }

  lemma RetiredAreNotQueued(w: World, switch: Switch, staged: seq<CleanupRecord>, retired: seq<Reference>,
                            secrets: map<Field, Secret>)
    requires Consistent(w) && Fits(w.database.profiles, switch) && Conserves(w, switch, staged, retired, secrets)
    ensures forall i :: 0 <= i < |retired| ==> !IsJournaled(w.database.journal, retired[i])
  {
    hide ProfileReferences, WellOwned, Intended, IsCanonical, IsCanonicalUuid;
    forall i | 0 <= i < |retired| ensures !IsJournaled(w.database.journal, retired[i]) {
      assert retired[i] in retired;
      assert IsLive(w.database.profiles, retired[i]);
    }
  }

  lemma RetiredInsertable(w: World, records: seq<CleanupRecord>, retired: seq<Reference>, supply: seq<Uuid>, from: nat)
    requires Supplied(w, supply, from) && Retires(records, retired, supply, from) && |records| == |retired|
    requires NoDuplicates(retired)
    ensures Insertable(w.database.journal, records)
    ensures forall r :: Covers(records, r) <==> r in retired
  {
    hide IsCanonicalUuid;
    forall i | 0 <= i < |records|
      ensures records[i].recordId !in w.database.journal && IsCanonicalUuid(records[i].recordId)
    {
      assert Unused(w, supply[from + i]);
    }
    forall r | r in retired ensures Covers(records, r) {
      var i :| 0 <= i < |retired| && retired[i] == r;
      assert records[i].reference == r;
    }
  }

  /** The transaction that switches a row is one durable action. */
  lemma InsertingIsAnAction(w: World, switch: Switch, staged: seq<CleanupRecord>, retired: seq<Reference>,
                            records: seq<CleanupRecord>, secrets: map<Field, Secret>)
    requires switch.InsertRow? && Consistent(w) && Ready(w, staged) && Fits(w.database.profiles, switch)
    requires Conserves(w, switch, staged, retired, secrets)
    requires Insertable(w.database.journal, records) && forall r :: Covers(records, r) <==> r in retired
    requires |records| == |retired|
    ensures var action := ActionOf(switch, staged, records, secrets);
            && Switches(action) && Enabled(action, w)
            && var after := Apply(action, w);
            && after.database == Database(w.database.profiles[switch.name := SwitchedRow(switch)],
                                          WithRecords(WithoutRecords(w.database.journal, staged), records))
            && after.vault == w.vault && Switched(w, after, switch, secrets)
            && after.history.owners == w.history.owners + {SwitchedRow(switch).id}
    ensures records == []
  {
    hide ProfileReferences, WellOwned, IsCanonical, IsCanonicalUuid, IsLive, IsJournaled, Insertable, Ready, Intended,
      WithRecords, WithoutRecords, Supplies;
    EmptyRecords(WithoutRecords(w.database.journal, staged));
  }

  lemma UpdatingIsAnAction(w: World, switch: Switch, staged: seq<CleanupRecord>, retired: seq<Reference>,
                           records: seq<CleanupRecord>, secrets: map<Field, Secret>)
    requires switch.UpdateRow? && Consistent(w) && Ready(w, staged) && Fits(w.database.profiles, switch)
    requires Conserves(w, switch, staged, retired, secrets)
    requires Insertable(w.database.journal, records) && forall r :: Covers(records, r) <==> r in retired
    requires |records| == |retired|
    ensures var action := ActionOf(switch, staged, records, secrets);
            && Switches(action) && Enabled(action, w)
            && var after := Apply(action, w);
            && after.database == Database(w.database.profiles[switch.name := SwitchedRow(switch)],
                                          WithRecords(WithoutRecords(w.database.journal, staged), records))
            && after.vault == w.vault && Switched(w, after, switch, secrets)
            && after.history.owners == w.history.owners + {SwitchedRow(switch).id}
  {
    hide ProfileReferences, WellOwned, IsCanonical, IsCanonicalUuid, IsLive, IsJournaled, Insertable, Ready, Intended,
      WithRecords, WithoutRecords, Supplies;
    var name := switch.name;
    forall i | 0 <= i < |records|
      ensures records[i].reference in ProfileReferences(w.database.profiles[name].document).Values
    {
      assert Covers(records, records[i].reference);
    }
    RowOwned(w, name);
  }

  lemma SwitchingIsAnAction(w: World, switch: Switch, staged: seq<CleanupRecord>, retired: seq<Reference>,
                            records: seq<CleanupRecord>, secrets: map<Field, Secret>)
    requires Consistent(w) && Ready(w, staged) && Fits(w.database.profiles, switch)
    requires Conserves(w, switch, staged, retired, secrets)
    requires Insertable(w.database.journal, records) && forall r :: Covers(records, r) <==> r in retired
    requires |records| == |retired|
    ensures var action := ActionOf(switch, staged, records, secrets);
            && Switches(action) && Enabled(action, w)
            && var after := Apply(action, w);
            && after.database == Database(w.database.profiles[switch.name := SwitchedRow(switch)],
                                          WithRecords(WithoutRecords(w.database.journal, staged), records))
            && after.vault == w.vault && Switched(w, after, switch, secrets)
            && after.history.owners == w.history.owners + {SwitchedRow(switch).id}
    ensures switch.InsertRow? ==> records == []
  {
    hide Consistent, Ready, Fits, Conserves, Insertable, Covers, Switches, Enabled, Apply, Switched, WithRecords,
      WithoutRecords, ActionOf;
    if switch.InsertRow? {
      InsertingIsAnAction(w, switch, staged, retired, records, secrets);
    } else {
      UpdatingIsAnAction(w, switch, staged, retired, records, secrets);
    }
  }

  lemma RowOwned(w: World, name: string)
    requires Consistent(w) && name in w.database.profiles
    ensures w.database.profiles[name].id in w.history.owners
    ensures w.database.profiles[name].document.id == w.database.profiles[name].id
  {
    hide ProfileReferences;
    assert RowRecorded(w.history, w.database.profiles[name]);
  }

  /** The switch uses up no identity that is still to be drawn. */
  lemma SwitchKeepsSupply(w: World, after: World, staged: seq<CleanupRecord>, retired: seq<Reference>,
                          records: seq<CleanupRecord>, supply: seq<Uuid>, from: nat, drawn: nat, owner: Uuid)
    requires Supplied(w, supply, drawn) && Retires(records, retired, supply, from) && drawn == from + |records|
    requires DistinctRecords(records)
    requires after.database.journal == WithRecords(WithoutRecords(w.database.journal, staged), records)
    requires after.history.owners == w.history.owners + {owner}
    requires owner in w.history.owners || DrawnBefore(supply, drawn, owner)
    requires after.history.issued == w.history.issued
    ensures Supplied(after, supply, drawn)
  {
    hide IsCanonical, IsCanonicalUuid, Supplied;
    WithRecordsHolds(WithoutRecords(w.database.journal, staged), records);
    forall id | id in after.database.journal && id !in w.database.journal ensures DrawnBefore(supply, drawn, id) {
      var i :| 0 <= i < |records| && records[i].recordId == id;
      assert supply[from + i] == id;
    }
    StillSupplied(w, after, supply, drawn);
  }

  /** Labels that cannot be mistaken for references. */
  predicate PlainLabels(profiles: map<string, Row>) {
    forall name :: name in profiles ==> forall key :: key in profiles[name].document.labels ==> !IsReferenceKey(key)
  }

  lemma PlainLabelsNeverBlock(w: World)
    requires Consistent(w) && PlainLabels(w.database.profiles)
    ensures !Blocked(w.database)
  {
    hide Blocked, ProfileReferences;
    ReachedBlocks(w);
  }

  /** Deletes the secrets a committed mutation retired; any failure leaves the mutation committed. */
  method CleanUp(c: Connection, records: seq<CleanupRecord>) returns (result: Result<ReconciliationResult, Failure>)
    requires c.Valid() && c.transaction.None? && Consistent(c.Current())
    requires Stored(c.database.journal, records) && DistinctRecords(records)
    modifies c`database, c`vault, c`transaction, c`history, c`trace, c`faults
    ensures c.Valid() && c.faults >= old(c.faults) && old(c.trace) <= c.trace && Consistent(c.Current())
    ensures c.database.profiles == old(c.database.profiles) && c.history == old(c.history)
    ensures match result
            case Ok(counts) => counts.failed == 0 ==> forall r :: Covers(records, r) ==> r !in c.vault
            case Err(failure) => failure == MutationError(Some(true))
    ensures c.faults == old(c.faults) && PlainLabels(c.database.profiles) ==> result.Ok? && result.value.failed == 0
  {
    hide ProfileReferences, IsRun, Consistent, Supplied, Enabled, Apply, Blocked, Tables, IsLive, ValidRecord;
    if records == [] {
      return Ok(ReconciliationResult(0, 0, 0));
    }
    ConsistentTables(c.Current());
    if PlainLabels(c.database.profiles) {
      PlainLabelsNeverBlock(c.Current());
    }
    var ids := seq(|records|, i requires 0 <= i < |records| => records[i].recordId);
    assert Requestable(c.database.journal, ids);
    assert forall i :: 0 <= i < |records| ==> ids[i] in ids && c.database.journal[ids[i]] == records[i];
    result := ReconcileSecretCleanup(c, Some(ids));
    if result.Err? {
      return Err(MutationError(Some(true)));
    }
    if result.value.failed == 0 {
      forall r | Covers(records, r) ensures r !in c.vault {
        var i :| 0 <= i < |records| && records[i].reference == r;
        assert ids[i] in ids;
      }
    }
  }

  predicate DistinctStagedFields(staged: seq<StagedSecret>) {
    forall i, j :: 0 <= i < j < |staged| ==> staged[i].field != staged[j].field
  }

  /** The checks made before the transaction starts. */
  predicate Switchable(profileId: Uuid, staged: seq<StagedSecret>, retired: seq<Reference>) {
    && DistinctStagedFields(staged)
    && Retirable(profileId, retired)
    && forall i :: 0 <= i < |staged| ==> staged[i].reference !in retired
  }

  /** Everything up to `COMMIT` inside the transaction that switches a row. */
  method FillTransaction(c: Connection, staged: seq<CleanupRecord>, switch: Switch, retired: seq<Reference>,
                         ghost secrets: map<Field, Secret>)
    returns (result: Result<seq<CleanupRecord>, Failure>)
    requires c.Valid() && Consistent(c.Current()) && c.transaction == Some(c.database)
    requires c.Left() >= |retired| && NoDuplicates(retired)
    requires forall i :: 0 <= i < |retired| ==> IsCanonical(retired[i])
    requires Stored(c.database.journal, staged) && DistinctRecords(staged)
    requires Conserves(c.Current(), switch, staged, retired, secrets)
    modifies c`transaction, c`drawn, c`faults
    ensures c.Valid() && c.faults >= old(c.faults) && c.transaction.Some?
    ensures c.drawn <= old(c.drawn) + |retired|
    ensures match result
            case Ok(records) =>
              && c.faults == old(c.faults) && c.drawn == old(c.drawn) + |retired|
              && Fits(c.database.profiles, switch)
              && |records| == |retired| && Retires(records, retired, c.supply, old(c.drawn))
              && c.transaction.value == Database(c.database.profiles[switch.name := SwitchedRow(switch)],
                                                 WithRecords(WithoutRecords(c.database.journal, staged), records))
            case Err(failure) =>
              && failure in {MutationError(Some(false)), SecretStoreError, DatabaseError}
              && (c.faults > old(c.faults) || !Fits(c.database.profiles, switch))
  {
    hide ProfileReferences, IsRun, Consistent, Supplied, IsCanonical, IsCanonicalUuid, Conserves, WithRecords,
      IsJournaled, IsLive;
    var unverified := VerifyStagedRecords(c, staged);
    if unverified.Some? {
      return Err(unverified.value);
    }
    var unswitched := PerformSwitch(c, switch);
    if unswitched.Some? {
      return Err(unswitched.value);
    }
    var kept := RemoveCleanupRecords(c, staged);
    if kept.Some? {
      return Err(kept.value);
    }
    RetiredAreNotQueued(c.Current(), switch, staged, retired, secrets);
    result := QueueRetired(c, retired);
  }

  /** The transaction of `commit_secret_replacements`, and the cleanup after it. */
  method CommitSwitch(c: Connection, staged: seq<CleanupRecord>, switch: Switch, retired: seq<Reference>,
                      before: Option<RowState>, after: Option<RowState>, ghost secrets: map<Field, Secret>)
    returns (result: Result<ReconciliationResult, Failure>)
    requires c.Valid() && Consistent(c.Current()) && c.transaction.None?
    requires c.Left() >= |retired| && NoDuplicates(retired)
    requires forall i :: 0 <= i < |retired| ==> IsCanonical(retired[i])
    requires Stored(c.database.journal, staged) && DistinctRecords(staged) && Ready(c.Current(), staged)
    requires Conserves(c.Current(), switch, staged, retired, secrets)
    requires before == ReadRowState(c.database, switch.name)
    requires after == Some(RowState(switch.name, SwitchedRow(switch)))
    requires switch.InsertRow? ==> DrawnBefore(c.supply, c.drawn, switch.document.id)
    modifies c`database, c`vault, c`transaction, c`drawn, c`history, c`trace, c`faults, c`blind
    ensures c.Valid() && Consistent(c.Current()) && c.faults >= old(c.faults) && c.blind >= old(c.blind)
    ensures old(c.trace) <= c.trace
    ensures match result
            case Ok(counts) =>
              && Switched(old(c.Current()), c.Current(), switch, secrets)
              && (counts.failed == 0 ==> forall r :: r in retired ==> r !in c.vault)
            case Err(MutationError(Some(true))) => Switched(old(c.Current()), c.Current(), switch, secrets)
            case Err(MutationError(None)) =>
              && c.blind > old(c.blind)
              && (Switched(old(c.Current()), c.Current(), switch, secrets) || Unswitched(old(c.Current()), c.Current()))
            case Err(failure) =>
              && failure in {MutationError(Some(false)), SecretStoreError, DatabaseError}
              && Unswitched(old(c.Current()), c.Current())
    ensures result.Ok? || result == Err(MutationError(Some(true))) ==> Fits(old(c.database).profiles, switch)
    ensures c.faults == old(c.faults) && PlainLabels(c.database.profiles) ==>
              && (result.Ok? <==> Fits(old(c.database).profiles, switch))
              && (result.Ok? ==> result.value.failed == 0)
  {
    hide ProfileReferences, IsRun, Consistent, Supplied, IsCanonical, IsCanonicalUuid, Conserves, WithRecords,
      IsJournaled, IsLive, Enabled, Apply, WellOwned, DistinctRecords, Retires, PlainLabels, Switches, EvidenceOf,
      Switched, WithoutRecords, ReadRowState, Fits;
    var begun := c.Begin();
    if !begun {
      var _ := c.Rollback();
      return Err(DatabaseError);
    }
    ghost var world, from := c.Current(), c.drawn;
    var filled := FillTransaction(c, staged, switch, retired, secrets);
    if filled.Err? {
      var _ := c.Rollback();
      return Err(filled.error);
    }
    var records := filled.value;
    var evidence := Evidence(before, after, staged, records);
    ghost var action := ActionOf(switch, staged, records, secrets);
    ReadyToCommit(world, switch, staged, retired, records, secrets, c.supply, from, c.drawn);
    MatchingEvidence(world, switch, staged, records, secrets);
    var failure := CommitOrInspect(c, action, evidence);
    if failure.Some? {
      return Err(failure.value);
    }
    CommittedRecords(world, switch, staged, retired, records);
    result := CleanUp(c, records);
    assert Switched(old(c.Current()), c.Current(), switch, secrets) by {
      SameSwitch(world, Apply(action, world), c.Current(), switch, secrets);
    }
  }

  /** `commit_secret_replacements`. Its outcome is truthful: success and "committed" mean that the row
      was switched, "not committed" and every other failure that it was not, and "unknown" that nobody
      could look. After a clean success no retired secret is left. */
  method CommitSecretReplacements(c: Connection, profileId: Uuid, staged: seq<StagedSecret>, switch: Switch,
                                  retireReferences: seq<Reference>, before: Option<RowState>,
                                  after: Option<RowState>, ghost secrets: map<Field, Secret>)
    returns (result: Result<ReconciliationResult, Failure>)
    requires c.Valid() && Consistent(c.Current()) && c.transaction.None?
    requires c.Left() >= |staged| + |retireReferences|
    requires Ready(c.Current(), Cleanups(staged)) && DistinctRecords(Cleanups(staged))
    requires Conserves(c.Current(), switch, Cleanups(staged), PreviousOf(staged) + retireReferences, secrets)
    requires before == ReadRowState(c.database, switch.name)
    requires after == Some(RowState(switch.name, SwitchedRow(switch)))
    requires switch.InsertRow? ==> DrawnBefore(c.supply, c.drawn, switch.document.id)
    modifies c`database, c`vault, c`transaction, c`drawn, c`history, c`trace, c`faults, c`blind
    ensures c.Valid() && Consistent(c.Current()) && c.faults >= old(c.faults) && c.blind >= old(c.blind)
    ensures old(c.trace) <= c.trace
    ensures match result
            case Ok(counts) =>
              && Switched(old(c.Current()), c.Current(), switch, secrets)
              && (counts.failed == 0 ==> forall r :: r in PreviousOf(staged) + retireReferences ==> r !in c.vault)
            case Err(MutationError(Some(true))) => Switched(old(c.Current()), c.Current(), switch, secrets)
            case Err(MutationError(None)) =>
              && c.blind > old(c.blind)
              && (Switched(old(c.Current()), c.Current(), switch, secrets) || Unswitched(old(c.Current()), c.Current()))
            case Err(failure) =>
              && failure in {MutationError(Some(false)), SecretStoreError, DatabaseError}
              && Unswitched(old(c.Current()), c.Current())
    ensures result.Ok? || result == Err(MutationError(Some(true))) ==> Fits(old(c.database).profiles, switch)
    ensures c.faults == old(c.faults) && PlainLabels(c.database.profiles) ==>
              (result.Ok? <==>
                 Fits(old(c.database).profiles, switch) &&
                 Switchable(profileId, staged, PreviousOf(staged) + retireReferences)) &&
              (result.Ok? ==> result.value.failed == 0)
  {
    hide ProfileReferences, IsRun, Consistent, Supplied, IsCanonical, IsCanonicalUuid, Conserves, DistinctRecords,
      PlainLabels, Switched, PreviousOf, ReadRowState, OwnReferences, Fits, IsLive, IsJournaled;
    if !DistinctStagedFields(staged) {
      return Err(MutationError(Some(false)));
    }
    var retired := PreviousOf(staged) + retireReferences;
    var refused := ValidateRetired(profileId, retired);
    if refused.Some? {
      return Err(refused.value);
    }
    if exists i :: 0 <= i < |staged| && staged[i].reference in retired {
      return Err(MutationError(Some(false)));
    }
    result := CommitSwitch(c, Cleanups(staged), switch, retired, before, after, secrets);
  }

  lemma SameSwitch(before: World, after: World, later: World, switch: Switch, secrets: map<Field, Secret>)
    requires Switched(before, after, switch, secrets)
    requires later.database.profiles == after.database.profiles && later.history == after.history
    ensures Switched(before, later, switch, secrets)
  {
  }

  /** The filled transaction is ready to be committed as the action it stands for. */
  lemma ReadyToCommit(w: World, switch: Switch, staged: seq<CleanupRecord>, retired: seq<Reference>,
                      records: seq<CleanupRecord>, secrets: map<Field, Secret>, supply: seq<Uuid>, from: nat, drawn: nat)
    requires Consistent(w) && Ready(w, staged) && Fits(w.database.profiles, switch)
    requires Conserves(w, switch, staged, retired, secrets)
    requires Supplied(w, supply, from) && Supplied(w, supply, drawn) && drawn == from + |retired|
    requires Retires(records, retired, supply, from) && |records| == |retired| && NoDuplicates(retired)
    requires switch.InsertRow? ==> DrawnBefore(supply, drawn, switch.document.id)
    ensures var action := ActionOf(switch, staged, records, secrets);
            && Switches(action) && Enabled(action, w)
            && Apply(action, w).database == Database(w.database.profiles[switch.name := SwitchedRow(switch)],
                                                     WithRecords(WithoutRecords(w.database.journal, staged), records))
            && Apply(action, w).vault == w.vault && Supplied(Apply(action, w), supply, drawn)
            && Switched(w, Apply(action, w), switch, secrets)
    ensures switch.InsertRow? ==> records == []
    ensures Insertable(w.database.journal, records) && forall r :: Covers(records, r) <==> r in retired
  {
    hide ProfileReferences, Consistent, Supplied, IsCanonical, IsCanonicalUuid, Conserves, WithRecords,
      IsLive, Enabled, Apply, WellOwned, Retires, Ready, Insertable, WithoutRecords, Covers;
    RetiredInsertable(w, records, retired, supply, from);
    InsertableDistinct(w.database.journal, records);
    SwitchingIsAnAction(w, switch, staged, retired, records, secrets);
    var after := Apply(ActionOf(switch, staged, records, secrets), w);
    if switch.UpdateRow? {
      RowOwned(w, switch.name);
    }
    SwitchKeepsSupply(w, after, staged, retired, records, supply, from, drawn, SwitchedRow(switch).id);
  }

  lemma MatchingEvidence(w: World, switch: Switch, staged: seq<CleanupRecord>, records: seq<CleanupRecord>,
                         secrets: map<Field, Secret>)
    requires Fits(w.database.profiles, switch) && (switch.InsertRow? ==> records == [])
    ensures EvidenceOf(ActionOf(switch, staged, records, secrets), w) ==
            Evidence(ReadRowState(w.database, switch.name), Some(RowState(switch.name, SwitchedRow(switch))), staged, records)
  {
  }

  /** After the commit, the retired references are queued under the new records. */
  lemma CommittedRecords(w: World, switch: Switch, staged: seq<CleanupRecord>, retired: seq<Reference>,
                         records: seq<CleanupRecord>)
    requires Insertable(w.database.journal, records)
    ensures DistinctRecords(records)
    ensures Stored(WithRecords(WithoutRecords(w.database.journal, staged), records), records)
  {
    hide IsCanonicalUuid;
    WithRecordsHolds(WithoutRecords(w.database.journal, staged), records);
  }

  // Removing a row

  predicate Matches(profiles: map<string, Row>, name: string, profileId: Uuid, revision: nat) {
    name in profiles && profiles[name].id == profileId && profiles[name].revision == revision
  }

  /** `remove_profile_revision`, inside the open transaction. */
  method DeleteRow(c: Connection, name: string, profileId: Uuid, revision: nat) returns (failure: Option<Failure>)
    requires c.transaction.Some?
    modifies c`transaction, c`faults
    ensures c.transaction.Some? && c.faults >= old(c.faults)
    ensures var profiles := old(c.transaction).value.profiles;
            failure.None? <==>
            && c.faults == old(c.faults)
            && name in profiles && profiles[name].id == profileId && profiles[name].revision == revision
    ensures failure.None? ==> c.transaction.value == old(c.transaction).value.(
                                profiles := old(c.transaction).value.profiles - {name})
    ensures failure.Some? ==> failure.value in {MutationError(Some(false)), DatabaseError}
  {
    var tables := c.transaction.value;
    var fault := c.Draw();
    if !fault.Works? {
      return Some(DatabaseError);
    }
    if !Matches(tables.profiles, name, profileId, revision) {
      return Some(MutationError(Some(false)));
    }
    c.transaction := Some(tables.(profiles := tables.profiles - {name}));
    return None;
  }

  ghost predicate Removed(before: World, after: World, name: string) {
    after.database.profiles == before.database.profiles - {name} && after.history == before.history
  }

  lemma RemovingIsAnAction(w: World, name: string, references: seq<Reference>, records: seq<CleanupRecord>,
                           supply: seq<Uuid>, from: nat, drawn: nat)
    requires Consistent(w) && name in w.database.profiles && NoDuplicates(references)
    requires forall r :: r in references <==> r in ProfileReferences(w.database.profiles[name].document).Values
    requires Retires(records, references, supply, from) && |records| == |references|
    requires Supplied(w, supply, from) && Supplied(w, supply, drawn) && drawn == from + |references|
    ensures Enabled(Remove(name, records), w)
    ensures var after := Apply(Remove(name, records), w);
            && after.database == Database(w.database.profiles - {name}, WithRecords(w.database.journal, records))
            && after.vault == w.vault && after.history == w.history && Supplied(after, supply, drawn)
    ensures Insertable(w.database.journal, records) && forall r :: Covers(records, r) <==> r in references
  {
    hide ProfileReferences, Consistent, Supplied, IsCanonical, IsCanonicalUuid, WithRecords, IsLive, Retires, Insertable;
    RetiredInsertable(w, records, references, supply, from);
    InsertableDistinct(w.database.journal, records);
    var after := Apply(Remove(name, records), w);
    WithRecordsHolds(w.database.journal, records);
    forall id | id in after.database.journal && id !in w.database.journal ensures DrawnBefore(supply, drawn, id) {
      var i :| 0 <= i < |records| && records[i].recordId == id;
      RetiredRecord(records, references, supply, from, i);
    }
    StillSupplied(w, after, supply, drawn);
  }

  lemma RetiredRecord(records: seq<CleanupRecord>, references: seq<Reference>, supply: seq<Uuid>, from: nat, i: nat)
    requires Retires(records, references, supply, from) && i < |records| == |references|
    ensures DrawnBefore(supply, from + |references|, records[i].recordId)
  {
    assert supply[from + i] == records[i].recordId;
  }

  lemma HeldAreNotQueued(w: World, name: string)
    requires Consistent(w) && name in w.database.profiles
    ensures forall r :: r in ProfileReferences(w.database.profiles[name].document).Values ==>
              !IsJournaled(w.database.journal, r)
  {
    hide ProfileReferences;
    forall r | r in ProfileReferences(w.database.profiles[name].document).Values
      ensures !IsJournaled(w.database.journal, r)
    {
      assert IsLive(w.database.profiles, r);
    }
  }

  /** `commit_profile_removal`: removes the row first and then its secrets, with the same truthful
      outcomes. */
  method CommitProfileRemoval(c: Connection, name: string, profileId: Uuid, revision: nat,
                              references: seq<Reference>, before: Option<RowState>)
    returns (result: Result<ReconciliationResult, Failure>)
    requires c.Valid() && Consistent(c.Current()) && c.transaction.None? && c.Left() >= |references|
    requires Matches(c.database.profiles, name, profileId, revision) ==>
               forall r :: r in references <==> r in ProfileReferences(c.database.profiles[name].document).Values
    requires before == ReadRowState(c.database, name)
    modifies c`database, c`vault, c`transaction, c`drawn, c`history, c`trace, c`faults, c`blind
    ensures c.Valid() && Consistent(c.Current()) && c.faults >= old(c.faults) && c.blind >= old(c.blind)
    ensures old(c.trace) <= c.trace
    ensures match result
            case Ok(counts) =>
              && name in old(c.database).profiles && Removed(old(c.Current()), c.Current(), name)
              && (counts.failed == 0 ==> forall r :: r in references ==> r !in c.vault)
            case Err(MutationError(Some(true))) =>
              name in old(c.database).profiles && Removed(old(c.Current()), c.Current(), name)
            case Err(MutationError(None)) =>
              && c.blind > old(c.blind)
              && (Removed(old(c.Current()), c.Current(), name) || Unswitched(old(c.Current()), c.Current()))
            case Err(failure) =>
              && failure in {MutationError(Some(false)), SecretStoreError, DatabaseError}
              && Unswitched(old(c.Current()), c.Current())
    ensures result.Ok? || result == Err(MutationError(Some(true))) ==>
              && name in old(c.database).profiles && old(c.database).profiles[name].id == profileId
              && old(c.database).profiles[name].revision == revision
    ensures c.faults == old(c.faults) && PlainLabels(c.database.profiles) ==>
              && (result.Ok? <==>
                    Matches(old(c.database).profiles, name, profileId, revision) && Retirable(profileId, references))
              && (result.Ok? ==> result.value.failed == 0)
  {
    hide ProfileReferences, IsRun, Consistent, Supplied, IsCanonical, IsCanonicalUuid, WithRecords,
      IsJournaled, IsLive, Enabled, Apply, WellOwned, DistinctRecords, Retires, PlainLabels, EvidenceOf, OwnReferences;
    var refused := ValidateRetired(profileId, references);
    if refused.Some? {
      return Err(refused.value);
    }
    var begun := c.Begin();
    if !begun {
      var _ := c.Rollback();
      return Err(DatabaseError);
    }
    ghost var world, from := c.Current(), c.drawn;
    var unmatched := DeleteRow(c, name, profileId, revision);
    if unmatched.Some? {
      var _ := c.Rollback();
      return Err(unmatched.value);
    }
    HeldAreNotQueued(world, name);
    assert forall i :: 0 <= i < |references| ==> references[i] in references;
    var queued := QueueRetired(c, references);
    if queued.Err? {
      var _ := c.Rollback();
      return Err(queued.error);
    }
    var records := queued.value;
    RemovingIsAnAction(world, name, references, records, c.supply, from, c.drawn);
    RemovalEvidence(world, name, records);
    var failure := CommitOrInspect(c, Remove(name, records), Evidence(before, None, [], records));
    if failure.Some? {
      return Err(failure.value);
    }
    QueuedRecords(world, records);
    result := CleanUp(c, records);
  }

  lemma RemovalEvidence(w: World, name: string, records: seq<CleanupRecord>)
    requires name in w.database.profiles
    ensures EvidenceOf(Remove(name, records), w) == Evidence(ReadRowState(w.database, name), None, [], records)
  {
  }

  lemma QueuedRecords(w: World, records: seq<CleanupRecord>)
    requires Insertable(w.database.journal, records)
    ensures DistinctRecords(records) && Stored(WithRecords(w.database.journal, records), records)
  {
    hide IsCanonicalUuid;
    WithRecordsHolds(w.database.journal, records);
  }
}
