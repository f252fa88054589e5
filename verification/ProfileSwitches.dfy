/** Switching a profile row together with its cleanup records (`credential_mutations.py`). */
module ProfileSwitches {
  import opened Wrappers
  import opened References
  import opened Documents
  import opened StoredReferences
  import opened TwoStores
  import opened ProfileAuth
  import opened MutationOutcomes
  import opened Stores
  import opened Reconciliation
  import opened CredentialMutations

  /** The row change a mutation performs inside its transaction. */
  datatype Switch =
    | InsertRow(name: string, document: Document)
    | UpdateRow(name: string, profileId: Uuid, revision: nat, document: Document)

  function SwitchedRow(switch: Switch): Row {
    match switch
    case InsertRow(_, document) => Row(document.id, 1, document)
    case UpdateRow(_, profileId, revision, document) => Row(profileId, revision + 1, document)
  }

  /** The row the switch names is the one it expects. */
  predicate Fits(profiles: map<string, Row>, switch: Switch) {
    match switch
    case InsertRow(name, document) =>
      name !in profiles && forall other :: other in profiles ==> profiles[other].id != document.id
    case UpdateRow(name, profileId, revision, _) =>
      name in profiles && profiles[name].id == profileId && profiles[name].revision == revision
  }

  function PreviousOf(staged: seq<StagedSecret>): (previous: seq<Reference>)
    ensures |previous| <= |staged|
    ensures forall r :: r in previous <==> exists i :: 0 <= i < |staged| && staged[i].previous == Some(r)
  {
    if staged == [] then []
    else if staged[0].previous.None? then PreviousOf(staged[1..])
    else [staged[0].previous.value] + PreviousOf(staged[1..])
  }

  /** What the switched document holds: the staged references, and those of the replaced row that
      are not retired. */
  ghost predicate Conserves(w: World, switch: Switch, staged: seq<CleanupRecord>, retired: seq<Reference>,
                            secrets: map<Field, Secret>) {
    var references := ProfileReferences(switch.document);
    && WellOwned(switch.document)
    && match switch
       case InsertRow(_, document) =>
         && document.id !in w.history.owners && retired == []
         && (forall r :: r in references.Values <==> Covers(staged, r))
         && Intended(w, references, map[], staged, secrets)
       case UpdateRow(name, profileId, revision, document) =>
         Fits(w.database.profiles, switch) ==>
           && document.id == profileId
           && (profileId, revision) in w.history.generations
           && var before := ProfileReferences(w.database.profiles[name].document);
           && (forall r :: r in retired ==> r in before.Values)
           && (forall r :: r in references.Values <==> Covers(staged, r) || (r in before.Values && r !in retired))
           && Intended(w, references, w.history.generations[(profileId, revision)].secrets, staged, secrets)
  }

  /** References of this profile, each once. */
  ghost predicate OwnReferences(profileId: Uuid, references: seq<Reference>) {
    && (forall i, j :: 0 <= i < j < |references| ==> references[i] != references[j])
    && (forall i :: 0 <= i < |references| ==> references[i].profileId == profileId)
    && forall i :: 0 <= i < |references| ==>
         IsCanonicalUuid(references[i].profileId) && IsCanonicalUuid(references[i].credentialId)
  }

  /** `_validated_unique_references`. */
  method ValidateRetired(profileId: Uuid, references: seq<Reference>) returns (failure: Option<Failure>)
    ensures failure.None? <==> OwnReferences(profileId, references)
    ensures failure.None? <==> Retirable(profileId, references)
    ensures failure.Some? ==> failure.value in {MutationError(Some(false)), SecretStoreError}
  {
    for i := 0 to |references|
      invariant Retirable(profileId, references[..i])
    {
      if !IsCanonical(references[i]) {
        return Some(SecretStoreError);
      }
      if references[i].profileId != profileId || references[i] in references[..i] {
        return Some(MutationError(Some(false)));
      }
      assert references[..i + 1] == references[..i] + [references[i]];
    }
    assert references[..|references|] == references;
    return None;
  }

  predicate Retirable(profileId: Uuid, references: seq<Reference>) {
    && NoDuplicates(references)
    && forall i :: 0 <= i < |references| ==> references[i].profileId == profileId && IsCanonical(references[i])
  }

  predicate Queued(journal: map<Uuid, CleanupRecord>, record: CleanupRecord) {
    record.recordId in journal && journal[record.recordId].reference == record.reference
  }

  /** `_verify_staged_records`. */
  method VerifyStagedRecords(c: Connection, records: seq<CleanupRecord>) returns (failure: Option<Failure>)
    requires c.transaction.Some?
    modifies c`faults
    ensures c.faults >= old(c.faults)
    ensures failure.None? <==>
              && c.faults == old(c.faults)
              && var journal := c.transaction.value.journal;
                 forall i :: 0 <= i < |records| ==>
                   records[i].recordId in journal && journal[records[i].recordId].reference == records[i].reference
    ensures failure.Some? ==> failure.value in {MutationError(Some(false)), DatabaseError}
  {
    for i := 0 to |records|
      invariant c.faults == old(c.faults)
      invariant forall j :: 0 <= j < i ==> Queued(c.transaction.value.journal, records[j])
    {
      var fault := c.Draw();
      if !fault.Works? {
        return Some(DatabaseError);
      }
      if !Queued(c.transaction.value.journal, records[i]) {
        return Some(MutationError(Some(false)));
      }
    }
    return None;
  }

  /** A first row under a new name and identity, or the next revision of the one expected row; no other row changes. */
  ghost predicate PutsRow(before: map<string, Row>, after: map<string, Row>, switch: Switch) {
    match switch
    case InsertRow(name, document) =>
      && name !in before && (forall other :: other in before ==> before[other].id != document.id)
      && after == before[name := Row(document.id, 1, document)]
    case UpdateRow(name, profileId, revision, document) =>
      && name in before && before[name].id == profileId && before[name].revision == revision
      && after == before[name := Row(profileId, revision + 1, document)]
  }

  /** The `INSERT` of `_insert_profile`, or `update_profile_revision`. */
  method PerformSwitch(c: Connection, switch: Switch) returns (failure: Option<Failure>)
    requires c.transaction.Some?
    modifies c`transaction, c`faults
    ensures c.transaction.Some? && c.faults >= old(c.faults)
    ensures failure.None? <==> Fits(old(c.transaction).value.profiles, switch) && c.faults == old(c.faults)
    ensures failure.None? ==> c.transaction.value == old(c.transaction).value.(
                                profiles := old(c.transaction).value.profiles[switch.name := SwitchedRow(switch)])
    ensures failure.None? ==>
              PutsRow(old(c.transaction).value.profiles, c.transaction.value.profiles, switch)
    ensures failure.Some? ==> failure.value in {MutationError(Some(false)), DatabaseError}
  {
    var tables := c.transaction.value;
    var fault := c.Draw();
    if !fault.Works? {
      return Some(DatabaseError);
    }
    if !Fits(tables.profiles, switch) {
      return Some(if switch.InsertRow? then DatabaseError else MutationError(Some(false)));
    }
    c.transaction := Some(tables.(profiles := tables.profiles[switch.name := SwitchedRow(switch)]));
    return None;
  }

  lemma {:induction false} WithoutOneMore(journal: map<Uuid, CleanupRecord>, records: seq<CleanupRecord>, i: nat)
    requires i < |records|
    ensures WithoutRecords(journal, records[..i + 1]) ==
            WithoutRecords(journal, records[..i]) - {records[i].recordId}
  {
    assert records[..i + 1] == records[..i] + [records[i]];
    assert forall id :: Names(records[..i + 1], id) <==> Names(records[..i], id) || id == records[i].recordId by {
      forall id ensures Names(records[..i + 1], id) <==> Names(records[..i], id) || id == records[i].recordId {
        assert records[..i + 1][i] == records[i];
        assert forall j :: 0 <= j < i ==> records[..i + 1][j] == records[..i][j];
      }
    }
  }

  /** Drops the staged rows from the journal of the open transaction. */
  method RemoveCleanupRecords(c: Connection, records: seq<CleanupRecord>) returns (failure: Option<Failure>)
    requires c.transaction.Some?
    modifies c`transaction, c`faults
    ensures c.transaction.Some? && c.faults >= old(c.faults)
    ensures failure.None? <==>
              && c.faults == old(c.faults)
              && (forall i, j :: 0 <= i < j < |records| ==> records[i].recordId != records[j].recordId)
              && var journal := old(c.transaction).value.journal;
                 forall i :: 0 <= i < |records| ==>
                   records[i].recordId in journal && journal[records[i].recordId].reference == records[i].reference
    ensures failure.None? ==> c.transaction.value == old(c.transaction).value.(
                                journal := WithoutRecords(old(c.transaction).value.journal, records))
    ensures failure.Some? ==> failure.value in {MutationError(Some(false)), DatabaseError}
  {
    ghost var tables := c.transaction.value;
    assert records[..0] == [];
    assert WithoutRecords(tables.journal, []) == tables.journal;
    for i := 0 to |records|
      invariant c.transaction.Some? && c.faults == old(c.faults)
      invariant DistinctIds(records[..i]) && forall j :: 0 <= j < i ==> Queued(tables.journal, records[j])
      invariant c.transaction.value == tables.(journal := WithoutRecords(tables.journal, records[..i]))
    {
      var fault := c.Draw();
      if !fault.Works? {
        return Some(DatabaseError);
      }
      StillQueued(tables.journal, records, i);
      if !Queued(c.transaction.value.journal, records[i]) {
        return Some(MutationError(Some(false)));
      }
      WithoutOneMore(tables.journal, records, i);
      var journal := c.transaction.value.journal;
      c.transaction := Some(c.transaction.value.(journal := journal - {records[i].recordId}));
    }
    assert records[..|records|] == records;
    return None;
  }

  /** A row is still there to be removed exactly when it was there and no earlier record named it. */
  lemma StillQueued(journal: map<Uuid, CleanupRecord>, records: seq<CleanupRecord>, i: nat)
    requires i < |records| && DistinctIds(records[..i])
    ensures Queued(WithoutRecords(journal, records[..i]), records[i]) <==>
            Queued(journal, records[i]) && DistinctIds(records[..i + 1])
  {
    var front := records[..i];
    assert records[..i + 1] == front + [records[i]];
    assert Names(front, records[i].recordId) <==> !DistinctIds(records[..i + 1]) by {
      if j :| 0 <= j < |front| && front[j].recordId == records[i].recordId {
        assert records[..i + 1][j].recordId == records[..i + 1][i].recordId;
      }
    }
  }

  /** What the drawn identities name: the journal rows of the retired references. */
  predicate Retires(records: seq<CleanupRecord>, references: seq<Reference>, supply: seq<Uuid>, from: nat) {
    && |records| <= |references| && from + |records| <= |supply|
    && forall i :: 0 <= i < |records| ==>
         records[i].reference == references[i] && records[i].recordId == supply[from + i]
  }

  lemma OneMoreQueued(journal: map<Uuid, CleanupRecord>, records: seq<CleanupRecord>, next: CleanupRecord)
    ensures WithRecords(journal, records + [next]) == WithRecords(journal, records)[next.recordId := next]
  {
    assert (records + [next])[..|records|] == records;
  }

  lemma RetiredIsNew(w: World, journal: map<Uuid, CleanupRecord>, records: seq<CleanupRecord>,
                     references: seq<Reference>, supply: seq<Uuid>, from: nat)
    requires Supplied(w, supply, from) && Retires(records, references, supply, from)
    requires |records| < |references| && from + |records| < |supply| && NoDuplicates(references)
    requires forall id :: id in journal ==> id in w.database.journal && journal[id] == w.database.journal[id]
    requires !IsJournaled(w.database.journal, references[|records|])
    ensures supply[from + |records|] !in WithRecords(journal, records)
    ensures !IsJournaled(WithRecords(journal, records), references[|records|])
  {
    hide IsCanonicalUuid;
    assert DistinctRecords(records);
    WithRecordsHolds(journal, records);
    assert Unused(w, supply[from + |records|]);
    var grown := WithRecords(journal, records);
    forall id | id in grown ensures grown[id].reference != references[|records|] {
      if Names(records, id) {
        var i :| 0 <= i < |records| && records[i].recordId == id;
        assert grown[id] == records[i];
      } else {
        assert grown[id] == w.database.journal[id];
      }
    }
  }

  /** Queues the retired references in the open transaction. */
  method QueueRetired(c: Connection, references: seq<Reference>) returns (result: Result<seq<CleanupRecord>, Failure>)
    requires c.Valid() && c.transaction.Some? && c.Left() >= |references|
    requires NoDuplicates(references)
    requires forall id :: id in c.transaction.value.journal ==>
               id in c.database.journal && c.transaction.value.journal[id] == c.database.journal[id]
    requires forall i :: 0 <= i < |references| ==>
               IsCanonical(references[i]) && !IsJournaled(c.database.journal, references[i])
    modifies c`transaction, c`drawn, c`faults
    ensures c.Valid() && c.faults >= old(c.faults) && c.transaction.Some?
    ensures c.drawn <= old(c.drawn) + |references|
    ensures match result
            case Ok(records) =>
              && c.faults == old(c.faults) && c.drawn == old(c.drawn) + |references|
              && |records| == |references| && Retires(records, references, c.supply, old(c.drawn))
              && c.transaction.value == old(c.transaction).value.(
                   journal := WithRecords(old(c.transaction).value.journal, records))
            case Err(failure) => failure in {SecretStoreError, DatabaseError} && c.faults > old(c.faults)
  {
    hide IsCanonicalUuid, IsCanonical, IsRun, Supplied, ProfileReferences, WithRecords, IsJournaled;
    ghost var tables := c.transaction.value;
    ghost var from := c.drawn;
    var records: seq<CleanupRecord> := [];
    EmptyRecords(tables.journal);
    SupplyBound(c.Current(), c.supply, c.drawn);
    for i := 0 to |references|
      invariant c.Valid() && c.drawn == from + i && |records| == i && c.transaction.Some?
      invariant c.faults == old(c.faults) && Retires(records, references, c.supply, from)
      invariant c.transaction.value == tables.(journal := WithRecords(tables.journal, records))
    {
      SupplyBound(c.Current(), c.supply, c.drawn);
      RetiredIsNew(c.Current(), tables.journal, records, references, c.supply, from);
      var queued := QueueSecretCleanup(c, references[i]);
      if queued.Err? {
        return Err(queued.error);
      }
      OneMoreQueued(tables.journal, records, queued.value);
      records := records + [queued.value];
      SupplyBound(c.Current(), c.supply, c.drawn);
    }
    return Ok(records);
  }

  lemma EmptyRecords(journal: map<Uuid, CleanupRecord>)
    ensures WithRecords(journal, []) == journal
  {
  }
}
