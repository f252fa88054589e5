/** Deleting queued secrets (`reconciliation.py`). */
module Reconciliation {
  import opened Wrappers
  import opened References
  import opened Documents
  import opened StoredReferences
  import opened TwoStores
  import opened MutationOutcomes
  import opened Stores

  datatype ReconciliationResult = ReconciliationResult(pending: nat, removed: nat, failed: nat)

  predicate ValidRecord(record: CleanupRecord) {
    IsCanonicalUuid(record.recordId) && IsCanonical(record.reference)
  }

  /** A queued record as the database describes it: its key, its reference and its time. */
  predicate RowOf(journal: map<Uuid, CleanupRecord>, record: CleanupRecord) {
    record.recordId in journal && journal[record.recordId] == record
  }

  predicate DistinctIds(records: seq<CleanupRecord>) {
    forall i, j :: 0 <= i < j < |records| ==> records[i].recordId != records[j].recordId
  }

  /** Table rows are keyed by their `id` column, and stored references have the canonical form. */
  ghost predicate Tables(database: Database) {
    && (forall id :: id in database.journal ==> database.journal[id].recordId == id)
    && (forall name :: name in database.profiles ==>
          AllCanonical(ProfileReferences(database.profiles[name].document)))
  }

  lemma ConsistentTables(w: World)
    requires Consistent(w)
    ensures Tables(w.database)
    ensures forall id :: id in w.database.journal ==> ValidRecord(w.database.journal[id])
  {
    hide ProfileReferences;
  }

  /** `queue_secret_cleanup`, inside the open transaction. */
  method QueueSecretCleanup(c: Connection, reference: Reference) returns (result: Result<CleanupRecord, Failure>)
    requires c.Valid() && c.transaction.Some? && c.Left() > 0
    modifies c`transaction, c`drawn, c`faults
    ensures c.Valid() && c.transaction.Some? && c.faults >= old(c.faults)
    ensures c.drawn == old(c.drawn) + 1 || (c.drawn == old(c.drawn) && result.Err?)
    ensures match result
            case Ok(record) =>
              && record.reference == reference && record.recordId == c.supply[old(c.drawn)]
              && record.recordId !in old(c.transaction).value.journal && IsCanonicalUuid(record.recordId)
              && c.transaction.value == old(c.transaction).value.(
                   journal := old(c.transaction).value.journal[record.recordId := record])
            case Err(failure) =>
              && c.transaction == old(c.transaction)
              && failure in {SecretStoreError, DatabaseError, ReconciliationError}
    ensures result == Err(ReconciliationError) ==>
              c.supply[old(c.drawn)] in old(c.transaction).value.journal ||
              IsJournaled(old(c.transaction).value.journal, reference)
    ensures result.Ok? ==> c.faults == old(c.faults)
    ensures result.Ok? || c.faults > old(c.faults) || result.error == ReconciliationError || !IsCanonical(reference)
  {
    hide ProfileReferences, IsRun;
    if !IsCanonical(reference) {
      return Err(SecretStoreError);
    }
    var id := c.NewUuid();
    var now: string := *;
    var tables := c.transaction.value;
    var fault := c.Draw();
    if !fault.Works? {
      return Err(DatabaseError);
    }
    if id in tables.journal || IsJournaled(tables.journal, reference) {
      return Err(ReconciliationError);
    }
    var record := CleanupRecord(id, reference, now);
    c.transaction := Some(tables.(journal := tables.journal[id := record]));
    return Ok(record);
  }

  /** `pending_secret_cleanup`. */
  method PendingSecretCleanup(c: Connection) returns (result: Result<seq<CleanupRecord>, Failure>)
    requires Tables(c.database)
    modifies c`faults
    ensures c.faults >= old(c.faults)
    ensures match result
            case Ok(records) =>
              && DistinctIds(records)
              && (forall i :: 0 <= i < |records| ==> RowOf(c.database.journal, records[i]) && ValidRecord(records[i]))
              && (forall id :: id in c.database.journal ==> Names(records, id))
            case Err(error) =>
              && error == ReconciliationError
              && (c.faults > old(c.faults) ||
                  exists id :: id in c.database.journal && !ValidRecord(c.database.journal[id]))
    ensures c.faults > old(c.faults) ==> result.Err?
    ensures (exists id :: id in c.database.journal && !ValidRecord(c.database.journal[id])) ==> result.Err?
  {
    hide ProfileReferences, IsCanonical, IsCanonicalUuid;
    var fault := c.Draw();
    if !fault.Works? {
      return Err(ReconciliationError);
    }
    var journal := c.database.journal;
    var records: seq<CleanupRecord> := [];
    var left := journal.Keys;
    while left != {}
      invariant left <= journal.Keys
      invariant DistinctIds(records)
      invariant forall i :: 0 <= i < |records| ==>
        RowOf(journal, records[i]) && ValidRecord(records[i]) && records[i].recordId !in left
      invariant forall id :: id in journal && id !in left ==> Names(records, id)
      decreases left
    {
      var id :| id in left;
      left := left - {id};
      var record := CleanupRecord(id, journal[id].reference, journal[id].createdAt);
      if !ValidRecord(record) {
        return Err(ReconciliationError);
      }
      ghost var known := records;
      records := records + [record];
      assert records[|known|].recordId == id;
      forall k | k in journal && k !in left ensures Names(records, k) {
        if k != id {
          var i :| 0 <= i < |known| && known[i].recordId == k;
          assert records[i].recordId == k;
        }
      }
    }
    assert forall id :: id in journal ==> ValidRecord(journal[id]) by {
      forall id | id in journal ensures ValidRecord(journal[id]) {
        var i :| 0 <= i < |records| && records[i].recordId == id;
      }
    }
    return Ok(records);
  }

  /** The scan finds this reference in some stored document. */
  ghost predicate Reported(profiles: map<string, Row>, reference: Reference) {
    exists name :: name in profiles && Holds(EncodeProfile(profiles[name].document), reference)
  }

  ghost predicate AllReadable(profiles: map<string, Row>) {
    forall name :: name in profiles ==> Readable(EncodeProfile(profiles[name].document))
  }

  /** `_live_secret_references`. */
  method LiveSecretReferences(c: Connection) returns (result: Result<set<Reference>, Failure>)
    modifies c`faults
    ensures c.faults >= old(c.faults)
    ensures match result
            case Ok(live) =>
              && c.faults == old(c.faults) && AllReadable(c.database.profiles)
              && forall r :: r in live <==> Reported(c.database.profiles, r)
            case Err(error) =>
              error == ReconciliationError && (c.faults > old(c.faults) || !AllReadable(c.database.profiles))
  {
    hide EncodeProfile, Readable, Holds;
    var fault := c.Draw();
    if !fault.Works? {
      return Err(ReconciliationError);
    }
    var profiles := c.database.profiles;
    var live: set<Reference> := {};
    var left := profiles.Keys;
    while left != {}
      invariant left <= profiles.Keys && c.faults == old(c.faults)
      invariant forall name :: name in profiles && name !in left ==> Readable(EncodeProfile(profiles[name].document))
      invariant forall r :: r in live <==>
        exists name :: name in profiles && name !in left && Holds(EncodeProfile(profiles[name].document), r)
      decreases left
    {
      var name :| name in left;
      ghost var before, known := left, live;
      left := left - {name};
      var found := CollectSecretReferences(EncodeProfile(profiles[name].document), live);
      if found.None? {
        return Err(ReconciliationError);
      }
      live := found.value;
      forall r ensures r in live <==>
        exists n :: n in profiles && n !in left && Holds(EncodeProfile(profiles[n].document), r)
      {
        if n :| n in profiles && n !in left && Holds(EncodeProfile(profiles[n].document), r) {
          assert n == name || n !in before;
        }
      }
    }
    return Ok(live);
  }

  /** What keeps a reconciliation from starting: a malformed record, a label that looks like a
      reference and is none, or a queued reference that a profile or such a label names. */
  ghost predicate Blocked(database: Database) {
    || (exists id :: id in database.journal && !ValidRecord(database.journal[id]))
    || (exists name :: name in database.profiles && !ReadableLabels(database.profiles[name].document.labels))
    || (exists id :: id in database.journal && IsClaimed(database.profiles, database.journal[id].reference))
  }

  /** A profile refers to it, or a label whose name ends in `Ref` holds its text. */
  ghost predicate IsClaimed(profiles: map<string, Row>, reference: Reference) {
    IsLive(profiles, reference) ||
    exists name :: name in profiles && LabelHolds(profiles[name].document.labels, reference)
  }

  lemma ScanFinds(database: Database, reference: Reference)
    requires Tables(database)
    ensures Reported(database.profiles, reference) <==> IsClaimed(database.profiles, reference)
    ensures AllReadable(database.profiles) <==>
            forall name :: name in database.profiles ==> ReadableLabels(database.profiles[name].document.labels)
  {
    hide EncodeProfile, Readable, Holds, ProfileReferences, ReadableLabels, LabelHolds, AllCanonical;
    forall name | name in database.profiles
      ensures var document := database.profiles[name].document;
              && (Readable(EncodeProfile(document)) <==> ReadableLabels(document.labels))
              && (Holds(EncodeProfile(document), reference) <==>
                  reference in ProfileReferences(document).Values || LabelHolds(document.labels, reference))
    {
      EncodedReferences(database.profiles[name].document, reference);
    }
  }

  /** The requested records, in the requested order. */
  method SelectRecords(records: seq<CleanupRecord>, requested: seq<Uuid>, ghost journal: map<Uuid, CleanupRecord>)
    returns (selected: Option<seq<CleanupRecord>>)
    requires forall i :: 0 <= i < |records| ==> RowOf(journal, records[i])
    requires forall id :: id in journal ==> Names(records, id)
    ensures selected.Some? <==>
              (forall i, j :: 0 <= i < j < |requested| ==> requested[i] != requested[j]) &&
              (forall i :: 0 <= i < |requested| ==> requested[i] in journal)
    ensures selected.Some? ==>
              |selected.value| == |requested| &&
              forall i :: 0 <= i < |requested| ==> selected.value[i] == journal[requested[i]]
  {
    if exists i, j :: 0 <= i < j < |requested| && requested[i] == requested[j] {
      return None;
    }
    var byId: map<Uuid, CleanupRecord> := map[];
    for i := 0 to |records|
      invariant forall id :: id in byId ==> id in journal && byId[id] == journal[id]
      invariant forall j :: 0 <= j < i ==> records[j].recordId in byId
    {
      byId := byId[records[i].recordId := records[i]];
    }
    assert forall id :: id in journal ==> id in byId by {
      forall id | id in journal ensures id in byId {
        var j :| 0 <= j < |records| && records[j].recordId == id;
      }
    }
    var found: seq<CleanupRecord> := [];
    for i := 0 to |requested|
      invariant |found| == i
      invariant forall j :: 0 <= j < i ==> requested[j] in journal && found[j] == journal[requested[j]]
    {
      if requested[i] !in byId {
        return None;
      }
      found := found + [byId[requested[i]]];
    }
    return Some(found);
  }

  /** What the deletions so far have done: only chosen secrets and records are gone, and those of
      every record dealt with successfully; and no record went before its secret. */
  ghost predicate Deleted(before: World, now: World, selected: seq<CleanupRecord>, done: nat, failed: nat)
    requires done <= |selected|
  {
    && now.database.profiles == before.database.profiles && now.history == before.history
    && (forall id :: id in now.database.journal ==>
          id in before.database.journal && now.database.journal[id] == before.database.journal[id])
    && (forall id :: id in before.database.journal && !Names(selected[..done], id) ==> id in now.database.journal)
    && (forall id :: id in before.database.journal && id !in now.database.journal ==>
          before.database.journal[id].reference !in now.vault)
    && (forall r :: r in now.vault ==> r in before.vault && now.vault[r] == before.vault[r])
    && (forall r :: r in before.vault && !Covers(selected[..done], r) ==> r in now.vault)
    && (failed == 0 ==> forall i :: 0 <= i < done ==>
          selected[i].recordId !in now.database.journal && selected[i].reference !in now.vault)
  }

  lemma NothingDeleted(w: World, selected: seq<CleanupRecord>)
    ensures Deleted(w, w, selected, 0, 0)
  {
  }

  /** Deleting a further secret, successfully or not. */
  lemma ErasedNext(before: World, now: World, after: World, selected: seq<CleanupRecord>, done: nat, failed: nat)
    requires done < |selected| && Deleted(before, now, selected, done, failed)
    requires after.database == now.database && after.history == now.history
    requires after.vault == now.vault || after.vault == now.vault - {selected[done].reference}
    ensures Deleted(before, after, selected, done + 1, failed + 1)
  {
    var shorter, longer := selected[..done], selected[..done + 1];
    assert longer == shorter + [selected[done]];
    forall id | Names(shorter, id) ensures Names(longer, id) {
      var i :| 0 <= i < |shorter| && shorter[i].recordId == id;
      assert longer[i].recordId == id;
    }
    forall r | r in before.vault && !Covers(longer, r) ensures r in after.vault {
      assert longer[done].reference != r;
      assert !Covers(shorter, r) by {
        assert forall i :: 0 <= i < |shorter| ==> shorter[i] == longer[i];
      }
    }
  }

  /** Deleting a further secret and then its record. */
  lemma ForgottenNext(before: World, now: World, after: World, selected: seq<CleanupRecord>, done: nat, failed: nat)
    requires done < |selected| && Deleted(before, now, selected, done, failed) && DistinctIds(selected)
    requires RowOf(now.database.journal, selected[done])
    requires after.database.profiles == now.database.profiles && after.history == now.history
    requires after.database.journal == WithoutRecords(now.database.journal, [selected[done]])
    requires after.vault == now.vault - {selected[done].reference}
    ensures Deleted(before, after, selected, done + 1, failed)
  {
    hide WithoutRecords, Covers;
    var record := selected[done];
    var erased := now.(vault := after.vault);
    ErasedNext(before, now, erased, selected, done, failed);
    assert selected[..done + 1][done] == record;
    assert Names(selected[..done + 1], record.recordId);
    WithoutOne(now.database.journal, record);
  }

  lemma WithoutOne(journal: map<Uuid, CleanupRecord>, record: CleanupRecord)
    ensures forall id :: id in WithoutRecords(journal, [record]) <==> id in journal && id != record.recordId
    ensures forall id :: id in WithoutRecords(journal, [record]) ==> WithoutRecords(journal, [record])[id] == journal[id]
  {
    assert forall id :: Names([record], id) <==> id == record.recordId by {
      assert [record][0] == record;
    }
  }

  /** One turn of the deletion loop: the secret first, then its record in its own transaction.
      `Ok(false)` is a secret that could not be deleted. */
  method DeleteQueued(c: Connection, record: CleanupRecord) returns (result: Result<bool, Failure>)
    requires c.Valid() && c.transaction.None? && RowOf(c.database.journal, record)
    requires !IsLive(c.database.profiles, record.reference)
    modifies c`database, c`vault, c`transaction, c`history, c`trace, c`faults
    ensures c.Valid() && c.faults >= old(c.faults) && old(c.trace) <= c.trace
    ensures c.database.profiles == old(c.database.profiles) && c.history == old(c.history)
    ensures c.vault == old(c.vault) || c.vault == old(c.vault) - {record.reference}
    ensures c.database == old(c.database) ||
            (c.database.journal == WithoutRecords(old(c.database.journal), [record]) &&
             c.vault == old(c.vault) - {record.reference})
    ensures result == Ok(true) <==> c.faults == old(c.faults)
    ensures result == Ok(true) ==>
              && c.database.journal == WithoutRecords(old(c.database.journal), [record])
              && c.vault == old(c.vault) - {record.reference}
    ensures result == Ok(false) ==> c.database == old(c.database)
    ensures result.Ok? ==> c.transaction.None?
    ensures old(Consistent(c.Current())) ==> Consistent(c.Current())
  {
    hide ProfileReferences, IsRun, Consistent, Supplied, IsLive, IsCanonical, Apply, Enabled;
    assert IsJournaled(c.database.journal, record.reference);
    var erased := c.DeleteSecret(record.reference);
    if !erased {
      return Ok(false);
    }
    var begun := c.Begin();
    if !begun {
      var _ := c.Rollback();
      return Err(DatabaseError);
    }
    var fault := c.Draw();
    if !fault.Works? {
      var _ := c.Rollback();
      return Err(DatabaseError);
    }
    var tables := c.transaction.value;
    if record.recordId !in tables.journal || tables.journal[record.recordId].reference != record.reference {
      assert false;
      return Err(ReconciliationError);
    }
    c.transaction := Some(tables.(journal := tables.journal - {record.recordId}));
    Forgetting(c.Current(), record, c.transaction.value, c.supply, c.drawn);
    var acknowledged := c.Commit(Forget(record));
    if !acknowledged {
      var _ := c.Rollback();
      return Err(DatabaseError);
    }
    return Ok(true);
  }

  lemma Forgetting(w: World, record: CleanupRecord, tables: Database, supply: seq<Uuid>, drawn: nat)
    requires RowOf(w.database.journal, record) && record.reference !in w.vault && Supplied(w, supply, drawn)
    requires tables == w.database.(journal := w.database.journal - {record.recordId})
    ensures Enabled(Forget(record), w)
    ensures Apply(Forget(record), w).database == tables && Apply(Forget(record), w).vault == w.vault
    ensures Apply(Forget(record), w).history == w.history
    ensures tables.journal == WithoutRecords(w.database.journal, [record])
    ensures Supplied(Apply(Forget(record), w), supply, drawn)
  {
    assert forall id :: Names([record], id) <==> id == record.recordId by {
      assert [record][0] == record;
    }
    assert tables.journal == WithoutRecords(w.database.journal, [record]);
    StillSupplied(w, Apply(Forget(record), w), supply, drawn);
  }

  /** Deletes the secret of each selected record and, if that succeeds, its journal row. */
  method DeleteSelected(c: Connection, selected: seq<CleanupRecord>)
    returns (counts: Result<(nat, nat), Failure>, ghost done: nat, ghost missed: nat)
    requires c.Valid() && c.transaction.None? && DistinctIds(selected)
    requires forall i :: 0 <= i < |selected| ==> RowOf(c.database.journal, selected[i])
    requires forall i :: 0 <= i < |selected| ==> !IsLive(c.database.profiles, selected[i].reference)
    modifies c`database, c`vault, c`transaction, c`history, c`trace, c`faults
    ensures c.Valid() && c.faults >= old(c.faults) && old(c.trace) <= c.trace
    ensures c.database.profiles == old(c.database.profiles) && c.history == old(c.history)
    ensures done <= |selected| && Deleted(old(c.Current()), c.Current(), selected, done, missed)
    ensures counts.Ok? ==>
              && done == |selected| && counts.value.1 == missed && counts.value.0 + missed == |selected|
              && c.transaction.None?
    ensures c.faults == old(c.faults) ==> counts == Ok((|selected|, 0))
    ensures old(Consistent(c.Current())) ==> Consistent(c.Current())
  {
    hide ProfileReferences, IsRun, Consistent, Supplied, IsLive, Apply, Enabled, IsCanonical, IsCanonicalUuid, Deleted,
      Names, Covers;
    var removed, failed := 0, 0;
    ghost var before := c.Current();
    NothingDeleted(before, selected);
    for i := 0 to |selected|
      invariant c.Valid() && c.transaction.None? && c.faults >= old(c.faults) && old(c.trace) <= c.trace
      invariant Deleted(before, c.Current(), selected, i, failed)
      invariant forall k :: i <= k < |selected| ==> RowOf(c.database.journal, selected[k])
      invariant c.database.profiles == before.database.profiles && c.history == before.history
      invariant removed + failed == i
      invariant c.faults == old(c.faults) ==> failed == 0
      invariant old(Consistent(c.Current())) ==> Consistent(c.Current())
    {
      ghost var now := c.Current();
      var step := DeleteQueued(c, selected[i]);
      if step.Err? {
        if c.database == now.database {
          ErasedNext(before, now, c.Current(), selected, i, failed);
          done, missed := i + 1, failed + 1;
        } else {
          ForgottenNext(before, now, c.Current(), selected, i, failed);
          done, missed := i + 1, failed;
        }
        return Err(step.error), done, missed;
      }
      if step.value {
        ForgottenNext(before, now, c.Current(), selected, i, failed);
        RowsRemain(now.database.journal, selected, i);
        removed := removed + 1;
      } else {
        ErasedNext(before, now, c.Current(), selected, i, failed);
        failed := failed + 1;
      }
    }
    return Ok((removed, failed)), |selected|, failed;
  }

  /** `reconcile_secret_cleanup`. From any journal whatever, no secret a profile refers to is touched;
      a pass without failures removes every chosen secret and record; and when nothing fails, the pass
      is refused exactly when the journal and the labels block it or a requested record is missing. */
  method ReconcileSecretCleanup(c: Connection, recordIds: Option<seq<Uuid>>)
    returns (result: Result<ReconciliationResult, Failure>)
    requires c.Valid() && c.transaction.None? && Tables(c.database)
    modifies c`database, c`vault, c`transaction, c`history, c`trace, c`faults
    ensures c.Valid() && c.faults >= old(c.faults) && old(c.trace) <= c.trace
    ensures c.database.profiles == old(c.database.profiles) && c.history == old(c.history)
    ensures forall r :: IsLive(old(c.database.profiles), r) && r in old(c.vault) ==>
              r in c.vault && c.vault[r] == old(c.vault)[r]
    ensures forall r :: r in c.vault ==> r in old(c.vault)
    ensures forall id :: id in c.database.journal ==>
              id in old(c.database.journal) && c.database.journal[id] == old(c.database.journal)[id]
    ensures result.Ok? ==> result.value.removed + result.value.failed == result.value.pending && c.transaction.None?
    ensures result.Ok? && result.value.failed == 0 ==> forall id ::
              id in old(c.database.journal) && (recordIds.None? || id in recordIds.value) ==>
                id !in c.database.journal && old(c.database.journal)[id].reference !in c.vault
    ensures c.faults == old(c.faults) ==>
              && (result.Err? <==>
                    || Blocked(old(c.database))
                    || (recordIds.Some? && UnknownOrRepeated(recordIds.value, old(c.database.journal).Keys)))
              && (result.Ok? ==> result.value.failed == 0)
              && (result.Err? ==> c.Current() == old(c.Current()))
    ensures old(Consistent(c.Current())) ==> Consistent(c.Current())
  {
    hide ProfileReferences, IsRun, Consistent, Supplied, IsLive, Apply, Enabled, ReadableLabels, LabelHolds,
      EncodeProfile, Readable, Holds, IsCanonical, IsCanonicalUuid, AllCanonical,
      Deleted, Tables, Names, Covers, Blocked, AllReadable, Reported, ValidRecord;
    if recordIds.Some? {
      RequestableExactly(c.database.journal, recordIds.value);
    }
    var pending := PendingSecretCleanup(c);
    if pending.Err? {
      InvalidBlocks(c.database);
      return Err(pending.error);
    }
    var records := pending.value;
    var scanned := LiveSecretReferences(c);
    if scanned.Err? {
      UnreadableBlocks(c.database);
      return Err(scanned.error);
    }
    var live := scanned.value;
    if exists i :: 0 <= i < |records| && records[i].reference in live {
      ClaimedBlocks(c.database, records, live);
      return Err(ReconciliationError);
    }
    NothingBlocks(c.database, records, live);
    var selected := records;
    if recordIds.Some? {
      var chosen := SelectRecords(records, recordIds.value, c.database.journal);
      if chosen.None? {
        return Err(ReconciliationError);
      }
      selected := chosen.value;
    }
    ghost var before := c.Current();
    SelectedRows(before.database, records, recordIds, selected);
    var counts, done, missed := DeleteSelected(c, selected);
    DeletedSpares(before, c.Current(), selected, done, missed);
    if counts.Err? {
      return Err(counts.error);
    }
    var (removed, failed) := counts.value;
    AllChosenGone(before, c.Current(), records, recordIds, selected, failed);
    return Ok(ReconciliationResult(|selected|, removed, failed));
  }

  /** Some requested identity is not in the journal or was requested before. */
  ghost predicate UnknownOrRepeated(requested: seq<Uuid>, known: set<Uuid>) {
    exists i :: 0 <= i < |requested| && (requested[i] !in known || requested[i] in requested[..i])
  }

  lemma RequestableExactly(journal: map<Uuid, CleanupRecord>, requested: seq<Uuid>)
    ensures Requestable(journal, requested) <==> !UnknownOrRepeated(requested, journal.Keys)
  {
    if i :| 0 <= i < |requested| && requested[i] in requested[..i] {
      var j :| 0 <= j < i && requested[j] == requested[i];
    }
    if i, j :| 0 <= i < j < |requested| && requested[i] == requested[j] {
      assert requested[..j][i] == requested[j];
    }
  }

  predicate Requestable(journal: map<Uuid, CleanupRecord>, requested: seq<Uuid>) {
    && (forall i, j :: 0 <= i < j < |requested| ==> requested[i] != requested[j])
    && (forall i :: 0 <= i < |requested| ==> requested[i] in journal)
  }

  lemma InvalidBlocks(database: Database)
    ensures (exists id :: id in database.journal && !ValidRecord(database.journal[id])) ==> Blocked(database)
  {
  }

  lemma UnreadableBlocks(database: Database)
    requires Tables(database)
    ensures !AllReadable(database.profiles) ==> Blocked(database)
  {
    hide AllReadable, ReadableLabels;
    ScanFinds(database, Reference("", "", KafkaPassword));
  }

  lemma ClaimedBlocks(database: Database, records: seq<CleanupRecord>, live: set<Reference>)
    requires Tables(database)
    requires forall i :: 0 <= i < |records| ==> RowOf(database.journal, records[i])
    requires forall r :: r in live <==> Reported(database.profiles, r)
    requires exists i :: 0 <= i < |records| && records[i].reference in live
    ensures Blocked(database)
  {
    hide Reported, IsClaimed;
    var i :| 0 <= i < |records| && records[i].reference in live;
    ScanFinds(database, records[i].reference);
    assert IsClaimed(database.profiles, database.journal[records[i].recordId].reference);
  }

  lemma NothingBlocks(database: Database, records: seq<CleanupRecord>, live: set<Reference>)
    requires Tables(database) && AllReadable(database.profiles)
    requires forall i :: 0 <= i < |records| ==> RowOf(database.journal, records[i]) && ValidRecord(records[i])
    requires forall id :: id in database.journal ==> Names(records, id)
    requires forall r :: r in live <==> Reported(database.profiles, r)
    requires !exists i :: 0 <= i < |records| && records[i].reference in live
    ensures !Blocked(database)
    ensures forall id :: id in database.journal ==> !IsLive(database.profiles, database.journal[id].reference)
  {
    hide Reported, AllReadable, ReadableLabels, LabelHolds, IsLive, ValidRecord;
    ScanFinds(database, Reference("", "", KafkaPassword));
    forall id | id in database.journal
      ensures ValidRecord(database.journal[id]) && !IsClaimed(database.profiles, database.journal[id].reference)
    {
      var i :| 0 <= i < |records| && records[i].recordId == id;
      ScanFinds(database, records[i].reference);
    }
  }

  lemma SelectedRows(database: Database, records: seq<CleanupRecord>, recordIds: Option<seq<Uuid>>,
                     selected: seq<CleanupRecord>)
    requires Tables(database) && DistinctIds(records)
    requires forall i :: 0 <= i < |records| ==> RowOf(database.journal, records[i])
    requires recordIds.None? ==> selected == records
    requires recordIds.Some? ==> Requestable(database.journal, recordIds.value) && |selected| == |recordIds.value|
    requires recordIds.Some? ==>
               forall i :: 0 <= i < |selected| ==> selected[i] == database.journal[recordIds.value[i]]
    ensures DistinctIds(selected)
    ensures forall i :: 0 <= i < |selected| ==> RowOf(database.journal, selected[i])
  {
    hide ProfileReferences, AllCanonical;
  }

  lemma RowsRemain(journal: map<Uuid, CleanupRecord>, selected: seq<CleanupRecord>, done: nat)
    requires done < |selected| && DistinctIds(selected)
    requires forall k :: done <= k < |selected| ==> RowOf(journal, selected[k])
    ensures forall k :: done < k < |selected| ==> RowOf(WithoutRecords(journal, [selected[done]]), selected[k])
  {
  }

  lemma DeletedSpares(before: World, now: World, selected: seq<CleanupRecord>, done: nat, failed: nat)
    requires done <= |selected| && Deleted(before, now, selected, done, failed)
    requires forall i :: 0 <= i < |selected| ==> !IsLive(before.database.profiles, selected[i].reference)
    ensures forall r :: IsLive(before.database.profiles, r) && r in before.vault ==>
              r in now.vault && now.vault[r] == before.vault[r]
    ensures forall r :: r in now.vault ==> r in before.vault
    ensures forall id :: id in now.database.journal ==>
              id in before.database.journal && now.database.journal[id] == before.database.journal[id]
  {
    hide IsLive;
  }

  lemma AllChosenGone(before: World, now: World, records: seq<CleanupRecord>, recordIds: Option<seq<Uuid>>,
                      selected: seq<CleanupRecord>, failed: nat)
    requires Deleted(before, now, selected, |selected|, failed)
    requires forall i :: 0 <= i < |records| ==> RowOf(before.database.journal, records[i])
    requires forall id :: id in before.database.journal ==> Names(records, id)
    requires recordIds.None? ==> selected == records
    requires recordIds.Some? ==> Requestable(before.database.journal, recordIds.value)
    requires recordIds.Some? ==> |selected| == |recordIds.value|
    requires recordIds.Some? ==>
               forall i :: 0 <= i < |selected| ==> selected[i] == before.database.journal[recordIds.value[i]]
    requires Tables(before.database)
    ensures failed == 0 ==> forall id ::
              id in before.database.journal && (recordIds.None? || id in recordIds.value) ==>
                id !in now.database.journal && before.database.journal[id].reference !in now.vault
  {
    hide ProfileReferences, AllCanonical;
    if failed == 0 {
      forall id | id in before.database.journal && (recordIds.None? || id in recordIds.value)
        ensures id !in now.database.journal && before.database.journal[id].reference !in now.vault
      {
        if recordIds.None? {
          var i :| 0 <= i < |records| && records[i].recordId == id;
          assert selected[i].recordId == id;
        } else {
          var i :| 0 <= i < |recordIds.value| && recordIds.value[i] == id;
          assert selected[i].recordId == id;
        }
      }
    }
  }

  /** `reconcile_pending_secrets`: the pass over the whole journal that `doctor --repair` runs. From a
      state the protocol reached, a pass without failures ends with an empty journal and exactly the
      live secrets in the vault. When nothing fails, it is refused exactly when a label whose name
      ends in `Ref` holds no reference, or the text of a queued one. */
  method ReconcilePendingSecrets(c: Connection) returns (result: Result<ReconciliationResult, Failure>)
    requires c.Valid() && c.transaction.None? && Consistent(c.Current())
    modifies c`database, c`vault, c`transaction, c`history, c`trace, c`faults
    ensures c.Valid() && c.faults >= old(c.faults) && old(c.trace) <= c.trace && Consistent(c.Current())
    ensures c.database.profiles == old(c.database.profiles) && c.history == old(c.history)
    ensures result.Ok? && result.value.failed == 0 ==>
              && c.database.journal == map[]
              && forall r :: r in c.vault <==> IsLive(c.database.profiles, r)
    ensures c.faults == old(c.faults) ==>
              && (result.Err? <==> old(c.database.journal) != map[] && LabelsBlock(old(c.database)))
              && (result.Ok? ==> result.value.failed == 0)
  {
    hide ProfileReferences, IsRun, Consistent, Supplied, IsLive, Apply, Enabled, Blocked, LabelsBlock, ValidRecord;
    ConsistentTables(c.Current());
    ReachedBlocks(c.Current());
    var opening := c.Draw();
    if !opening.Works? {
      return Err(StoreError(1));
    }
    var pending := PendingSecretCleanup(c);
    if pending.Err? {
      return Err(pending.error);
    }
    if pending.value == [] {
      EmptyJournalBalances(c.Current());
      return Ok(ReconciliationResult(0, 0, 0));
    }
    assert pending.value[0].recordId in c.database.journal;
    var loaded := c.Draw();
    if !loaded.Works? {
      return Err(SecretStoreError);
    }
    result := ReconcileSecretCleanup(c, None);
    if result.Ok? && result.value.failed == 0 {
      assert forall id :: id !in c.database.journal;
      EmptyJournalBalances(c.Current());
    }
  }

  ghost predicate LabelsBlock(database: Database) {
    || (exists name :: name in database.profiles && !ReadableLabels(database.profiles[name].document.labels))
    || (exists name, id :: name in database.profiles && id in database.journal &&
          LabelHolds(database.profiles[name].document.labels, database.journal[id].reference))
  }

  /** In a state the protocol reached, only labels can block a reconciliation. */
  lemma ReachedBlocks(w: World)
    requires Consistent(w)
    ensures Blocked(w.database) <==> LabelsBlock(w.database)
  {
    hide ProfileReferences, ReadableLabels, LabelHolds, IsLive, IsCanonical;
    ConsistentTables(w);
    forall id | id in w.database.journal ensures !IsLive(w.database.profiles, w.database.journal[id].reference) {
      assert IsJournaled(w.database.journal, w.database.journal[id].reference);
    }
  }

  /** A profile without credentials can be created in an empty database. */
  lemma CreatingWithoutSecrets(document: Document)
    requires IsCanonicalUuid(document.id) && ProfileReferences(document) == map[]
    ensures var action := Create("orders", document, [], map[]);
            Enabled(action, Empty) && Consistent(Apply(action, Empty))
  {
    hide IsCanonicalUuid, ProfileReferences, Consistent;
    var action := Create("orders", document, [], map[]);
    EmptyIsConsistent();
    assert StepBy(action, Empty, Apply(action, Empty));
    StepKeepsConsistent(Empty, Apply(action, Empty));
  }

  /** Such a state is reached by adding one profile with the label `ownerRef=team-a`, which the label
      rules allow. */
  lemma LabelCanBlock(id: Uuid)
    requires IsCanonicalUuid(id)
    ensures var document := Document(id, None, map["ownerRef" := "team-a"],
                                     Kafka(["localhost:9092"], "plaintext", None, KafkaNone), None);
            var action := Create("orders", document, [], map[]);
            && Enabled(action, Empty)
            && Consistent(Apply(action, Empty))
            && LabelsBlock(Apply(action, Empty).database)
  {
    hide IsCanonicalUuid;
    var document := Document(id, None, map["ownerRef" := "team-a"],
                             Kafka(["localhost:9092"], "plaintext", None, KafkaNone), None);
    var action := Create("orders", document, [], map[]);
    EmptyIsConsistent();
    CreatingWithoutSecrets(document);
    assert ParseReference("team-a").None? by {
      assert FirstSlash("team-a") == 6 by { assert '/' !in "team-a"; }
    }
    var labels := Apply(action, Empty).database.profiles["orders"].document.labels;
    assert "ownerRef" in labels && IsReferenceKey("ownerRef") && !ReadableLabels(labels);
  }

  lemma EmptyJournalBalances(w: World)
    requires Consistent(w) && forall id :: id !in w.database.journal
    ensures w.database.journal == map[]
    ensures forall r :: r in w.vault <==> IsLive(w.database.profiles, r)
  {
    hide ProfileReferences, IsLive;
  }
}
