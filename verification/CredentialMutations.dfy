/** Staging and switching credentials across the two stores (`credential_mutations.py`). */
module CredentialMutations {
  import opened Wrappers
  import opened References
  import opened Documents
  import opened StoredReferences
  import opened TwoStores
  import opened ProfileAuth
  import opened MutationOutcomes
  import opened Stores
  import opened Reconciliation

  datatype StagedSecret = StagedSecret(field: Field, reference: Reference, previous: Option<Reference>,
                                       cleanup: CleanupRecord)

  // Staging

  predicate DistinctFields(replacements: seq<SecretReplacement>) {
    forall i, j :: 0 <= i < j < |replacements| ==> replacements[i].field != replacements[j].field
  }

  predicate ValidReplacement(profileId: Uuid, replacement: SecretReplacement) {
    && replacement.value != ""
    && (replacement.previous.Some? ==>
          && IsCanonical(replacement.previous.value)
          && replacement.previous.value.profileId == profileId
          && replacement.previous.value.field == replacement.field)
  }

  predicate ValidReplacements(profileId: Uuid, replacements: seq<SecretReplacement>) {
    && DistinctFields(replacements)
    && forall i :: 0 <= i < |replacements| ==> ValidReplacement(profileId, replacements[i])
  }

  /** What may be replaced: each field once, with a value, and a former reference only of this profile and field. */
  ghost predicate OwnReplacements(profileId: Uuid, replacements: seq<SecretReplacement>) {
    && (forall i, j :: 0 <= i < j < |replacements| ==> replacements[i].field != replacements[j].field)
    && (forall i :: 0 <= i < |replacements| ==> replacements[i].value != "")
    && forall i :: 0 <= i < |replacements| ==>
         match replacements[i].previous
         case None => true
         case Some(Reference(owner, credential, field)) =>
           && owner == profileId && field == replacements[i].field
           && IsCanonicalUuid(owner) && IsCanonicalUuid(credential)
  }

  /** `_validate_replacements`. */
  method ValidateReplacements(profileId: Uuid, replacements: seq<SecretReplacement>)
    returns (failure: Option<Failure>)
    ensures failure.None? <==> OwnReplacements(profileId, replacements)
    ensures failure.None? <==> ValidReplacements(profileId, replacements)
    ensures failure.Some? ==> failure.value in {MutationError(Some(false)), SecretStoreError}
  {
    hide IsCanonicalUuid;
    var fields: set<Field> := {};
    for i := 0 to |replacements|
      invariant forall field :: field in fields <==> exists j :: 0 <= j < i && replacements[j].field == field
      invariant DistinctFields(replacements[..i])
      invariant forall j :: 0 <= j < i ==> ValidReplacement(profileId, replacements[j])
    {
      var replacement := replacements[i];
      if replacement.field in fields || replacement.value == "" {
        return Some(MutationError(Some(false)));
      }
      if replacement.previous.Some? {
        if !IsCanonical(replacement.previous.value) {
          return Some(SecretStoreError);
        }
        if replacement.previous.value.profileId != profileId ||
           replacement.previous.value.field != replacement.field {
          return Some(MutationError(Some(false)));
        }
      }
      fields := fields + {replacement.field};
      assert replacements[..i + 1] == replacements[..i] + [replacement];
    }
    assert replacements[..|replacements|] == replacements;
    return None;
  }

  function Cleanups(staged: seq<StagedSecret>): (records: seq<CleanupRecord>)
    ensures |records| == |staged|
    ensures forall i :: 0 <= i < |staged| ==> records[i] == staged[i].cleanup
  {
    seq(|staged|, i requires 0 <= i < |staged| => staged[i].cleanup)
  }

  /** Each staged secret answers one replacement, under a reference of this profile and field. */
  predicate Answers(staged: seq<StagedSecret>, profileId: Uuid, replacements: seq<SecretReplacement>) {
    && |staged| == |replacements|
    && forall i :: 0 <= i < |staged| ==>
         && staged[i].field == replacements[i].field && staged[i].previous == replacements[i].previous
         && staged[i].reference == staged[i].cleanup.reference
         && staged[i].reference.profileId == profileId && staged[i].reference.field == staged[i].field
         && IsCanonical(staged[i].reference)
  }

  /** The staged references stand for the supplied values, which no earlier reference does. */
  ghost predicate Issues(before: History, after: History, staged: seq<StagedSecret>,
                         replacements: seq<SecretReplacement>) {
    && |staged| == |replacements|
    && after.generations == before.generations && after.owners == before.owners
    && (forall r :: r in before.issued ==> r in after.issued && after.issued[r] == before.issued[r])
    && forall i :: 0 <= i < |staged| ==>
         && staged[i].reference !in before.issued
         && staged[i].reference in after.issued && after.issued[staged[i].reference] == replacements[i].value
  }

  /** Nothing but new journal rows and new secrets distinguishes the two worlds. */
  ghost predicate OnlyQueued(before: World, after: World) {
    && after.database.profiles == before.database.profiles
    && (forall id :: id in before.database.journal ==>
          id in after.database.journal && after.database.journal[id] == before.database.journal[id])
    && after.history.generations == before.history.generations && after.history.owners == before.history.owners
    && (forall r :: r in before.history.issued ==>
          r in after.history.issued && after.history.issued[r] == before.history.issued[r])
  }

  /** What the drawn identities were used for: first the credentials, then their journal rows. */
  predicate Minted(supply: seq<Uuid>, from: nat, staged: seq<StagedSecret>, total: nat) {
    && |staged| <= total && from + total + |staged| <= |supply|
    && forall i :: 0 <= i < |staged| ==>
         && staged[i].reference.credentialId == supply[from + i]
         && staged[i].cleanup.recordId == supply[from + total + i]
  }

  /** The values the journal transaction records behind the staged references. */
  ghost function ValuesOf(staged: seq<StagedSecret>, replacements: seq<SecretReplacement>): map<Reference, Secret>
    requires |staged| == |replacements|
  {
    if staged == [] then map[]
    else
      var n := |staged| - 1;
      ValuesOf(staged[..n], replacements[..n])[staged[n].reference := replacements[n].value]
  }

  lemma {:induction false} ValuesOfHolds(staged: seq<StagedSecret>, replacements: seq<SecretReplacement>)
    requires |staged| == |replacements|
    requires forall i, j :: 0 <= i < j < |staged| ==> staged[i].reference != staged[j].reference
    ensures var values := ValuesOf(staged, replacements);
            && (forall i :: 0 <= i < |staged| ==>
                  staged[i].reference in values && values[staged[i].reference] == replacements[i].value)
            && (forall r :: r in values ==> exists i :: 0 <= i < |staged| && staged[i].reference == r)
  {
    if staged != [] {
      var n := |staged| - 1;
      var front := staged[..n];
      ValuesOfHolds(front, replacements[..n]);
      var values := ValuesOf(staged, replacements);
      forall r | r in values ensures exists i :: 0 <= i < |staged| && staged[i].reference == r {
        if r != staged[n].reference {
          assert r in ValuesOf(front, replacements[..n]);
          var i :| 0 <= i < |front| && front[i].reference == r;
          assert staged[i].reference == r;
        } else {
          assert staged[n].reference == r;
        }
      }
    }
  }

  lemma Queueing(w: World, records: seq<CleanupRecord>, values: map<Reference, Secret>)
    requires Insertable(w.database.journal, records)
    requires forall i :: 0 <= i < |records| ==> records[i].reference !in w.history.issued
    requires forall i :: 0 <= i < |records| ==> records[i].reference in values
    requires forall r :: r in values ==> Covers(records, r) && IsCanonical(r) && values[r] != ""
    ensures Enabled(Journal(records, values), w)
    ensures Apply(Journal(records, values), w) ==
            World(w.database.(journal := WithRecords(w.database.journal, records)), w.vault,
                  w.history.(issued := w.history.issued + values))
  {
  }

  /** The staged references and rows are new, so they can be queued. */
  lemma StagedAreNew(w: World, staged: seq<StagedSecret>, profileId: Uuid, replacements: seq<SecretReplacement>,
                     supply: seq<Uuid>, from: nat)
    requires Supplied(w, supply, from) && Answers(staged, profileId, replacements)
    requires Minted(supply, from, staged, |replacements|)
    ensures Insertable(w.database.journal, Cleanups(staged))
    ensures forall i :: 0 <= i < |staged| ==> staged[i].reference !in w.history.issued
    ensures forall i, j :: 0 <= i < j < |staged| ==> staged[i].reference != staged[j].reference
  {
    hide IsCanonicalUuid, IsCanonical;
    var records := Cleanups(staged);
    assert forall i :: 0 <= i < |staged| ==> records[i].recordId == supply[from + |replacements| + i];
    assert forall i :: 0 <= i < |staged| ==> records[i].reference.credentialId == supply[from + i];
    forall i | 0 <= i < |staged| ensures staged[i].reference !in w.history.issued {
      assert Unused(w, supply[from + i]);
    }
    forall i | 0 <= i < |staged| ensures records[i].recordId !in w.database.journal && IsCanonicalUuid(records[i].recordId) {
      assert Unused(w, supply[from + |replacements| + i]);
    }
  }

  /** The journal transaction is a durable action: its references and rows are new. */
  lemma Staging(w: World, staged: seq<StagedSecret>, profileId: Uuid, replacements: seq<SecretReplacement>,
                supply: seq<Uuid>, from: nat, drawn: nat)
    requires Supplied(w, supply, drawn) && Supplied(w, supply, from)
    requires Answers(staged, profileId, replacements) && ValidReplacements(profileId, replacements)
    requires Minted(supply, from, staged, |replacements|) && drawn == from + 2 * |replacements|
    ensures var action := Journal(Cleanups(staged), ValuesOf(staged, replacements));
            && Enabled(action, w)
            && Apply(action, w).database == w.database.(journal := WithRecords(w.database.journal, Cleanups(staged)))
            && Apply(action, w).vault == w.vault
            && Supplied(Apply(action, w), supply, drawn)
            && Issues(w.history, Apply(action, w).history, staged, replacements)
            && Stored(Apply(action, w).database.journal, Cleanups(staged))
            && OnlyQueued(w, Apply(action, w))
            && DistinctRecords(Cleanups(staged))
  {
    hide IsCanonicalUuid, IsCanonical, Enabled, Apply, Supplied, WithRecords, Issues, Stored, OnlyQueued, Insertable,
      DistinctFields;
    var records, values := Cleanups(staged), ValuesOf(staged, replacements);
    var action := Journal(records, values);
    StagedAreNew(w, staged, profileId, replacements, supply, from);
    ValuesOfHolds(staged, replacements);
    forall r | r in values ensures Covers(records, r) && IsCanonical(r) && values[r] != "" {
      var i :| 0 <= i < |staged| && staged[i].reference == r;
      assert records[i].reference == r;
    }
    Queueing(w, records, values);
    assert DistinctRecords(records) by { InsertableDistinct(w.database.journal, records); }
    StagingKeepsSupply(w, Apply(action, w), values, staged, supply, from, drawn);
    StagingIssues(w, Apply(action, w), values, staged, replacements);
  }

  lemma InsertableDistinct(journal: map<Uuid, CleanupRecord>, records: seq<CleanupRecord>)
    requires Insertable(journal, records)
    ensures DistinctRecords(records)
  {
  }

  lemma StagingIssues(w: World, after: World, values: map<Reference, Secret>, staged: seq<StagedSecret>,
                      replacements: seq<SecretReplacement>)
    requires |staged| == |replacements| && Insertable(w.database.journal, Cleanups(staged))
    requires after == World(w.database.(journal := WithRecords(w.database.journal, Cleanups(staged))), w.vault,
                            w.history.(issued := w.history.issued + values))
    requires forall i :: 0 <= i < |staged| ==>
               && staged[i].reference !in w.history.issued
               && staged[i].reference in values && values[staged[i].reference] == replacements[i].value
    requires forall r :: r in values ==> exists i :: 0 <= i < |staged| && staged[i].reference == r
    ensures Issues(w.history, after.history, staged, replacements)
    ensures Stored(after.database.journal, Cleanups(staged))
    ensures OnlyQueued(w, after)
  {
    hide Insertable, WithRecords, Issues, Stored, OnlyQueued;
    assert DistinctRecords(Cleanups(staged)) by { InsertableOnce(w.database.journal, Cleanups(staged)); }
    WithRecordsHolds(w.database.journal, Cleanups(staged));
    ValuesIssued(w.history, values, staged, replacements);
    assert forall r :: r in w.history.issued ==> r !in values;
    QueuedOnly(w, after, values, Cleanups(staged));
  }

  lemma InsertableOnce(journal: map<Uuid, CleanupRecord>, records: seq<CleanupRecord>)
    requires Insertable(journal, records)
    ensures DistinctRecords(records)
  {
    hide IsCanonicalUuid;
  }

  lemma QueuedOnly(w: World, after: World, values: map<Reference, Secret>, records: seq<CleanupRecord>)
    requires Insertable(w.database.journal, records)
    requires after == World(w.database.(journal := WithRecords(w.database.journal, records)), w.vault,
                            w.history.(issued := w.history.issued + values))
    requires forall r :: r in w.history.issued ==> r !in values
    ensures OnlyQueued(w, after)
  {
    hide WithRecords, Insertable;
    InsertableOnce(w.database.journal, records);
    WithRecordsHolds(w.database.journal, records);
    NewNames(w.database.journal, records);
  }

  lemma ValuesIssued(history: History, values: map<Reference, Secret>, staged: seq<StagedSecret>,
                     replacements: seq<SecretReplacement>)
    requires |staged| == |replacements|
    requires forall i :: 0 <= i < |staged| ==>
               && staged[i].reference !in history.issued
               && staged[i].reference in values && values[staged[i].reference] == replacements[i].value
    requires forall r :: r in values ==> exists i :: 0 <= i < |staged| && staged[i].reference == r
    ensures Issues(history, history.(issued := history.issued + values), staged, replacements)
  {
  }

  lemma NewNames(journal: map<Uuid, CleanupRecord>, records: seq<CleanupRecord>)
    requires Insertable(journal, records)
    ensures forall id :: id in journal ==> !Names(records, id)
  {
  }

  lemma StagingKeepsSupply(w: World, after: World, values: map<Reference, Secret>, staged: seq<StagedSecret>,
                           supply: seq<Uuid>, from: nat, drawn: nat)
    requires DistinctRecords(Cleanups(staged))
    requires after.database.journal == WithRecords(w.database.journal, Cleanups(staged))
    requires after.history == w.history.(issued := w.history.issued + values)
    requires forall r :: r in values ==> Covers(Cleanups(staged), r)
    requires Supplied(w, supply, drawn) && Minted(supply, from, staged, |staged|) && drawn == from + 2 * |staged|
    requires forall i :: 0 <= i < |staged| ==> staged[i].reference == staged[i].cleanup.reference
    ensures Supplied(after, supply, drawn)
  {
    hide IsCanonical, IsCanonicalUuid, Supplied;
    var records := Cleanups(staged);
    WithRecordsHolds(w.database.journal, records);
    forall id | id in after.database.journal && id !in w.database.journal
      ensures DrawnBefore(supply, drawn, id)
    {
      var i :| 0 <= i < |records| && records[i].recordId == id;
      assert supply[from + |staged| + i] == id;
    }
    forall r | r in after.history.issued && r !in w.history.issued
      ensures DrawnBefore(supply, drawn, r.credentialId)
    {
      assert Covers(records, r);
      var i :| 0 <= i < |records| && records[i].reference == r;
      assert supply[from + i] == r.credentialId;
    }
    StillSupplied(w, after, supply, drawn);
  }

  lemma CanonicalReference(reference: Reference)
    requires IsCanonicalUuid(reference.profileId) && IsCanonicalUuid(reference.credentialId)
    ensures IsCanonical(reference)
  {
  }

  lemma NothingStaged(w: World, profileId: Uuid)
    ensures Answers([], profileId, []) && Issues(w.history, w.history, [], []) && Ready(w, Cleanups([]))
    ensures DistinctRecords(Cleanups([]))
  {
  }

  lemma OneMoreRecord(journal: map<Uuid, CleanupRecord>, staged: seq<StagedSecret>, next: StagedSecret)
    ensures WithRecords(journal, Cleanups(staged + [next])) ==
            WithRecords(journal, Cleanups(staged))[next.cleanup.recordId := next.cleanup]
  {
    var longer := Cleanups(staged + [next]);
    assert longer[..|longer| - 1] == Cleanups(staged);
  }

  lemma NoRecords(journal: map<Uuid, CleanupRecord>)
    ensures WithRecords(journal, Cleanups([])) == journal
  {
  }

  /** A freshly drawn row identity and reference are not in the journal being filled. */
  lemma NextIsNew(w: World, staged: seq<StagedSecret>, supply: seq<Uuid>, from: nat, total: nat, reference: Reference)
    requires Consistent(w) && Supplied(w, supply, from) && from + total + |staged| < |supply| && |staged| < total
    requires Minted(supply, from, staged, total) && reference.credentialId == supply[from + |staged|]
    requires forall i :: 0 <= i < |staged| ==> staged[i].reference == staged[i].cleanup.reference
    requires DistinctRecords(Cleanups(staged))
    ensures var journal := WithRecords(w.database.journal, Cleanups(staged));
            supply[from + total + |staged|] !in journal && !IsJournaled(journal, reference)
  {
    hide IsCanonicalUuid, IsCanonical, ProfileReferences, IsLive, RowRecorded;
    var records := Cleanups(staged);
    var id := supply[from + total + |staged|];
    WithRecordsHolds(w.database.journal, records);
    assert Unused(w, id) && Unused(w, reference.credentialId);
    assert !Names(records, id) by {
      assert forall i :: 0 <= i < |records| ==> records[i].recordId == supply[from + total + i];
    }
    var journal := WithRecords(w.database.journal, records);
    forall k | k in journal ensures journal[k].reference != reference {
      if Names(records, k) {
        var i :| 0 <= i < |records| && records[i].recordId == k;
        assert journal[k] == records[i] && staged[i].reference.credentialId == supply[from + i];
      } else {
        assert w.database.journal[k].reference in w.history.issued;
      }
    }
  }

  lemma MintedDistinct(w: World, staged: seq<StagedSecret>, supply: seq<Uuid>, from: nat, total: nat)
    requires Supplied(w, supply, from) && Minted(supply, from, staged, total)
    requires forall i :: 0 <= i < |staged| ==> staged[i].reference == staged[i].cleanup.reference
    ensures DistinctRecords(Cleanups(staged))
  {
    hide IsCanonicalUuid;
    var records := Cleanups(staged);
    assert forall i :: 0 <= i < |records| ==> records[i].recordId == supply[from + total + i];
    assert forall i :: 0 <= i < |records| ==> records[i].reference.credentialId == supply[from + i];
  }

  /** Stores and verifies the staged secrets, whose references are already queued. */
  method StoreStaged(c: Connection, staged: seq<StagedSecret>, replacements: seq<SecretReplacement>)
    returns (result: Result<seq<StagedSecret>, Failure>)
    requires c.Valid() && c.transaction.None? && Consistent(c.Current()) && |staged| == |replacements|
    requires Stored(c.database.journal, Cleanups(staged))
    requires forall i :: 0 <= i < |staged| ==>
               && staged[i].reference == staged[i].cleanup.reference
               && staged[i].reference in c.history.issued
               && c.history.issued[staged[i].reference] == replacements[i].value
    modifies c`vault, c`trace, c`faults
    ensures c.Valid() && Consistent(c.Current()) && c.faults >= old(c.faults) && old(c.trace) <= c.trace
    ensures match result
            case Ok(stored) => stored == staged && Ready(c.Current(), Cleanups(staged))
            case Err(failure) => failure == MutationError(Some(false)) && c.faults > old(c.faults)
  {
    hide Supplied, Consistent, IsRun, ProfileReferences, IsLive;
    for i := 0 to |staged|
      invariant c.Valid() && Consistent(c.Current()) && c.faults >= old(c.faults) && old(c.trace) <= c.trace
      invariant forall j :: 0 <= j < i ==> staged[j].reference in c.vault
    {
      var reference, value := staged[i].reference, replacements[i].value;
      assert IsJournaled(c.database.journal, reference) by {
        assert c.database.journal[Cleanups(staged)[i].recordId].reference == reference;
      }
      var written := c.SetSecret(reference, value);
      if !written {
        return Err(MutationError(Some(false)));
      }
      var verified := c.GetSecret(reference);
      if verified != Some(value) {
        return Err(MutationError(Some(false)));
      }
    }
    return Ok(staged);
  }

  /** Draws a new reference for each replacement. */
  method MintReferences(c: Connection, profileId: Uuid, replacements: seq<SecretReplacement>)
    returns (references: seq<Reference>)
    requires c.Valid() && IsCanonicalUuid(profileId) && c.Left() >= |replacements|
    modifies c`drawn
    ensures c.Valid() && c.drawn == old(c.drawn) + |replacements| && |references| == |replacements|
    ensures forall i :: 0 <= i < |references| ==>
              && references[i] == Reference(profileId, c.supply[old(c.drawn) + i], replacements[i].field)
              && IsCanonical(references[i])
  {
    hide IsCanonicalUuid, IsCanonical, IsRun, Unused, ProfileReferences;
    references := [];
    for i := 0 to |replacements|
      invariant c.Valid() && c.drawn == old(c.drawn) + i && |references| == i
      invariant forall j :: 0 <= j < i ==>
        && references[j] == Reference(profileId, c.supply[old(c.drawn) + j], replacements[j].field)
        && IsCanonical(references[j])
    {
      var credentialId := c.NewUuid();
      references := references + [Reference(profileId, credentialId, replacements[i].field)];
      CanonicalReference(references[i]);
    }
  }

  /** Queues the new references in the open transaction. */
  method QueueStaged(c: Connection, profileId: Uuid, references: seq<Reference>, replacements: seq<SecretReplacement>,
                     ghost from: nat)
    returns (result: Result<seq<StagedSecret>, Failure>)
    requires c.Valid() && Consistent(c.Current()) && c.transaction == Some(c.database)
    requires Supplied(c.Current(), c.supply, from) && c.drawn == from + |replacements|
    requires c.Left() >= |replacements| && |references| == |replacements|
    requires forall i :: 0 <= i < |references| ==>
               && references[i] == Reference(profileId, c.supply[from + i], replacements[i].field)
               && IsCanonical(references[i])
    modifies c`transaction, c`drawn, c`faults
    ensures c.Valid() && c.faults >= old(c.faults) && c.transaction.Some? && old(c.drawn) <= c.drawn <= from + 2 * |replacements|
    ensures match result
            case Ok(staged) =>
              && c.drawn == from + 2 * |replacements| && c.faults == old(c.faults)
              && Answers(staged, profileId, replacements)
              && Minted(c.supply, from, staged, |replacements|)
              && c.transaction.value == c.database.(journal := WithRecords(c.database.journal, Cleanups(staged)))
            case Err(failure) => failure in {SecretStoreError, DatabaseError} && c.faults > old(c.faults)
  {
    hide IsCanonicalUuid, IsCanonical, IsRun, Supplied, Consistent, ProfileReferences, WithRecords, IsJournaled;
    var staged: seq<StagedSecret> := [];
    NoRecords(c.database.journal);
    for i := 0 to |replacements|
      invariant c.Valid() && c.drawn == from + |replacements| + i && |staged| == i && c.transaction.Some?
      invariant c.faults == old(c.faults)
      invariant c.transaction.value == c.database.(journal := WithRecords(c.database.journal, Cleanups(staged)))
      invariant forall j :: 0 <= j < i ==>
        && staged[j].field == replacements[j].field && staged[j].previous == replacements[j].previous
        && staged[j].reference == references[j] && staged[j].cleanup.reference == references[j]
        && staged[j].cleanup.recordId == c.supply[from + |replacements| + j]
    {
      MintedDistinct(c.Current(), staged, c.supply, from, |replacements|);
      NextIsNew(c.Current(), staged, c.supply, from, |replacements|, references[i]);
      var queued := QueueSecretCleanup(c, references[i]);
      if queued.Err? {
        return Err(queued.error);
      }
      var next := StagedSecret(replacements[i].field, references[i], replacements[i].previous, queued.value);
      OneMoreRecord(c.database.journal, staged, next);
      staged := staged + [next];
    }
    SupplyBound(c.Current(), c.supply, c.drawn);
    return Ok(staged);
  }

  lemma SupplyBound(w: World, supply: seq<Uuid>, drawn: nat)
    requires Supplied(w, supply, drawn)
    ensures drawn <= |supply|
  {
  }

  /** `stage_secret_replacements`: journals new references and then stores and verifies a secret
      under each. If nothing fails, it succeeds exactly for valid replacements. However it ends, no
      profile changed. */
  method StageSecretReplacements(c: Connection, profileId: Uuid, replacements: seq<SecretReplacement>)
    returns (result: Result<seq<StagedSecret>, Failure>)
    requires c.Valid() && c.transaction.None? && Consistent(c.Current())
    requires IsCanonicalUuid(profileId) && c.Left() >= 2 * |replacements|
    modifies c`database, c`vault, c`transaction, c`drawn, c`history, c`trace, c`faults
    ensures c.Valid() && Consistent(c.Current()) && c.faults >= old(c.faults) && old(c.trace) <= c.trace
    ensures old(c.drawn) <= c.drawn <= old(c.drawn) + 2 * |replacements|
    ensures OnlyQueued(old(c.Current()), c.Current())
    ensures match result
            case Ok(staged) =>
              && ValidReplacements(profileId, replacements)
              && Answers(staged, profileId, replacements)
              && Issues(old(c.history), c.history, staged, replacements)
              && Ready(c.Current(), Cleanups(staged)) && DistinctRecords(Cleanups(staged))
              && c.transaction.None?
            case Err(failure) =>
              failure in {MutationError(Some(false)), SecretStoreError, DatabaseError}
    ensures c.faults == old(c.faults) ==> (result.Ok? <==> ValidReplacements(profileId, replacements))
  {
    hide IsCanonicalUuid, IsCanonical, Enabled, Apply, Supplied, Consistent, IsRun, Issues, ProfileReferences,
      ValidReplacements, OwnReplacements, WithRecords, IsLive, Minted, Answers, Ready, Stored, DistinctRecords;
    var invalid := ValidateReplacements(profileId, replacements);
    if invalid.Some? {
      return Err(invalid.value);
    }
    if replacements == [] {
      NothingStaged(c.Current(), profileId);
      return Ok([]);
    }
    ghost var from := c.drawn;
    var references := MintReferences(c, profileId, replacements);
    var begun := c.Begin();
    if !begun {
      var _ := c.Rollback();
      return Err(DatabaseError);
    }
    var queued := QueueStaged(c, profileId, references, replacements, from);
    if queued.Err? {
      var _ := c.Rollback();
      return Err(queued.error);
    }
    assert |queued.value| == |replacements| by { AnswersEach(queued.value, profileId, replacements); }
    ghost var action := Journal(Cleanups(queued.value), ValuesOf(queued.value, replacements));
    Staging(c.Current(), queued.value, profileId, replacements, c.supply, from, c.drawn);
    var acknowledged := c.Commit(action);
    if !acknowledged {
      var _ := c.Rollback();
      return Err(DatabaseError);
    }
    StagedFacts(old(c.history), c.history, queued.value, profileId, replacements);
    result := StoreStaged(c, queued.value, replacements);
  }

  lemma AnswersEach(staged: seq<StagedSecret>, profileId: Uuid, replacements: seq<SecretReplacement>)
    requires Answers(staged, profileId, replacements)
    ensures |staged| == |replacements|
  {
  }

  lemma StagedFacts(before: History, after: History, staged: seq<StagedSecret>, profileId: Uuid,
                    replacements: seq<SecretReplacement>)
    requires Answers(staged, profileId, replacements) && Issues(before, after, staged, replacements)
    ensures |staged| == |replacements|
    ensures forall i :: 0 <= i < |staged| ==>
              && staged[i].reference == staged[i].cleanup.reference
              && staged[i].reference in after.issued && after.issued[staged[i].reference] == replacements[i].value
  {
    hide IsCanonical;
  }
}
