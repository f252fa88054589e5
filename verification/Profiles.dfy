/** Adding, editing and removing profiles, from the lock to the exit status (`profiles.py`).

    Every method leaves the stores consistent whatever fails and returns the status the command exits
    with: 0 and 3 say that the profile changed, 1 and 2 that it did not, 4 that nobody could look. */
module Profiles {
  import opened Wrappers
  import opened References
  import opened Documents
  import opened TwoStores
  import opened ProfileAuth
  import opened MutationOutcomes
  import opened Stores
  import opened Reconciliation
  import opened CredentialMutations
  import opened ProfileSwitches
  import opened CredentialCommits

  class MutationTracker {
    var outcome: Outcome

    constructor ()
      ensures outcome == NotCommitted
    {
      outcome := NotCommitted;
    }

    /** `mark_committed`. */
    method MarkCommitted()
      modifies this
      ensures outcome == Committed
    {
      outcome := Committed;
    }
  }

  predicate IsNameStart(c: char) {
    'a' <= c <= 'z' || 'A' <= c <= 'Z' || '0' <= c <= '9'
  }

  /** `validate_profile_name`. */
  predicate ValidName(name: string) {
    && 1 <= |name| <= 128 && IsNameStart(name[0])
    && forall i :: 1 <= i < |name| ==> IsNameStart(name[i]) || name[i] in {'.', '_', '-'}
  }

  /** Names are refused for their length, for a character other than an ASCII letter, a digit, a dot, an underscore or
      a hyphen, and for beginning with one of these three. */
  ghost predicate NameRefused(name: string) {
    || name == "" || |name| > 128 || name[0] == '.' || name[0] == '_' || name[0] == '-'
    || exists c :: c in name && (c < 'a' || c > 'z') && (c < 'A' || c > 'Z') && (c < '0' || c > '9') &&
                   c != '.' && c != '_' && c != '-'
  }

  lemma NameRefusedExactly(name: string)
    ensures NameRefused(name) <==> !ValidName(name)
  {
    if ValidName(name) {
      assert forall i :: 0 <= i < |name| ==> IsNameStart(name[i]) || name[i] in {'.', '_', '-'};
    } else if name != "" && |name| <= 128 {
      assert name[0] in name;
      if IsNameStart(name[0]) {
        var i :| 1 <= i < |name| && !(IsNameStart(name[i]) || name[i] in {'.', '_', '-'});
        assert name[i] in name;
      }
    }
  }

  // Changes that need no secret

  /** `commit_with_evidence`: a row change without credentials, whose lost acknowledgement is decided
      by inspection and left in the tracker. */
  method CommitWithEvidence(c: Connection, ghost action: Action, evidence: Evidence, tracker: MutationTracker)
    returns (failure: Option<Failure>)
    requires c.Valid() && Consistent(c.Current()) && c.transaction.Some?
    requires Switches(action) && Enabled(action, c.Current()) && evidence == EvidenceOf(action, c.Current())
    requires Apply(action, c.Current()).database == c.transaction.value && Apply(action, c.Current()).vault == c.vault
    requires Supplied(Apply(action, c.Current()), c.supply, c.drawn)
    modifies c`database, c`transaction, c`history, c`trace, c`faults, c`blind, tracker
    ensures c.Valid() && Consistent(c.Current()) && c.faults >= old(c.faults) && c.blind >= old(c.blind)
    ensures old(c.trace) <= c.trace
    ensures failure.None? <==> c.faults == old(c.faults)
    ensures failure.None? ==> tracker.outcome == Committed
    ensures tracker.outcome == Committed ==>
              c.Took(action, old(c.Current()), old(c.trace)) && c.transaction.None?
    ensures tracker.outcome == NotCommitted ==> c.Current() == old(c.Current())
    ensures tracker.outcome == Unknown ==>
              c.blind > old(c.blind) &&
              (c.Took(action, old(c.Current()), old(c.trace)) || c.Current() == old(c.Current()))
    ensures failure.Some? ==> failure.value == StoreError(match tracker.outcome
                                                          case Committed => 3
                                                          case NotCommitted => 1
                                                          case Unknown => 4)
  {
    hide Consistent, Supplied, IsRun, Enabled, Apply, Verdict, EvidenceOf, Switches;
    ghost var before := c.Current();
    LostAcknowledgement(before, action);
    var acknowledged := c.Commit(action);
    if acknowledged {
      tracker.MarkCommitted();
      return None;
    }
    var _ := c.Rollback();
    var reading := c.Inspect();
    var outcome := InspectMutationOutcome(reading, evidence);
    tracker.outcome := outcome;
    match outcome {
      case Committed => return Some(StoreError(3));
      case NotCommitted => return Some(StoreError(1));
      case Unknown => return Some(StoreError(4));
    }
  }

  /** What a body run under the lock leaves to the handlers of its operation. */
  ghost predicate Truthful(failure: Option<Failure>, outcome: Outcome, changed: bool, kept: bool, blinded: bool) {
    match outcome
    case Committed =>
      && changed
      && (failure.Some? ==> failure.value in {StoreError(1), StoreError(3), DatabaseError})
    case Unknown =>
      && blinded && (changed || kept)
      && failure.Some? && failure.value in {StoreError(4), DatabaseError}
    case NotCommitted =>
      match failure
      case None => false
      case Some(MutationError(Some(true))) => changed
      case Some(MutationError(None)) => blinded && (changed || kept)
      case Some(StoreError(status)) => status in {1, 2} && kept
      case Some(ReconciliationError) => false
      case Some(_) => kept
  }

  /** The handlers turn such an outcome into a status that says what happened to the row. */
  lemma HandledTruthfully(failure: Option<Failure>, outcome: Outcome, changed: bool, kept: bool, blinded: bool)
    requires Truthful(failure, outcome, changed, kept, blinded) && failure.Some?
    ensures HandlerStatus(failure.value, outcome).Some?
    ensures var status := HandlerStatus(failure.value, outcome).value;
            && status in {1, 2, 3, 4}
            && (status == 3 ==> changed) && (status in {1, 2} ==> kept)
            && (status == 4 ==> blinded && (changed || kept))
  {
  }

  /** Ends the operation: the connection is closed, which drops an open transaction, and the status
      chosen. A failure to close matters only after a completed body. */
  method Finish(c: Connection, failure: Option<Failure>, tracker: MutationTracker, ghost changed: bool,
                ghost kept: bool, ghost blinded: bool)
    returns (status: nat)
    requires Truthful(failure, tracker.outcome, changed, kept, blinded)
    modifies c`transaction, c`faults
    ensures c.transaction.None? && c.faults >= old(c.faults)
    ensures status <= 4
    ensures status in {0, 3} ==> changed
    ensures status in {1, 2} ==> kept
    ensures status == 4 ==> blinded && (changed || kept)
    ensures status == 0 <==> failure.None? && c.faults == old(c.faults)
    ensures failure.Some? && failure.value.StoreError? && tracker.outcome == NotCommitted ==>
              status == failure.value.status
    ensures (&& failure.Some? && failure.value in {MutationError(Some(false)), SecretStoreError, DatabaseError}
             && tracker.outcome == NotCommitted) ==> status == 1
  {
    var closing := c.Draw();
    c.transaction := None;
    var ending := if failure.None? && !closing.Works? then Some(StoreError(3)) else failure;
    if ending.None? {
      return 0;
    }
    HandledTruthfully(ending, tracker.outcome, changed, kept, blinded);
    status := HandlerStatus(ending.value, tracker.outcome).value;
  }

  /** `writable_connection` up to its `yield`, and `load_profile_rows`: opening, securing and reading the
      database can fail, with nothing changed. */
  method Open(c: Connection) returns (failure: Option<Failure>)
    modifies c`faults
    ensures c.faults >= old(c.faults)
    ensures failure.None? <==> c.faults == old(c.faults)
    ensures failure.Some? ==> failure.value in {StoreError(1), DatabaseError}
  {
    var opening := c.Draw();
    if opening.Works? {
      return None;
    }
    var refused: bool := *;
    return Some(if refused then StoreError(1) else DatabaseError);
  }

  // Removal

  /** `profile_secret_references`: the references a profile holds, if it owns them all. */
  function SecretReferences(document: Document): Result<seq<Reference>, AuthError> {
    var references :- OwnedReferences(ProfileReferences(document), document.id);
    Ok(Retired(FIELD_ORDER, references, map[], []))
  }

  /** Listing a profile's references misses none and repeats none. */
  lemma ListedReferences(current: map<Field, Reference>, profileId: Uuid)
    requires Owned(current, profileId)
    ensures var references := Retired(FIELD_ORDER, current, map[], []);
            && Retirable(profileId, references) && |references| <= |FIELD_ORDER|
            && forall r :: r in references <==> r in current.Values
  {
    hide IsCanonical, Retired;
    RetiredOnce(FIELD_ORDER, current, map[], []);
    RetiredCount(FIELD_ORDER, current, map[], []);
    var references := Retired(FIELD_ORDER, current, map[], []);
    forall field | field in current ensures current[field] in references {
      EveryFieldListed(field);
      var empty: map<Field, Reference> := map[];
      assert current[field] !in empty.Values && !Superseded([], current[field]);
    }
    assert forall i :: 0 <= i < |references| ==> references[i] in references;
  }

  lemma SecretReferencesExact(document: Document)
    requires WellOwned(document)
    ensures SecretReferences(document).Ok?
    ensures var references := SecretReferences(document).value;
            && Retirable(document.id, references) && |references| <= |FIELD_ORDER|
            && forall r :: r in references <==> r in ProfileReferences(document).Values
  {
    hide IsCanonical, IsCanonicalUuid, ProfileReferences, Retired, Owned, Retirable, FIELD_ORDER;
    ListedReferences(ProfileReferences(document), document.id);
  }

  lemma {:induction false} RetiredCount(fields: seq<Field>, current: map<Field, Reference>,
                                        retained: map<Field, Reference>, replacements: seq<SecretReplacement>)
    ensures |Retired(fields, current, retained, replacements)| <= |fields|
  {
    if fields != [] {
      RetiredCount(fields[1..], current, retained, replacements);
    }
  }

  /** The generation a caller saw is still the stored one (`_validate_expected_generation`). */
  predicate Expected(row: Row, profileId: Option<Uuid>, revision: Option<nat>) {
    (profileId.Some? ==> row.id == profileId.value) && (revision.Some? ==> row.revision == revision.value)
  }

  /** The body of `remove_profile`, under the lock. */
  method RemoveUnderLock(c: Connection, name: string, expectedId: Option<Uuid>, expectedRevision: Option<nat>,
                         tracker: MutationTracker)
    returns (failure: Option<Failure>)
    requires c.Valid() && Consistent(c.Current()) && c.transaction.None? && c.Left() >= |FIELD_ORDER|
    requires tracker.outcome == NotCommitted
    modifies c`database, c`vault, c`transaction, c`drawn, c`history, c`trace, c`faults, c`blind, tracker
    ensures c.Valid() && Consistent(c.Current()) && c.faults >= old(c.faults) && c.blind >= old(c.blind)
    ensures old(c.trace) <= c.trace
    ensures Truthful(failure, tracker.outcome,
                     && name in old(c.database).profiles && Removed(old(c.Current()), c.Current(), name)
                     && (expectedId.Some? ==> old(c.database).profiles[name].id == expectedId.value)
                     && (expectedRevision.Some? ==> old(c.database).profiles[name].revision == expectedRevision.value),
                     Unswitched(old(c.Current()), c.Current()), c.blind > old(c.blind))
    ensures failure.None? ==>
              && name in old(c.database).profiles
              && forall r :: r in ProfileReferences(old(c.database).profiles[name].document).Values ==> r !in c.vault
    ensures c.faults == old(c.faults) && PlainLabels(c.database.profiles) ==>
              if && name in old(c.database).profiles
                 && (expectedId.Some? ==> old(c.database).profiles[name].id == expectedId.value)
                 && (expectedRevision.Some? ==> old(c.database).profiles[name].revision == expectedRevision.value)
              then failure.None?
              else failure == Some(StoreError(1)) && tracker.outcome == NotCommitted
  {
    hide ProfileReferences, IsRun, Consistent, Supplied, IsCanonical, IsCanonicalUuid, WithRecords, IsJournaled, IsLive,
      Enabled, Apply, WellOwned, SecretReferences, PlainLabels, EvidenceOf, Retirable;
    var unread := Open(c);
    if unread.Some? {
      return unread;
    }
    if name !in c.database.profiles {
      return Some(StoreError(1));
    }
    var row := c.database.profiles[name];
    var before := ReadRowState(c.database, name);
    if !Expected(row, expectedId, expectedRevision) {
      return Some(StoreError(1));
    }
    RowDocument(c.Current(), name);
    SecretReferencesExact(row.document);
    var references := SecretReferences(row.document).value;
    if references != [] {
      var loading := c.Draw();
      if !loading.Works? {
        return Some(SecretStoreError);
      }
      var result := CommitProfileRemoval(c, name, row.id, row.revision, references, before);
      if result.Err? {
        return Some(result.error);
      }
      tracker.MarkCommitted();
      var reloading := Open(c);
      if reloading.Some? {
        return reloading;
      }
      if result.value.failed > 0 {
        return Some(StoreError(3));
      }
      return None;
    }
    failure := RemovePlainly(c, name, row, tracker);
  }

  lemma RowDocument(w: World, name: string)
    requires Consistent(w) && name in w.database.profiles
    ensures var row := w.database.profiles[name];
            row.document.id == row.id && WellOwned(row.document) && row.id in w.history.owners
  {
    hide ProfileReferences;
    RowOwned(w, name);
  }

  /** The removal of a profile without credentials. */
  method RemovePlainly(c: Connection, name: string, row: Row, tracker: MutationTracker)
    returns (failure: Option<Failure>)
    requires c.Valid() && Consistent(c.Current()) && c.transaction.None?
    requires name in c.database.profiles && c.database.profiles[name] == row
    requires forall r :: r !in ProfileReferences(row.document).Values
    requires tracker.outcome == NotCommitted
    modifies c`database, c`transaction, c`history, c`trace, c`faults, c`blind, tracker
    ensures c.Valid() && Consistent(c.Current()) && c.faults >= old(c.faults) && c.blind >= old(c.blind)
    ensures old(c.trace) <= c.trace
    ensures Truthful(failure, tracker.outcome, Removed(old(c.Current()), c.Current(), name),
                     Unswitched(old(c.Current()), c.Current()), c.blind > old(c.blind))
    ensures failure.None? <==> c.faults == old(c.faults)
  {
    hide ProfileReferences, IsRun, Consistent, Supplied, IsCanonical, IsCanonicalUuid, WithRecords, IsJournaled, IsLive,
      Enabled, Apply, WellOwned, EvidenceOf;
    var begun := c.Begin();
    if !begun {
      return Some(DatabaseError);
    }
    var unmatched := DeleteRow(c, name, row.id, row.revision);
    if unmatched.Some? {
      var undone := c.Rollback();
      return if undone then unmatched else Some(DatabaseError);
    }
    RemovingNothing(c.Current(), name, c.supply, c.drawn);
    RemovalEvidence(c.Current(), name, []);
    var evidence := Evidence(ReadRowState(c.database, name), None, [], []);
    failure := CommitWithEvidence(c, Remove(name, []), evidence, tracker);
    if failure.Some? {
      var undone := c.Rollback();
      return if undone then failure else Some(DatabaseError);
    }
    failure := Open(c);
  }

  lemma RemovingNothing(w: World, name: string, supply: seq<Uuid>, drawn: nat)
    requires Consistent(w) && name in w.database.profiles && Supplied(w, supply, drawn)
    requires forall r :: r !in ProfileReferences(w.database.profiles[name].document).Values
    ensures Enabled(Remove(name, []), w) && Switches(Remove(name, []))
    ensures var after := Apply(Remove(name, []), w);
            && after.database == w.database.(profiles := w.database.profiles - {name})
            && after.vault == w.vault && after.history == w.history && Supplied(after, supply, drawn)
  {
    hide ProfileReferences, IsCanonicalUuid, Supplied, Consistent;
    NoneRetired(supply, drawn);
    SupplyBound(w, supply, drawn);
    RemovingIsAnAction(w, name, [], [], supply, drawn, drawn);
    EmptyRecords(w.database.journal);
  }

  lemma NoneRetired(supply: seq<Uuid>, from: nat)
    ensures from <= |supply| ==> Retires([], [], supply, from)
  {
  }

  /** `remove_profile`. */
  method RemoveProfile(c: Connection, name: string, expectedId: Option<Uuid>, expectedRevision: Option<nat>)
    returns (status: nat)
    requires c.Valid() && Consistent(c.Current()) && c.transaction.None? && c.Left() >= |FIELD_ORDER|
    modifies c`database, c`vault, c`transaction, c`drawn, c`history, c`trace, c`faults, c`blind
    ensures c.Valid() && Consistent(c.Current()) && c.transaction.None? && old(c.trace) <= c.trace
    ensures status <= 4
    ensures status in {0, 3} ==>
              && !NameRefused(name) && name in old(c.database).profiles && Removed(old(c.Current()), c.Current(), name)
              && (expectedId.Some? ==> old(c.database).profiles[name].id == expectedId.value)
              && (expectedRevision.Some? ==> old(c.database).profiles[name].revision == expectedRevision.value)
    ensures status in {1, 2} ==> c.database.profiles == old(c.database).profiles
    ensures status == 4 ==>
              && c.blind > old(c.blind)
              && (Removed(old(c.Current()), c.Current(), name) || Unswitched(old(c.Current()), c.Current()))
    ensures status == 0 ==>
              forall r :: r in ProfileReferences(old(c.database).profiles[name].document).Values ==> r !in c.vault
    ensures c.faults == old(c.faults) && PlainLabels(c.database.profiles) ==>
              status ==
              if NameRefused(name) then 2
              else if || name !in old(c.database).profiles
                      || (expectedId.Some? && expectedId.value != old(c.database).profiles[name].id)
                      || (expectedRevision.Some? && expectedRevision.value != old(c.database).profiles[name].revision)
              then 1
              else 0
  {
    hide ProfileReferences, IsRun, Consistent, Supplied, Truthful, PlainLabels, ValidName, NameRefused;
    NameRefusedExactly(name);
    if !ValidName(name) {
      return 2;
    }
    var tracker := new MutationTracker();
    var failure := Open(c);
    if failure.None? {
      failure := RemoveUnderLock(c, name, expectedId, expectedRevision, tracker);
    } else {
      NothingHappened(failure, tracker.outcome, c.Current());
    }
    status := Finish(c, failure, tracker,
                     && name in old(c.database).profiles && Removed(old(c.Current()), c.Current(), name)
                     && (expectedId.Some? ==> old(c.database).profiles[name].id == expectedId.value)
                     && (expectedRevision.Some? ==> old(c.database).profiles[name].revision == expectedRevision.value),
                     Unswitched(old(c.Current()), c.Current()), c.blind > old(c.blind));
  }

  lemma NothingHappened(failure: Option<Failure>, outcome: Outcome, w: World)
    requires outcome == NotCommitted && failure.Some? && failure.value in {StoreError(1), DatabaseError}
    ensures forall changed, blinded :: Truthful(failure, outcome, changed, Unswitched(w, w), blinded)
  {
  }
}
