/** Adding profiles, from the lock to the exit status (`profiles.py`). */
module ProfileCreation {
  import opened Wrappers
  import opened References
  import opened Documents
  import opened TwoStores
  import opened ProfileAuth
  import opened RegistryAuthPlans
  import opened ProfileEdits
  import opened NewProfiles
  import opened MutationOutcomes
  import opened Stores
  import opened Reconciliation
  import opened CredentialMutations
  import opened ProfileSwitches
  import opened CredentialCommits
  import opened EditedCredentials
  import opened EditMeaning
  import opened Profiles
  import opened ProfileChanges

  /** The row of a new profile: its document is the planned one, and its first generation resolves to
      exactly the supplied secrets. */
  ghost predicate Added(before: World, after: World, name: string, request: NewRequest, checks: Checks) {
    && name !in before.database.profiles
    && exists profileId, staged :: AddedWith(before, after, name, profileId, request, staged, checks)
  }

  ghost predicate AddedWith(before: World, after: World, name: string, profileId: Uuid, request: NewRequest,
                            staged: map<Field, Reference>, checks: Checks) {
    && profileId !in before.history.owners
    && PlanNew(profileId, request, checks).Ok?
    && var plan := PlanNew(profileId, request, checks).value;
    && var document := ApplyPlans(plan, staged, checks);
    && StagedFor(plan, profileId, staged) && document.Some?
    && after.database.profiles == before.database.profiles[name := Row(profileId, 1, document.value)]
    && (profileId, 1) in after.history.generations
    && var generation := after.history.generations[(profileId, 1)];
    && generation.document == document.value
    && Resolves(plan.Replacements(), map[], ProfileReferences(document.value), generation.secrets)
  }

  lemma NewGivesUp(profileId: Uuid, request: NewRequest, checks: Checks)
    requires PlanNew(profileId, request, checks).Ok?
    ensures var plan := PlanNew(profileId, request, checks).value;
            && GivesUp(map[], plan.Replacements(), plan.Retire())
            && plan.Retire() == []
  {
    hide IsCanonical, PlanAuthentication, PlanRegistryAuthentication, Splits, KafkaReferences, RegistryReferences,
      IsKafkaField, GivesUp, Retired;
    var plan := PlanNew(profileId, request, checks).value;
    var auth := if request.auth.None? then NoKafkaAuth else request.auth.value;
    NoReferences();
    KafkaPlanConserves(profileId, None, auth, checks);
    assert PlanConserves(map[], plan.kafka.value);
    SplitGivesUp(map[], plan.kafka.value.retained, plan.kafka.value.replacements, plan.kafka.value.retired);
    NothingBefore(plan.kafka.value.retained, plan.kafka.value.replacements, plan.kafka.value.retired);
    if plan.registry.Some? {
      RegistryPlanConserves(profileId, None, request.registryAuth.value, checks);
      assert RegistryPlanKeeps(map[], plan.registry.value, checks);
      SplitGivesUp(map[], plan.registry.value.retained, plan.registry.value.replacements, plan.registry.value.retired);
      NothingBefore(plan.registry.value.retained, plan.registry.value.replacements, plan.registry.value.retired);
    } else {
      NothingGivenUp(map[]);
    }
    var none: map<Field, Reference> := map[];
    assert Owned(none, profileId);
    JoinedGivesUp(none, none, profileId, plan.kafka.value.replacements, plan.kafka.value.retired,
                  if plan.registry.Some? then plan.registry.value.replacements else [],
                  if plan.registry.Some? then plan.registry.value.retired else []);
    assert none + none == none;
  }

  lemma {:induction false} NoPrevious(staged: seq<StagedSecret>)
    requires forall i :: 0 <= i < |staged| ==> staged[i].previous.None?
    ensures PreviousOf(staged) == []
  {
    if staged != [] {
      assert forall i :: 0 <= i < |staged[1..]| ==> staged[1..][i] == staged[i + 1];
      NoPrevious(staged[1..]);
    }
  }

  /** The staged references stand for the supplied values. */
  ghost predicate Stands(history: History, staged: seq<StagedSecret>, replacements: seq<SecretReplacement>) {
    && |staged| == |replacements|
    && forall i :: 0 <= i < |staged| ==>
         staged[i].reference in history.issued && history.issued[staged[i].reference] == replacements[i].value
  }

  /** What is staged for a new profile: each replaced field once, and nothing that was there before. */
  lemma {:induction false} NewStaged(profileId: Uuid, request: NewRequest, checks: Checks, staged: seq<StagedSecret>)
    requires PlanNew(profileId, request, checks).Ok? && IsCanonicalUuid(profileId)
    requires Answers(staged, profileId, PlanNew(profileId, request, checks).value.Replacements())
    ensures var plan := PlanNew(profileId, request, checks).value;
            && StagedFor(plan, profileId, StagedMap(staged)) && DistinctFields(plan.Replacements())
            && DistinctStagedFields(staged)
            && PreviousOf(staged) == [] && plan.Retire() == [] && Switchable(profileId, staged, [])
            && forall r :: r in StagedMap(staged).Values <==> Covers(Cleanups(staged), r)
  {
    hide IsCanonical, IsCanonicalUuid, PlanNew, StagedMap, PreviousOf, GivesUp, Switchable, Covers, Cleanups, Owned,
      ApplyPlans, WellOwned, ProfileReferences;
    var plan := PlanNew(profileId, request, checks).value;
    var replacements := plan.Replacements();
    NewGivesUp(profileId, request, checks);
    GivenUpFields(map[], replacements, plan.Retire());
    StagedAnswers(staged, profileId, replacements);
    NewConserves(profileId, request, checks, StagedMap(staged));
    NothingReplaced(staged, profileId, replacements);
    NoPrevious(staged);
    assert Owned(map[], profileId) by { NothingOwned(profileId); }
    GivenUpSwitchable(map[], profileId, staged, replacements, []);
    assert PreviousOf(staged) + [] == [];
  }

  lemma NothingOwned(profileId: Uuid)
    ensures Owned(map[], profileId)
  {
  }

  lemma NothingReplaced(staged: seq<StagedSecret>, profileId: Uuid, replacements: seq<SecretReplacement>)
    requires Answers(staged, profileId, replacements)
    requires forall i :: 0 <= i < |replacements| ==> replacements[i].previous.None?
    ensures forall i :: 0 <= i < |staged| ==> staged[i].previous.None?
  {
    hide IsCanonical;
  }

  /** The switch that inserts a new profile whose secrets are staged. */
  lemma {:induction false} NewSwitches(w: World, name: string, profileId: Uuid, request: NewRequest, checks: Checks,
                                       staged: seq<StagedSecret>)
    returns (secrets: map<Field, Secret>)
    requires Consistent(w) && IsCanonicalUuid(profileId) && profileId !in w.history.owners
    requires PlanNew(profileId, request, checks).Ok?
    requires var plan := PlanNew(profileId, request, checks).value;
             Answers(staged, profileId, plan.Replacements()) && Stands(w.history, staged, plan.Replacements())
    ensures var plan := PlanNew(profileId, request, checks).value;
            && StagedFor(plan, profileId, StagedMap(staged))
            && ApplyPlans(plan, StagedMap(staged), checks).Some?
            && PreviousOf(staged) == [] && plan.Retire() == [] && Switchable(profileId, staged, [])
            && var document := ApplyPlans(plan, StagedMap(staged), checks).value;
            && document.id == profileId
            && Conserves(w, InsertRow(name, document), Cleanups(staged), [], secrets)
            && Resolves(plan.Replacements(), map[], ProfileReferences(document), secrets)
  {
    hide IsCanonical, IsCanonicalUuid, ProfileReferences, PlanNew, ApplyPlans, WellOwned, Consistent, StagedMap,
      PreviousOf, Switchable, Conserves, Intended, Resolves, Answers, Covers, Cleanups, DistinctFields, StagedFor;
    var plan := PlanNew(profileId, request, checks).value;
    NewStaged(profileId, request, checks, staged);
    NewConserves(profileId, request, checks, StagedMap(staged));
    var document := ApplyPlans(plan, StagedMap(staged), checks).value;
    StagedHeld(staged);
    assert Owned(map[], document.id);
    ResolvesAsIntended(w, document, map[], map[], staged, plan.Replacements());
    secrets := IntendedSecrets(w.history.issued, ProfileReferences(document), map[], Cleanups(staged));
    InsertConserves(w, name, document, staged, secrets);
  }

  lemma InsertConserves(w: World, name: string, document: Document, staged: seq<StagedSecret>,
                        secrets: map<Field, Secret>)
    requires WellOwned(document) && document.id !in w.history.owners
    requires forall r :: r in ProfileReferences(document).Values <==> Covers(Cleanups(staged), r)
    requires Intended(w, ProfileReferences(document), map[], Cleanups(staged), secrets)
    ensures Conserves(w, InsertRow(name, document), Cleanups(staged), [], secrets)
  {
    hide ProfileReferences, WellOwned, Intended, Covers, Cleanups;
  }

  lemma SwitchAdds(before: World, staging: World, after: World, name: string, profileId: Uuid, request: NewRequest,
                   checks: Checks, staged: seq<StagedSecret>, secrets: map<Field, Secret>)
    requires OnlyQueued(before, staging) && name !in before.database.profiles
    requires profileId !in before.history.owners && PlanNew(profileId, request, checks).Ok?
    requires var plan := PlanNew(profileId, request, checks).value;
             && StagedFor(plan, profileId, StagedMap(staged))
             && ApplyPlans(plan, StagedMap(staged), checks).Some?
             && var document := ApplyPlans(plan, StagedMap(staged), checks).value;
             && document.id == profileId
             && Switched(staging, after, InsertRow(name, document), secrets)
             && Resolves(plan.Replacements(), map[], ProfileReferences(document), secrets)
    ensures Added(before, after, name, request, checks)
  {
    hide PlanNew, ApplyPlans, ProfileReferences, StagedFor, Resolves;
    assert AddedWith(before, after, name, profileId, request, StagedMap(staged), checks);
  }

  lemma Standing(before: History, after: History, staged: seq<StagedSecret>, replacements: seq<SecretReplacement>)
    requires Issues(before, after, staged, replacements)
    ensures Stands(after, staged, replacements)
  {
  }

  /** The first half of `add_profile`: a profile without secrets. */
  method AddPlainly(c: Connection, name: string, profileId: Uuid, request: NewRequest, checks: Checks,
                    tracker: MutationTracker)
    returns (failure: Option<Failure>)
    requires c.Valid() && Consistent(c.Current()) && c.transaction.None? && tracker.outcome == NotCommitted
    requires name !in c.database.profiles && PlanNew(profileId, request, checks).Ok?
    requires IsCanonicalUuid(profileId) && profileId !in c.history.owners
    requires DrawnBefore(c.supply, c.drawn, profileId)
    requires PlanNew(profileId, request, checks).value.Replacements() == []
    modifies c`database, c`transaction, c`history, c`trace, c`faults, c`blind, tracker
    ensures c.Valid() && Consistent(c.Current()) && c.faults >= old(c.faults) && c.blind >= old(c.blind)
    ensures old(c.trace) <= c.trace
    ensures Truthful(failure, tracker.outcome, Added(old(c.Current()), c.Current(), name, request, checks),
                     KeptRows(old(c.Current()), c.Current()), c.blind > old(c.blind))
    ensures c.faults == old(c.faults) && AcceptsAll(checks) ==> failure.None?
    ensures failure.None? ==> c.faults == old(c.faults)
  {
    hide ProfileReferences, IsRun, Consistent, Supplied, WellOwned, PlanNew, ApplyPlans, Added, Switched, Conserves,
      Truthful, Resolves, StagedFor, AcceptsAll, IsCanonicalUuid, Answers, Stands, Switchable;
    ghost var before := c.Current();
    var plan := PlanNew(profileId, request, checks).value;
    NothingStaged(before, profileId);
    Standing(before.history, before.history, [], []);
    ghost var secrets := NewSwitches(before, name, profileId, request, checks, []);
    assert StagedMap([]) == map[] && Cleanups([]) == [];
    var document := ApplyPlans(plan, map[], checks).value;
    var switch := InsertRow(name, document);
    NewRowFits(before, name, document);
    var invalid := Validate(document, checks);
    if invalid.Some? {
      Refused(invalid, tracker.outcome, before, checks, document);
      return invalid;
    }
    failure := CommitPlainly(c, switch, tracker, secrets);
    ghost var changed := Switched(before, c.Current(), switch, secrets);
    if changed {
      OnlyQueuedSame(before);
      SwitchAdds(before, before, c.Current(), name, profileId, request, checks, [], secrets);
    }
    TruthfulWeakens(failure, tracker.outcome, changed, Unswitched(before, c.Current()), c.blind > old(c.blind),
                    Added(before, c.Current(), name, request, checks), KeptRows(before, c.Current()));
  }

  /** No row has the new identity, since no profile ever had it. */
  lemma NewRowFits(w: World, name: string, document: Document)
    requires Consistent(w) && name !in w.database.profiles && document.id !in w.history.owners
    ensures Fits(w.database.profiles, InsertRow(name, document))
  {
    hide ProfileReferences;
    RowIds(w);
  }

  /** The second half of `add_profile`: a profile whose secrets are staged first. */
  method AddWithSecrets(c: Connection, name: string, profileId: Uuid, request: NewRequest, checks: Checks,
                        tracker: MutationTracker)
    returns (failure: Option<Failure>)
    requires c.Valid() && Consistent(c.Current()) && c.transaction.None? && tracker.outcome == NotCommitted
    requires name !in c.database.profiles && PlanNew(profileId, request, checks).Ok?
    requires IsCanonicalUuid(profileId) && profileId !in c.history.owners
    requires DrawnBefore(c.supply, c.drawn, profileId)
    requires c.Left() >= 3 * |PlanNew(profileId, request, checks).value.Replacements()|
    modifies c`database, c`vault, c`transaction, c`drawn, c`history, c`trace, c`faults, c`blind, tracker
    ensures c.Valid() && Consistent(c.Current()) && c.faults >= old(c.faults) && c.blind >= old(c.blind)
    ensures old(c.trace) <= c.trace
    ensures Truthful(failure, tracker.outcome, Added(old(c.Current()), c.Current(), name, request, checks),
                     KeptRows(old(c.Current()), c.Current()), c.blind > old(c.blind))
    ensures c.faults == old(c.faults) && AcceptsAll(checks) && PlainLabels(c.database.profiles) ==>
              if NoEmptyValue(PlanNew(profileId, request, checks).value.Replacements()) then failure.None?
              else
                && failure.Some? && failure.value in {MutationError(Some(false)), SecretStoreError, DatabaseError}
                && tracker.outcome == NotCommitted
  {
    hide ProfileReferences, IsRun, Consistent, Supplied, WellOwned, PlanNew, ApplyPlans, Added, Switched, Conserves,
      Truthful, Resolves, StagedFor, AcceptsAll, Answers, Issues, Ready, StagedMap, PreviousOf, Cleanups, OnlyQueued,
      Switchable, PlainLabels, ValidReplacements, NoEmptyValue, IsCanonicalUuid, DistinctRecords, Unswitched, KeptRows,
      Stands, Fits;
    ghost var before := c.Current();
    var plan := PlanNew(profileId, request, checks).value;
    NewStagingDecides(profileId, request, checks);
    var loading := c.Draw();
    if !loading.Works? {
      KeptRowsSame(before);
      FailureKeeps(SecretStoreError, tracker.outcome);
      return Some(SecretStoreError);
    }
    var result := StageSecretReplacements(c, profileId, plan.Replacements());
    ghost var staging := c.Current();
    KeptThroughStaging(before, staging, staging);
    if result.Err? {
      FailureKeeps(result.error, tracker.outcome);
      return Some(result.error);
    }
    var staged := result.value;
    AnswersEach(staged, profileId, plan.Replacements());
    Standing(before.history, staging.history, staged, plan.Replacements());
    OwnersKept(before, staging);
    ghost var secrets := NewSwitches(staging, name, profileId, request, checks, staged);
    var document := ApplyPlans(plan, StagedMap(staged), checks).value;
    var invalid := Validate(document, checks);
    if invalid.Some? {
      RefusedAfterStaging(invalid, tracker.outcome, checks, document);
      return invalid;
    }
    var switch := InsertRow(name, document);
    NewRowFits(staging, name, document);
    assert PreviousOf(staged) + [] == [];
    DrawnLater(c.supply, old(c.drawn), c.drawn, profileId);
    var committed := CommitSecretReplacements(c, profileId, staged, switch, [], ReadRowState(c.database, name),
                                              Some(RowState(name, SwitchedRow(switch))), secrets);
    if Switched(staging, c.Current(), switch, secrets) {
      SwitchAdds(before, staging, c.Current(), name, profileId, request, checks, staged, secrets);
    }
    KeptThroughStaging(before, staging, c.Current());
    failure := Conclude(c, committed, tracker, Added(before, c.Current(), name, request, checks),
                        KeptRows(before, c.Current()), c.blind > old(c.blind));
  }

  lemma OwnersKept(before: World, staging: World)
    requires OnlyQueued(before, staging)
    ensures staging.history.owners == before.history.owners
    ensures staging.database.profiles == before.database.profiles
  {
  }

  lemma DrawnLater(supply: seq<Uuid>, drawn: nat, later: nat, id: Uuid)
    requires DrawnBefore(supply, drawn, id) && drawn <= later
    ensures DrawnBefore(supply, later, id)
  {
  }

  lemma NewStagingDecides(profileId: Uuid, request: NewRequest, checks: Checks)
    requires PlanNew(profileId, request, checks).Ok?
    ensures var replacements := PlanNew(profileId, request, checks).value.Replacements();
            ValidReplacements(profileId, replacements) <==> NoEmptyValue(replacements)
  {
    hide PlanNew, GivesUp, ValidReplacements, NoEmptyValue, IsCanonical;
    NewGivesUp(profileId, request, checks);
    var plan := PlanNew(profileId, request, checks).value;
    GivenUpValid(map[], profileId, plan.Replacements(), plan.Retire());
  }

  /** What an addition leaves, told from the request: a row under a new identity whose document has exactly the
      requested values, and whose secrets are the supplied ones. Nothing else changed. */
  ghost predicate StoredAsRequested(before: World, after: World, name: string, request: NewRequest, checks: Checks) {
    && name !in before.database.profiles && name in after.database.profiles
    && var row := after.database.profiles[name];
    && after.database.profiles == before.database.profiles[name := row]
    && row.id !in before.history.owners && row.revision == 1 && row.document.id == row.id
    && NewAsRequested(request, checks, row.document)
    && (row.id, 1) in after.history.generations
    && var generation := after.history.generations[(row.id, 1)];
    && generation.document == row.document
    && SecretsAsRequested(request.auth, request.registryAuth, checks, map[], row.document, generation.secrets)
  }

  lemma AddedIsStored(before: World, after: World, name: string, request: NewRequest, checks: Checks)
    requires Added(before, after, name, request, checks)
    ensures StoredAsRequested(before, after, name, request, checks)
  {
    hide PlanNew, ApplyPlans, ProfileReferences, Resolves, NewAsRequested, SecretsAsRequested, StagedFor, SuppliesAll;
    var profileId, staged :| AddedWith(before, after, name, profileId, request, staged, checks);
    var plan := PlanNew(profileId, request, checks).value;
    NewCarriedOut(profileId, request, checks, staged);
    NewSupplies(profileId, request, checks);
    SecretsCarriedOut(request.auth, request.registryAuth, checks, plan.Replacements(), map[],
                      ApplyPlans(plan, staged, checks).value, after.history.generations[(profileId, 1)].secrets);
  }

  /** What the plan decides, told from the request. */
  lemma NewAcceptedExactly(profileId: Uuid, request: NewRequest, checks: Checks)
    ensures match PlanNew(profileId, request, checks)
            case Ok(plan) =>
              && NewAllowed(request, checks)
              && (SuppliesEmpty(request.auth, request.registryAuth, checks) <==> !NoEmptyValue(plan.Replacements()))
            case Err(error) => error == InvalidInput && !NewAllowed(request, checks)
  {
    hide PlanNew, NewAllowed, SuppliesEmpty, NoEmptyValue, SuppliesAll;
    NewAllowedExactly(profileId, request, checks);
    if PlanNew(profileId, request, checks).Ok? {
      NewSupplies(profileId, request, checks);
      EmptySupplies(request.auth, request.registryAuth, checks,
                    PlanNew(profileId, request, checks).value.Replacements());
    }
  }

  /** `add_profile`. The first drawn identity becomes the profile's. */
  method AddProfile(c: Connection, name: string, request: NewRequest, checks: Checks) returns (status: nat)
    requires c.Valid() && Consistent(c.Current()) && c.transaction.None? && c.Left() > 0
    requires PlanNew(c.supply[c.drawn], request, checks).Ok? ==>
               c.Left() > 3 * |PlanNew(c.supply[c.drawn], request, checks).value.Replacements()|
    modifies c`database, c`vault, c`transaction, c`drawn, c`history, c`trace, c`faults, c`blind
    ensures c.Valid() && Consistent(c.Current()) && c.transaction.None? && old(c.trace) <= c.trace
    ensures status <= 4
    ensures status in {0, 3} ==>
              && Added(old(c.Current()), c.Current(), name, request, checks)
              && StoredAsRequested(old(c.Current()), c.Current(), name, request, checks) && !NameRefused(name)
    ensures status in {1, 2} ==> KeptRows(old(c.Current()), c.Current())
    ensures status == 4 ==>
              && c.blind > old(c.blind)
              && (|| (Added(old(c.Current()), c.Current(), name, request, checks) &&
                      StoredAsRequested(old(c.Current()), c.Current(), name, request, checks))
                  || KeptRows(old(c.Current()), c.Current()))
    ensures c.faults == old(c.faults) && AcceptsAll(checks) && PlainLabels(c.database.profiles) ==>
              status ==
              if NameRefused(name) || !NewAllowed(request, checks) then 2
              else if name in old(c.database).profiles then 1
              else if SuppliesEmpty(request.auth, request.registryAuth, checks) then 1
              else 0
  {
    hide ProfileReferences, IsRun, Consistent, Supplied, PlanNew, Added, Truthful, AcceptsAll, PlainLabels, KeptRows,
      NoEmptyValue, ValidName, NameRefused, IsCanonicalUuid, NewAllowed, SuppliesEmpty, StoredAsRequested;
    ghost var before := c.Current();
    NameRefusedExactly(name);
    KeptRowsSame(c.Current());
    if !ValidName(name) {
      return 2;
    }
    var profileId := c.NewUuid();
    assert DrawnBefore(c.supply, c.drawn, profileId);
    var planned := PlanNew(profileId, request, checks);
    NewAcceptedExactly(profileId, request, checks);
    if planned.Err? {
      return PlanStatus(planned.error);
    }
    var tracker := new MutationTracker();
    var failure := Open(c);
    if failure.Some? {
      RefusedUnchanged(failure, tracker.outcome);
    } else if name in c.database.profiles {
      failure := Some(StoreError(1));
      RefusedUnchanged(failure, tracker.outcome);
    } else if planned.value.Replacements() == [] {
      failure := AddPlainly(c, name, profileId, request, checks, tracker);
      assert NoEmptyValue([]) by { NothingEmpty(); }
    } else {
      failure := AddWithSecrets(c, name, profileId, request, checks, tracker);
    }
    ghost var changed := Added(before, c.Current(), name, request, checks);
    if changed {
      AddedIsStored(before, c.Current(), name, request, checks);
    }
    status := Finish(c, failure, tracker, changed, KeptRows(before, c.Current()), c.blind > old(c.blind));
  }

  lemma NothingEmpty()
    ensures NoEmptyValue([])
  {
  }
}
