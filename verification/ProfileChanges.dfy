/** Editing and adding profiles, from the lock to the exit status (`profiles.py`). */
module ProfileChanges {
  import opened Wrappers
  import opened References
  import opened Documents
  import opened TwoStores
  import opened ProfileAuth
  import opened RegistryAuthPlans
  import opened ProfileEdits
  import opened NewProfiles
  import opened MutationOutcomes
  import opened Stores
  import opened Reconciliation
  import opened CredentialMutations
  import opened ProfileSwitches
  import opened CredentialCommits
  import opened EditedCredentials
  import opened EditMeaning
  import opened Profiles

  // Editing

  /** The row of `name` moved to its next revision: its document is the planned one, and its generation
      resolves to the supplied secrets for the replaced fields and to the old ones for the others. */
  ghost predicate Edited(before: World, after: World, name: string, request: EditRequest, checks: Checks) {
    && name in before.database.profiles
    && RowRecorded(before.history, before.database.profiles[name])
    && PlanEdit(before.database.profiles[name].document, request, checks).Ok?
    && exists staged ::
         EditedWith(before, after, name, PlanEdit(before.database.profiles[name].document, request, checks).value,
                    staged, checks)
  }

  ghost predicate EditedWith(before: World, after: World, name: string, plan: EditPlan, staged: map<Field, Reference>,
                             checks: Checks)
    requires name in before.database.profiles && RowRecorded(before.history, before.database.profiles[name])
  {
    var row := before.database.profiles[name];
    var document := ApplyPlans(plan, staged, checks);
    && StagedFor(plan, row.id, staged) && document.Some?
    && after.database.profiles == before.database.profiles[name := Row(row.id, row.revision + 1, document.value)]
    && (row.id, row.revision + 1) in after.history.generations
    && var generation := after.history.generations[(row.id, row.revision + 1)];
    && generation.document == document.value
    && Resolves(plan.Replacements(), SecretsOf(before.history, row), ProfileReferences(document.value),
                generation.secrets)
  }

  ghost predicate KeptRows(before: World, after: World) {
    after.database.profiles == before.database.profiles && after.history.generations == before.history.generations
  }

  function PlanStatus(error: AuthError): nat {
    match error case InvalidInput => 2 case InvalidStored => 1
  }

  /** `validate_profile` and `validate_stored_registry`, which blame the input or the program. */
  method Validate(document: Document, checks: Checks) returns (failure: Option<Failure>)
    ensures failure.None? <==> checks.storable(document)
    ensures failure.Some? ==> failure.value in {StoreError(1), StoreError(2)}
  {
    if checks.storable(document) {
      return None;
    }
    var input: bool := *;
    return Some(StoreError(if input then 2 else 1));
  }

  ghost predicate AcceptsAll(checks: Checks) {
    forall document: Document :: checks.storable(document)
  }

  lemma SwitchEdits(before: World, staging: World, after: World, name: string, request: EditRequest, checks: Checks,
                    staged: seq<StagedSecret>, secrets: map<Field, Secret>)
    requires Consistent(before) && OnlyQueued(before, staging)
    requires name in before.database.profiles && RowRecorded(before.history, before.database.profiles[name])
    requires var row := before.database.profiles[name];
             && PlanEdit(row.document, request, checks).Ok?
             && var plan := PlanEdit(row.document, request, checks).value;
             && StagedFor(plan, row.id, StagedMap(staged))
             && ApplyPlans(plan, StagedMap(staged), checks).Some?
             && var document := ApplyPlans(plan, StagedMap(staged), checks).value;
             && Switched(staging, after, UpdateRow(name, row.id, row.revision, document), secrets)
             && Resolves(plan.Replacements(), SecretsOf(before.history, row), ProfileReferences(document), secrets)
    ensures Edited(before, after, name, request, checks)
  {
    hide Consistent, PlanEdit, ApplyPlans, ProfileReferences, RowRecorded, StagedFor, Resolves;
    var row := before.database.profiles[name];
    var plan := PlanEdit(row.document, request, checks).value;
    assert EditedWith(before, after, name, plan, StagedMap(staged), checks);
  }

  /** Staging leaves the row and its generation as they were. */
  lemma {:induction false} StagingKeepsRow(before: World, staging: World, name: string, staged: seq<StagedSecret>,
                                           replacements: seq<SecretReplacement>)
    requires Consistent(before) && OnlyQueued(before, staging) && name in before.database.profiles
    requires Issues(before.history, staging.history, staged, replacements)
    ensures var row := before.database.profiles[name];
            && RowRecorded(before.history, row) && RowRecorded(staging.history, row)
            && SecretsOf(staging.history, row) == SecretsOf(before.history, row)
            && NewFor(staging.history, row, staged, replacements)
  {
    hide ProfileReferences, IsCanonical, IsLive, IsJournaled;
    var row := before.database.profiles[name];
    assert RowRecorded(before.history, row);
    forall r | r in ProfileReferences(row.document).Values ensures r in before.history.issued {
      OwnerOf(row.document, r);
    }
  }

  /** Commits a row change that needs no new secret and retires none, with evidence. */
  method CommitPlainly(c: Connection, switch: Switch, tracker: MutationTracker, ghost secrets: map<Field, Secret>)
    returns (failure: Option<Failure>)
    requires c.Valid() && Consistent(c.Current()) && c.transaction.None? && tracker.outcome == NotCommitted
    requires Conserves(c.Current(), switch, [], [], secrets)
    requires switch.InsertRow? ==> DrawnBefore(c.supply, c.drawn, switch.document.id)
    modifies c`database, c`transaction, c`history, c`trace, c`faults, c`blind, tracker
    ensures c.Valid() && Consistent(c.Current()) && c.faults >= old(c.faults) && c.blind >= old(c.blind)
    ensures old(c.trace) <= c.trace
    ensures Truthful(failure, tracker.outcome, Switched(old(c.Current()), c.Current(), switch, secrets),
                     Unswitched(old(c.Current()), c.Current()), c.blind > old(c.blind))
    ensures failure.None? <==> c.faults == old(c.faults) && Fits(old(c.database).profiles, switch)
  {
    hide IsRun, Consistent, Supplied, Switched, Conserves;
    var begun := c.Begin();
    if !begun {
      return Some(DatabaseError);
    }
    failure := CommitBegun(c, switch, tracker, secrets);
  }

  /** The same, in the transaction that was just begun. */
  method CommitBegun(c: Connection, switch: Switch, tracker: MutationTracker, ghost secrets: map<Field, Secret>)
    returns (failure: Option<Failure>)
    requires c.Valid() && Consistent(c.Current()) && c.transaction == Some(c.database)
    requires tracker.outcome == NotCommitted && Conserves(c.Current(), switch, [], [], secrets)
    requires switch.InsertRow? ==> DrawnBefore(c.supply, c.drawn, switch.document.id)
    modifies c`database, c`transaction, c`history, c`trace, c`faults, c`blind, tracker
    ensures c.Valid() && Consistent(c.Current()) && c.faults >= old(c.faults) && c.blind >= old(c.blind)
    ensures old(c.trace) <= c.trace
    ensures Truthful(failure, tracker.outcome, Switched(old(c.Current()), c.Current(), switch, secrets),
                     Unswitched(old(c.Current()), c.Current()), c.blind > old(c.blind))
    ensures failure.None? <==> c.faults == old(c.faults) && Fits(old(c.database).profiles, switch)
  {
    hide IsRun, Consistent, Supplied, Enabled, Apply, EvidenceOf, Switched, Conserves, Switches;
    ghost var before := c.Current();
    var unswitched := PerformSwitch(c, switch);
    if unswitched.Some? {
      var undone := c.Rollback();
      return if undone then unswitched else Some(DatabaseError);
    }
    PlainSwitch(before, switch, secrets, c.supply, c.drawn);
    MatchingEvidence(before, switch, [], [], secrets);
    var evidence :=
      Evidence(ReadRowState(c.database, switch.name), Some(RowState(switch.name, SwitchedRow(switch))), [], []);
    failure := CommitWithEvidence(c, ActionOf(switch, [], [], secrets), evidence, tracker);
    if failure.Some? {
      var undone := c.Rollback();
      return if undone then failure else Some(DatabaseError);
    }
    failure := Open(c);
  }

  lemma TruthfulWeakens(failure: Option<Failure>, outcome: Outcome, changed: bool, kept: bool, blinded: bool,
                        alsoChanged: bool, alsoKept: bool)
    requires Truthful(failure, outcome, changed, kept, blinded)
    requires (changed ==> alsoChanged) && (kept ==> alsoKept)
    ensures Truthful(failure, outcome, alsoChanged, alsoKept, blinded)
  {
  }

  /** The switch of an edit that stages nothing. */
  lemma {:induction false} PlainEditSwitches(w: World, name: string, request: EditRequest, checks: Checks)
    returns (secrets: map<Field, Secret>)
    requires Consistent(w) && name in w.database.profiles
    requires var row := w.database.profiles[name];
             && PlanEdit(row.document, request, checks).Ok?
             && var plan := PlanEdit(row.document, request, checks).value;
             && KeepsRegistrySection(plan) && plan.Replacements() == [] && plan.Retire() == []
    ensures var row := w.database.profiles[name];
            var plan := PlanEdit(row.document, request, checks).value;
            && RowRecorded(w.history, row)
            && StagedFor(plan, row.id, map[]) && ApplyPlans(plan, map[], checks).Some?
            && var document := ApplyPlans(plan, map[], checks).value;
            && Conserves(w, UpdateRow(name, row.id, row.revision, document), [], [], secrets)
            && Resolves([], SecretsOf(w.history, row), ProfileReferences(document), secrets)
  {
    hide ProfileReferences, Consistent, WellOwned, PlanEdit, ApplyPlans, KeepsRegistrySection, Conserves, RowRecorded,
      NewFor, Switchable, OnlyQueued, Issues, Resolves, StagedFor;
    var row := w.database.profiles[name];
    var plan := PlanEdit(row.document, request, checks).value;
    RowDocument(w, name);
    OnlyQueuedSame(w);
    NothingStaged(w, row.id);
    StagingKeepsRow(w, w, name, [], []);
    EditSwitches(w, name, request, checks, []);
    assert StagedMap([]) == map[] && Cleanups([]) == [] && PreviousOf([]) + plan.Retire() == [];
    var document := ApplyPlans(plan, map[], checks).value;
    secrets :| Conserves(w, UpdateRow(name, row.id, row.revision, document), [], [], secrets) &&
               Resolves([], SecretsOf(w.history, row), ProfileReferences(document), secrets);
  }

  /** An edit that needs no new secret and retires none (`_commit_plain_edit`, and the first half of
      `_commit_authenticated_edit`). */
  method EditPlainly(c: Connection, name: string, row: Row, request: EditRequest, checks: Checks,
                     tracker: MutationTracker)
    returns (failure: Option<Failure>)
    requires c.Valid() && Consistent(c.Current()) && c.transaction.None? && tracker.outcome == NotCommitted
    requires name in c.database.profiles && c.database.profiles[name] == row
    requires PlanEdit(row.document, request, checks).Ok?
    requires var plan := PlanEdit(row.document, request, checks).value;
             KeepsRegistrySection(plan) && plan.Replacements() == [] && plan.Retire() == []
    modifies c`database, c`transaction, c`history, c`trace, c`faults, c`blind, tracker
    ensures c.Valid() && Consistent(c.Current()) && c.faults >= old(c.faults) && c.blind >= old(c.blind)
    ensures old(c.trace) <= c.trace
    ensures Truthful(failure, tracker.outcome, Edited(old(c.Current()), c.Current(), name, request, checks),
                     KeptRows(old(c.Current()), c.Current()), c.blind > old(c.blind))
    ensures c.faults == old(c.faults) && AcceptsAll(checks) ==> failure.None?
    ensures failure.None? ==> c.faults == old(c.faults)
  {
    hide ProfileReferences, IsRun, Consistent, Supplied, WellOwned, PlanEdit, ApplyPlans, Edited, KeepsRegistrySection,
      Switched, Conserves, RowRecorded, Truthful, Resolves, StagedFor, AcceptsAll;
    ghost var before := c.Current();
    var plan := PlanEdit(row.document, request, checks).value;
    ghost var secrets := PlainEditSwitches(before, name, request, checks);
    var document := ApplyPlans(plan, map[], checks).value;
    var switch := UpdateRow(name, row.id, row.revision, document);
    // Credentials that keep their secrets are checked before the transaction, too.
    if plan.kafka.Some? || plan.registry.Some? {
      var refused := Validate(document, checks);
      if refused.Some? {
        Refused(refused, tracker.outcome, before, checks, document);
        return refused;
      }
    }
    var begun := c.Begin();
    if !begun {
      RefusedUnchanged(Some(DatabaseError), tracker.outcome);
      KeptRowsSame(before);
      return Some(DatabaseError);
    }
    var invalid := Validate(document, checks);
    if invalid.Some? {
      Refused(invalid, tracker.outcome, before, checks, document);
      RefusedUnchanged(Some(DatabaseError), tracker.outcome);
      KeptRowsSame(before);
      var undone := c.Rollback();
      return if undone then invalid else Some(DatabaseError);
    }
    failure := CommitBegun(c, switch, tracker, secrets);
    ghost var changed := Switched(before, c.Current(), switch, secrets);
    if changed {
      OnlyQueuedSame(before);
      SwitchEdits(before, before, c.Current(), name, request, checks, [], secrets);
    }
    TruthfulWeakens(failure, tracker.outcome, changed, Unswitched(before, c.Current()), c.blind > old(c.blind),
                    Edited(before, c.Current(), name, request, checks), KeptRows(before, c.Current()));
  }

  lemma Refused(failure: Option<Failure>, outcome: Outcome, w: World, checks: Checks, document: Document)
    requires outcome == NotCommitted && failure.Some? && failure.value in {StoreError(1), StoreError(2)}
    requires !checks.storable(document)
    ensures forall changed, blinded :: Truthful(failure, outcome, changed, KeptRows(w, w), blinded)
    ensures !AcceptsAll(checks)
  {
  }

  lemma OnlyQueuedSame(w: World)
    ensures OnlyQueued(w, w)
  {
  }

  /** A switch without cleanup records is ready to be committed. */
  lemma PlainSwitch(w: World, switch: Switch, secrets: map<Field, Secret>, supply: seq<Uuid>, drawn: nat)
    requires Consistent(w) && Supplied(w, supply, drawn) && Fits(w.database.profiles, switch)
    requires Conserves(w, switch, [], [], secrets)
    requires switch.InsertRow? ==> DrawnBefore(supply, drawn, switch.document.id)
    ensures var action := ActionOf(switch, [], [], secrets);
            && Switches(action) && Enabled(action, w)
            && Apply(action, w).database ==
               w.database.(profiles := w.database.profiles[switch.name := SwitchedRow(switch)])
            && Apply(action, w).vault == w.vault && Supplied(Apply(action, w), supply, drawn)
            && Switched(w, Apply(action, w), switch, secrets)
  {
    hide ProfileReferences, Consistent, Supplied, IsCanonical, IsCanonicalUuid, Conserves, IsLive, Enabled, Apply,
      WellOwned, Insertable;
    NoneRetired(supply, drawn);
    SupplyBound(w, supply, drawn);
    ReadyToCommit(w, switch, [], [], [], secrets, supply, drawn, drawn);
    NothingRemoved(w.database.journal, []);
    EmptyRecords(w.database.journal);
  }

  /** What `commit_secret_replacements` reported, as the body of an operation passes it on. */
  method Conclude(c: Connection, result: Result<ReconciliationResult, Failure>, tracker: MutationTracker,
                  ghost changed: bool, ghost kept: bool, ghost blinded: bool)
    returns (failure: Option<Failure>)
    requires tracker.outcome == NotCommitted
    requires match result
             case Ok(_) => changed
             case Err(MutationError(Some(true))) => changed
             case Err(MutationError(None)) => blinded && (changed || kept)
             case Err(reason) => reason in {MutationError(Some(false)), SecretStoreError, DatabaseError} && kept
    modifies tracker, c`faults
    ensures c.faults >= old(c.faults)
    ensures Truthful(failure, tracker.outcome, changed, kept, blinded)
    ensures failure.None? <==> result.Ok? && result.value.failed == 0 && c.faults == old(c.faults)
  {
    if result.Err? {
      return Some(result.error);
    }
    tracker.MarkCommitted();
    var reloading := Open(c);
    if reloading.Some? {
      return reloading;
    }
    return if result.value.failed > 0 then Some(StoreError(3)) else None;
  }

  /** The switch of an edit whose secrets were just staged. */
  lemma {:induction false} StagedEditSwitches(before: World, w: World, name: string, request: EditRequest,
                                              checks: Checks, staged: seq<StagedSecret>)
    returns (secrets: map<Field, Secret>)
    requires Consistent(before) && Consistent(w) && OnlyQueued(before, w) && name in before.database.profiles
    requires var row := before.database.profiles[name];
             && PlanEdit(row.document, request, checks).Ok?
             && var plan := PlanEdit(row.document, request, checks).value;
             && KeepsRegistrySection(plan)
             && Answers(staged, row.id, plan.Replacements())
             && Issues(before.history, w.history, staged, plan.Replacements())
    ensures var row := before.database.profiles[name];
            var plan := PlanEdit(row.document, request, checks).value;
            && RowRecorded(before.history, row)
            && StagedFor(plan, row.id, StagedMap(staged)) && ApplyPlans(plan, StagedMap(staged), checks).Some?
            && Switchable(row.id, staged, PreviousOf(staged) + plan.Retire())
            && var document := ApplyPlans(plan, StagedMap(staged), checks).value;
            && Conserves(w, UpdateRow(name, row.id, row.revision, document), Cleanups(staged),
                         PreviousOf(staged) + plan.Retire(), secrets)
            && Resolves(plan.Replacements(), SecretsOf(before.history, row), ProfileReferences(document), secrets)
  {
    hide ProfileReferences, Consistent, WellOwned, PlanEdit, ApplyPlans, KeepsRegistrySection, Conserves, RowRecorded,
      NewFor, Switchable, Issues, Resolves, StagedFor, Answers, PreviousOf, StagedMap, Cleanups;
    var row := before.database.profiles[name];
    var plan := PlanEdit(row.document, request, checks).value;
    RowDocument(before, name);
    StagingKeepsRow(before, w, name, staged, plan.Replacements());
    EditSwitches(w, name, request, checks, staged);
    var document := ApplyPlans(plan, StagedMap(staged), checks).value;
    secrets :| Conserves(w, UpdateRow(name, row.id, row.revision, document), Cleanups(staged),
                         PreviousOf(staged) + plan.Retire(), secrets) &&
               Resolves(plan.Replacements(), SecretsOf(w.history, row), ProfileReferences(document), secrets);
  }

  /** A switch takes a row and its generation from one state to the other, whatever was queued before. */
  lemma KeptThroughStaging(before: World, staging: World, after: World)
    requires OnlyQueued(before, staging)
    ensures KeptRows(before, staging)
    ensures Unswitched(staging, after) ==> KeptRows(before, after)
  {
  }

  /** The rest of `_commit_authenticated_edit`: stage, validate, switch, clean up. */
  method EditWithSecrets(c: Connection, name: string, row: Row, request: EditRequest, checks: Checks,
                         tracker: MutationTracker)
    returns (failure: Option<Failure>)
    requires c.Valid() && Consistent(c.Current()) && c.transaction.None? && tracker.outcome == NotCommitted
    requires name in c.database.profiles && c.database.profiles[name] == row
    requires PlanEdit(row.document, request, checks).Ok?
    requires var plan := PlanEdit(row.document, request, checks).value;
             KeepsRegistrySection(plan) && c.Left() >= 3 * |plan.Replacements()| + |plan.Retire()|
    modifies c`database, c`vault, c`transaction, c`drawn, c`history, c`trace, c`faults, c`blind, tracker
    ensures c.Valid() && Consistent(c.Current()) && c.faults >= old(c.faults) && c.blind >= old(c.blind)
    ensures old(c.trace) <= c.trace
    ensures Truthful(failure, tracker.outcome, Edited(old(c.Current()), c.Current(), name, request, checks),
                     KeptRows(old(c.Current()), c.Current()), c.blind > old(c.blind))
    ensures failure.None? ==>
              forall r :: r in GivenUp(PlanEdit(row.document, request, checks).value) ==> r !in c.vault
    ensures c.faults == old(c.faults) && AcceptsAll(checks) && PlainLabels(c.database.profiles) ==>
              if NoEmptyValue(PlanEdit(row.document, request, checks).value.Replacements()) then failure.None?
              else
                && failure.Some? && failure.value in {MutationError(Some(false)), SecretStoreError, DatabaseError}
                && tracker.outcome == NotCommitted
  {
    hide ProfileReferences, IsRun, Consistent, Supplied, WellOwned, PlanEdit, ApplyPlans, Edited, KeepsRegistrySection,
      Switched, Conserves, RowRecorded, Truthful, Resolves, StagedFor, AcceptsAll, Answers, Issues, Ready, StagedMap,
      PreviousOf, Cleanups, OnlyQueued, Switchable, PlainLabels, ValidReplacements, NoEmptyValue, IsCanonicalUuid,
      DistinctRecords, GivenUp, Unswitched, KeptRows;
    ghost var before := c.Current();
    var plan := PlanEdit(row.document, request, checks).value;
    RowDocument(before, name);
    ProfileIdCanonical(row.document);
    StagingDecides(before, name, request, checks);
    var loading := c.Draw();
    if !loading.Works? {
      KeptRowsSame(before);
      FailureKeeps(SecretStoreError, tracker.outcome);
      return Some(SecretStoreError);
    }
    var result := StageSecretReplacements(c, row.id, plan.Replacements());
    ghost var staging := c.Current();
    KeptThroughStaging(before, staging, staging);
    if result.Err? {
      FailureKeeps(result.error, tracker.outcome);
      return Some(result.error);
    }
    var staged := result.value;
    AnswersEach(staged, row.id, plan.Replacements());
    ghost var secrets := StagedEditSwitches(before, staging, name, request, checks, staged);
    var document := ApplyPlans(plan, StagedMap(staged), checks).value;
    var invalid := Validate(document, checks);
    if invalid.Some? {
      RefusedAfterStaging(invalid, tracker.outcome, checks, document);
      return invalid;
    }
    var switch := UpdateRow(name, row.id, row.revision, document);
    StillThere(before, staging, name);
    var committed := CommitSecretReplacements(
      c, row.id, staged, switch, plan.Retire(), ReadRowState(c.database, name),
      Some(RowState(name, SwitchedRow(switch))), secrets);
    if Switched(staging, c.Current(), switch, secrets) {
      SwitchEdits(before, staging, c.Current(), name, request, checks, staged, secrets);
    }
    KeptThroughStaging(before, staging, c.Current());
    GivenUpListed(before, name, request, checks, staged);
    failure := Conclude(c, committed, tracker, Edited(before, c.Current(), name, request, checks),
                        KeptRows(before, c.Current()), c.blind > old(c.blind));
  }

  /** The references an edit supersedes or retires. */
  function GivenUp(plan: EditPlan): (references: set<Reference>)
    ensures forall r :: r in references <==> Superseded(plan.Replacements(), r) || r in plan.Retire()
  {
    (set i | 0 <= i < |plan.Replacements()| && plan.Replacements()[i].previous.Some? ::
       plan.Replacements()[i].previous.value) +
    (set r | r in plan.Retire())
  }

  lemma {:induction false} GivenUpListed(w: World, name: string, request: EditRequest, checks: Checks,
                                         staged: seq<StagedSecret>)
    requires Consistent(w) && name in w.database.profiles
    requires var row := w.database.profiles[name];
             && PlanEdit(row.document, request, checks).Ok?
             && Answers(staged, row.id, PlanEdit(row.document, request, checks).value.Replacements())
    ensures var plan := PlanEdit(w.database.profiles[name].document, request, checks).value;
            forall r :: r in GivenUp(plan) <==> r in PreviousOf(staged) + plan.Retire()
  {
    hide ProfileReferences, Consistent, WellOwned, PlanEdit, Answers, PreviousOf, GivesUp, GivenUp;
    var row := w.database.profiles[name];
    var plan := PlanEdit(row.document, request, checks).value;
    RowDocument(w, name);
    EditGivesUp(row.document, request, checks);
    GivenUpFields(ProfileReferences(row.document), plan.Replacements(), plan.Retire());
    StagedAnswers(staged, row.id, plan.Replacements());
  }

  lemma ProfileIdCanonical(document: Document)
    requires WellOwned(document)
    ensures IsCanonicalUuid(document.id)
  {
  }

  /** An edit's replacements are refused only for an empty value. */
  lemma StagingDecides(w: World, name: string, request: EditRequest, checks: Checks)
    requires Consistent(w) && name in w.database.profiles
    requires PlanEdit(w.database.profiles[name].document, request, checks).Ok?
    ensures var row := w.database.profiles[name];
            var replacements := PlanEdit(row.document, request, checks).value.Replacements();
            ValidReplacements(row.id, replacements) <==> NoEmptyValue(replacements)
  {
    hide ProfileReferences, Consistent, WellOwned, PlanEdit, GivesUp, ValidReplacements, NoEmptyValue;
    var row := w.database.profiles[name];
    var plan := PlanEdit(row.document, request, checks).value;
    RowDocument(w, name);
    EditGivesUp(row.document, request, checks);
    OwnsItsReferences(row.document);
    GivenUpValid(ProfileReferences(row.document), row.id, plan.Replacements(), plan.Retire());
  }

  lemma KeptRowsSame(w: World)
    ensures KeptRows(w, w)
  {
  }

  lemma FailureKeeps(reason: Failure, outcome: Outcome)
    requires outcome == NotCommitted && reason in {MutationError(Some(false)), SecretStoreError, DatabaseError}
    ensures forall changed, blinded :: Truthful(Some(reason), outcome, changed, true, blinded)
  {
  }

  lemma RefusedAfterStaging(failure: Option<Failure>, outcome: Outcome, checks: Checks, document: Document)
    requires outcome == NotCommitted && failure.Some? && failure.value in {StoreError(1), StoreError(2)}
    requires !checks.storable(document)
    ensures forall changed, blinded :: Truthful(failure, outcome, changed, true, blinded)
    ensures !AcceptsAll(checks)
  {
  }

  lemma StillThere(before: World, staging: World, name: string)
    requires OnlyQueued(before, staging) && name in before.database.profiles
    ensures name in staging.database.profiles && staging.database.profiles[name] == before.database.profiles[name]
  {
  }

  /** What the command line guarantees of a request: Registry credentials are set up only for a Registry. Besides,
      identities for everything the plan stages and retires. */
  ghost predicate EditPrepared(c: Connection, name: string, request: EditRequest, checks: Checks)
    reads c`database, c`drawn
  {
    name in c.database.profiles && PlanEdit(c.database.profiles[name].document, request, checks).Ok? ==>
      var plan := PlanEdit(c.database.profiles[name].document, request, checks).value;
      && OffersRegistry(c.database.profiles[name].document, request)
      && c.Left() >= 3 * |plan.Replacements()| + |plan.Retire()|
  }

  /** What an edit leaves, told from the request: the row of `name` moved to its next revision, its document has the
      requested values and otherwise the former ones, and so do its secrets. Nothing else changed. */
  ghost predicate CarriedOut(before: World, after: World, name: string, request: EditRequest, checks: Checks) {
    && name in before.database.profiles && name in after.database.profiles
    && var row, edited := before.database.profiles[name], after.database.profiles[name];
    && edited.id == row.id && edited.revision == row.revision + 1
    && after.database.profiles == before.database.profiles[name := edited]
    && EditedAsRequested(row.document, request, checks, edited.document)
    && (row.id, row.revision) in before.history.generations && (row.id, row.revision + 1) in after.history.generations
    && var former := before.history.generations[(row.id, row.revision)];
    && var generation := after.history.generations[(row.id, row.revision + 1)];
    && generation.document == edited.document
    && SecretsAsRequested(request.auth, request.registryAuth, checks, former.secrets, edited.document,
                          generation.secrets)
  }

  lemma EditedIsCarriedOut(before: World, after: World, name: string, request: EditRequest, checks: Checks)
    requires Consistent(before) && Edited(before, after, name, request, checks)
    requires OffersRegistry(before.database.profiles[name].document, request)
    ensures CarriedOut(before, after, name, request, checks)
    ensures var row, edited := before.database.profiles[name], after.database.profiles[name];
            forall r :: r in ProfileReferences(row.document).Values && r !in ProfileReferences(edited.document).Values ==>
              r in GivenUp(PlanEdit(row.document, request, checks).value)
  {
    hide Consistent, PlanEdit, ApplyPlans, ProfileReferences, Resolves, EditedAsRequested, SecretsAsRequested,
      OffersRegistry, StagedFor, WellOwned, KeepsRegistrySection, SuppliesAll, GivenUp, Superseded;
    var row := before.database.profiles[name];
    var plan := PlanEdit(row.document, request, checks).value;
    var staged :| EditedWith(before, after, name, plan, staged, checks);
    RowDocument(before, name);
    OffersRegistryExactly(row.document, request, checks);
    EditConserves(row.document, request, checks, staged);
    EditCarriedOut(row.document, request, checks, staged);
    EditSupplies(row.document, request, checks);
    var document := ApplyPlans(plan, staged, checks).value;
    SecretsCarriedOut(request.auth, request.registryAuth, checks, plan.Replacements(), SecretsOf(before.history, row),
                      document, after.history.generations[(row.id, row.revision + 1)].secrets);
  }

  lemma EditedAsPlanned(before: World, after: World, name: string, request: EditRequest, checks: Checks)
    requires Edited(before, after, name, request, checks)
    ensures name in before.database.profiles && PlanEdit(before.database.profiles[name].document, request, checks).Ok?
  {
    hide PlanEdit;
  }

  /** The body of `edit_profile`, under the lock. */
  method EditUnderLock(c: Connection, name: string, request: EditRequest, checks: Checks, expectedId: Option<Uuid>,
                       expectedRevision: Option<nat>, tracker: MutationTracker)
    returns (failure: Option<Failure>)
    requires c.Valid() && Consistent(c.Current()) && c.transaction.None? && tracker.outcome == NotCommitted
    requires EditPrepared(c, name, request, checks)
    modifies c`database, c`vault, c`transaction, c`drawn, c`history, c`trace, c`faults, c`blind, tracker
    ensures c.Valid() && Consistent(c.Current()) && c.faults >= old(c.faults) && c.blind >= old(c.blind)
    ensures old(c.trace) <= c.trace
    ensures Truthful(failure, tracker.outcome,
                     && Edited(old(c.Current()), c.Current(), name, request, checks)
                     && (expectedId.Some? ==> old(c.database).profiles[name].id == expectedId.value)
                     && (expectedRevision.Some? ==> old(c.database).profiles[name].revision == expectedRevision.value),
                     KeptRows(old(c.Current()), c.Current()), c.blind > old(c.blind))
    ensures failure.None? ==>
              && name in old(c.database).profiles
              && PlanEdit(old(c.database).profiles[name].document, request, checks).Ok?
              && forall r :: r in GivenUp(PlanEdit(old(c.database).profiles[name].document, request, checks).value) ==>
                   r !in c.vault
    ensures c.faults == old(c.faults) && AcceptsAll(checks) && PlainLabels(c.database.profiles) ==>
              if || name !in old(c.database).profiles
                 || (expectedId.Some? && expectedId.value != old(c.database).profiles[name].id)
                 || (expectedRevision.Some? && expectedRevision.value != old(c.database).profiles[name].revision)
              then failure == Some(StoreError(1)) && tracker.outcome == NotCommitted
              else if !EditAllowed(old(c.database).profiles[name].document, request, checks) then
                failure == Some(StoreError(2)) && tracker.outcome == NotCommitted
              else if SuppliesEmpty(request.auth, request.registryAuth, checks) then
                && failure.Some? && failure.value in {MutationError(Some(false)), SecretStoreError, DatabaseError}
                && tracker.outcome == NotCommitted
              else failure.None?
  {
    hide ProfileReferences, IsRun, Consistent, Supplied, PlanEdit, Edited, KeepsRegistrySection, Truthful, AcceptsAll,
      PlainLabels, KeptRows, GivenUp, NoEmptyValue, OffersRegistry, WellOwned, EditAllowed, SuppliesEmpty, SuppliesAll;
    ghost var before := c.Current();
    KeptRowsSame(before);
    var unread := Open(c);
    if unread.Some? {
      RefusedUnchanged(unread, tracker.outcome);
      return unread;
    }
    if name !in c.database.profiles || !Expected(c.database.profiles[name], expectedId, expectedRevision) {
      RefusedUnchanged(Some(StoreError(1)), tracker.outcome);
      return Some(StoreError(1));
    }
    var row := c.database.profiles[name];
    RowDocument(c.Current(), name);
    AcceptedExactly(row.document, request, checks);
    var planned := PlanEdit(row.document, request, checks);
    if planned.Err? {
      RefusedUnchanged(Some(StoreError(PlanStatus(planned.error))), tracker.outcome);
      return Some(StoreError(PlanStatus(planned.error)));
    }
    OffersRegistryExactly(row.document, request, checks);
    if planned.value.Replacements() == [] && planned.value.Retire() == [] {
      NothingGivenUpAtAll(planned.value);
      failure := EditPlainly(c, name, row, request, checks, tracker);
      return;
    }
    failure := EditWithSecrets(c, name, row, request, checks, tracker);
  }

  /** What the plan decides, told from the request. */
  lemma AcceptedExactly(document: Document, request: EditRequest, checks: Checks)
    requires WellOwned(document)
    ensures AcceptsAll(checks) ==>
              match PlanEdit(document, request, checks)
              case Ok(_) => EditAllowed(document, request, checks)
              case Err(error) => error == InvalidInput && !EditAllowed(document, request, checks)
    ensures PlanEdit(document, request, checks).Ok? ==>
              (SuppliesEmpty(request.auth, request.registryAuth, checks) <==>
               !NoEmptyValue(PlanEdit(document, request, checks).value.Replacements()))
  {
    hide WellOwned, PlanEdit, EditAllowed, SuppliesEmpty, NoEmptyValue, SuppliesAll;
    if AcceptsAll(checks) {
      EditAllowedExactly(document, request, checks);
    }
    if PlanEdit(document, request, checks).Ok? {
      EditSupplies(document, request, checks);
      EmptySupplies(request.auth, request.registryAuth, checks,
                    PlanEdit(document, request, checks).value.Replacements());
    }
  }

  lemma NothingGivenUpAtAll(plan: EditPlan)
    requires plan.Replacements() == [] && plan.Retire() == []
    ensures GivenUp(plan) == {} && NoEmptyValue(plan.Replacements())
  {
  }

  lemma RefusedUnchanged(failure: Option<Failure>, outcome: Outcome)
    requires outcome == NotCommitted && failure.Some?
    requires failure.value in {StoreError(1), StoreError(2), DatabaseError}
    ensures forall changed, blinded :: Truthful(failure, outcome, changed, true, blinded)
  {
  }

  /** `edit_profile`. */
  method EditProfile(c: Connection, name: string, request: EditRequest, checks: Checks, expectedId: Option<Uuid>,
                     expectedRevision: Option<nat>)
    returns (status: nat)
    requires c.Valid() && Consistent(c.Current()) && c.transaction.None? && EditPrepared(c, name, request, checks)
    modifies c`database, c`vault, c`transaction, c`drawn, c`history, c`trace, c`faults, c`blind
    ensures c.Valid() && Consistent(c.Current()) && c.transaction.None? && old(c.trace) <= c.trace
    ensures status <= 4
    ensures status in {0, 3} ==>
              && Edited(old(c.Current()), c.Current(), name, request, checks)
              && CarriedOut(old(c.Current()), c.Current(), name, request, checks) && !NameRefused(name)
              && (expectedId.Some? ==> old(c.database).profiles[name].id == expectedId.value)
              && (expectedRevision.Some? ==> old(c.database).profiles[name].revision == expectedRevision.value)
    ensures status in {1, 2} ==> KeptRows(old(c.Current()), c.Current())
    ensures status == 4 ==>
              && c.blind > old(c.blind)
              && (|| (Edited(old(c.Current()), c.Current(), name, request, checks) &&
                      CarriedOut(old(c.Current()), c.Current(), name, request, checks))
                  || KeptRows(old(c.Current()), c.Current()))
    ensures status == 0 ==>
              forall r :: r in ProfileReferences(old(c.database).profiles[name].document).Values ==>
                            r in ProfileReferences(c.database.profiles[name].document).Values || r !in c.vault
    ensures c.faults == old(c.faults) && AcceptsAll(checks) && PlainLabels(c.database.profiles) ==>
              status ==
              if NameRefused(name) || !Coherent(request) then 2
              else if || name !in old(c.database).profiles
                      || (expectedId.Some? && expectedId.value != old(c.database).profiles[name].id)
                      || (expectedRevision.Some? && expectedRevision.value != old(c.database).profiles[name].revision)
              then 1
              else if !EditAllowed(old(c.database).profiles[name].document, request, checks) then 2
              else if SuppliesEmpty(request.auth, request.registryAuth, checks) then 1
              else 0
  {
    hide ProfileReferences, IsRun, Consistent, Supplied, PlanEdit, Edited, KeepsRegistrySection, Truthful, AcceptsAll,
      PlainLabels, KeptRows, GivenUp, ValidName, NameRefused, EditAllowed, SuppliesEmpty, Coherent, AcceptsRequest,
      CarriedOut, OffersRegistry;
    ghost var before := c.Current();
    KeptRowsSame(before);
    NameRefusedExactly(name);
    CoherentExactly(request);
    if !ValidName(name) {
      return 2;
    }
    if !AcceptsRequest(request) {
      return 2;
    }
    var tracker := new MutationTracker();
    var failure := Open(c);
    if failure.Some? {
      RefusedUnchanged(failure, tracker.outcome);
    } else {
      failure := EditUnderLock(c, name, request, checks, expectedId, expectedRevision, tracker);
    }
    ghost var changed := Edited(before, c.Current(), name, request, checks);
    if changed {
      EditedAsPlanned(before, c.Current(), name, request, checks);
      EditedIsCarriedOut(before, c.Current(), name, request, checks);
    }
    status := Finish(c, failure, tracker,
                     && changed
                     && (expectedId.Some? ==> before.database.profiles[name].id == expectedId.value)
                     && (expectedRevision.Some? ==> before.database.profiles[name].revision == expectedRevision.value),
                     KeptRows(before, c.Current()), c.blind > old(c.blind));
  }
}
