/** How the plan of an edit meets the stores: what it gives up, what it stages, and which values the
    new generation stands for (`profiles.py`). */
module EditedCredentials {
  import opened Wrappers
  import opened References
  import opened Documents
  import opened TwoStores
  import opened ProfileAuth
  import opened RegistryAuthPlans
  import opened ProfileEdits
  import opened CredentialMutations
  import opened ProfileSwitches
  import opened CredentialCommits

  // What a plan gives up

  /** Every replacement names the reference it supersedes, and every retired one is current, not
      superseded and retired once. */
  ghost predicate GivesUp(current: map<Field, Reference>, replacements: seq<SecretReplacement>, retired: seq<Reference>) {
    && DistinctFields(replacements)
    && (forall i :: 0 <= i < |replacements| ==>
          replacements[i].previous == CurrentOf(current, replacements[i].field))
    && NoDuplicates(retired)
    && (forall r :: r in retired ==> r in current.Values && !Superseded(replacements, r))
  }

  lemma SplitGivesUp(current: map<Field, Reference>, retained: map<Field, Reference>,
                     replacements: seq<SecretReplacement>, retired: seq<Reference>)
    requires Splits(current, retained, replacements, retired)
    ensures GivesUp(current, replacements, retired)
  {
  }

  lemma {:induction false} JoinedGivesUp(kafka: map<Field, Reference>, registry: map<Field, Reference>, profileId: Uuid,
                      kafkaReplacements: seq<SecretReplacement>, kafkaRetired: seq<Reference>,
                      registryReplacements: seq<SecretReplacement>, registryRetired: seq<Reference>)
    requires Owned(kafka, profileId) && Owned(registry, profileId)
    requires forall field :: field in kafka ==> IsKafkaField(field)
    requires forall field :: field in registry ==> !IsKafkaField(field)
    requires GivesUp(kafka, kafkaReplacements, kafkaRetired)
    requires GivesUp(registry, registryReplacements, registryRetired)
    requires forall i :: 0 <= i < |kafkaReplacements| ==> IsKafkaField(kafkaReplacements[i].field)
    requires forall i :: 0 <= i < |registryReplacements| ==> !IsKafkaField(registryReplacements[i].field)
    ensures GivesUp(kafka + registry, kafkaReplacements + registryReplacements, kafkaRetired + registryRetired)
  {
    hide IsCanonical, IsKafkaField;
    var both := kafka + registry;
    assert forall field :: field in kafka ==> field !in registry && both[field] == kafka[field];
    assert forall field :: field in registry ==> both[field] == registry[field];
    ReplacesBoth(kafkaReplacements, registryReplacements);
    forall r | r in kafkaRetired ensures r in both.Values && !Superseded(registryReplacements, r) {
      var field :| field in kafka && kafka[field] == r;
      assert both[field] == r;
    }
    forall r | r in registryRetired ensures r in both.Values && !Superseded(kafkaReplacements, r) {
      var field :| field in registry && registry[field] == r;
      assert both[field] == r;
    }
    forall i, j | 0 <= i < |kafkaRetired| && 0 <= j < |registryRetired| ensures kafkaRetired[i] != registryRetired[j] {
      assert kafkaRetired[i] in kafkaRetired && registryRetired[j] in registryRetired;
    }
  }

  lemma KafkaFields(auth: KafkaAuth)
    ensures forall field :: field in KafkaReferences(auth) ==> IsKafkaField(field)
  {
  }

  lemma RegistryFields(registry: Option<Registry>)
    ensures forall field :: field in RegistryReferences(registry) ==> !IsKafkaField(field)
  {
  }

  lemma EditGivesUp(current: Document, request: EditRequest, checks: Checks)
    requires WellOwned(current) && PlanEdit(current, request, checks).Ok?
    ensures var plan := PlanEdit(current, request, checks).value;
            GivesUp(ProfileReferences(current), plan.Replacements(), plan.Retire())
  {
    hide IsCanonical, PlanAuthentication, Splits, AcceptsRequest, RegistryEditPlan, KafkaReferences,
      RegistryReferences, IsKafkaField, GivesUp, ApplyEdits;
    var plan := PlanEdit(current, request, checks).value;
    var kafka, registry := KafkaReferences(current.kafka.auth), RegistryReferences(current.registry);
    OwnedSections(current);
    KafkaFields(current.kafka.auth);
    RegistryFields(current.registry);
    var kafkaReplacements := if plan.kafka.Some? then plan.kafka.value.replacements else [];
    var kafkaRetired := if plan.kafka.Some? then plan.kafka.value.retired else [];
    if plan.kafka.Some? {
      KafkaPlanConserves(current.id, Some(current.kafka.auth), request.auth.value, checks);
      assert PlanConserves(kafka, plan.kafka.value);
      SplitGivesUp(kafka, plan.kafka.value.retained, kafkaReplacements, kafkaRetired);
    } else {
      NothingGivenUp(kafka);
    }
    RegistryEditGivesUp(current, request, checks);
    JoinedGivesUp(kafka, registry, current.id, kafkaReplacements, kafkaRetired,
                  if plan.registry.Some? then plan.registry.value.replacements else [],
                  if plan.registry.Some? then plan.registry.value.retired else []);
  }

  lemma NothingGivenUp(current: map<Field, Reference>)
    ensures GivesUp(current, [], [])
  {
  }

  lemma RegistryEditGivesUp(current: Document, request: EditRequest, checks: Checks)
    requires WellOwned(current) && PlanEdit(current, request, checks).Ok?
    ensures var plan := PlanEdit(current, request, checks).value;
            var replacements := if plan.registry.Some? then plan.registry.value.replacements else [];
            && GivesUp(RegistryReferences(current.registry), replacements,
                       if plan.registry.Some? then plan.registry.value.retired else [])
            && forall i :: 0 <= i < |replacements| ==> !IsKafkaField(replacements[i].field)
  {
    hide IsCanonical, PlanAuthentication, PlanRegistryAuthentication, Splits, AcceptsRequest, KafkaReferences,
      RegistryReferences, IsKafkaField, GivesUp, ApplyEdits, Retired;
    var plan := PlanEdit(current, request, checks).value;
    var before := RegistryReferences(current.registry);
    OwnedSections(current);
    if plan.registry.None? {
      NothingGivenUp(before);
    } else if request.registryAuth.Some? {
      RegistryPlanConserves(current.id, current.registry, request.registryAuth.value, checks);
      assert RegistryPlanKeeps(before, plan.registry.value, checks);
      SplitGivesUp(before, plan.registry.value.retained, plan.registry.value.replacements, plan.registry.value.retired);
    } else {
      LeftoversSplit(current.id, before, map[], []);
      SplitGivesUp(before, map[], [], plan.registry.value.retired);
    }
  }

  // What staging adds

  /** The references a document can be built with (`staged_references`). */
  function StagedMap(staged: seq<StagedSecret>): map<Field, Reference> {
    if staged == [] then map[]
    else
      var last := staged[|staged| - 1];
      StagedMap(staged[..|staged| - 1])[last.field := last.reference]
  }

  lemma {:induction false} StagedMapHolds(staged: seq<StagedSecret>)
    requires DistinctStagedFields(staged)
    ensures forall i :: 0 <= i < |staged| ==>
              staged[i].field in StagedMap(staged) && StagedMap(staged)[staged[i].field] == staged[i].reference
    ensures forall field :: field in StagedMap(staged) ==> exists i :: 0 <= i < |staged| && staged[i].field == field
  {
    if staged != [] {
      var front := staged[..|staged| - 1];
      StagedMapHolds(front);
      forall field | field in StagedMap(staged) ensures exists i :: 0 <= i < |staged| && staged[i].field == field {
        if field != staged[|staged| - 1].field {
          assert field in StagedMap(front);
          var i :| 0 <= i < |front| && front[i].field == field;
          assert staged[i].field == field;
        } else {
          assert staged[|staged| - 1].field == field;
        }
      }
    }
  }

  /** The staged references are one per replaced field, and each its own journal row's. */
  lemma {:induction false} StagedAnswers(staged: seq<StagedSecret>, profileId: Uuid, replacements: seq<SecretReplacement>)
    requires Answers(staged, profileId, replacements) && DistinctFields(replacements)
    ensures DistinctStagedFields(staged)
    ensures Owned(StagedMap(staged), profileId)
    ensures forall field :: field in StagedMap(staged) <==> Replaces(replacements, field)
    ensures forall r :: r in StagedMap(staged).Values <==> Covers(Cleanups(staged), r)
    ensures forall i :: 0 <= i < |staged| ==>
              staged[i].field in StagedMap(staged) && StagedMap(staged)[staged[i].field] == staged[i].reference
    ensures forall r :: r in PreviousOf(staged) <==> Superseded(replacements, r)
  {
    hide IsCanonical, Cleanups, Covers, PreviousOf, Superseded;
    StagedMapHolds(staged);
    var held := StagedMap(staged);
    forall field | field in held ensures held[field].profileId == profileId && held[field].field == field &&
                                         IsCanonical(held[field]) && Replaces(replacements, field)
    {
      var i :| 0 <= i < |staged| && staged[i].field == field;
      assert replacements[i].field == field;
    }
    forall field | Replaces(replacements, field) ensures field in held {
      var i :| 0 <= i < |replacements| && replacements[i].field == field;
      assert staged[i].field == field;
    }
    StagedCovers(staged, profileId, replacements);
    StagedSupersedes(staged, profileId, replacements);
  }

  lemma {:induction false} StagedCovers(staged: seq<StagedSecret>, profileId: Uuid, replacements: seq<SecretReplacement>)
    requires Answers(staged, profileId, replacements) && DistinctStagedFields(staged)
    ensures forall r :: r in StagedMap(staged).Values <==> Covers(Cleanups(staged), r)
  {
    hide IsCanonical;
    StagedMapHolds(staged);
    var held := StagedMap(staged);
    forall r ensures r in held.Values <==> Covers(Cleanups(staged), r) {
      if r in held.Values {
        var field :| field in held && held[field] == r;
        var i :| 0 <= i < |staged| && staged[i].field == field;
        assert Cleanups(staged)[i].reference == r;
      }
      if Covers(Cleanups(staged), r) {
        var i :| 0 <= i < |staged| && Cleanups(staged)[i].reference == r;
        assert held[staged[i].field] == r;
      }
    }
  }

  lemma {:induction false} StagedSupersedes(staged: seq<StagedSecret>, profileId: Uuid,
                                            replacements: seq<SecretReplacement>)
    requires Answers(staged, profileId, replacements)
    ensures forall r :: r in PreviousOf(staged) <==> Superseded(replacements, r)
  {
    hide IsCanonical;
    forall r ensures r in PreviousOf(staged) <==> Superseded(replacements, r) {
      if i :| 0 <= i < |staged| && staged[i].previous == Some(r) {
        assert replacements[i].previous == Some(r);
      }
      if i :| 0 <= i < |replacements| && replacements[i].previous == Some(r) {
        assert staged[i].previous == Some(r);
      }
    }
  }

  lemma {:induction false} PreviousOnce(staged: seq<StagedSecret>)
    requires DistinctStagedFields(staged)
    requires forall i :: 0 <= i < |staged| && staged[i].previous.Some? ==>
               staged[i].previous.value.field == staged[i].field
    ensures NoDuplicates(PreviousOf(staged))
    ensures forall r :: r in PreviousOf(staged) ==> exists i :: 0 <= i < |staged| && staged[i].field == r.field
  {
    if staged != [] {
      PreviousOnce(staged[1..]);
      var rest := PreviousOf(staged[1..]);
      assert forall i :: 0 <= i < |staged[1..]| ==> staged[1..][i] == staged[i + 1];
      forall r | r in rest ensures r.field != staged[0].field {
        var i :| 0 <= i < |staged[1..]| && staged[1..][i].field == r.field;
      }
      forall r | r in PreviousOf(staged) ensures exists i :: 0 <= i < |staged| && staged[i].field == r.field {
        var i :| 0 <= i < |staged| && staged[i].previous == Some(r);
      }
    }
  }

  /** The superseded and retired references can be queued for deletion. */
  lemma {:induction false} GivenUpSwitchable(current: map<Field, Reference>, profileId: Uuid, staged: seq<StagedSecret>,
                          replacements: seq<SecretReplacement>, retired: seq<Reference>)
    requires Owned(current, profileId) && GivesUp(current, replacements, retired)
    requires Answers(staged, profileId, replacements)
    requires forall i :: 0 <= i < |staged| ==> staged[i].reference !in current.Values
    ensures Switchable(profileId, staged, PreviousOf(staged) + retired)
    ensures forall r :: r in PreviousOf(staged) + retired ==> r in current.Values
    ensures forall r :: r in PreviousOf(staged) + retired <==> Superseded(replacements, r) || r in retired
  {
    hide IsCanonical, PreviousOf, Superseded;
    StagedAnswers(staged, profileId, replacements);
    var previous := PreviousOf(staged);
    forall r | r in previous ensures r in current.Values && r !in retired {
      var i :| 0 <= i < |replacements| && replacements[i].previous == Some(r);
      assert current[replacements[i].field] == r;
    }
    PreviousOnce(staged);
    var all := previous + retired;
    forall i | 0 <= i < |all| ensures all[i].profileId == profileId && IsCanonical(all[i]) {
      assert all[i] in current.Values;
    }
    forall i, j | 0 <= i < j < |all| ensures all[i] != all[j] {
      if i < |previous| && |previous| <= j {
        assert all[i] in previous && all[j] in retired;
      }
    }
  }

  /** A replacement is refused only for an empty value. */
  predicate NoEmptyValue(replacements: seq<SecretReplacement>) {
    forall i :: 0 <= i < |replacements| ==> replacements[i].value != ""
  }

  lemma {:induction false} GivenUpValid(current: map<Field, Reference>, profileId: Uuid, replacements: seq<SecretReplacement>,
                     retired: seq<Reference>)
    requires Owned(current, profileId) && GivesUp(current, replacements, retired)
    ensures ValidReplacements(profileId, replacements) <==> NoEmptyValue(replacements)
  {
    hide IsCanonical;
  }

  // Which values the new generation stands for

  ghost function IntendedSecrets(issued: map<Reference, Secret>, references: map<Field, Reference>,
                                 previous: map<Field, Secret>, staged: seq<CleanupRecord>): map<Field, Secret>
    requires forall field :: field in references ==>
               if Covers(staged, references[field]) then references[field] in issued else field in previous
  {
    map field | field in references ::
      if Covers(staged, references[field]) then issued[references[field]] else previous[field]
  }

  /** The generation resolves to the supplied values where the mutation replaced a secret, and to the
      previous generation's values everywhere else. */
  ghost predicate Resolves(replacements: seq<SecretReplacement>, previous: map<Field, Secret>,
                           references: map<Field, Reference>, secrets: map<Field, Secret>) {
    && secrets.Keys == references.Keys
    && (forall i :: 0 <= i < |replacements| ==>
          replacements[i].field in secrets && secrets[replacements[i].field] == replacements[i].value)
    && (forall field :: field in references && !Replaces(replacements, field) ==>
          field in previous && secrets[field] == previous[field])
  }

  /** What a conserving document resolves to. `before` holds the references of the previous row. */
  lemma {:induction false} ResolvesAsIntended(w: World, document: Document, before: map<Field, Reference>, previous: map<Field, Secret>,
                           staged: seq<StagedSecret>, replacements: seq<SecretReplacement>)
    requires WellOwned(document) && Owned(before, document.id) && before.Keys == previous.Keys
    requires Answers(staged, document.id, replacements) && DistinctFields(replacements)
    requires forall i :: 0 <= i < |staged| ==>
               && staged[i].reference in w.history.issued
               && w.history.issued[staged[i].reference] == replacements[i].value
               && staged[i].reference in ProfileReferences(document).Values
    requires forall r :: r in ProfileReferences(document).Values ==> Covers(Cleanups(staged), r) || r in before.Values
    ensures var references := ProfileReferences(document);
            && (forall field :: field in references ==>
                  if Covers(Cleanups(staged), references[field]) then references[field] in w.history.issued
                  else field in previous)
            && var secrets := IntendedSecrets(w.history.issued, references, previous, Cleanups(staged));
            && Intended(w, references, previous, Cleanups(staged), secrets)
            && Resolves(replacements, previous, references, secrets)
  {
    hide IsCanonical, ProfileReferences, IsCanonicalUuid;
    var references := ProfileReferences(document);
    forall field | field in references
      ensures Covers(Cleanups(staged), references[field]) ==>
                references[field] in w.history.issued && Replaces(replacements, field)
      ensures !Covers(Cleanups(staged), references[field]) ==> field in previous
    {
      if Covers(Cleanups(staged), references[field]) {
        var i :| 0 <= i < |staged| && Cleanups(staged)[i].reference == references[field];
        assert replacements[i].field == field;
      } else {
        assert references[field] in references.Values;
        var other :| other in before && before[other] == references[field];
      }
    }
    var secrets := IntendedSecrets(w.history.issued, references, previous, Cleanups(staged));
    assert Intended(w, references, previous, Cleanups(staged), secrets);
    forall i | 0 <= i < |replacements|
      ensures replacements[i].field in secrets && secrets[replacements[i].field] == replacements[i].value
    {
      OwnerOf(document, staged[i].reference);
      assert Cleanups(staged)[i].reference == staged[i].reference;
      assert Covers(Cleanups(staged), staged[i].reference);
    }
  }

  // The switch an edit performs

  /** The staged references are new to the row and stand for the supplied values. */
  ghost predicate NewFor(history: History, row: Row, staged: seq<StagedSecret>, replacements: seq<SecretReplacement>) {
    && |staged| == |replacements|
    && forall i :: 0 <= i < |staged| ==>
         && staged[i].reference in history.issued && history.issued[staged[i].reference] == replacements[i].value
         && staged[i].reference !in ProfileReferences(row.document).Values
  }

  /** The values a row's latest generation stands for. */
  ghost function SecretsOf(history: History, row: Row): map<Field, Secret>
    requires RowRecorded(history, row)
  {
    history.generations[(row.id, row.revision)].secrets
  }

  /** An accepted edit, with its secrets staged, makes a switch that conserves references, and a
      generation that resolves to the supplied and the kept values. */
  lemma {:induction false} EditSwitches(w: World, name: string, request: EditRequest, checks: Checks,
                                        staged: seq<StagedSecret>)
    requires Consistent(w) && name in w.database.profiles && RowRecorded(w.history, w.database.profiles[name])
    requires var row := w.database.profiles[name];
             && WellOwned(row.document) && row.document.id == row.id
             && PlanEdit(row.document, request, checks).Ok?
             && var plan := PlanEdit(row.document, request, checks).value;
             && KeepsRegistrySection(plan)
             && Answers(staged, row.id, plan.Replacements())
             && NewFor(w.history, row, staged, plan.Replacements())
    ensures var row := w.database.profiles[name];
            var plan := PlanEdit(row.document, request, checks).value;
            && StagedFor(plan, row.id, StagedMap(staged))
            && ApplyPlans(plan, StagedMap(staged), checks).Some?
            && var document := ApplyPlans(plan, StagedMap(staged), checks).value;
            && Switchable(row.id, staged, PreviousOf(staged) + plan.Retire())
            && exists secrets ::
                 && Conserves(w, UpdateRow(name, row.id, row.revision, document), Cleanups(staged),
                              PreviousOf(staged) + plan.Retire(), secrets)
                 && Resolves(plan.Replacements(), SecretsOf(w.history, row), ProfileReferences(document), secrets)
  {
    hide IsCanonical, IsCanonicalUuid, ProfileReferences, PlanEdit, ApplyPlans, KeepsRegistrySection, WellOwned,
      Consistent, Answers, StagedMap, PreviousOf, Conserves, GivesUp, Switchable;
    var row := w.database.profiles[name];
    var plan := PlanEdit(row.document, request, checks).value;
    var replacements, retire := plan.Replacements(), plan.Retire();
    EditGivesUp(row.document, request, checks);
    OwnsItsReferences(row.document);
    assert DistinctFields(replacements) by { GivenUpFields(ProfileReferences(row.document), replacements, retire); }
    StagedAnswers(staged, row.id, replacements);
    EditConserves(row.document, request, checks, StagedMap(staged));
    EditOwns(row.document, request, checks, StagedMap(staged));
    GivenUpSwitchable(ProfileReferences(row.document), row.id, staged, replacements, retire);
    var document := ApplyPlans(plan, StagedMap(staged), checks).value;
    StagedHeld(staged);
    ResolvesAsIntended(w, document, ProfileReferences(row.document), SecretsOf(w.history, row), staged, replacements);
    var secrets := IntendedSecrets(w.history.issued, ProfileReferences(document), SecretsOf(w.history, row),
                                   Cleanups(staged));
    UpdateConserves(w, name, row, document, staged, PreviousOf(staged) + retire, secrets);
  }

  lemma OwnsItsReferences(document: Document)
    requires WellOwned(document)
    ensures Owned(ProfileReferences(document), document.id)
  {
  }

  lemma GivenUpFields(current: map<Field, Reference>, replacements: seq<SecretReplacement>, retired: seq<Reference>)
    requires GivesUp(current, replacements, retired)
    ensures DistinctFields(replacements)
  {
  }

  lemma StagedHeld(staged: seq<StagedSecret>)
    requires DistinctStagedFields(staged)
    ensures forall i :: 0 <= i < |staged| ==> staged[i].reference in StagedMap(staged).Values
  {
    StagedMapHolds(staged);
  }

  lemma UpdateConserves(w: World, name: string, row: Row, document: Document, staged: seq<StagedSecret>,
                        retired: seq<Reference>, secrets: map<Field, Secret>)
    requires name in w.database.profiles && w.database.profiles[name] == row && RowRecorded(w.history, row)
    requires WellOwned(document) && document.id == row.id
    requires forall r :: r in retired ==> r in ProfileReferences(row.document).Values
    requires forall r :: r in ProfileReferences(document).Values <==>
               Covers(Cleanups(staged), r) || (r in ProfileReferences(row.document).Values && r !in retired)
    requires Intended(w, ProfileReferences(document), SecretsOf(w.history, row), Cleanups(staged), secrets)
    ensures Conserves(w, UpdateRow(name, row.id, row.revision, document), Cleanups(staged), retired, secrets)
  {
    hide ProfileReferences, WellOwned, Intended;
  }
}
