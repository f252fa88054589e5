/** New profiles, which stage every reference they hold (`profile_documents.py`, `profile_auth.py`). */
module NewProfiles {
  import opened Wrappers
  import opened References
  import opened Documents
  import opened ProfileAuth
  import opened RegistryAuthPlans
  import opened ProfileEdits

  datatype NewRequest = NewRequest(
    bootstrapServers: seq<string>, description: Option<string>, labels: map<string, string>, transport: string,
    caCertificates: Option<string>, auth: Option<KafkaAuthInput>, registryProvider: Option<string>,
    registryUrl: Option<string>, registryAuth: Option<RegistryAuthInput>)

  const NoKafkaAuth := KafkaAuthInput(TypeNone, None, None, None, None, None, None, None, None, None, None, false)

  /** `new_profile`, before its authentication is applied. */
  function NewDocument(profileId: Uuid, request: NewRequest, checks: Checks): Result<Document, AuthError> {
    if request.caCertificates.Some? && (request.transport != "tls" ||
                                        checks.caBundle(request.caCertificates.value).None?) then Err(InvalidInput)
    else if request.registryProvider.Some? && request.registryUrl.None? then Err(InvalidInput)
    else
      var ca := if request.caCertificates.None? then None else checks.caBundle(request.caCertificates.value);
      var registry :=
        if request.registryUrl.None? then None
        else
          Some(Registry(if Given(request.registryProvider) then request.registryProvider.value else "confluent",
                        request.registryUrl.value, None, RegistryNone));
      Ok(Document(profileId, request.description, request.labels,
                  Kafka(request.bootstrapServers, request.transport, ca, KafkaNone), registry))
  }

  /** `new_registry_auth_plan`. */
  function NewRegistryPlan(profileId: Uuid, request: NewRequest, checks: Checks):
    Result<Option<RegistryAuthPlan>, AuthError>
  {
    if request.registryAuth.None? then Ok(None)
    else if request.registryUrl.None? then Err(InvalidInput)
    else
      var plan :- PlanRegistryAuthentication(profileId, None, request.registryAuth.value, checks);
      Ok(Some(plan))
  }

  /** Everything `add_profile` decides before it touches a store. */
  function PlanNew(profileId: Uuid, request: NewRequest, checks: Checks): Result<EditPlan, AuthError> {
    var auth := if request.auth.None? then NoKafkaAuth else request.auth.value;
    var kafka :- PlanAuthentication(profileId, None, auth, checks);
    var registry :- NewRegistryPlan(profileId, request, checks);
    var document :- NewDocument(profileId, request, checks);
    if !kafka.authType.TypeNone? && request.transport != "tls" then Err(InvalidInput)
    else Ok(EditPlan(document, Some(kafka), registry))
  }

  /** A plan that starts from nothing retains, supersedes and retires nothing. */
  lemma NothingBefore(retained: map<Field, Reference>, replacements: seq<SecretReplacement>, retired: seq<Reference>)
    requires Splits(map[], retained, replacements, retired)
    ensures retained == map[] && retired == []
    ensures forall i :: 0 <= i < |replacements| ==> replacements[i].previous.None?
  {
    var empty: map<Field, Reference> := map[];
    assert forall r :: r in retired ==> r in empty.Values;
    Members(retired);
  }

  lemma Members<T>(items: seq<T>)
    ensures items == [] <==> forall item :: item !in items
  {
    assert items == [] || items[0] in items;
  }

  lemma PromisesStaged(staged: map<Field, Reference>, replacements: seq<SecretReplacement>)
    ensures Promised(map[], staged, replacements) ==
            map field | field in staged && Replaces(replacements, field) :: staged[field]
  {
  }

  /** A new profile's document belongs to it and holds exactly the references staged for it, and its
      plan gives up none. */
  lemma NewConserves(profileId: Uuid, request: NewRequest, checks: Checks, staged: map<Field, Reference>)
    requires IsCanonicalUuid(profileId) && PlanNew(profileId, request, checks).Ok?
    requires StagedFor(PlanNew(profileId, request, checks).value, profileId, staged)
    ensures var plan := PlanNew(profileId, request, checks).value;
            && plan.Retire() == []
            && (forall i :: 0 <= i < |plan.Replacements()| ==> plan.Replacements()[i].previous.None?)
            && ApplyPlans(plan, staged, checks).Some?
            && var document := ApplyPlans(plan, staged, checks).value;
            && document.id == profileId && WellOwned(document)
            && ProfileReferences(document).Values == staged.Values
  {
    hide IsCanonical, IsCanonicalUuid, PlanAuthentication, PlanRegistryAuthentication, Splits, KafkaReferences,
      RegistryReferences, IsKafkaField, AuthDocument, RegistryAuthDocument, RegistryTlsDocument, Promised, Retired;
    var plan := PlanNew(profileId, request, checks).value;
    var auth := if request.auth.None? then NoKafkaAuth else request.auth.value;
    KafkaPlanConserves(profileId, None, auth, checks);
    NoReferences();
    assert PlanConserves(map[], plan.kafka.value);
    NothingBefore(plan.kafka.value.retained, plan.kafka.value.replacements, plan.kafka.value.retired);
    var registry := if plan.registry.Some? then plan.registry.value.replacements else [];
    if plan.registry.Some? {
      RegistryPlanConserves(profileId, None, request.registryAuth.value, checks);
      assert RegistryPlanKeeps(map[], plan.registry.value, checks);
      NothingBefore(plan.registry.value.retained, plan.registry.value.replacements, plan.registry.value.retired);
    }
    ReplacesBoth(plan.kafka.value.replacements, registry);
    NewSections(plan, profileId, checks, staged, registry);
  }

  lemma NoReferences()
    ensures KafkaReferences(KafkaNone) == map[] && RegistryReferences(None) == map[]
    ensures forall registry: Registry ::
              RegistryReferences(Some(registry)) == AuthReferencesOf(registry.auth)
    ensures AuthReferencesOf(RegistryNone) == map[]
  {
  }

  lemma NewSections(plan: EditPlan, profileId: Uuid, checks: Checks, staged: map<Field, Reference>,
                    registry: seq<SecretReplacement>)
    requires IsCanonicalUuid(profileId) && StagedFor(plan, profileId, staged) && plan.kafka.Some?
    requires PlanConserves(map[], plan.kafka.value) && plan.kafka.value.retained == map[]
    requires plan.registry.Some? ==>
               RegistryPlanKeeps(map[], plan.registry.value, checks) && plan.registry.value.retained == map[]
    requires registry == if plan.registry.Some? then plan.registry.value.replacements else []
    requires forall field :: Replaces(plan.Replacements(), field) <==>
               Replaces(plan.kafka.value.replacements, field) || Replaces(registry, field)
    requires plan.registry.Some? ==> plan.updated.registry.Some?
    requires plan.updated.id == profileId
    requires plan.updated.registry.Some? ==> plan.updated.registry.value.auth == RegistryNone
    ensures ApplyPlans(plan, staged, checks).Some?
    ensures var document := ApplyPlans(plan, staged, checks).value;
            && document.id == profileId && WellOwned(document)
            && ProfileReferences(document).Values == staged.Values
  {
    hide IsCanonical, IsCanonicalUuid, Splits, KafkaReferences, RegistryReferences, IsKafkaField, AuthDocument,
      RegistryAuthDocument, RegistryTlsDocument, Promised, Retired, Replaces;
    var kafka := plan.kafka.value.replacements;
    assert forall field :: Replaces(kafka, field) ==> IsKafkaField(field) by { ReplacedFields(kafka, true); }
    assert forall field :: Replaces(registry, field) ==> !IsKafkaField(field) by { ReplacedFields(registry, false); }
    assert StagesExactly(staged, kafka, true);
    assert StagesExactly(staged, registry, false);
    var document := ApplyPlans(plan, staged, checks).value;
    NoReferences();
    PromisesStaged(staged, kafka);
    PromisesStaged(staged, registry);
    PromisedOwned(map[], staged, kafka, profileId);
    PromisedOwned(map[], staged, registry, profileId);
    var held, kept := KafkaReferences(document.kafka.auth), RegistryReferences(document.registry);
    assert held == Promised(map[], staged, kafka);
    if plan.registry.Some? {
      var requested := plan.registry.value;
      assert registry == requested.replacements && StagesExactly(staged, requested.replacements, false);
      assert RegistryAuthDocument(requested, staged, checks).Some?;
      assert kept == AuthReferencesOf(RegistryAuthDocument(requested, staged, checks).value);
    } else if document.registry.Some? {
      assert kept == AuthReferencesOf(RegistryNone);
    }
    assert kept == if plan.registry.Some? then Promised(map[], staged, registry) else map[];
    SectionsOwned(document);
    SectionValues(document);
    forall r | r in staged.Values ensures r in held.Values || r in kept.Values {
      var field :| field in staged && staged[field] == r;
      if Replaces(kafka, field) {
        assert held[field] == r;
      } else {
        assert Replaces(registry, field);
        assert plan.registry.Some? by { NoneReplaced(); }
        assert kept[field] == r;
      }
    }
  }

  lemma NoneReplaced()
    ensures forall field :: !Replaces([], field)
  {
  }

  lemma ReplacedFields(replacements: seq<SecretReplacement>, kafka: bool)
    requires forall i :: 0 <= i < |replacements| ==> IsKafkaField(replacements[i].field) == kafka
    ensures forall field :: Replaces(replacements, field) ==> IsKafkaField(field) == kafka
  {
  }
}
