/** Profile edits: how one edit changes a document and which references it replaces
    (`profile_documents.py`, `profiles.py`). */
module ProfileEdits {
  import opened Wrappers
  import opened References
  import opened Documents
  import opened ProfileAuth
  import opened RegistryAuthPlans

  datatype EditRequest = EditRequest(
    bootstrapServers: Option<seq<string>>, description: Option<string>, clearDescription: bool,
    labels: map<string, string>, removeLabels: set<string>, transport: Option<string>,
    caCertificates: Option<string>, defaultTrust: bool, auth: Option<KafkaAuthInput>,
    registryProvider: Option<string>, registryUrl: Option<string>, registryAuth: Option<RegistryAuthInput>,
    removeRegistry: bool)

  /** `validate_edit_request`. */
  predicate AcceptsRequest(request: EditRequest) {
    && (request.bootstrapServers.Some? || request.description.Some? || request.clearDescription ||
        request.labels != map[] || request.removeLabels != {} || request.transport.Some? ||
        request.caCertificates.Some? || request.defaultTrust || request.auth.Some? ||
        request.registryProvider.Some? || request.registryUrl.Some? || request.registryAuth.Some? ||
        request.removeRegistry)
    && !(request.description.Some? && request.clearDescription)
    && !(request.removeRegistry &&
         (request.registryProvider.Some? || request.registryUrl.Some? || request.registryAuth.Some?))
    && request.labels.Keys !! request.removeLabels
    && !(request.caCertificates.Some? && request.transport == Some("plaintext"))
    && !(request.caCertificates.Some? && request.defaultTrust)
    && !(request.defaultTrust && request.transport == Some("plaintext"))
  }

  /** `_apply_kafka_transport_edits`; an empty TLS section is the same as none. */
  function EditTransport(kafka: Kafka, request: EditRequest, checks: Checks): Result<Kafka, AuthError> {
    var moved :=
      if request.transport.None? then kafka
      else if request.transport.value == "plaintext" then kafka.(transport := "plaintext", caCertificates := None)
      else kafka.(transport := request.transport.value);
    if request.caCertificates.None? then
      if !request.defaultTrust then Ok(moved)
      else if moved.transport != "tls" then Err(InvalidInput)
      else Ok(moved.(caCertificates := None))
    else if moved.transport != "tls" then Err(InvalidInput)
    else
      var bundle := checks.caBundle(request.caCertificates.value);
      if bundle.None? then Err(InvalidInput) else Ok(moved.(caCertificates := bundle))
  }

  /** `_apply_registry_edits`: a provider or URL change keeps trust and authentication. */
  function EditRegistry(existing: Option<Registry>, request: EditRequest): Result<Option<Registry>, AuthError> {
    if request.removeRegistry then Ok(None)
    else if request.registryProvider.None? && request.registryUrl.None? then Ok(existing)
    else if existing.None? then
      if request.registryUrl.None? then Err(InvalidInput)
      else
        var provider := if Given(request.registryProvider) then request.registryProvider.value else "confluent";
        Ok(Some(Registry(provider, request.registryUrl.value, None, RegistryNone)))
    else if request.registryProvider.Some? && request.registryProvider.value != existing.value.provider &&
            request.registryUrl.None? then
      Err(InvalidInput)
    else
      var provider := if Given(request.registryProvider) then request.registryProvider.value
                      else existing.value.provider;
      var url := if request.registryUrl.Some? then request.registryUrl.value else existing.value.url;
      Ok(Some(existing.value.(provider := provider, url := url)))
  }

  /** `apply_profile_edits`. */
  function ApplyEdits(current: Document, request: EditRequest, checks: Checks): Result<Document, AuthError> {
    var servers := current.kafka.(
      bootstrapServers := if request.bootstrapServers.Some? then request.bootstrapServers.value
                          else current.kafka.bootstrapServers);
    var kafka :- EditTransport(servers, request, checks);
    var registry :- EditRegistry(current.registry, request);
    Ok(current.(
       description := if request.clearDescription then None
                      else if request.description.Some? then request.description
                      else current.description,
       labels := (current.labels + request.labels) - request.removeLabels,
       kafka := kafka,
       registry := registry))
  }

  /** `requested_registry_edit_plan`: dropping the Registry retires what it held. */
  function RegistryEditPlan(current: Document, updated: Document, requested: Option<RegistryAuthInput>, checks: Checks):
    Result<Option<RegistryAuthPlan>, AuthError>
  {
    if requested.Some? then
      var plan :- PlanRegistryAuthentication(current.id, current.registry, requested.value, checks);
      Ok(Some(plan))
    else if current.registry.Some? && updated.registry.Some? &&
            current.registry.value.provider != updated.registry.value.provider && !checks.storable(updated) then
      Err(InvalidInput)
    else
      var before :- OwnedReferences(RegistryReferences(current.registry), current.id);
      if before == map[] then Ok(None)
      else
        var after :- OwnedReferences(RegistryReferences(updated.registry), current.id);
        if before.Values == after.Values then Ok(None)
        else Ok(Some(RegistryAuthPlan(NoRegistryAuth, map[], [], Retired(FIELD_ORDER, before, map[], []))))
  }

  /** Everything `edit_profile` decides before it touches a store. */
  datatype EditPlan = EditPlan(updated: Document, kafka: Option<AuthPlan>, registry: Option<RegistryAuthPlan>)
  {
    function Replacements(): seq<SecretReplacement> {
      (if kafka.Some? then kafka.value.replacements else []) +
      (if registry.Some? then registry.value.replacements else [])
    }

    function Retire(): seq<Reference> {
      (if kafka.Some? then kafka.value.retired else []) + (if registry.Some? then registry.value.retired else [])
    }
  }

  function PlanEdit(current: Document, request: EditRequest, checks: Checks): Result<EditPlan, AuthError> {
    if !AcceptsRequest(request) then Err(InvalidInput)
    else
      var updated :- ApplyEdits(current, request, checks);
      if request.auth.None? then
        var registry :- RegistryEditPlan(current, updated, request.registryAuth, checks);
        Ok(EditPlan(updated, None, registry))
      else
        var kafka :- PlanAuthentication(current.id, Some(current.kafka.auth), request.auth.value, checks);
        if !kafka.authType.TypeNone? && updated.kafka.transport != "tls" then Err(InvalidInput)
        else
          var registry :- RegistryEditPlan(current, updated, request.registryAuth, checks);
          Ok(EditPlan(updated, Some(kafka), registry))
  }

  /** `apply_edit_authentication_plans`. A Registry plan is skipped when the edited document has no
      Registry section. */
  function ApplyPlans(plan: EditPlan, staged: map<Field, Reference>, checks: Checks): Option<Document> {
    var auth := if plan.kafka.None? then Some(plan.updated.kafka.auth) else AuthDocument(plan.kafka.value, staged);
    if auth.None? then None
    else
      var document := plan.updated.(kafka := plan.updated.kafka.(auth := auth.value));
      if plan.registry.None? || document.registry.None? then Some(document)
      else
        var registryAuth := RegistryAuthDocument(plan.registry.value, staged, checks);
        if registryAuth.None? then None
        else
          Some(document.(registry := Some(document.registry.value.(
                 auth := registryAuth.value, tls := RegistryTlsDocument(plan.registry.value, checks)))))
  }

  /** The staged references: one per replaced field, minted for this profile and field. */
  ghost predicate StagedFor(plan: EditPlan, profileId: Uuid, staged: map<Field, Reference>) {
    && Owned(staged, profileId)
    && forall field :: field in staged <==> Replaces(plan.Replacements(), field)
  }

  /** The document holds exactly the new references and the current ones that were not given up. */
  ghost predicate Conserved(current: map<Field, Reference>, plan: EditPlan, staged: map<Field, Reference>,
                            after: map<Field, Reference>) {
    forall r :: r in after.Values <==>
      r in staged.Values ||
      (r in current.Values && !Superseded(plan.Replacements(), r) && r !in plan.Retire())
  }

  /** The guard of `profile_auth.py:97`: a Registry plan that replaces secrets finds its section. */
  predicate KeepsRegistrySection(plan: EditPlan) {
    plan.registry.Some? && plan.registry.value.replacements != [] ==> plan.updated.registry.Some?
  }

  /** The same guard, told from the request: Registry credentials are set up only where a Registry is stored or its
      URL is given. */
  predicate OffersRegistry(current: Document, request: EditRequest) {
    request.registryAuth.Some? && !request.registryAuth.value.authType.NoneAuth? ==>
      current.registry.Some? || request.registryUrl.Some?
  }

  lemma OffersRegistryExactly(current: Document, request: EditRequest, checks: Checks)
    requires WellOwned(current) && PlanEdit(current, request, checks).Ok?
    ensures KeepsRegistrySection(PlanEdit(current, request, checks).value) <==> OffersRegistry(current, request)
  {
    hide IsCanonical, IsCanonicalUuid, PlanAuthentication, PlanRegistryAuthentication, WellOwned, KafkaReferences, Retired,
      EditTransport;
    var plan := PlanEdit(current, request, checks).value;
    if request.registryAuth.Some? {
      RequestedReplaces(current, request.registryAuth.value, checks);
    } else if plan.registry.Some? {
      assert plan.registry.value.replacements == [];
    }
  }

  /** Without a stored Registry, credentials are replaced exactly when the request has some. */
  lemma RequestedReplaces(current: Document, requested: RegistryAuthInput, checks: Checks)
    requires PlanRegistryAuthentication(current.id, current.registry, requested, checks).Ok?
    ensures var plan := PlanRegistryAuthentication(current.id, current.registry, requested, checks).value;
            && (requested.authType.NoneAuth? ==> plan.replacements == [])
            && (current.registry.None? && !requested.authType.NoneAuth? ==> plan.replacements != [])
  {
    hide IsCanonical, Retired, AcceptsInput, AcceptsNone;
  }

  lemma {:induction false} ReplacesBoth(left: seq<SecretReplacement>, right: seq<SecretReplacement>)
    ensures forall field :: Replaces(left + right, field) <==> Replaces(left, field) || Replaces(right, field)
    ensures forall r :: Superseded(left + right, r) <==> Superseded(left, r) || Superseded(right, r)
  {
    var both := left + right;
    forall field ensures Replaces(both, field) <==> Replaces(left, field) || Replaces(right, field) {
      if i :| 0 <= i < |left| && left[i].field == field {
        assert both[i].field == field;
      }
      if i :| 0 <= i < |right| && right[i].field == field {
        assert both[|left| + i].field == field;
      }
    }
    forall r ensures Superseded(both, r) <==> Superseded(left, r) || Superseded(right, r) {
      if i :| 0 <= i < |left| && left[i].previous == Some(r) {
        assert both[i].previous == Some(r);
      }
      if i :| 0 <= i < |right| && right[i].previous == Some(r) {
        assert both[|left| + i].previous == Some(r);
      }
    }
  }

  /** One section's plan, seen from the references it starts from and the ones it ends with. */
  ghost predicate SectionConserves(before: map<Field, Reference>, after: map<Field, Reference>,
                                   replacements: seq<SecretReplacement>, retired: seq<Reference>,
                                   staged: map<Field, Reference>) {
    && (forall r :: r in after.Values <==>
          (exists field :: field in staged && Replaces(replacements, field) && staged[field] == r) ||
          (r in before.Values && !Superseded(replacements, r) && r !in retired))
    && (forall r :: Superseded(replacements, r) || r in retired ==> r in before.Values)
  }

  lemma SplitConserves(before: map<Field, Reference>, retained: map<Field, Reference>,
                       replacements: seq<SecretReplacement>, retired: seq<Reference>,
                       staged: map<Field, Reference>)
    requires Splits(before, retained, replacements, retired)
    requires forall field, other :: field in before && other in before && field != other ==>
               before[field] != before[other]
    requires forall field :: Replaces(replacements, field) ==> field in staged
    ensures SectionConserves(before, Promised(retained, staged, replacements), replacements, retired, staged)
  {
    var after := Promised(retained, staged, replacements);
    forall r | r in retained.Values ensures !Superseded(replacements, r) {
      var field :| field in retained && retained[field] == r;
      assert forall i :: 0 <= i < |replacements| ==> replacements[i].field != field;
    }
    forall r ensures r in after.Values <==>
      (exists field :: field in staged && Replaces(replacements, field) && staged[field] == r) ||
      r in retained.Values
    {
      if r in retained.Values {
        var field :| field in retained && retained[field] == r;
        assert after[field] == r;
      }
      if field :| field in staged && Replaces(replacements, field) && staged[field] == r {
        assert field !in retained;
        assert after[field] == r;
      }
    }
  }

  lemma UntouchedSection(before: map<Field, Reference>, staged: map<Field, Reference>)
    ensures SectionConserves(before, before, [], [], staged)
  {
  }

  lemma Injective(references: map<Field, Reference>, profileId: Uuid)
    requires Owned(references, profileId)
    ensures forall field, other :: field in references && other in references && field != other ==>
              references[field] != references[other]
  {
    hide IsCanonical;
  }

  lemma KafkaSection(current: Document, request: EditRequest, checks: Checks, staged: map<Field, Reference>)
    requires WellOwned(current) && PlanEdit(current, request, checks).Ok?
    requires StagedFor(PlanEdit(current, request, checks).value, current.id, staged)
    ensures var plan := PlanEdit(current, request, checks).value;
            && (plan.kafka.Some? ==> AuthDocument(plan.kafka.value, staged).Some?)
            && var auth := if plan.kafka.None? then plan.updated.kafka.auth
                           else AuthDocument(plan.kafka.value, staged).value;
            SectionConserves(KafkaReferences(current.kafka.auth), KafkaReferences(auth),
                             if plan.kafka.Some? then plan.kafka.value.replacements else [],
                             if plan.kafka.Some? then plan.kafka.value.retired else [], staged)
  {
    hide IsCanonical, PlanAuthentication, SectionConserves, Splits, AcceptsRequest, RegistryEditPlan;
    var plan := PlanEdit(current, request, checks).value;
    var before := KafkaReferences(current.kafka.auth);
    OwnedSections(current);
    Injective(before, current.id);
    if plan.kafka.None? {
      UntouchedSection(before, staged);
    } else {
      KafkaPlanConserves(current.id, Some(current.kafka.auth), request.auth.value, checks);
      StagedBySection(current, request, checks, staged);
      assert PlanConserves(before, plan.kafka.value);
      assert StagesExactly(staged, plan.kafka.value.replacements, true);
      SplitConserves(before, plan.kafka.value.retained, plan.kafka.value.replacements, plan.kafka.value.retired,
                     staged);
    }
  }

  lemma SectionFields(document: Document)
    ensures forall field :: field in KafkaReferences(document.kafka.auth) ==> IsKafkaField(field)
    ensures forall field :: field in RegistryReferences(document.registry) ==> !IsKafkaField(field)
  {
  }

  lemma OwnedSections(document: Document)
    requires WellOwned(document)
    ensures Owned(KafkaReferences(document.kafka.auth), document.id)
    ensures Owned(RegistryReferences(document.registry), document.id)
    ensures forall r :: r in ProfileReferences(document).Values <==>
              r in KafkaReferences(document.kafka.auth).Values || r in RegistryReferences(document.registry).Values
    ensures KafkaReferences(document.kafka.auth).Values !! RegistryReferences(document.registry).Values
  {
    hide IsCanonical, KafkaReferences, RegistryReferences, IsKafkaField;
    SectionFields(document);
    var kafka, registry, both := KafkaReferences(document.kafka.auth), RegistryReferences(document.registry),
      ProfileReferences(document);
    assert forall field :: field in kafka ==> IsKafkaField(field) && both[field] == kafka[field];
    assert forall field :: field in registry ==> !IsKafkaField(field) && both[field] == registry[field];
  }

  /** The fields both plans replace, told apart by section. */
  lemma StagedBySection(current: Document, request: EditRequest, checks: Checks, staged: map<Field, Reference>)
    requires WellOwned(current) && PlanEdit(current, request, checks).Ok?
    requires StagedFor(PlanEdit(current, request, checks).value, current.id, staged)
    ensures var plan := PlanEdit(current, request, checks).value;
            && StagesExactly(staged, if plan.kafka.Some? then plan.kafka.value.replacements else [], true)
            && StagesExactly(staged, if plan.registry.Some? then plan.registry.value.replacements else [], false)
            && (forall field :: Replaces(if plan.kafka.Some? then plan.kafka.value.replacements else [], field) ==>
                  IsKafkaField(field))
            && (forall field :: Replaces(if plan.registry.Some? then plan.registry.value.replacements else [], field)
                  ==> !IsKafkaField(field))
  {
    hide IsCanonical, PlanAuthentication, PlanRegistryAuthentication, Splits, AcceptsRequest, KafkaReferences,
      RegistryReferences, IsKafkaField, AuthDocument, RegistryAuthDocument, Promised, ApplyEdits;
    var plan := PlanEdit(current, request, checks).value;
    ReplacesBoth(if plan.kafka.Some? then plan.kafka.value.replacements else [],
                 if plan.registry.Some? then plan.registry.value.replacements else []);
    if plan.kafka.Some? {
      KafkaPlanConserves(current.id, Some(current.kafka.auth), request.auth.value, checks);
    }
    if request.registryAuth.Some? {
      RegistryPlanConserves(current.id, current.registry, request.registryAuth.value, checks);
    }
  }

  /** The Registry section of an edit that finds its section. */
  lemma RegistrySection(current: Document, request: EditRequest, checks: Checks, staged: map<Field, Reference>)
    requires WellOwned(current) && PlanEdit(current, request, checks).Ok?
    requires StagedFor(PlanEdit(current, request, checks).value, current.id, staged)
    requires KeepsRegistrySection(PlanEdit(current, request, checks).value)
    ensures var plan := PlanEdit(current, request, checks).value;
            && ApplyPlans(plan, staged, checks).Some?
            && SectionConserves(RegistryReferences(current.registry),
                                RegistryReferences(ApplyPlans(plan, staged, checks).value.registry),
                                if plan.registry.Some? then plan.registry.value.replacements else [],
                                if plan.registry.Some? then plan.registry.value.retired else [], staged)
  {
    hide IsCanonical, PlanAuthentication, SectionConserves, Splits, KafkaReferences, RegistryReferences, EditTransport,
      IsKafkaField, RegistryTlsDocument, AuthDocument;
    var plan := PlanEdit(current, request, checks).value;
    var before := RegistryReferences(current.registry);
    OwnedSections(current);
    Injective(before, current.id);
    KafkaSection(current, request, checks, staged);
    StagedBySection(current, request, checks, staged);
    if request.registryAuth.Some? {
      RequestedRegistrySection(current, request, checks, staged);
    } else {
      RetainedRegistrySection(current, request, checks, staged);
    }
  }

  lemma SameReferences(left: Registry, right: Option<Registry>)
    ensures RegistryReferences(Some(left)) == AuthReferencesOf(left.auth)
    ensures right == None ==> RegistryReferences(right) == map[]
  {
  }

  lemma RequestedRegistrySection(current: Document, request: EditRequest, checks: Checks,
                                 staged: map<Field, Reference>)
    requires WellOwned(current) && PlanEdit(current, request, checks).Ok? && request.registryAuth.Some?
    requires KeepsRegistrySection(PlanEdit(current, request, checks).value)
    requires var plan := PlanEdit(current, request, checks).value;
             && StagesExactly(staged, plan.registry.value.replacements, false)
             && (forall field :: Replaces(plan.registry.value.replacements, field) ==> !IsKafkaField(field))
             && (plan.kafka.Some? ==> AuthDocument(plan.kafka.value, staged).Some?)
    ensures var plan := PlanEdit(current, request, checks).value;
            && ApplyPlans(plan, staged, checks).Some?
            && SectionConserves(RegistryReferences(current.registry),
                                RegistryReferences(ApplyPlans(plan, staged, checks).value.registry),
                                plan.registry.value.replacements, plan.registry.value.retired, staged)
  {
    hide IsCanonical, PlanAuthentication, PlanRegistryAuthentication, SectionConserves, Splits, KafkaReferences,
      RegistryReferences, EditTransport, RegistryTlsDocument, AuthDocument, RegistryAuthDocument, IsKafkaField, Promised;
    var plan := PlanEdit(current, request, checks).value;
    var registry := plan.registry.value;
    var before := RegistryReferences(current.registry);
    OwnedSections(current);
    Injective(before, current.id);
    RegistryPlanConserves(current.id, current.registry, request.registryAuth.value, checks);
    assert RegistryPlanKeeps(before, registry, checks);
    SplitConserves(before, registry.retained, registry.replacements, registry.retired, staged);
    if plan.updated.registry.Some? {
      var document := ApplyPlans(plan, staged, checks).value;
      SameReferences(document.registry.value, None);
    } else {
      // Without a section nothing was stored before either, since this request does not remove one.
      assert current.registry.None?;
      SameReferences(Registry("", "", None, RegistryNone), None);
      NothingPromised(registry, staged);
    }
  }

  lemma NothingPromised(plan: RegistryAuthPlan, staged: map<Field, Reference>)
    requires plan.replacements == [] && Splits(map[], plan.retained, plan.replacements, plan.retired)
    ensures Promised(plan.retained, staged, plan.replacements) == map[]
  {
  }

  /** Providers and URLs change around the Registry authentication, never in it. */
  lemma KeptSection(current: Document, request: EditRequest, checks: Checks)
    requires PlanEdit(current, request, checks).Ok? && request.registryAuth.None?
    requires PlanEdit(current, request, checks).value.updated.registry.Some?
    requires Owned(RegistryReferences(current.registry), current.id)
    ensures var plan := PlanEdit(current, request, checks).value;
            plan.registry.None? && RegistryReferences(plan.updated.registry) == RegistryReferences(current.registry)
  {
    hide IsCanonical, PlanAuthentication, KafkaReferences, EditTransport, Retired, AcceptsRequest,
      PlanRegistryAuthentication;
    Injective(RegistryReferences(current.registry), current.id);
  }

  lemma RetainedRegistrySection(current: Document, request: EditRequest, checks: Checks,
                                staged: map<Field, Reference>)
    requires WellOwned(current) && PlanEdit(current, request, checks).Ok? && request.registryAuth.None?
    requires var plan := PlanEdit(current, request, checks).value;
             plan.kafka.Some? ==> AuthDocument(plan.kafka.value, staged).Some?
    ensures var plan := PlanEdit(current, request, checks).value;
            && ApplyPlans(plan, staged, checks).Some?
            && SectionConserves(RegistryReferences(current.registry),
                                RegistryReferences(ApplyPlans(plan, staged, checks).value.registry),
                                if plan.registry.Some? then plan.registry.value.replacements else [],
                                if plan.registry.Some? then plan.registry.value.retired else [], staged)
  {
    hide IsCanonical, PlanAuthentication, Splits, KafkaReferences, EditTransport, RegistryTlsDocument, AuthDocument,
      SectionConserves, Retired, AcceptsRequest, PlanRegistryAuthentication;
    var plan := PlanEdit(current, request, checks).value;
    var before, after := RegistryReferences(current.registry), RegistryReferences(plan.updated.registry);
    OwnedSections(current);
    Injective(before, current.id);
    if plan.updated.registry.Some? {
      KeptSection(current, request, checks);
      UntouchedSection(before, staged);
    } else if plan.registry.Some? {
      assert after == map[];
      LeftoversSplit(current.id, before, map[], []);
      SplitConserves(before, map[], [], plan.registry.value.retired, staged);
      assert Promised(map[], staged, []) == map[];
    } else {
      assert after == map[];
      UntouchedSection(before, staged);
    }
  }

  /** Every accepted edit that finds its Registry section conserves references: its document holds
      exactly the staged ones and the current ones it neither superseded nor retired. */
  lemma EditConserves(current: Document, request: EditRequest, checks: Checks, staged: map<Field, Reference>)
    requires WellOwned(current) && PlanEdit(current, request, checks).Ok?
    requires StagedFor(PlanEdit(current, request, checks).value, current.id, staged)
    requires KeepsRegistrySection(PlanEdit(current, request, checks).value)
    ensures var plan := PlanEdit(current, request, checks).value;
            && ApplyPlans(plan, staged, checks).Some?
            && Conserved(ProfileReferences(current), plan, staged,
                         ProfileReferences(ApplyPlans(plan, staged, checks).value))
  {
    hide IsCanonical, PlanEdit, ApplyPlans, KafkaReferences, RegistryReferences;
    KafkaSection(current, request, checks, staged);
    RegistrySection(current, request, checks, staged);
    CombineSections(current, request, checks, staged);
  }

  lemma CombineSections(current: Document, request: EditRequest, checks: Checks, staged: map<Field, Reference>)
    requires WellOwned(current) && PlanEdit(current, request, checks).Ok?
    requires StagedFor(PlanEdit(current, request, checks).value, current.id, staged)
    requires KeepsRegistrySection(PlanEdit(current, request, checks).value)
    ensures var plan := PlanEdit(current, request, checks).value;
            && ApplyPlans(plan, staged, checks).Some?
            && Conserved(ProfileReferences(current), plan, staged,
                         ProfileReferences(ApplyPlans(plan, staged, checks).value))
  {
    hide IsCanonical, PlanEdit, KafkaReferences, RegistryReferences, AuthDocument, RegistryAuthDocument,
      RegistryTlsDocument, IsKafkaField, Replaces, Superseded, ProfileReferences, WellOwned;
    var plan := PlanEdit(current, request, checks).value;
    KafkaSection(current, request, checks, staged);
    RegistrySection(current, request, checks, staged);
    ReplacesBoth(if plan.kafka.Some? then plan.kafka.value.replacements else [],
                 if plan.registry.Some? then plan.registry.value.replacements else []);
    var document := ApplyPlans(plan, staged, checks).value;
    OwnedSections(current);
    SectionValues(document);
  }

  /** A Registry plan that is skipped loses the secrets staged for it: no section refers to them. */
  lemma SkippedPlanLosesSecrets(current: Document, request: EditRequest, checks: Checks, staged: map<Field, Reference>)
    requires WellOwned(current) && PlanEdit(current, request, checks).Ok?
    requires StagedFor(PlanEdit(current, request, checks).value, current.id, staged)
    requires !KeepsRegistrySection(PlanEdit(current, request, checks).value)
    ensures var plan := PlanEdit(current, request, checks).value;
            && ApplyPlans(plan, staged, checks).Some?
            && !Conserved(ProfileReferences(current), plan, staged,
                          ProfileReferences(ApplyPlans(plan, staged, checks).value))
  {
    hide IsCanonical, KafkaReferences, RegistryReferences, AuthDocument, RegistryAuthDocument,
      RegistryTlsDocument, IsKafkaField, Superseded, WellOwned, AcceptsRequest, ApplyEdits, PlanAuthentication,
      RegistryEditPlan, SectionConserves, Conserved;
    var plan := PlanEdit(current, request, checks).value;
    KafkaSection(current, request, checks, staged);
    StagedBySection(current, request, checks, staged);
    var document := ApplyPlans(plan, staged, checks).value;
    var lost := plan.registry.value.replacements[0].field;
    assert Replaces(plan.registry.value.replacements, lost);
    ReplacesBoth(if plan.kafka.Some? then plan.kafka.value.replacements else [], plan.registry.value.replacements);
    assert lost in staged && staged[lost].field == lost && !IsKafkaField(lost);
    OwnedSections(current);
    KafkaSectionFields(current, plan, document, staged);
    SectionValues(document);
    NoRegistryReferences();
    assert staged[lost] in staged.Values;
    assert staged[lost] !in ProfileReferences(document).Values;
    Unconserved(ProfileReferences(current), plan, staged, ProfileReferences(document), staged[lost]);
  }

  lemma NoRegistryReferences()
    ensures RegistryReferences(None) == map[]
  {
  }

  lemma Unconserved(current: map<Field, Reference>, plan: EditPlan, staged: map<Field, Reference>,
                    after: map<Field, Reference>, lost: Reference)
    requires lost in staged.Values && lost !in after.Values
    ensures !Conserved(current, plan, staged, after)
  {
  }

  lemma KafkaSectionFields(current: Document, plan: EditPlan, document: Document, staged: map<Field, Reference>)
    requires Owned(KafkaReferences(current.kafka.auth), current.id) && Owned(staged, current.id)
    requires forall field :: Replaces(if plan.kafka.Some? then plan.kafka.value.replacements else [], field) ==>
               IsKafkaField(field)
    requires SectionConserves(KafkaReferences(current.kafka.auth), KafkaReferences(document.kafka.auth),
                              if plan.kafka.Some? then plan.kafka.value.replacements else [],
                              if plan.kafka.Some? then plan.kafka.value.retired else [], staged)
    ensures forall r :: r in KafkaReferences(document.kafka.auth).Values ==> IsKafkaField(r.field)
  {
    hide IsCanonical;
    assert forall field :: field in KafkaReferences(current.kafka.auth) ==> IsKafkaField(field);
  }

  /** An edit conserves references exactly when Registry credentials are set up only for a Registry. */
  lemma EditConservesExactly(current: Document, request: EditRequest, checks: Checks, staged: map<Field, Reference>)
    requires WellOwned(current) && PlanEdit(current, request, checks).Ok?
    requires StagedFor(PlanEdit(current, request, checks).value, current.id, staged)
    ensures var plan := PlanEdit(current, request, checks).value;
            && ApplyPlans(plan, staged, checks).Some?
            && (Conserved(ProfileReferences(current), plan, staged,
                          ProfileReferences(ApplyPlans(plan, staged, checks).value))
                <==> OffersRegistry(current, request))
  {
    hide Conserved, KeepsRegistrySection, StagedFor, PlanEdit, ApplyPlans, ProfileReferences, WellOwned;
    OffersRegistryExactly(current, request, checks);
    if KeepsRegistrySection(PlanEdit(current, request, checks).value) {
      EditConserves(current, request, checks, staged);
    } else {
      SkippedPlanLosesSecrets(current, request, checks, staged);
    }
  }

  /** The failing input: a Registry password for a profile that has no Registry. */
  lemma PasswordWithoutRegistry(current: Document, checks: Checks)
    requires current.registry.None? && WellOwned(current)
    ensures var auth := NoRegistryAuth.(authType := BasicAuth, username := Some("user"), password := Some("secret"));
            var request := EditRequest(None, None, false, map[], {}, None, None, false, None, None, None, Some(auth),
                                       false);
            && PlanEdit(current, request, checks).Ok?
            && !KeepsRegistrySection(PlanEdit(current, request, checks).value) && !OffersRegistry(current, request)
  {
    hide IsCanonical;
    NoRegistryReferences();
  }

  lemma SectionValues(document: Document)
    ensures forall r :: r in ProfileReferences(document).Values <==>
              r in KafkaReferences(document.kafka.auth).Values || r in RegistryReferences(document.registry).Values
  {
    var kafka, registry, both := KafkaReferences(document.kafka.auth), RegistryReferences(document.registry),
      ProfileReferences(document);
    assert kafka.Keys !! registry.Keys;
    assert forall field :: field in kafka ==> both[field] == kafka[field];
    assert forall field :: field in registry ==> both[field] == registry[field];
  }

  // Ownership

  lemma PromisedOwned(retained: map<Field, Reference>, staged: map<Field, Reference>,
                      replacements: seq<SecretReplacement>, profileId: Uuid)
    requires Owned(retained, profileId) && Owned(staged, profileId)
    ensures Owned(Promised(retained, staged, replacements), profileId)
  {
    hide IsCanonical;
  }

  lemma SectionsOwned(document: Document)
    requires IsCanonicalUuid(document.id)
    requires Owned(KafkaReferences(document.kafka.auth), document.id)
    requires Owned(RegistryReferences(document.registry), document.id)
    ensures WellOwned(document)
  {
    hide IsCanonical, IsCanonicalUuid;
    var kafka, registry, both := KafkaReferences(document.kafka.auth), RegistryReferences(document.registry),
      ProfileReferences(document);
    assert kafka.Keys !! registry.Keys;
    assert forall field :: field in both ==>
      if field in registry then both[field] == registry[field] else field in kafka && both[field] == kafka[field];
  }

  /** The edited document still belongs to the same profile and owns every reference it holds. */
  lemma EditOwns(current: Document, request: EditRequest, checks: Checks, staged: map<Field, Reference>)
    requires WellOwned(current) && PlanEdit(current, request, checks).Ok?
    requires StagedFor(PlanEdit(current, request, checks).value, current.id, staged)
    requires ApplyPlans(PlanEdit(current, request, checks).value, staged, checks).Some?
    ensures var document := ApplyPlans(PlanEdit(current, request, checks).value, staged, checks).value;
            document.id == current.id && WellOwned(document)
  {
    hide IsCanonical, IsCanonicalUuid, PlanAuthentication, PlanRegistryAuthentication, Splits, KafkaReferences,
      RegistryReferences, IsKafkaField, AuthDocument, RegistryAuthDocument, RegistryTlsDocument, Promised,
      AcceptsRequest, EditTransport, ApplyPlans, Retired;
    var plan := PlanEdit(current, request, checks).value;
    var document := ApplyPlans(plan, staged, checks).value;
    OwnedSections(current);
    EditedSections(current, request, checks, staged);
    StagedBySection(current, request, checks, staged);
    if plan.kafka.Some? {
      KafkaPlanConserves(current.id, Some(current.kafka.auth), request.auth.value, checks);
      assert PlanConserves(KafkaReferences(current.kafka.auth), plan.kafka.value);
      RetainedOwned(KafkaReferences(current.kafka.auth), plan.kafka.value.retained, plan.kafka.value.replacements,
                    plan.kafka.value.retired, current.id);
      PromisedOwned(plan.kafka.value.retained, staged, plan.kafka.value.replacements, current.id);
    }
    EditOwnsRegistry(current, request, checks, staged);
    SectionsOwned(document);
  }

  lemma RetainedOwned(current: map<Field, Reference>, retained: map<Field, Reference>,
                      replacements: seq<SecretReplacement>, retired: seq<Reference>, profileId: Uuid)
    requires Owned(current, profileId) && Splits(current, retained, replacements, retired)
    ensures Owned(retained, profileId)
  {
    hide IsCanonical;
  }

  lemma EditedSections(current: Document, request: EditRequest, checks: Checks, staged: map<Field, Reference>)
    requires PlanEdit(current, request, checks).Ok?
    requires ApplyPlans(PlanEdit(current, request, checks).value, staged, checks).Some?
    ensures var plan := PlanEdit(current, request, checks).value;
            var document := ApplyPlans(plan, staged, checks).value;
            && document.id == current.id
            && (plan.kafka.None? ==> document.kafka.auth == current.kafka.auth)
            && (plan.kafka.Some? ==> AuthDocument(plan.kafka.value, staged) == Some(document.kafka.auth))
  {
    hide PlanAuthentication, PlanRegistryAuthentication, KafkaReferences, RegistryReferences, AuthDocument,
      RegistryAuthDocument, RegistryTlsDocument, AcceptsRequest, RegistryEditPlan;
  }

  lemma EditOwnsRegistry(current: Document, request: EditRequest, checks: Checks, staged: map<Field, Reference>)
    requires WellOwned(current) && PlanEdit(current, request, checks).Ok?
    requires StagedFor(PlanEdit(current, request, checks).value, current.id, staged)
    requires ApplyPlans(PlanEdit(current, request, checks).value, staged, checks).Some?
    ensures Owned(RegistryReferences(ApplyPlans(PlanEdit(current, request, checks).value, staged, checks).value.registry),
                  current.id)
  {
    hide IsCanonical, IsCanonicalUuid, PlanAuthentication, PlanRegistryAuthentication, Splits, KafkaReferences,
      IsKafkaField, AuthDocument, RegistryAuthDocument, RegistryTlsDocument, Promised, AcceptsRequest, EditTransport,
      Retired, SectionConserves, StagedFor;
    var plan := PlanEdit(current, request, checks).value;
    var document := ApplyPlans(plan, staged, checks).value;
    OwnedSections(current);
    if document.registry.Some? {
      if request.registryAuth.Some? {
        RequestedOwned(current, request, checks, staged);
      } else {
        RetainedRegistrySection(current, request, checks, staged);
        KeptOwned(current, document);
      }
    }
  }

  lemma RequestedOwned(current: Document, request: EditRequest, checks: Checks, staged: map<Field, Reference>)
    requires WellOwned(current) && PlanEdit(current, request, checks).Ok? && request.registryAuth.Some?
    requires StagedFor(PlanEdit(current, request, checks).value, current.id, staged)
    requires ApplyPlans(PlanEdit(current, request, checks).value, staged, checks).Some?
    requires ApplyPlans(PlanEdit(current, request, checks).value, staged, checks).value.registry.Some?
    ensures Owned(RegistryReferences(ApplyPlans(PlanEdit(current, request, checks).value, staged, checks).value.registry),
                  current.id)
  {
    hide IsCanonical, IsCanonicalUuid, PlanAuthentication, PlanRegistryAuthentication, Splits, KafkaReferences,
      IsKafkaField, AuthDocument, RegistryAuthDocument, RegistryTlsDocument, Promised, AcceptsRequest, EditTransport,
      Retired;
    var plan := PlanEdit(current, request, checks).value;
    var document := ApplyPlans(plan, staged, checks).value;
    OwnedSections(current);
    StagedBySection(current, request, checks, staged);
    RegistryPlanConserves(current.id, current.registry, request.registryAuth.value, checks);
    var before := RegistryReferences(current.registry);
    assert RegistryPlanKeeps(before, plan.registry.value, checks);
    RetainedOwned(before, plan.registry.value.retained, plan.registry.value.replacements,
                  plan.registry.value.retired, current.id);
    PromisedOwned(plan.registry.value.retained, staged, plan.registry.value.replacements, current.id);
    SameReferences(document.registry.value, None);
  }

  lemma KeptOwned(current: Document, document: Document)
    requires Owned(RegistryReferences(current.registry), current.id)
    requires document.registry.Some?
    requires document.registry.value.auth ==
             if current.registry.Some? then current.registry.value.auth else RegistryNone
    ensures Owned(RegistryReferences(document.registry), current.id)
  {
    hide IsCanonical;
  }
}
