/** Registry authentication plans, and profile edits that combine them with Kafka plans
    (`profile_auth.py`, `profile_documents.py`, `profiles.py`). */
module RegistryAuthPlans {
  import opened Wrappers
  import opened References
  import opened Documents
  import opened ProfileAuth

  datatype RegistryAuthType = NoneAuth | BasicAuth | TokenAuth | MtlsAuth | OAuthAuth | UnknownAuth

  datatype RegistryAuthInput = RegistryAuthInput(
    authType: RegistryAuthType, caCertificates: Option<string>, username: Option<string>,
    password: Option<Secret>, token: Option<Secret>, clientCertificate: Option<string>,
    privateKey: Option<Secret>, privateKeyPassword: Option<Secret>, oauthTokenUrl: Option<string>,
    oauthClientId: Option<string>, oauthScopes: Option<seq<string>>, oauthClientSecret: Option<Secret>,
    oauthCaCertificates: Option<string>, oauthLogicalCluster: Option<string>,
    oauthIdentityPoolId: Option<string>)

  const NoRegistryAuth := RegistryAuthInput(NoneAuth, None, None, None, None, None, None, None, None, None, None,
                                            None, None, None, None)

  datatype RegistryAuthPlan = RegistryAuthPlan(
    requested: RegistryAuthInput, retained: map<Field, Reference>, replacements: seq<SecretReplacement>,
    retired: seq<Reference>)

  predicate AnyScope(requested: RegistryAuthInput) {
    requested.oauthScopes.Some? && requested.oauthScopes.value != []
  }

  predicate Given(value: Option<string>) {
    value.Some? && value.value != ""
  }

  /** `_validate_registry_none_input`. */
  predicate AcceptsNone(requested: RegistryAuthInput) {
    && requested.username.None? && requested.password.None? && requested.token.None?
    && requested.clientCertificate.None? && requested.privateKey.None? && requested.privateKeyPassword.None?
    && requested.oauthTokenUrl.None? && requested.oauthClientId.None? && requested.oauthClientSecret.None?
    && !AnyScope(requested)
  }

  predicate NoOAuthInput(requested: RegistryAuthInput) {
    && requested.oauthTokenUrl.None? && requested.oauthClientId.None? && requested.oauthClientSecret.None?
    && requested.oauthCaCertificates.None? && requested.oauthLogicalCluster.None?
    && requested.oauthIdentityPoolId.None? && !AnyScope(requested)
  }

  predicate NoIdentityInput(requested: RegistryAuthInput) {
    requested.clientCertificate.None? && requested.privateKey.None? && requested.privateKeyPassword.None?
  }

  /** `_validate_registry_auth_input` and the checks that follow it. */
  predicate AcceptsInput(requested: RegistryAuthInput, credentialExists: bool, checks: Checks) {
    match requested.authType
    case NoneAuth => AcceptsNone(requested)
    case UnknownAuth => false
    case BasicAuth =>
      && Given(requested.username) && requested.token.None? && NoIdentityInput(requested) && NoOAuthInput(requested)
      && ':' !in requested.username.value && '\0' !in requested.username.value
      && '\r' !in requested.username.value && '\n' !in requested.username.value
      && (requested.password.Some? ==> ValidCredential(requested.password.value))
    case TokenAuth =>
      && requested.username.None? && requested.password.None? && NoIdentityInput(requested) && NoOAuthInput(requested)
      && (requested.token.Some? ==> ValidCredential(requested.token.value))
    case MtlsAuth =>
      && requested.username.None? && requested.password.None? && requested.token.None? && NoOAuthInput(requested)
      && requested.clientCertificate.Some? && (requested.privateKey.Some? || credentialExists)
      && (requested.privateKey.Some? ==>
            checks.clientIdentity(requested.clientCertificate.value, requested.privateKey.value,
                                  requested.privateKeyPassword).Some?)
    case OAuthAuth =>
      && requested.username.None? && requested.password.None? && requested.token.None?
      && NoIdentityInput(requested)
      && Given(requested.oauthTokenUrl) && Given(requested.oauthClientId)
      && checks.oauthEndpoint(requested.oauthTokenUrl.value)
      && checks.oauthIdentity(requested.oauthClientId.value,
                              if requested.oauthScopes.Some? then requested.oauthScopes.value else [])
      && (requested.oauthCaCertificates.Some? ==> checks.caBundle(requested.oauthCaCertificates.value).Some?)
      && (requested.oauthClientSecret.Some? ==> ValidCredential(requested.oauthClientSecret.value))
  }

  /** The field and the supplied value of the requested type's main credential. */
  function MainCredential(requested: RegistryAuthInput): (Field, Option<Secret>) {
    match requested.authType
    case TokenAuth => (RegistryToken, requested.token)
    case MtlsAuth => (RegistryPrivateKey, requested.privateKey)
    case OAuthAuth => (RegistryClientSecret, requested.oauthClientSecret)
    case _ => (RegistryPassword, requested.password)
  }

  function PlanRegistryAuthentication(profileId: Uuid, current: Option<Registry>, requested: RegistryAuthInput,
                                      checks: Checks): Result<RegistryAuthPlan, AuthError> {
    if requested.authType.UnknownAuth? then Err(InvalidInput)
    else if requested.caCertificates.Some? && checks.caBundle(requested.caCertificates.value).None? then
      Err(InvalidInput)
    else
      var references :- OwnedReferences(RegistryReferences(current), profileId);
      if requested.authType.NoneAuth? then
        if !AcceptsNone(requested) then Err(InvalidInput)
        else Ok(RegistryAuthPlan(requested, map[], [], Retired(FIELD_ORDER, references, map[], [])))
      else
        var previous := CurrentOf(references, MainCredential(requested).0);
        if !AcceptsInput(requested, previous.Some?, checks) then Err(InvalidInput)
        else SecretReplacements(requested, previous, references)
  }

  /** `_registry_secret_replacements`, and the plan made from them. */
  function SecretReplacements(requested: RegistryAuthInput, previous: Option<Reference>,
                              current: map<Field, Reference>): Result<RegistryAuthPlan, AuthError> {
    var (field, value) := MainCredential(requested);
    if value.None? && previous.None? then Err(InvalidInput)
    else
      var main := if value.Some? then [SecretReplacement(field, value.value, previous)] else [];
      var kept := if value.Some? then map[] else map[field := previous.value];
      var password := RegistryPrivateKeyPassword;
      if requested.authType.MtlsAuth? && requested.privateKeyPassword.Some? then
        var replacements :=
          main + [SecretReplacement(password, requested.privateKeyPassword.value, CurrentOf(current, password))];
        Ok(RegistryAuthPlan(requested, kept, replacements, Retired(FIELD_ORDER, current, kept, replacements)))
      else if requested.authType.MtlsAuth? && requested.privateKey.None? && password in current then
        var retained := kept[password := current[password]];
        Ok(RegistryAuthPlan(requested, retained, main, Retired(FIELD_ORDER, current, retained, main)))
      else
        Ok(RegistryAuthPlan(requested, kept, main, Retired(FIELD_ORDER, current, kept, main)))
  }

  /** `_registry_auth_document`; `None` is a reference that was never staged. */
  function RegistryAuthDocument(plan: RegistryAuthPlan, staged: map<Field, Reference>, checks: Checks): Option<RegistryAuth> {
    var references := plan.retained + staged;
    var requested := plan.requested;
    match requested.authType
    case NoneAuth => Some(RegistryNone)
    case UnknownAuth => None
    case BasicAuth =>
      if RegistryPassword !in references || requested.username.None? then None
      else Some(RegistryBasic(requested.username.value, references[RegistryPassword]))
    case TokenAuth =>
      if RegistryToken !in references then None else Some(RegistryBearer(references[RegistryToken]))
    case MtlsAuth =>
      if RegistryPrivateKey !in references then None
      else Some(RegistryMtls(references[RegistryPrivateKey], CurrentOf(references, RegistryPrivateKeyPassword)))
    case OAuthAuth =>
      if RegistryClientSecret !in references || requested.oauthTokenUrl.None? || requested.oauthClientId.None? then
        None
      else
        Some(RegistryOAuth(requested.oauthTokenUrl.value, requested.oauthClientId.value,
                           if requested.oauthScopes.Some? then requested.oauthScopes.value else [],
                           references[RegistryClientSecret],
                           if requested.oauthCaCertificates.None? then None
                           else checks.caBundle(requested.oauthCaCertificates.value),
                           requested.oauthLogicalCluster, requested.oauthIdentityPoolId))
  }

  /** The TLS section an authentication plan leaves beside it. */
  function RegistryTlsDocument(plan: RegistryAuthPlan, checks: Checks): Option<RegistryTls> {
    var requested := plan.requested;
    var ca := if requested.caCertificates.None? then None else checks.caBundle(requested.caCertificates.value);
    var certificate :=
      if !requested.authType.MtlsAuth? || requested.clientCertificate.None? then None
      else if requested.privateKey.None? then requested.clientCertificate
      else
        var identity := checks.clientIdentity(requested.clientCertificate.value, requested.privateKey.value,
                                              requested.privateKeyPassword);
        if identity.None? then None else Some(identity.value.0);
    if ca.None? && certificate.None? then None else Some(RegistryTls(ca, certificate))
  }

  function AuthReferencesOf(auth: RegistryAuth): map<Field, Reference> {
    RegistryReferences(Some(Registry("", "", None, auth)))
  }

  ghost predicate RegistryPlanKeeps(current: map<Field, Reference>, plan: RegistryAuthPlan, checks: Checks) {
    && Splits(current, plan.retained, plan.replacements, plan.retired)
    && (forall i :: 0 <= i < |plan.replacements| ==> !IsKafkaField(plan.replacements[i].field))
    && (plan.replacements != [] ==> !plan.requested.authType.NoneAuth?)
    && forall staged :: StagesExactly(staged, plan.replacements, false) ==>
         && RegistryAuthDocument(plan, staged, checks).Some?
         && AuthReferencesOf(RegistryAuthDocument(plan, staged, checks).value)
            == Promised(plan.retained, staged, plan.replacements)
  }

  lemma ReplacementsSplit(profileId: Uuid, requested: RegistryAuthInput, current: map<Field, Reference>)
    requires Owned(current, profileId) && !requested.authType.NoneAuth? && !requested.authType.UnknownAuth?
    requires SecretReplacements(requested, CurrentOf(current, MainCredential(requested).0), current).Ok?
    ensures var plan :=
              SecretReplacements(requested, CurrentOf(current, MainCredential(requested).0), current).value;
            Splits(current, plan.retained, plan.replacements, plan.retired)
  {
    hide IsCanonical, Retired, Owned, Splits;
    var plan := SecretReplacements(requested, CurrentOf(current, MainCredential(requested).0), current).value;
    LeftoversSplit(profileId, current, plan.retained, plan.replacements);
  }

  /** The non-secret values an accepted input always carries. */
  predicate Identifies(requested: RegistryAuthInput) {
    && (requested.authType.BasicAuth? ==> requested.username.Some?)
    && (requested.authType.OAuthAuth? ==> requested.oauthTokenUrl.Some? && requested.oauthClientId.Some?)
  }

  lemma ReplacementsDocument(requested: RegistryAuthInput, current: map<Field, Reference>, checks: Checks,
                             staged: map<Field, Reference>)
    requires !requested.authType.NoneAuth? && !requested.authType.UnknownAuth? && Identifies(requested)
    requires SecretReplacements(requested, CurrentOf(current, MainCredential(requested).0), current).Ok?
    requires var plan :=
               SecretReplacements(requested, CurrentOf(current, MainCredential(requested).0), current).value;
             StagesExactly(staged, plan.replacements, false)
    ensures var plan :=
              SecretReplacements(requested, CurrentOf(current, MainCredential(requested).0), current).value;
            && RegistryAuthDocument(plan, staged, checks).Some?
            && AuthReferencesOf(RegistryAuthDocument(plan, staged, checks).value)
               == Promised(plan.retained, staged, plan.replacements)
  {
    hide Retired;
    var plan := SecretReplacements(requested, CurrentOf(current, MainCredential(requested).0), current).value;
    assert plan.replacements != [] ==> Replaces(plan.replacements, plan.replacements[0].field);
    assert |plan.replacements| > 1 ==> plan.replacements[1].field == RegistryPrivateKeyPassword;
    if requested.authType.MtlsAuth? {
      KeyDocument(plan, staged, checks);
    } else {
      var field := MainCredential(requested).0;
      assert field in plan.retained || Replaces(plan.replacements, field);
      assert !IsKafkaField(field);
      assert RegistryAuthDocument(plan, staged, checks).Some?;
      assert forall f :: Replaces(plan.replacements, f) ==> f == field;
      var held := AuthReferencesOf(RegistryAuthDocument(plan, staged, checks).value);
      assert held == map[field := (plan.retained + staged)[field]];
      assert Promised(plan.retained, staged, plan.replacements) == held;
    }
  }

  lemma KeyDocument(plan: RegistryAuthPlan, staged: map<Field, Reference>, checks: Checks)
    requires plan.requested.authType.MtlsAuth? && StagesExactly(staged, plan.replacements, false)
    requires RegistryPrivateKey in plan.retained || Replaces(plan.replacements, RegistryPrivateKey)
    requires plan.retained.Keys <= {RegistryPrivateKey, RegistryPrivateKeyPassword}
    requires forall field :: Replaces(plan.replacements, field) ==>
               field in {RegistryPrivateKey, RegistryPrivateKeyPassword} && field !in plan.retained
    ensures RegistryAuthDocument(plan, staged, checks).Some?
    ensures AuthReferencesOf(RegistryAuthDocument(plan, staged, checks).value)
            == Promised(plan.retained, staged, plan.replacements)
  {
    hide AuthReferencesOf;
    assert !IsKafkaField(RegistryPrivateKey) && !IsKafkaField(RegistryPrivateKeyPassword);
    assert forall field :: Replaces(plan.replacements, field) ==> field in staged;
    assert RegistryPrivateKeyPassword in staged ==> Replaces(plan.replacements, RegistryPrivateKeyPassword);
    var references := plan.retained + staged;
    KeysOf(references[RegistryPrivateKey], CurrentOf(references, RegistryPrivateKeyPassword));
    var promised := Promised(plan.retained, staged, plan.replacements);
    var key := map[RegistryPrivateKey := references[RegistryPrivateKey]];
    if RegistryPrivateKeyPassword in references {
      assert promised == key[RegistryPrivateKeyPassword := references[RegistryPrivateKeyPassword]];
    } else {
      assert promised == key;
    }
  }

  lemma KeysOf(privateKey: Reference, password: Option<Reference>)
    ensures AuthReferencesOf(RegistryMtls(privateKey, password)) ==
            var key := map[RegistryPrivateKey := privateKey];
            if password.Some? then key[RegistryPrivateKeyPassword := password.value] else key
  {
  }

  lemma AcceptedIdentifies(requested: RegistryAuthInput, credentialExists: bool, checks: Checks)
    requires AcceptsInput(requested, credentialExists, checks)
    ensures Identifies(requested)
  {
  }

  /** Every accepted Registry plan, over all changes of type, splits the current references, and its
      document holds exactly the retained and staged ones. */
  lemma RegistryPlanConserves(profileId: Uuid, current: Option<Registry>, requested: RegistryAuthInput, checks: Checks)
    requires PlanRegistryAuthentication(profileId, current, requested, checks).Ok?
    ensures RegistryPlanKeeps(RegistryReferences(current),
                              PlanRegistryAuthentication(profileId, current, requested, checks).value, checks)
  {
    hide IsCanonical, Retired, RegistryReferences, Splits, AcceptsInput, RegistryAuthDocument;
    var references := RegistryReferences(current);
    var plan := PlanRegistryAuthentication(profileId, current, requested, checks).value;
    if requested.authType.NoneAuth? {
      LeftoversSplit(profileId, references, map[], []);
      NonePlanKeeps(plan, checks);
    } else {
      ReplacementsSplit(profileId, requested, references);
      forall staged | StagesExactly(staged, plan.replacements, false)
        ensures RegistryAuthDocument(plan, staged, checks).Some?
        ensures AuthReferencesOf(RegistryAuthDocument(plan, staged, checks).value)
                == Promised(plan.retained, staged, plan.replacements)
      {
        AcceptedIdentifies(requested, CurrentOf(references, MainCredential(requested).0).Some?, checks);
        ReplacementsDocument(requested, references, checks, staged);
      }
    }
  }

  lemma NonePlanKeeps(plan: RegistryAuthPlan, checks: Checks)
    requires plan.requested.authType.NoneAuth? && plan.retained == map[] && plan.replacements == []
    ensures forall staged :: RegistryAuthDocument(plan, staged, checks) == Some(RegistryNone) &&
              AuthReferencesOf(RegistryNone) == Promised(plan.retained, staged, plan.replacements)
  {
    forall staged ensures Promised(plan.retained, staged, plan.replacements) == map[] {
    }
  }
}
