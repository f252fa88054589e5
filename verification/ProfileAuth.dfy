/** Authentication plans (`profile_auth.py`, `profile_documents.py`).

    A plan splits the references a profile holds into those it keeps, those a new secret supersedes
    and those it retires. `EditConserves` shows that nothing falls between the three, and exactly
    when the edited document holds what the plan promises. */
module ProfileAuth {
  import opened Wrappers
  import opened References
  import opened Documents

  /** Validation of certificates, URLs and scopes, which this model leaves uninterpreted. */
  datatype Checks = Checks(
    clientIdentity: (string, Secret, Option<Secret>) -> Option<(string, Secret)>,
    oauthEndpoint: string -> bool,
    oauthIdentity: (string, seq<string>) -> bool,
    caBundle: string -> Option<string>,
    storable: Document -> bool)

  /** `ProfileInputError` ends in status 2, `ProfileStoreError` in status 1. */
  datatype AuthError = InvalidInput | InvalidStored

  datatype SecretReplacement = SecretReplacement(field: Field, value: Secret, previous: Option<Reference>)

  /** Credential text every renderer can represent. */
  predicate ValidCredential(value: string) {
    value != "" && '\0' !in value && '\r' !in value && '\n' !in value
  }

  // Current references

  function OwnedReferences(references: map<Field, Reference>, profileId: Uuid):
    Result<map<Field, Reference>, AuthError>
  {
    if Owned(references, profileId) then Ok(references) else Err(InvalidStored)
  }

  const FIELD_ORDER: seq<Field> :=
    [KafkaPassword, KafkaClientSecret, KafkaPrivateKey, KafkaPrivateKeyPassword, RegistryPassword, RegistryToken,
     RegistryPrivateKey, RegistryPrivateKeyPassword, RegistryClientSecret]

  lemma EveryFieldListed(field: Field)
    ensures exists i :: 0 <= i < |FIELD_ORDER| && FIELD_ORDER[i] == field
  {
    var i := match field
      case KafkaPassword => 0
      case KafkaClientSecret => 1
      case KafkaPrivateKey => 2
      case KafkaPrivateKeyPassword => 3
      case RegistryPassword => 4
      case RegistryToken => 5
      case RegistryPrivateKey => 6
      case RegistryPrivateKeyPassword => 7
      case RegistryClientSecret => 8;
    assert FIELD_ORDER[i] == field;
  }

  predicate Superseded(replacements: seq<SecretReplacement>, reference: Reference) {
    exists i :: 0 <= i < |replacements| && replacements[i].previous == Some(reference)
  }

  /** `_retired_references`: the current references a plan neither retains nor supersedes, in order. */
  function Retired(fields: seq<Field>, current: map<Field, Reference>, retained: map<Field, Reference>,
                   replacements: seq<SecretReplacement>): (retired: seq<Reference>)
    ensures forall r :: r in retired <==>
              (exists i :: 0 <= i < |fields| && fields[i] in current && current[fields[i]] == r) &&
              r !in retained.Values && !Superseded(replacements, r)
  {
    if fields == [] then []
    else
      var field, rest := fields[0], Retired(fields[1..], current, retained, replacements);
      if field in current && current[field] !in retained.Values && !Superseded(replacements, current[field]) then
        [current[field]] + rest
      else rest
  }

  predicate NoDuplicates<T(==)>(items: seq<T>) {
    forall i, j :: 0 <= i < j < |items| ==> items[i] != items[j]
  }

  lemma {:induction false} RetiredOnce(fields: seq<Field>, current: map<Field, Reference>,
                                       retained: map<Field, Reference>, replacements: seq<SecretReplacement>)
    requires NoDuplicates(fields)
    requires forall field :: field in current ==> current[field].field == field
    ensures NoDuplicates(Retired(fields, current, retained, replacements))
  {
    if fields != [] {
      RetiredOnce(fields[1..], current, retained, replacements);
      assert forall i :: 0 <= i < |fields[1..]| ==> fields[1..][i] != fields[0];
    }
  }

  // What every plan promises

  predicate Replaces(replacements: seq<SecretReplacement>, field: Field) {
    exists i :: 0 <= i < |replacements| && replacements[i].field == field
  }

  /** The current references are split, without overlap, into retained, superseded and retired ones;
      each replaced field names its own current reference, and no field is both kept and replaced. */
  ghost predicate Splits(current: map<Field, Reference>, retained: map<Field, Reference>,
                   replacements: seq<SecretReplacement>, retired: seq<Reference>) {
    && (forall r :: r in current.Values <==>
          r in retained.Values || Superseded(replacements, r) || r in retired)
    && (forall r :: r in retired ==> r !in retained.Values && !Superseded(replacements, r))
    && (forall field :: field in retained ==> field in current && retained[field] == current[field])
    && (forall i :: 0 <= i < |replacements| ==>
          && replacements[i].field !in retained
          && replacements[i].previous ==
             if replacements[i].field in current then Some(current[replacements[i].field]) else None)
    && (forall i, j :: 0 <= i < j < |replacements| ==> replacements[i].field != replacements[j].field)
    && NoDuplicates(retired)
  }

  /** Retiring whatever is left over always completes the split. */
  lemma LeftoversSplit(profileId: Uuid, current: map<Field, Reference>, retained: map<Field, Reference>,
                       replacements: seq<SecretReplacement>)
    requires Owned(current, profileId)
    requires forall field :: field in retained ==> field in current && retained[field] == current[field]
    requires forall i :: 0 <= i < |replacements| ==>
               && replacements[i].field !in retained
               && replacements[i].previous ==
                  if replacements[i].field in current then Some(current[replacements[i].field]) else None
    requires forall i, j :: 0 <= i < j < |replacements| ==> replacements[i].field != replacements[j].field
    ensures Splits(current, retained, replacements, Retired(FIELD_ORDER, current, retained, replacements))
  {
    hide IsCanonical, Retired;
    RetiredOnce(FIELD_ORDER, current, retained, replacements);
    var retired := Retired(FIELD_ORDER, current, retained, replacements);
    forall r | r in current.Values
      ensures r in retained.Values || Superseded(replacements, r) || r in retired
    {
      var field :| field in current && current[field] == r;
      EveryFieldListed(field);
    }
    forall r | Superseded(replacements, r) ensures r in current.Values {
      var i :| 0 <= i < |replacements| && replacements[i].previous == Some(r);
    }
  }

  // Kafka plans

  datatype KafkaAuthType = TypeNone | TypeSasl(mechanism: PasswordMechanism) | TypeMtls | TypeOAuth | TypeUnknown

  datatype KafkaAuthInput = KafkaAuthInput(
    authType: KafkaAuthType, username: Option<string>, password: Option<Secret>,
    clientCertificate: Option<string>, privateKey: Option<Secret>, privateKeyPassword: Option<Secret>,
    oauthTokenUrl: Option<string>, oauthClientId: Option<string>, oauthScopes: Option<seq<string>>,
    oauthClientSecret: Option<Secret>, oauthCaCertificates: Option<string>, oauthDefaultTrust: bool)

  datatype AuthPlan = AuthPlan(
    authType: KafkaAuthType, username: string, clientCertificate: string,
    retained: map<Field, Reference>, replacements: seq<SecretReplacement>, retired: seq<Reference>,
    oauthTokenUrl: string, oauthClientId: string, oauthScopes: seq<string>, oauthCaCertificates: Option<string>)

  predicate HasOAuthInput(requested: KafkaAuthInput) {
    requested.oauthTokenUrl.Some? || requested.oauthClientId.Some? || requested.oauthScopes.Some? ||
    requested.oauthClientSecret.Some? || requested.oauthCaCertificates.Some? || requested.oauthDefaultTrust
  }

  function CurrentOf(current: map<Field, Reference>, field: Field): Option<Reference> {
    if field in current then Some(current[field]) else None
  }

  function PlanAuthentication(profileId: Uuid, current: Option<KafkaAuth>, requested: KafkaAuthInput,
                              checks: Checks): Result<AuthPlan, AuthError> {
    if requested.authType.TypeUnknown? then Err(InvalidInput)
    else
      var auth := if current.None? then KafkaNone else current.value;
      var references :- OwnedReferences(KafkaReferences(auth), profileId);
      match requested.authType
      case TypeNone =>
        if requested.username.Some? || requested.password.Some? || requested.clientCertificate.Some? ||
           requested.privateKey.Some? || requested.privateKeyPassword.Some? || HasOAuthInput(requested) then
          Err(InvalidInput)
        else
          Ok(AuthPlan(TypeNone, "", "", map[], [], Retired(FIELD_ORDER, references, map[], []), "", "", [], None))
      case TypeSasl(mechanism) => PasswordPlan(auth, references, requested)
      case TypeMtls => MtlsPlan(auth, references, requested, checks)
      case TypeOAuth => OAuthPlan(auth, references, requested, checks)
  }

  function PasswordPlan(auth: KafkaAuth, current: map<Field, Reference>, requested: KafkaAuthInput):
    Result<AuthPlan, AuthError>
  {
    if requested.clientCertificate.Some? || requested.privateKey.Some? || HasOAuthInput(requested) then
      Err(InvalidInput)
    else
      var username := if requested.username.Some? then requested.username.value
                      else if auth.KafkaSasl? then auth.username else "";
      var previous := CurrentOf(current, KafkaPassword);
      if username == "" then Err(InvalidInput)
      else if requested.password.Some? then
        if !ValidCredential(requested.password.value) then Err(InvalidInput)
        else
          var replacements := [SecretReplacement(KafkaPassword, requested.password.value, previous)];
          Ok(AuthPlan(requested.authType, username, "", map[], replacements,
                      Retired(FIELD_ORDER, current, map[], replacements), "", "", [], None))
      else if previous.Some? then
        var retained := map[KafkaPassword := previous.value];
        Ok(AuthPlan(requested.authType, username, "", retained, [],
                    Retired(FIELD_ORDER, current, retained, []), "", "", [], None))
      else Err(InvalidInput)
  }

  function MtlsPlan(auth: KafkaAuth, current: map<Field, Reference>, requested: KafkaAuthInput, checks: Checks):
    Result<AuthPlan, AuthError>
  {
    var changing := requested.clientCertificate.Some? || requested.privateKey.Some?;
    if requested.username.Some? || requested.password.Some? || HasOAuthInput(requested) then Err(InvalidInput)
    else if changing && (requested.clientCertificate.None? || requested.privateKey.None?) then Err(InvalidInput)
    else if requested.privateKeyPassword.Some? && !changing then Err(InvalidInput)
    else if changing then
      var identity := checks.clientIdentity(requested.clientCertificate.value, requested.privateKey.value,
                                            requested.privateKeyPassword);
      if identity.None? then Err(InvalidInput)
      else
        var key := [SecretReplacement(KafkaPrivateKey, identity.value.1, CurrentOf(current, KafkaPrivateKey))];
        var replacements :=
          if requested.privateKeyPassword.None? then key
          else key + [SecretReplacement(KafkaPrivateKeyPassword, requested.privateKeyPassword.value,
                                        CurrentOf(current, KafkaPrivateKeyPassword))];
        Ok(AuthPlan(TypeMtls, "", identity.value.0, map[], replacements,
                    Retired(FIELD_ORDER, current, map[], replacements), "", "", [], None))
    else if auth.KafkaMtls? then
      Ok(AuthPlan(TypeMtls, "", auth.clientCertificate, current, [],
                  Retired(FIELD_ORDER, current, current, []), "", "", [], None))
    else Err(InvalidInput)
  }

  function OAuthPlan(auth: KafkaAuth, current: map<Field, Reference>, requested: KafkaAuthInput, checks: Checks):
    Result<AuthPlan, AuthError>
  {
    var stored := auth.KafkaOAuth?;
    var tokenUrl := if stored && (requested.oauthTokenUrl.None? || requested.oauthTokenUrl.value == "")
                    then Some(auth.tokenUrl) else requested.oauthTokenUrl;
    var clientId := if stored && (requested.oauthClientId.None? || requested.oauthClientId.value == "")
                    then Some(auth.clientId) else requested.oauthClientId;
    var scopes := if requested.oauthScopes.Some? then requested.oauthScopes.value
                  else if stored then auth.scopes else [];
    var ca := if stored && requested.oauthCaCertificates.None? && !requested.oauthDefaultTrust
              then auth.caCertificates else requested.oauthCaCertificates;
    var previous := CurrentOf(current, KafkaClientSecret);
    if requested.username.Some? || requested.password.Some? || requested.clientCertificate.Some? ||
       requested.privateKey.Some? || requested.privateKeyPassword.Some? then Err(InvalidInput)
    else if tokenUrl.None? || clientId.None? then Err(InvalidInput)
    else if !checks.oauthEndpoint(tokenUrl.value) || !checks.oauthIdentity(clientId.value, scopes) then
      Err(InvalidInput)
    else if ca.Some? && checks.caBundle(ca.value).None? then Err(InvalidInput)
    else
      var bundle := if ca.None? then None else checks.caBundle(ca.value);
      if requested.oauthClientSecret.Some? then
        if !ValidCredential(requested.oauthClientSecret.value) then Err(InvalidInput)
        else
          var replacements := [SecretReplacement(KafkaClientSecret, requested.oauthClientSecret.value, previous)];
          Ok(AuthPlan(TypeOAuth, "", "", map[], replacements, Retired(FIELD_ORDER, current, map[], replacements),
                      tokenUrl.value, clientId.value, scopes, bundle))
      else if previous.Some? then
        var retained := map[KafkaClientSecret := previous.value];
        Ok(AuthPlan(TypeOAuth, "", "", retained, [], Retired(FIELD_ORDER, current, retained, []),
                    tokenUrl.value, clientId.value, scopes, bundle))
      else Err(InvalidInput)
  }

  /** The staged map holds a reference for every field the plan replaces. */
  predicate Stages(staged: map<Field, Reference>, replacements: seq<SecretReplacement>) {
    forall i :: 0 <= i < |replacements| ==> replacements[i].field in staged
  }

  /** The fields a document built from the plan refers to. */
  function Promised(retained: map<Field, Reference>, staged: map<Field, Reference>,
                    replacements: seq<SecretReplacement>): map<Field, Reference> {
    (map field | field in staged && Replaces(replacements, field) :: staged[field]) + retained
  }

  /** `_auth_document`; `None` is the missing-key failure of a reference that was never staged. */
  function AuthDocument(plan: AuthPlan, staged: map<Field, Reference>): Option<KafkaAuth> {
    var references := plan.retained + staged;
    match plan.authType
    case TypeNone => Some(KafkaNone)
    case TypeUnknown => None
    case TypeSasl(mechanism) =>
      if KafkaPassword !in references then None
      else Some(KafkaSasl(mechanism, plan.username, references[KafkaPassword]))
    case TypeMtls =>
      if KafkaPrivateKey !in references then None
      else Some(KafkaMtls(plan.clientCertificate, references[KafkaPrivateKey],
                          CurrentOf(references, KafkaPrivateKeyPassword)))
    case TypeOAuth =>
      if KafkaClientSecret !in references then None
      else Some(KafkaOAuth(plan.oauthTokenUrl, plan.oauthClientId, plan.oauthScopes, references[KafkaClientSecret],
                           plan.oauthCaCertificates))
  }

  predicate IsKafkaField(field: Field) {
    field.KafkaPassword? || field.KafkaClientSecret? || field.KafkaPrivateKey? || field.KafkaPrivateKeyPassword?
  }

  /** Staged references are exactly those of the Kafka fields this plan replaces, beside Registry ones. */
  ghost predicate StagesExactly(staged: map<Field, Reference>, replacements: seq<SecretReplacement>, kafka: bool) {
    forall field :: IsKafkaField(field) == kafka ==> (field in staged <==> Replaces(replacements, field))
  }

  /** The plan splits the current references, and its document holds the retained and staged ones. */
  ghost predicate PlanConserves(current: map<Field, Reference>, plan: AuthPlan) {
    && Splits(current, plan.retained, plan.replacements, plan.retired)
    && (forall i :: 0 <= i < |plan.replacements| ==> IsKafkaField(plan.replacements[i].field))
    && forall staged :: StagesExactly(staged, plan.replacements, true) ==>
         && AuthDocument(plan, staged).Some?
         && KafkaReferences(AuthDocument(plan, staged).value)
            == Promised(plan.retained, staged, plan.replacements)
  }

  lemma PasswordPlanConserves(profileId: Uuid, auth: KafkaAuth, requested: KafkaAuthInput)
    requires requested.authType.TypeSasl? && Owned(KafkaReferences(auth), profileId)
    requires PasswordPlan(auth, KafkaReferences(auth), requested).Ok?
    ensures PlanConserves(KafkaReferences(auth), PasswordPlan(auth, KafkaReferences(auth), requested).value)
  {
    hide IsCanonical, ValidCredential, Retired, Owned, Splits, HasOAuthInput;
    var plan := PasswordPlan(auth, KafkaReferences(auth), requested).value;
    LeftoversSplit(profileId, KafkaReferences(auth), plan.retained, plan.replacements);
    forall staged | StagesExactly(staged, plan.replacements, true)
      ensures AuthDocument(plan, staged).Some?
      ensures KafkaReferences(AuthDocument(plan, staged).value) == Promised(plan.retained, staged, plan.replacements)
    {
      assert IsKafkaField(KafkaPassword);
      assert plan.replacements != [] ==> plan.replacements[0].field == KafkaPassword;
    }
  }

  lemma MtlsPlanConserves(profileId: Uuid, auth: KafkaAuth, requested: KafkaAuthInput, checks: Checks)
    requires Owned(KafkaReferences(auth), profileId)
    requires MtlsPlan(auth, KafkaReferences(auth), requested, checks).Ok?
    ensures PlanConserves(KafkaReferences(auth), MtlsPlan(auth, KafkaReferences(auth), requested, checks).value)
  {
    hide IsCanonical, Retired, Owned, Splits, HasOAuthInput;
    var plan := MtlsPlan(auth, KafkaReferences(auth), requested, checks).value;
    LeftoversSplit(profileId, KafkaReferences(auth), plan.retained, plan.replacements);
    forall staged | StagesExactly(staged, plan.replacements, true)
      ensures AuthDocument(plan, staged).Some?
      ensures KafkaReferences(AuthDocument(plan, staged).value) == Promised(plan.retained, staged, plan.replacements)
    {
      KeysDocument(auth, requested, checks, staged);
    }
  }

  lemma KeysDocument(auth: KafkaAuth, requested: KafkaAuthInput, checks: Checks, staged: map<Field, Reference>)
    requires MtlsPlan(auth, KafkaReferences(auth), requested, checks).Ok?
    requires StagesExactly(staged, MtlsPlan(auth, KafkaReferences(auth), requested, checks).value.replacements, true)
    ensures var plan := MtlsPlan(auth, KafkaReferences(auth), requested, checks).value;
            && AuthDocument(plan, staged).Some?
            && KafkaReferences(AuthDocument(plan, staged).value) == Promised(plan.retained, staged, plan.replacements)
  {
    hide IsCanonical, Retired, HasOAuthInput;
    var plan := MtlsPlan(auth, KafkaReferences(auth), requested, checks).value;
    assert IsKafkaField(KafkaPrivateKey) && IsKafkaField(KafkaPrivateKeyPassword);
    assert plan.replacements != [] ==> plan.replacements[0].field == KafkaPrivateKey;
    assert |plan.replacements| > 1 ==> plan.replacements[1].field == KafkaPrivateKeyPassword;
  }

  lemma OAuthPlanConserves(profileId: Uuid, auth: KafkaAuth, requested: KafkaAuthInput, checks: Checks)
    requires requested.authType.TypeOAuth? && Owned(KafkaReferences(auth), profileId)
    requires OAuthPlan(auth, KafkaReferences(auth), requested, checks).Ok?
    ensures PlanConserves(KafkaReferences(auth), OAuthPlan(auth, KafkaReferences(auth), requested, checks).value)
  {
    hide IsCanonical, ValidCredential, Retired, Owned, Splits;
    var plan := OAuthPlan(auth, KafkaReferences(auth), requested, checks).value;
    LeftoversSplit(profileId, KafkaReferences(auth), plan.retained, plan.replacements);
    forall staged | StagesExactly(staged, plan.replacements, true)
      ensures AuthDocument(plan, staged).Some?
      ensures KafkaReferences(AuthDocument(plan, staged).value) == Promised(plan.retained, staged, plan.replacements)
    {
      assert IsKafkaField(KafkaClientSecret);
      assert plan.replacements != [] ==> plan.replacements[0].field == KafkaClientSecret;
    }
  }

  /** Every accepted Kafka plan, from any current authentication to any requested one, splits the
      current references, and the document built from it holds exactly the retained and staged ones. */
  lemma KafkaPlanConserves(profileId: Uuid, current: Option<KafkaAuth>, requested: KafkaAuthInput, checks: Checks)
    requires PlanAuthentication(profileId, current, requested, checks).Ok?
    ensures PlanConserves(KafkaReferences(if current.None? then KafkaNone else current.value),
                          PlanAuthentication(profileId, current, requested, checks).value)
  {
    hide IsCanonical, PasswordPlan, MtlsPlan, OAuthPlan, HasOAuthInput, KafkaReferences, Retired, Splits;
    var auth := if current.None? then KafkaNone else current.value;
    match requested.authType
    case TypeNone =>
      NonePlanConserves(profileId, auth);
    case TypeSasl(_) => PasswordPlanConserves(profileId, auth, requested);
    case TypeMtls => MtlsPlanConserves(profileId, auth, requested, checks);
    case TypeOAuth => OAuthPlanConserves(profileId, auth, requested, checks);
  }

  lemma NonePlanConserves(profileId: Uuid, auth: KafkaAuth)
    requires Owned(KafkaReferences(auth), profileId)
    ensures PlanConserves(KafkaReferences(auth),
                          AuthPlan(TypeNone, "", "", map[], [], Retired(FIELD_ORDER, KafkaReferences(auth), map[], []),
                                   "", "", [], None))
  {
    hide IsCanonical, Retired, Owned, Splits;
    LeftoversSplit(profileId, KafkaReferences(auth), map[], []);
    forall staged ensures Promised(map[], staged, []) == map[] {
    }
  }
}
