/** What a request for a new or changed profile asks for, field by field.

    The predicates here are told from the request and the stored document alone; no plan uses them. The lemmas show
    that an accepted request is carried out to the letter, and which requests are accepted. */
module EditMeaning {
  import opened Wrappers
  import opened References
  import opened Documents
  import opened ProfileAuth
  import opened RegistryAuthPlans
  import opened ProfileEdits
  import opened NewProfiles
  import opened EditedCredentials

  // What is stored

  /** A stored value is the requested one where one was requested, and else the former one. */
  predicate TakesOver<T(==)>(requested: Option<T>, former: T, stored: T) {
    match requested
    case None => stored == former
    case Some(value) => stored == value
  }

  ghost predicate DescriptionAsRequested(before: Document, request: EditRequest, after: Document) {
    if request.clearDescription then after.description == None
    else if request.description == None then after.description == before.description
    else after.description == request.description
  }

  ghost predicate LabelsAsRequested(before: map<string, string>, added: map<string, string>, removed: set<string>,
                                    after: map<string, string>) {
    && (forall key :: key in removed ==> key !in after)
    && (forall key :: key in added && key !in removed ==> key in after && after[key] == added[key])
    && (forall key :: key !in added && key !in removed ==>
          (key in after <==> key in before) && (key in before ==> after[key] == before[key]))
  }

  ghost predicate TrustAsRequested(before: Kafka, request: EditRequest, checks: Checks, after: Kafka) {
    if request.transport == Some("plaintext") then after.caCertificates == None
    else if request.caCertificates != None then
      after.caCertificates != None && after.caCertificates == checks.caBundle(request.caCertificates.value)
    else if request.defaultTrust then after.caCertificates == None
    else after.caCertificates == before.caCertificates
  }

  /** Everything of a Kafka authentication but its references. */
  ghost predicate KafkaAuthAsRequested(before: KafkaAuth, input: KafkaAuthInput, checks: Checks, after: KafkaAuth) {
    match input.authType
    case TypeNone => after == KafkaNone
    case TypeUnknown => false
    case TypeSasl(mechanism) =>
      && after.KafkaSasl? && after.mechanism == mechanism && after.username != ""
      && after.username == (if input.username != None then input.username.value
                            else if before.KafkaSasl? then before.username else "")
    case TypeMtls =>
      && after.KafkaMtls?
      && (if input.clientCertificate != None && input.privateKey != None then
            var identity := checks.clientIdentity(input.clientCertificate.value, input.privateKey.value,
                                                  input.privateKeyPassword);
            identity.Some? && after.clientCertificate == identity.value.0
          else before.KafkaMtls? && after.clientCertificate == before.clientCertificate)
    case TypeOAuth =>
      && after.KafkaOAuth?
      && OAuthFieldAsRequested(input.oauthTokenUrl, if before.KafkaOAuth? then Some(before.tokenUrl) else None,
                               after.tokenUrl)
      && OAuthFieldAsRequested(input.oauthClientId, if before.KafkaOAuth? then Some(before.clientId) else None,
                               after.clientId)
      && TakesOver(input.oauthScopes, if before.KafkaOAuth? then before.scopes else [], after.scopes)
      && (var ca := if input.oauthCaCertificates != None || input.oauthDefaultTrust || !before.KafkaOAuth? then
                      input.oauthCaCertificates else before.caCertificates;
          if ca == None then after.caCertificates == None
          else after.caCertificates != None && after.caCertificates == checks.caBundle(ca.value))
  }

  /** An empty text asks for the former value, if there is one. */
  predicate OAuthFieldAsRequested(requested: Option<string>, former: Option<string>, stored: string) {
    if former != None && (requested == None || requested == Some("")) then stored == former.value
    else requested == Some(stored)
  }

  /** Everything of a Registry authentication but its references, and the trust stored beside it. */
  ghost predicate RegistryAuthAsRequested(input: RegistryAuthInput, checks: Checks, after: Registry) {
    && (match input.authType
        case NoneAuth => after.auth == RegistryNone
        case UnknownAuth => false
        case BasicAuth => after.auth.RegistryBasic? && Some(after.auth.username) == input.username
        case TokenAuth => after.auth.RegistryBearer?
        case MtlsAuth => after.auth.RegistryMtls?
        case OAuthAuth =>
          && after.auth.RegistryOAuth? && Some(after.auth.tokenUrl) == input.oauthTokenUrl
          && Some(after.auth.clientId) == input.oauthClientId
          && after.auth.scopes == (if input.oauthScopes == None then [] else input.oauthScopes.value)
          && BundleAsRequested(input.oauthCaCertificates, checks, after.auth.caCertificates)
          && after.auth.logicalCluster == input.oauthLogicalCluster
          && after.auth.identityPoolId == input.oauthIdentityPoolId)
    && var tls := if after.tls == None then RegistryTls(None, None) else after.tls.value;
    && BundleAsRequested(input.caCertificates, checks, tls.caCertificates)
    && (if input.authType == MtlsAuth then
          if input.privateKey == None then tls.clientCertificate == input.clientCertificate
          else
            && input.clientCertificate != None
            && var identity := checks.clientIdentity(input.clientCertificate.value, input.privateKey.value,
                                                     input.privateKeyPassword);
            && identity.Some? && tls.clientCertificate == Some(identity.value.0)
        else tls.clientCertificate == None)
  }

  predicate BundleAsRequested(requested: Option<string>, checks: Checks, stored: Option<string>) {
    if requested == None then stored == None else stored != None && stored == checks.caBundle(requested.value)
  }

  /** The Registry after an edit: where it is, and what of it stays. */
  ghost predicate RegistryAsRequested(before: Option<Registry>, request: EditRequest, checks: Checks,
                                      after: Option<Registry>) {
    if request.removeRegistry || (before == None && request.registryUrl == None) then after == None
    else
      && after != None
      && var former := if before == None then Registry("confluent", "", None, RegistryNone) else before.value;
      && after.value.provider == (if request.registryProvider == None || request.registryProvider == Some("") then
                                    former.provider else request.registryProvider.value)
      && TakesOver(request.registryUrl, former.url, after.value.url)
      && (if request.registryAuth == None then after.value.auth == former.auth && after.value.tls == former.tls
          else RegistryAuthAsRequested(request.registryAuth.value, checks, after.value))
  }

  /** The document after an edit: what was requested where it was, and everything else as it was. */
  ghost predicate EditedAsRequested(before: Document, request: EditRequest, checks: Checks, after: Document) {
    && after.id == before.id
    && DescriptionAsRequested(before, request, after)
    && LabelsAsRequested(before.labels, request.labels, request.removeLabels, after.labels)
    && TakesOver(request.bootstrapServers, before.kafka.bootstrapServers, after.kafka.bootstrapServers)
    && TakesOver(request.transport, before.kafka.transport, after.kafka.transport)
    && TrustAsRequested(before.kafka, request, checks, after.kafka)
    && (if request.auth == None then after.kafka.auth == before.kafka.auth
        else KafkaAuthAsRequested(before.kafka.auth, request.auth.value, checks, after.kafka.auth))
    && RegistryAsRequested(before.registry, request, checks, after.registry)
  }

  /** The document of a new profile: exactly what was requested. */
  ghost predicate NewAsRequested(request: NewRequest, checks: Checks, after: Document) {
    && after.description == request.description && after.labels == request.labels
    && after.kafka.bootstrapServers == request.bootstrapServers && after.kafka.transport == request.transport
    && BundleAsRequested(request.caCertificates, checks, after.kafka.caCertificates)
    && (if request.auth == None then after.kafka.auth == KafkaNone
        else KafkaAuthAsRequested(KafkaNone, request.auth.value, checks, after.kafka.auth))
    && (if request.registryUrl == None then after.registry == None
        else
          && after.registry != None && Some(after.registry.value.url) == request.registryUrl
          && after.registry.value.provider ==
             (if request.registryProvider == None || request.registryProvider == Some("") then "confluent"
              else request.registryProvider.value)
          && (if request.registryAuth == None then
                after.registry.value.auth == RegistryNone && after.registry.value.tls == None
              else RegistryAuthAsRequested(request.registryAuth.value, checks, after.registry.value)))
  }

  /** The secret that a request supplies for a field, if any. */
  ghost function SuppliedSecret(auth: Option<KafkaAuthInput>, registryAuth: Option<RegistryAuthInput>, checks: Checks,
                                field: Field): Option<Secret>
  {
    match field
    case KafkaPassword => if auth == None || !auth.value.authType.TypeSasl? then None else auth.value.password
    case KafkaClientSecret => if auth == None || auth.value.authType != TypeOAuth then None else auth.value.oauthClientSecret
    case KafkaPrivateKeyPassword =>
      if auth == None || auth.value.authType != TypeMtls then None else auth.value.privateKeyPassword
    case KafkaPrivateKey =>
      if auth == None || auth.value.authType != TypeMtls || auth.value.privateKey == None ||
         auth.value.clientCertificate == None then None
      else
        var identity := checks.clientIdentity(auth.value.clientCertificate.value, auth.value.privateKey.value,
                                              auth.value.privateKeyPassword);
        if identity == None then None else Some(identity.value.1)
    case RegistryPassword =>
      if registryAuth == None || registryAuth.value.authType != BasicAuth then None else registryAuth.value.password
    case RegistryToken =>
      if registryAuth == None || registryAuth.value.authType != TokenAuth then None else registryAuth.value.token
    case RegistryClientSecret =>
      if registryAuth == None || registryAuth.value.authType != OAuthAuth then None
      else registryAuth.value.oauthClientSecret
    case RegistryPrivateKey =>
      if registryAuth == None || registryAuth.value.authType != MtlsAuth then None else registryAuth.value.privateKey
    case RegistryPrivateKeyPassword =>
      if registryAuth == None || registryAuth.value.authType != MtlsAuth then None
      else registryAuth.value.privateKeyPassword
  }

  /** The secrets of a new generation are the supplied ones, and for the other fields the former ones. */
  ghost predicate SecretsAsRequested(auth: Option<KafkaAuthInput>, registryAuth: Option<RegistryAuthInput>,
                                     checks: Checks, former: map<Field, Secret>, after: Document,
                                     secrets: map<Field, Secret>) {
    && secrets.Keys == ProfileReferences(after).Keys
    && forall field ::
         match SuppliedSecret(auth, registryAuth, checks, field)
         case None => field in secrets ==> field in former && secrets[field] == former[field]
         case Some(value) => field in secrets && secrets[field] == value
  }

  ghost predicate SuppliesEmpty(auth: Option<KafkaAuthInput>, registryAuth: Option<RegistryAuthInput>, checks: Checks) {
    exists field :: SuppliedSecret(auth, registryAuth, checks, field) == Some("")
  }

  // What is accepted

  /** A text every configuration format can carry. */
  predicate Representable(credential: string) {
    credential != "" && forall c :: c in credential ==> c != '\0' && c != '\r' && c != '\n'
  }

  /** Something is asked for, and nothing of it contradicts another part. */
  ghost predicate Coherent(request: EditRequest) {
    && request != EditRequest(None, None, false, map[], {}, None, None, false, None, None, None, None, false)
    && (request.clearDescription ==> request.description == None)
    && (request.removeRegistry ==>
          request.registryProvider == None && request.registryUrl == None && request.registryAuth == None)
    && (forall key :: key in request.labels ==> key !in request.removeLabels)
    && (request.transport == Some("plaintext") ==> request.caCertificates == None && !request.defaultTrust)
    && (request.defaultTrust ==> request.caCertificates == None)
  }

  /** Values of another type are refused; values of this one are given or already stored. */
  ghost predicate KafkaAuthAllowed(before: KafkaAuth, input: KafkaAuthInput, checks: Checks) {
    match input.authType
    case TypeUnknown => false
    case TypeNone => input == KafkaAuthInput(TypeNone, None, None, None, None, None, None, None, None, None, None, false)
    case TypeSasl(mechanism) =>
      && input == KafkaAuthInput(TypeSasl(mechanism), input.username, input.password, None, None,
                                 input.privateKeyPassword, None, None, None, None, None, false)
      && input.username != Some("") && (input.username == None ==> before.KafkaSasl? && before.username != "")
      && (if input.password == None then before.KafkaSasl? else Representable(input.password.value))
    case TypeMtls =>
      && input == KafkaAuthInput(TypeMtls, None, None, input.clientCertificate, input.privateKey,
                                 input.privateKeyPassword, None, None, None, None, None, false)
      && (if input.clientCertificate == None then
            input.privateKey == None && input.privateKeyPassword == None && before.KafkaMtls?
          else
            && input.privateKey != None
            && checks.clientIdentity(input.clientCertificate.value, input.privateKey.value,
                                     input.privateKeyPassword) != None)
    case TypeOAuth =>
      && input == KafkaAuthInput(TypeOAuth, None, None, None, None, None, input.oauthTokenUrl, input.oauthClientId,
                                 input.oauthScopes, input.oauthClientSecret, input.oauthCaCertificates,
                                 input.oauthDefaultTrust)
      && (if input.oauthClientSecret == None then before.KafkaOAuth? else Representable(input.oauthClientSecret.value))
      && exists after :: OAuthAllowed(before, input, checks, after)
  }

  ghost predicate OAuthAllowed(before: KafkaAuth, input: KafkaAuthInput, checks: Checks, after: KafkaAuth) {
    && after.KafkaOAuth? && KafkaAuthAsRequested(before, input, checks, after)
    && checks.oauthEndpoint(after.tokenUrl) && checks.oauthIdentity(after.clientId, after.scopes)
  }

  ghost predicate RegistryAuthAllowed(before: Option<Registry>, input: RegistryAuthInput, checks: Checks) {
    var former := if before == None then RegistryNone else before.value.auth;
    && (input.caCertificates != None ==> checks.caBundle(input.caCertificates.value) != None)
    && (input.oauthScopes == None || input.oauthScopes == Some([]) || input.authType == OAuthAuth)
    && match input.authType
       case UnknownAuth => false
       case NoneAuth =>
         input == RegistryAuthInput(NoneAuth, input.caCertificates, None, None, None, None, None, None, None, None,
                                    input.oauthScopes, None, input.oauthCaCertificates, input.oauthLogicalCluster,
                                    input.oauthIdentityPoolId)
       case BasicAuth =>
         && input == RegistryAuthInput(BasicAuth, input.caCertificates, input.username, input.password, None, None,
                                       None, None, None, None, input.oauthScopes, None, None, None, None)
         && input.username != None && Representable(input.username.value) && ':' !in input.username.value
         && (if input.password == None then former.RegistryBasic? else Representable(input.password.value))
       case TokenAuth =>
         && input == RegistryAuthInput(TokenAuth, input.caCertificates, None, None, input.token, None, None, None,
                                       None, None, input.oauthScopes, None, None, None, None)
         && (if input.token == None then former.RegistryBearer? else Representable(input.token.value))
       case MtlsAuth =>
         && input == RegistryAuthInput(MtlsAuth, input.caCertificates, None, None, None, input.clientCertificate,
                                       input.privateKey, input.privateKeyPassword, None, None, input.oauthScopes,
                                       None, None, None, None)
         && input.clientCertificate != None
         && (if input.privateKey == None then former.RegistryMtls?
             else checks.clientIdentity(input.clientCertificate.value, input.privateKey.value,
                                        input.privateKeyPassword) != None)
       case OAuthAuth =>
         && input == RegistryAuthInput(OAuthAuth, input.caCertificates, None, None, None, None, None, None,
                                       input.oauthTokenUrl, input.oauthClientId, input.oauthScopes,
                                       input.oauthClientSecret, input.oauthCaCertificates, input.oauthLogicalCluster,
                                       input.oauthIdentityPoolId)
         && input.oauthTokenUrl != None && input.oauthTokenUrl.value != ""
         && input.oauthClientId != None && input.oauthClientId.value != ""
         && checks.oauthEndpoint(input.oauthTokenUrl.value)
         && checks.oauthIdentity(input.oauthClientId.value, if input.oauthScopes == None then [] else input.oauthScopes.value)
         && (input.oauthCaCertificates != None ==> checks.caBundle(input.oauthCaCertificates.value) != None)
         && (if input.oauthClientSecret == None then former.RegistryOAuth?
             else Representable(input.oauthClientSecret.value))
  }

  /** What of an edit does not concern credentials. */
  ghost predicate SettingsAllowed(before: Document, request: EditRequest, checks: Checks) {
    var transport := if request.transport == None then before.kafka.transport else request.transport.value;
    && (request.caCertificates != None || request.defaultTrust ==> transport == "tls")
    && (request.caCertificates != None ==> checks.caBundle(request.caCertificates.value) != None)
    && (request.registryProvider != None && request.registryUrl == None ==>
          before.registry != None && request.registryProvider.value == before.registry.value.provider)
  }

  /** An edit that the stored profile admits. */
  ghost predicate EditAllowed(before: Document, request: EditRequest, checks: Checks) {
    var transport := if request.transport == None then before.kafka.transport else request.transport.value;
    && Coherent(request) && SettingsAllowed(before, request, checks)
    && (request.auth != None ==>
          && KafkaAuthAllowed(before.kafka.auth, request.auth.value, checks)
          && (request.auth.value.authType == TypeNone || transport == "tls"))
    && (request.registryAuth != None ==> RegistryAuthAllowed(before.registry, request.registryAuth.value, checks))
  }

  ghost predicate NewAllowed(request: NewRequest, checks: Checks) {
    && (request.caCertificates != None ==>
          request.transport == "tls" && checks.caBundle(request.caCertificates.value) != None)
    && (request.registryUrl == None ==> request.registryProvider == None && request.registryAuth == None)
    && (request.auth != None ==>
          && KafkaAuthAllowed(KafkaNone, request.auth.value, checks)
          && (request.auth.value.authType == TypeNone || request.transport == "tls"))
    && (request.registryAuth != None ==> RegistryAuthAllowed(None, request.registryAuth.value, checks))
  }

  // Edits are carried out

  lemma TransportCarriedOut(kafka: Kafka, request: EditRequest, checks: Checks)
    requires EditTransport(kafka, request, checks).Ok?
    requires !(request.caCertificates.Some? && request.defaultTrust)
    ensures var after := EditTransport(kafka, request, checks).value;
            && TakesOver(request.transport, kafka.transport, after.transport)
            && TrustAsRequested(kafka, request, checks, after)
            && after.bootstrapServers == kafka.bootstrapServers && after.auth == kafka.auth
  {
  }

  lemma RegistryCarriedOut(before: Option<Registry>, request: EditRequest, checks: Checks)
    requires EditRegistry(before, request).Ok?
    ensures RegistryAsRequested(before, request.(auth := None, registryAuth := None), checks,
                                EditRegistry(before, request).value)
  {
  }

  lemma EditsCarriedOut(before: Document, request: EditRequest, checks: Checks)
    requires AcceptsRequest(request) && ApplyEdits(before, request, checks).Ok?
    ensures EditedAsRequested(before, request.(auth := None, registryAuth := None), checks,
                              ApplyEdits(before, request, checks).value)
  {
    hide EditTransport, EditRegistry, TrustAsRequested, RegistryAsRequested;
    var servers := before.kafka.(
      bootstrapServers := if request.bootstrapServers.Some? then request.bootstrapServers.value
                          else before.kafka.bootstrapServers);
    TransportCarriedOut(servers, request, checks);
    SameTrust(before.kafka, servers, request, checks);
    RegistryCarriedOut(before.registry, request, checks);
  }

  lemma SameTrust(before: Kafka, servers: Kafka, request: EditRequest, checks: Checks)
    requires servers.caCertificates == before.caCertificates
    ensures forall after :: TrustAsRequested(servers, request, checks, after) ==>
              TrustAsRequested(before, request.(auth := None, registryAuth := None), checks, after)
  {
  }

  lemma KafkaAuthCarriedOut(profileId: Uuid, before: Option<KafkaAuth>, input: KafkaAuthInput, checks: Checks,
                            staged: map<Field, Reference>)
    requires PlanAuthentication(profileId, before, input, checks).Ok?
    requires AuthDocument(PlanAuthentication(profileId, before, input, checks).value, staged).Some?
    ensures KafkaAuthAsRequested(if before.None? then KafkaNone else before.value, input, checks,
                                 AuthDocument(PlanAuthentication(profileId, before, input, checks).value, staged).value)
  {
    hide Retired, IsCanonical, Owned;
  }

  lemma RegistryAuthCarriedOut(profileId: Uuid, before: Option<Registry>, input: RegistryAuthInput, checks: Checks,
                               staged: map<Field, Reference>, after: Registry)
    requires PlanRegistryAuthentication(profileId, before, input, checks).Ok?
    requires var plan := PlanRegistryAuthentication(profileId, before, input, checks).value;
             && RegistryAuthDocument(plan, staged, checks) == Some(after.auth)
             && after.tls == RegistryTlsDocument(plan, checks)
    ensures RegistryAuthAsRequested(input, checks, after)
  {
    hide Retired, IsCanonical, Owned;
    RegistryPlanRequested(profileId, before, input, checks);
  }

  lemma RegistryPlanRequested(profileId: Uuid, before: Option<Registry>, input: RegistryAuthInput, checks: Checks)
    requires PlanRegistryAuthentication(profileId, before, input, checks).Ok?
    ensures PlanRegistryAuthentication(profileId, before, input, checks).value.requested == input
  {
    hide Retired, IsCanonical, Owned;
  }

  /** Without requested credentials the Registry plan changes no section that stays. */
  lemma RegistryKept(current: Document, updated: Document, checks: Checks)
    requires RegistryEditPlan(current, updated, None, checks).Ok?
    requires current.registry.Some? && updated.registry.Some?
    requires updated.registry.value.auth == current.registry.value.auth
    ensures RegistryEditPlan(current, updated, None, checks).value.None?
  {
    hide Owned;
  }

  /** The Registry section after the plans: the requested authentication, or the former one. */
  lemma RegistrySectionCarriedOut(current: Document, request: EditRequest, checks: Checks, updated: Document,
                                  plan: Option<RegistryAuthPlan>, staged: map<Field, Reference>,
                                  after: Option<Registry>)
    requires AcceptsRequest(request) && OffersRegistry(current, request)
    requires EditRegistry(current.registry, request) == Ok(updated.registry)
    requires RegistryEditPlan(current, updated, request.registryAuth, checks) == Ok(plan)
    requires if plan.None? || updated.registry.None? then after == updated.registry
             else
               && after.Some? && RegistryAuthDocument(plan.value, staged, checks) == Some(after.value.auth)
               && after.value.tls == RegistryTlsDocument(plan.value, checks)
               && after.value.url == updated.registry.value.url
               && after.value.provider == updated.registry.value.provider
    ensures RegistryAsRequested(current.registry, request, checks, after)
  {
    hide RegistryAuthDocument, RegistryTlsDocument, PlanRegistryAuthentication, RegistryAuthAsRequested, Retired, Owned;
    RegistryCarriedOut(current.registry, request, checks);
    if request.registryAuth.Some? {
      if updated.registry.Some? {
        RegistryAuthCarriedOut(current.id, current.registry, request.registryAuth.value, checks, staged, after.value);
      }
    } else if current.registry.Some? && updated.registry.Some? {
      RegistryKept(current, updated, checks);
    } else if updated.registry.Some? {
      assert plan.None?;
    }
  }

  lemma AppliedRegistry(before: Document, request: EditRequest, checks: Checks)
    requires ApplyEdits(before, request, checks).Ok?
    ensures EditRegistry(before.registry, request) == Ok(ApplyEdits(before, request, checks).value.registry)
  {
    hide EditTransport, EditRegistry;
  }

  /** An accepted edit stores exactly what was requested. */
  lemma EditCarriedOut(before: Document, request: EditRequest, checks: Checks, staged: map<Field, Reference>)
    requires PlanEdit(before, request, checks).Ok? && OffersRegistry(before, request)
    requires ApplyPlans(PlanEdit(before, request, checks).value, staged, checks).Some?
    ensures EditedAsRequested(before, request, checks,
                              ApplyPlans(PlanEdit(before, request, checks).value, staged, checks).value)
  {
    hide ApplyEdits, AuthDocument, PlanAuthentication, RegistryAuthDocument, RegistryTlsDocument, AcceptsRequest,
      PlanRegistryAuthentication, KafkaAuthAsRequested, LabelsAsRequested, RegistryAsRequested, RegistryEditPlan,
      OffersRegistry;
    var plan := PlanEdit(before, request, checks).value;
    var after := ApplyPlans(plan, staged, checks).value;
    EditsCarriedOut(before, request, checks);
    if request.auth.Some? {
      KafkaAuthCarriedOut(before.id, Some(before.kafka.auth), request.auth.value, checks, staged);
    }
    AppliedRegistry(before, request, checks);
    RegistrySectionCarriedOut(before, request, checks, plan.updated, plan.registry, staged, after.registry);
  }

  // New profiles are carried out

  lemma NewCarriedOut(profileId: Uuid, request: NewRequest, checks: Checks, staged: map<Field, Reference>)
    requires PlanNew(profileId, request, checks).Ok?
    requires ApplyPlans(PlanNew(profileId, request, checks).value, staged, checks).Some?
    ensures var after := ApplyPlans(PlanNew(profileId, request, checks).value, staged, checks).value;
            after.id == profileId && NewAsRequested(request, checks, after)
  {
    hide AuthDocument, PlanAuthentication, RegistryAuthDocument, RegistryTlsDocument, PlanRegistryAuthentication,
      KafkaAuthAsRequested, RegistryAuthAsRequested;
    var plan := PlanNew(profileId, request, checks).value;
    var after := ApplyPlans(plan, staged, checks).value;
    var auth := if request.auth.None? then NoKafkaAuth else request.auth.value;
    KafkaAuthCarriedOut(profileId, None, auth, checks, staged);
    assert request.auth.None? ==> after.kafka.auth == KafkaNone by { AskedForNone(KafkaNone, checks, after.kafka.auth); }
    if request.registryAuth.Some? {
      RegistryAuthCarriedOut(profileId, None, request.registryAuth.value, checks, staged, after.registry.value);
    }
  }

  lemma AskedForNone(before: KafkaAuth, checks: Checks, after: KafkaAuth)
    ensures KafkaAuthAsRequested(before, NoKafkaAuth, checks, after) ==> after == KafkaNone
  {
  }

  // Secrets

  /** Every supplied secret is staged, under its field. */
  ghost predicate StagesSupplied(auth: Option<KafkaAuthInput>, registryAuth: Option<RegistryAuthInput>, checks: Checks,
                                 replacements: seq<SecretReplacement>, kafka: bool) {
    && (forall i :: 0 <= i < |replacements| ==>
          && IsKafkaField(replacements[i].field) == kafka
          && SuppliedSecret(auth, registryAuth, checks, replacements[i].field) == Some(replacements[i].value))
    && (forall field :: IsKafkaField(field) == kafka && SuppliedSecret(auth, registryAuth, checks, field).Some? ==>
          Replaces(replacements, field))
  }

  lemma PasswordSupplied(auth: KafkaAuth, current: map<Field, Reference>, input: KafkaAuthInput,
                         registryAuth: Option<RegistryAuthInput>, checks: Checks)
    requires input.authType.TypeSasl? && PasswordPlan(auth, current, input).Ok?
    ensures StagesSupplied(Some(input), registryAuth, checks, PasswordPlan(auth, current, input).value.replacements, true)
  {
    hide Retired, ValidCredential;
    var replacements := PasswordPlan(auth, current, input).value.replacements;
    assert |replacements| > 0 ==> Replaces(replacements, replacements[0].field);
  }

  lemma IdentitySupplied(auth: KafkaAuth, current: map<Field, Reference>, input: KafkaAuthInput,
                         registryAuth: Option<RegistryAuthInput>, checks: Checks)
    requires input.authType.TypeMtls? && MtlsPlan(auth, current, input, checks).Ok?
    ensures StagesSupplied(Some(input), registryAuth, checks, MtlsPlan(auth, current, input, checks).value.replacements,
                           true)
  {
    hide Retired;
    var replacements := MtlsPlan(auth, current, input, checks).value.replacements;
    assert |replacements| > 0 ==> Replaces(replacements, replacements[0].field);
    assert |replacements| > 1 ==> Replaces(replacements, replacements[1].field);
  }

  lemma TokenSupplied(auth: KafkaAuth, current: map<Field, Reference>, input: KafkaAuthInput,
                      registryAuth: Option<RegistryAuthInput>, checks: Checks)
    requires input.authType.TypeOAuth? && OAuthPlan(auth, current, input, checks).Ok?
    ensures StagesSupplied(Some(input), registryAuth, checks, OAuthPlan(auth, current, input, checks).value.replacements,
                           true)
  {
    hide Retired, ValidCredential;
    var replacements := OAuthPlan(auth, current, input, checks).value.replacements;
    assert |replacements| > 0 ==> Replaces(replacements, replacements[0].field);
  }

  lemma KafkaSupplied(profileId: Uuid, before: Option<KafkaAuth>, input: KafkaAuthInput,
                      registryAuth: Option<RegistryAuthInput>, checks: Checks)
    requires PlanAuthentication(profileId, before, input, checks).Ok?
    ensures StagesSupplied(Some(input), registryAuth, checks,
                           PlanAuthentication(profileId, before, input, checks).value.replacements, true)
  {
    hide Retired, Owned, PasswordPlan, MtlsPlan, OAuthPlan, KafkaReferences, StagesSupplied;
    var auth := if before.None? then KafkaNone else before.value;
    var current := KafkaReferences(auth);
    match input.authType {
      case TypeNone => NothingSupplied(Some(input), registryAuth, checks);
      case TypeUnknown =>
      case TypeSasl(_) => PasswordSupplied(auth, current, input, registryAuth, checks);
      case TypeMtls => IdentitySupplied(auth, current, input, registryAuth, checks);
      case TypeOAuth => TokenSupplied(auth, current, input, registryAuth, checks);
    }
  }

  /** The main credential of a type, and the password of a private key, are all a Registry is supplied with. */
  lemma MainSupplied(auth: Option<KafkaAuthInput>, input: RegistryAuthInput, checks: Checks)
    requires !input.authType.NoneAuth? && !input.authType.UnknownAuth?
    ensures var (field, value) := MainCredential(input);
            && !IsKafkaField(field) && field != RegistryPrivateKeyPassword
            && SuppliedSecret(auth, Some(input), checks, field) == value
            && SuppliedSecret(auth, Some(input), checks, RegistryPrivateKeyPassword) ==
               (if input.authType.MtlsAuth? then input.privateKeyPassword else None)
            && forall other :: !IsKafkaField(other) && other != field && other != RegistryPrivateKeyPassword ==>
                 SuppliedSecret(auth, Some(input), checks, other).None?
    ensures !IsKafkaField(RegistryPrivateKeyPassword)
  {
  }

  lemma CredentialsSupplied(auth: Option<KafkaAuthInput>, input: RegistryAuthInput, previous: Option<Reference>,
                            current: map<Field, Reference>, checks: Checks)
    requires !input.authType.NoneAuth? && !input.authType.UnknownAuth?
    requires SecretReplacements(input, previous, current).Ok?
    ensures StagesSupplied(auth, Some(input), checks, SecretReplacements(input, previous, current).value.replacements,
                           false)
  {
    hide Retired, SuppliedSecret, MainCredential, IsKafkaField;
    MainSupplied(auth, input, checks);
    var replacements := SecretReplacements(input, previous, current).value.replacements;
    assert |replacements| > 0 ==> Replaces(replacements, replacements[0].field);
    assert |replacements| > 1 ==> Replaces(replacements, replacements[1].field);
  }

  lemma RegistrySupplied(profileId: Uuid, before: Option<Registry>, auth: Option<KafkaAuthInput>,
                         input: RegistryAuthInput, checks: Checks)
    requires PlanRegistryAuthentication(profileId, before, input, checks).Ok?
    ensures StagesSupplied(auth, Some(input), checks,
                           PlanRegistryAuthentication(profileId, before, input, checks).value.replacements, false)
  {
    hide Retired, Owned, SecretReplacements, StagesSupplied, AcceptsInput, AcceptsNone, RegistryReferences, MainCredential;
    var references := RegistryReferences(before);
    if input.authType.NoneAuth? {
      NothingSupplied(auth, Some(input), checks);
    } else {
      CredentialsSupplied(auth, input, CurrentOf(references, MainCredential(input).0), references, checks);
    }
  }

  /** Without input there is nothing to stage. */
  lemma NothingSupplied(auth: Option<KafkaAuthInput>, registryAuth: Option<RegistryAuthInput>, checks: Checks)
    ensures auth.None? || auth.value.authType == TypeNone ==> StagesSupplied(auth, registryAuth, checks, [], true)
    ensures registryAuth.None? || registryAuth.value.authType == NoneAuth ==>
              StagesSupplied(auth, registryAuth, checks, [], false)
  {
  }

  lemma {:induction false} AllSupplied(auth: Option<KafkaAuthInput>, registryAuth: Option<RegistryAuthInput>,
                                       checks: Checks, kafka: seq<SecretReplacement>, registry: seq<SecretReplacement>)
    requires StagesSupplied(auth, registryAuth, checks, kafka, true)
    requires StagesSupplied(auth, registryAuth, checks, registry, false)
    ensures SuppliesAll(auth, registryAuth, checks, kafka + registry)
  {
    hide SuppliedSecret, IsKafkaField, Replaces;
    ReplacesBoth(kafka, registry);
  }

  ghost predicate SuppliesAll(auth: Option<KafkaAuthInput>, registryAuth: Option<RegistryAuthInput>, checks: Checks,
                           replacements: seq<SecretReplacement>) {
    && (forall i :: 0 <= i < |replacements| ==>
          SuppliedSecret(auth, registryAuth, checks, replacements[i].field) == Some(replacements[i].value))
    && (forall field :: SuppliedSecret(auth, registryAuth, checks, field).Some? ==> Replaces(replacements, field))
  }

  lemma EditSupplies(before: Document, request: EditRequest, checks: Checks)
    requires PlanEdit(before, request, checks).Ok?
    ensures SuppliesAll(request.auth, request.registryAuth, checks, PlanEdit(before, request, checks).value.Replacements())
  {
    hide ApplyEdits, PlanAuthentication, AcceptsRequest, PlanRegistryAuthentication, SuppliedSecret, Replaces,
      StagesSupplied, SuppliesAll, Owned, Retired;
    var plan := PlanEdit(before, request, checks).value;
    NothingSupplied(request.auth, request.registryAuth, checks);
    if request.auth.Some? {
      KafkaSupplied(before.id, Some(before.kafka.auth), request.auth.value, request.registryAuth, checks);
    }
    if request.registryAuth.Some? {
      RegistrySupplied(before.id, before.registry, request.auth, request.registryAuth.value, checks);
    }
    AllSupplied(request.auth, request.registryAuth, checks,
                if plan.kafka.Some? then plan.kafka.value.replacements else [],
                if plan.registry.Some? then plan.registry.value.replacements else []);
  }

  lemma NewSupplies(profileId: Uuid, request: NewRequest, checks: Checks)
    requires PlanNew(profileId, request, checks).Ok?
    ensures SuppliesAll(request.auth, request.registryAuth, checks,
                     PlanNew(profileId, request, checks).value.Replacements())
  {
    hide PlanAuthentication, PlanRegistryAuthentication, SuppliedSecret, Replaces, StagesSupplied, SuppliesAll, Owned,
      Retired;
    var plan := PlanNew(profileId, request, checks).value;
    NothingSupplied(request.auth, request.registryAuth, checks);
    if request.auth.Some? {
      KafkaSupplied(profileId, None, request.auth.value, request.registryAuth, checks);
    } else {
      assert plan.kafka.value.replacements == [] by { NonePlanned(profileId, checks); }
    }
    if request.registryAuth.Some? {
      RegistrySupplied(profileId, None, request.auth, request.registryAuth.value, checks);
    }
    AllSupplied(request.auth, request.registryAuth, checks, plan.kafka.value.replacements,
                if plan.registry.Some? then plan.registry.value.replacements else []);
  }

  lemma NonePlanned(profileId: Uuid, checks: Checks)
    ensures PlanAuthentication(profileId, None, NoKafkaAuth, checks).Ok?
    ensures PlanAuthentication(profileId, None, NoKafkaAuth, checks).value.replacements == []
  {
    hide Retired;
  }

  /** A generation that resolves as planned has exactly the requested secrets. */
  lemma SecretsCarriedOut(auth: Option<KafkaAuthInput>, registryAuth: Option<RegistryAuthInput>, checks: Checks,
                          replacements: seq<SecretReplacement>, former: map<Field, Secret>, after: Document,
                          secrets: map<Field, Secret>)
    requires SuppliesAll(auth, registryAuth, checks, replacements)
    requires Resolves(replacements, former, ProfileReferences(after), secrets)
    ensures SecretsAsRequested(auth, registryAuth, checks, former, after, secrets)
  {
    hide SuppliedSecret, ProfileReferences;
    forall field
      ensures match SuppliedSecret(auth, registryAuth, checks, field)
              case None => field in secrets ==> field in former && secrets[field] == former[field]
              case Some(value) => field in secrets && secrets[field] == value
    {
      if Replaces(replacements, field) {
        var i :| 0 <= i < |replacements| && replacements[i].field == field;
      }
    }
  }

  lemma EmptySupplies(auth: Option<KafkaAuthInput>, registryAuth: Option<RegistryAuthInput>, checks: Checks,
                      replacements: seq<SecretReplacement>)
    requires SuppliesAll(auth, registryAuth, checks, replacements)
    ensures SuppliesEmpty(auth, registryAuth, checks) <==> !NoEmptyValue(replacements)
  {
    hide SuppliedSecret;
    if field :| SuppliedSecret(auth, registryAuth, checks, field) == Some("") {
      var i :| 0 <= i < |replacements| && replacements[i].field == field;
      assert replacements[i].value == "";
    }
  }

  // Acceptance is exact

  lemma KafkaAllowedExactly(profileId: Uuid, before: KafkaAuth, input: KafkaAuthInput, checks: Checks)
    requires Owned(KafkaReferences(before), profileId)
    ensures PlanAuthentication(profileId, Some(before), input, checks).Ok? <==> KafkaAuthAllowed(before, input, checks)
    ensures PlanAuthentication(profileId, Some(before), input, checks).Err? ==>
              PlanAuthentication(profileId, Some(before), input, checks).error == InvalidInput
    ensures before.KafkaNone? ==>
              PlanAuthentication(profileId, None, input, checks) == PlanAuthentication(profileId, Some(before), input, checks)
  {
    hide Retired, Owned;
    if input.authType.TypeOAuth? {
      OAuthAllowedExactly(before, KafkaReferences(before), input, checks);
    }
  }

  lemma OAuthAllowedExactly(before: KafkaAuth, current: map<Field, Reference>, input: KafkaAuthInput, checks: Checks)
    requires input.authType.TypeOAuth? && current == KafkaReferences(before)
    ensures OAuthPlan(before, current, input, checks).Ok? <==> KafkaAuthAllowed(before, input, checks)
    ensures OAuthPlan(before, current, input, checks).Err? ==> OAuthPlan(before, current, input, checks).error == InvalidInput
  {
    hide Retired, Owned;
    var planned := OAuthPlan(before, current, input, checks);
    if planned.Ok? {
      var plan := planned.value;
      var reference := Reference("", "", KafkaClientSecret);
      var after :=
        KafkaOAuth(plan.oauthTokenUrl, plan.oauthClientId, plan.oauthScopes, reference, plan.oauthCaCertificates);
      assert OAuthAllowed(before, input, checks, after);
    }
  }

  /** What the input of a type has to be, beside what is stored. */
  lemma InputAllowedExactly(before: Option<Registry>, input: RegistryAuthInput, checks: Checks)
    requires !input.authType.NoneAuth? && !input.authType.UnknownAuth?
    requires input.caCertificates != None ==> checks.caBundle(input.caCertificates.value) != None
    ensures var stored := MainCredential(input).0 in RegistryReferences(before);
            RegistryAuthAllowed(before, input, checks) <==>
            AcceptsInput(input, stored, checks) && (MainCredential(input).1.Some? || stored)
  {
  }

  lemma ReplacedWhen(input: RegistryAuthInput, previous: Option<Reference>, current: map<Field, Reference>)
    ensures SecretReplacements(input, previous, current).Ok? <==> MainCredential(input).1.Some? || previous.Some?
    ensures SecretReplacements(input, previous, current).Err? ==>
              SecretReplacements(input, previous, current).error == InvalidInput
  {
    hide Retired, MainCredential;
  }

  lemma NoneAllowedExactly(before: Option<Registry>, input: RegistryAuthInput, checks: Checks)
    requires input.authType.NoneAuth?
    requires input.caCertificates != None ==> checks.caBundle(input.caCertificates.value) != None
    ensures RegistryAuthAllowed(before, input, checks) <==> AcceptsNone(input)
  {
  }

  lemma RegistryAllowedExactly(profileId: Uuid, before: Option<Registry>, input: RegistryAuthInput, checks: Checks)
    requires Owned(RegistryReferences(before), profileId)
    ensures PlanRegistryAuthentication(profileId, before, input, checks).Ok? <==>
            RegistryAuthAllowed(before, input, checks)
    ensures PlanRegistryAuthentication(profileId, before, input, checks).Err? ==>
              PlanRegistryAuthentication(profileId, before, input, checks).error == InvalidInput
  {
    hide Retired, Owned, SecretReplacements, AcceptsInput, AcceptsNone, RegistryReferences, MainCredential,
      RegistryAuthAllowed;
    var references := RegistryReferences(before);
    AllowedBundle(before, input, checks);
    if input.authType.UnknownAuth? {
    } else if input.caCertificates != None && checks.caBundle(input.caCertificates.value) == None {
    } else if input.authType.NoneAuth? {
      NoneAllowedExactly(before, input, checks);
    } else {
      InputAllowedExactly(before, input, checks);
      ReplacedWhen(input, CurrentOf(references, MainCredential(input).0), references);
    }
  }

  lemma AllowedBundle(before: Option<Registry>, input: RegistryAuthInput, checks: Checks)
    ensures RegistryAuthAllowed(before, input, checks) ==> !input.authType.UnknownAuth?
    ensures RegistryAuthAllowed(before, input, checks) && input.caCertificates != None ==>
              checks.caBundle(input.caCertificates.value) != None
  {
  }

  lemma CoherentExactly(request: EditRequest)
    ensures Coherent(request) <==> AcceptsRequest(request)
  {
  }

  lemma TransportAllowedExactly(kafka: Kafka, request: EditRequest, checks: Checks)
    requires AcceptsRequest(request)
    ensures var transport := if request.transport == None then kafka.transport else request.transport.value;
            EditTransport(kafka, request, checks).Ok? <==>
            && (request.caCertificates != None || request.defaultTrust ==> transport == "tls")
            && (request.caCertificates != None ==> checks.caBundle(request.caCertificates.value) != None)
    ensures match EditTransport(kafka, request, checks)
            case Ok(after) => after.transport == if request.transport == None then kafka.transport else request.transport.value
            case Err(error) => error == InvalidInput
  {
  }

  lemma RegistryEditAllowedExactly(before: Option<Registry>, request: EditRequest)
    requires AcceptsRequest(request)
    ensures EditRegistry(before, request).Ok? <==>
            (request.registryProvider != None && request.registryUrl == None ==>
               before != None && request.registryProvider.value == before.value.provider)
    ensures match EditRegistry(before, request)
            case Ok(after) => request.registryAuth.None? && after.Some? && before.Some? ==> after.value.auth == before.value.auth
            case Err(error) => error == InvalidInput
  {
  }

  lemma RegistryPlanAllowedExactly(current: Document, updated: Document, requested: Option<RegistryAuthInput>,
                                   checks: Checks)
    requires Owned(RegistryReferences(current.registry), current.id) && checks.storable(updated)
    requires current.registry.Some? && updated.registry.Some? && requested.None? ==>
               updated.registry.value.auth == current.registry.value.auth
    requires requested.None? && current.registry.None? && updated.registry.Some? ==>
               updated.registry.value.auth == RegistryNone
    ensures RegistryEditPlan(current, updated, requested, checks).Ok? <==>
            (requested.Some? ==> RegistryAuthAllowed(current.registry, requested.value, checks))
    ensures RegistryEditPlan(current, updated, requested, checks).Err? ==>
              RegistryEditPlan(current, updated, requested, checks).error == InvalidInput
  {
    hide PlanRegistryAuthentication, RegistryAuthAllowed, Retired;
    if requested.Some? {
      RegistryAllowedExactly(current.id, current.registry, requested.value, checks);
    } else {
      assert RegistryReferences(updated.registry) == map[] ||
             RegistryReferences(updated.registry) == RegistryReferences(current.registry);
    }
  }

  lemma SettingsAllowedExactly(before: Document, request: EditRequest, checks: Checks)
    requires AcceptsRequest(request)
    ensures ApplyEdits(before, request, checks).Ok? <==> SettingsAllowed(before, request, checks)
    ensures match ApplyEdits(before, request, checks)
            case Ok(updated) =>
              && updated.kafka.transport == (if request.transport == None then before.kafka.transport
                                             else request.transport.value)
              && (updated.registry.Some? && request.registryAuth.None? ==>
                    updated.registry.value.auth ==
                    if before.registry.Some? then before.registry.value.auth else RegistryNone)
            case Err(error) => error == InvalidInput
  {
    hide EditTransport, EditRegistry, AcceptsRequest;
    var servers := before.kafka.(
      bootstrapServers := if request.bootstrapServers.Some? then request.bootstrapServers.value
                          else before.kafka.bootstrapServers);
    TransportAllowedExactly(servers, request, checks);
    RegistryEditAllowedExactly(before.registry, request);
    NewSectionIsPlain(before.registry, request);
  }

  lemma ServiceAllowedExactly(before: Document, request: EditRequest, checks: Checks)
    requires Owned(KafkaReferences(before.kafka.auth), before.id) && request.auth.Some?
    ensures match PlanAuthentication(before.id, Some(before.kafka.auth), request.auth.value, checks)
            case Ok(plan) =>
              && plan.authType == request.auth.value.authType
              && KafkaAuthAllowed(before.kafka.auth, request.auth.value, checks)
            case Err(error) => error == InvalidInput && !KafkaAuthAllowed(before.kafka.auth, request.auth.value, checks)
  {
    hide PlanAuthentication, KafkaAuthAllowed, KafkaReferences, Owned;
    KafkaAllowedExactly(before.id, before.kafka.auth, request.auth.value, checks);
    PlannedType(before.id, Some(before.kafka.auth), request.auth.value, checks);
  }

  /** An edit is accepted exactly when the stored profile admits it, and otherwise the input is blamed. */
  lemma EditAllowedExactly(before: Document, request: EditRequest, checks: Checks)
    requires WellOwned(before) && forall document: Document :: checks.storable(document)
    ensures PlanEdit(before, request, checks).Ok? <==> EditAllowed(before, request, checks)
    ensures PlanEdit(before, request, checks).Err? ==> PlanEdit(before, request, checks).error == InvalidInput
  {
    hide PlanAuthentication, RegistryEditPlan, KafkaAuthAllowed, RegistryAuthAllowed, KafkaReferences,
      RegistryReferences, Coherent, AcceptsRequest, ApplyEdits, Owned, IsCanonicalUuid, WellOwned;
    CoherentExactly(request);
    OwnedSections(before);
    if AcceptsRequest(request) {
      SettingsAllowedExactly(before, request, checks);
      if request.auth.Some? {
        ServiceAllowedExactly(before, request, checks);
      }
      if SettingsAllowed(before, request, checks) {
        var updated := ApplyEdits(before, request, checks).value;
        RegistryPlanAllowedExactly(before, updated, request.registryAuth, checks);
      }
    }
  }

  lemma NewSectionIsPlain(before: Option<Registry>, request: EditRequest)
    ensures before.None? && EditRegistry(before, request).Ok? ==>
              var after := EditRegistry(before, request).value; after.Some? ==> after.value.auth == RegistryNone
  {
  }

  lemma PlannedType(profileId: Uuid, before: Option<KafkaAuth>, input: KafkaAuthInput, checks: Checks)
    ensures PlanAuthentication(profileId, before, input, checks).Ok? ==>
              PlanAuthentication(profileId, before, input, checks).value.authType == input.authType
  {
    hide Retired, Owned;
  }

  lemma NewAllowedExactly(profileId: Uuid, request: NewRequest, checks: Checks)
    ensures PlanNew(profileId, request, checks).Ok? <==> NewAllowed(request, checks)
    ensures PlanNew(profileId, request, checks).Err? ==> PlanNew(profileId, request, checks).error == InvalidInput
  {
    hide PlanAuthentication, PlanRegistryAuthentication, KafkaAuthAllowed, RegistryAuthAllowed, KafkaReferences,
      RegistryReferences, Owned;
    NothingOwned(profileId);
    if request.auth.Some? {
      KafkaAllowedExactly(profileId, KafkaNone, request.auth.value, checks);
      PlannedType(profileId, None, request.auth.value, checks);
    } else {
      NonePlanned(profileId, checks);
      PlannedType(profileId, None, NoKafkaAuth, checks);
    }
    if request.registryAuth.Some? {
      RegistryAllowedExactly(profileId, None, request.registryAuth.value, checks);
    }
  }

  lemma NothingOwned(profileId: Uuid)
    ensures Owned(KafkaReferences(KafkaNone), profileId) && Owned(RegistryReferences(None), profileId)
  {
  }
}
