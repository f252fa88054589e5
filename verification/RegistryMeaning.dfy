/** What the Registry keys of client properties mean, in literal keys and values. */
module RegistryMeaning {
  import opened Wrappers
  import opened PropertiesSyntax
  import opened JavaRendering
  import opened JaasRendering
  import opened PropertyMapping
  import opened RegistryProperties
  import opened ImportMeaning

  ghost predicate ConfluentKey(key: string) {
    "schema.registry." <= key || "basic.auth." <= key || "bearer.auth." <= key
  }

  ghost predicate ApicurioKey(key: string) {
    || "apicurio.registry.url" <= key || "apicurio.registry.auth." <= key
    || "apicurio.registry.tls." <= key || "apicurio.registry.proxy." <= key
  }

  // Confluent

  /** Every value under its name without the namespace; a name is given with or without it, but not both ways. */
  ghost predicate SpelledOnce(values: map<string, string>, bare: map<string, string>) {
    && (forall key :: key in values ==> NameOf(key) in bare && bare[NameOf(key)] == values[key])
    && (forall name :: name in bare ==> exists key :: key in values && NameOf(key) == name)
    && (forall name :: name in values && !("schema.registry." <= name) ==> "schema.registry." + name !in values)
  }

  ghost function NameOf(key: string): (name: string)
    ensures key == if "schema.registry." <= key then "schema.registry." + name else name
  {
    if "schema.registry." <= key then key[16..] else key
  }

  ghost predicate Says(values: map<string, string>, key: string, value: string) {
    key in values && values[key] == value
  }

  ghost predicate ConfluentLogin(bare: map<string, string>, checks: ImportChecks, auth: RegistryAuth) {
    && JavaIdentityIs(bare, checks, if auth.Mtls? then Some(auth.identity) else None)
    && ("basic.auth.credentials.source" in bare <==> auth.Basic?)
    && ("bearer.auth.credentials.source" in bare <==> auth.Token? || auth.OAuth?)
    && ("basic.auth.user.info" in bare ==> auth.Basic?)
    && match auth
       case NoAuth => true
       case Mtls(_) => true
       case Basic(username, password) =>
         && Says(bare, "basic.auth.credentials.source", "USER_INFO")
         && Says(bare, "basic.auth.user.info", username + ":" + password)
         && username != "" && ':' !in username && Sendable(password)
       case Token(token) =>
         && Says(bare, "bearer.auth.credentials.source", "STATIC_TOKEN")
         && Says(bare, "bearer.auth.token", token) && Sendable(token)
       case OAuth(_, _, _, _, _, _) =>
         Says(bare, "bearer.auth.credentials.source", "OAUTHBEARER") && ConfluentOAuth(bare, checks, auth)
  }

  ghost predicate ConfluentOAuth(bare: map<string, string>, checks: ImportChecks, auth: RegistryAuth)
    requires auth.OAuth?
  {
    && TokenUrlIs(bare, "bearer.auth.issuer.endpoint.url", checks, auth.tokenUrl)
    && Credentials(bare, "bearer.auth.client.id", "bearer.auth.client.secret", auth.clientId, auth.clientSecret)
    && ScopesAre(Get(bare, "bearer.auth.scope"), auth.scopes)
    && auth.logicalCluster == Get(bare, "bearer.auth.logical.cluster")
    && auth.identityPoolId == Get(bare, "bearer.auth.identity.pool.id")
  }

  ghost predicate ConfluentReads(auth: RegistryAuth, key: string) {
    || key == "url" || key == "ssl.endpoint.identification.algorithm"
    || key == "ssl.truststore.type" || key == "ssl.truststore.certificates" || key == "ssl.truststore.location"
    || key == "ssl.keystore.type"
    || match auth
       case NoAuth => false
       case Mtls(_) => key in {"ssl.keystore.certificate.chain", "ssl.keystore.key", "ssl.key.password"}
       case Basic(_, _) => key in {"basic.auth.credentials.source", "basic.auth.user.info"}
       case Token(_) => key in {"bearer.auth.credentials.source", "bearer.auth.token"}
       case OAuth(_, _, _, _, _, _) =>
         key in {"bearer.auth.credentials.source", "bearer.auth.issuer.endpoint.url", "bearer.auth.client.id",
                 "bearer.auth.client.secret", "bearer.auth.scope", "bearer.auth.logical.cluster",
                 "bearer.auth.identity.pool.id"}
  }

  /** Credentials and certificates are only sent to a server over HTTPS. */
  ghost predicate OverHttps(registry: ImportedRegistry, checks: ImportChecks) {
    registry.auth != NoAuth || registry.caCertificates != None ==> "https://" <= checks.lower(registry.url)
  }

  ghost predicate ConfluentRegistryIs(bare: map<string, string>, checks: ImportChecks, registry: ImportedRegistry) {
    && registry.provider == "confluent"
    && Says(bare, "url", registry.url) && registry.url != "" && checks.registryUrl(registry.url)
    && HostnamesAreVerified(bare, checks) && JavaTrustIs(bare, checks, registry.caCertificates)
    && ConfluentLogin(bare, checks, registry.auth) && OverHttps(registry, checks)
    && forall key :: key in bare ==> ConfluentReads(registry.auth, key)
  }

  // Apicurio

  ghost predicate ApicurioTrustIs(values: map<string, string>, checks: ImportChecks, trust: Option<string>) {
    && PemIs(values, "apicurio.registry.tls.certificates", "apicurio.registry.tls.truststore.location",
             checks.caBundle, checks.readCaBundle, trust)
    && ("apicurio.registry.tls.truststore.type" in values ==>
          checks.upper(values["apicurio.registry.tls.truststore.type"]) == "PEM")
    && ("apicurio.registry.tls.truststore.location" in values ==> "apicurio.registry.tls.truststore.type" in values)
  }

  ghost predicate ApicurioCertificates(values: map<string, string>, checks: ImportChecks, identity: Identity) {
    && "apicurio.registry.tls.client-certificate" in values && "apicurio.registry.tls.client-key" in values
    && var certificate := checks.certificate(values["apicurio.registry.tls.client-certificate"]);
    && var key := checks.readPrivateKey(values["apicurio.registry.tls.client-key"]);
    && certificate != None && key != None && KeyPair(certificate.value, key.value, None, checks, identity)
  }

  ghost predicate ApicurioLogin(values: map<string, string>, checks: ImportChecks, auth: RegistryAuth) {
    && ("apicurio.registry.tls.client-certificate" in values <==> auth.Mtls?)
    && ("apicurio.registry.tls.client-key" in values <==> auth.Mtls?)
    && ("apicurio.registry.auth.service.token.endpoint" in values <==> auth.OAuth?)
    && ("apicurio.registry.auth.username" in values <==> auth.Basic?)
    && match auth
       case NoAuth => true
       case Mtls(identity) => ApicurioCertificates(values, checks, identity)
       case Token(_) => false
       case Basic(username, password) =>
         Credentials(values, "apicurio.registry.auth.username", "apicurio.registry.auth.password", username, password)
       case OAuth(_, _, _, _, _, _) => ApicurioTokens(values, checks, auth)
  }

  ghost predicate ApicurioTokens(values: map<string, string>, checks: ImportChecks, auth: RegistryAuth)
    requires auth.OAuth?
  {
    && TokenUrlIs(values, "apicurio.registry.auth.service.token.endpoint", checks, auth.tokenUrl)
    && Credentials(values, "apicurio.registry.auth.client.id", "apicurio.registry.auth.client.secret", auth.clientId,
                   auth.clientSecret)
    && ScopesAre(Get(values, "apicurio.registry.auth.client.scope"), auth.scopes)
    && auth.logicalCluster == None && auth.identityPoolId == None
  }

  ghost predicate ApicurioReads(auth: RegistryAuth, key: string) {
    || key == "apicurio.registry.url" || key == "apicurio.registry.url.version"
    || key == "apicurio.registry.tls.trust-all" || key == "apicurio.registry.tls.verify-host"
    || key == "apicurio.registry.tls.truststore.type" || key == "apicurio.registry.tls.truststore.location"
    || key == "apicurio.registry.tls.certificates"
    || match auth
       case NoAuth => false
       case Token(_) => false
       case Mtls(_) => key in {"apicurio.registry.tls.client-certificate", "apicurio.registry.tls.client-key"}
       case Basic(_, _) => key in {"apicurio.registry.auth.username", "apicurio.registry.auth.password"}
       case OAuth(_, _, _, _, _, _) =>
         key in {"apicurio.registry.auth.service.token.endpoint", "apicurio.registry.auth.client.id",
                 "apicurio.registry.auth.client.secret", "apicurio.registry.auth.client.scope"}
  }

  ghost predicate ApicurioIsVerified(values: map<string, string>, checks: ImportChecks) {
    && ("apicurio.registry.tls.trust-all" in values ==> checks.lower(values["apicurio.registry.tls.trust-all"]) != "true")
    && ("apicurio.registry.tls.verify-host" in values ==>
          checks.lower(values["apicurio.registry.tls.verify-host"]) == "true")
  }

  ghost predicate ApicurioRegistryIs(values: map<string, string>, checks: ImportChecks, registry: ImportedRegistry) {
    && registry.provider == "apicurio"
    && Says(values, "apicurio.registry.url", registry.url) && registry.url != "" && checks.registryUrl(registry.url)
    && ("apicurio.registry.url.version" in values ==> Says(values, "apicurio.registry.url.version", "3"))
    && ApicurioIsVerified(values, checks) && ApicurioTrustIs(values, checks, registry.caCertificates)
    && ApicurioLogin(values, checks, registry.auth) && OverHttps(registry, checks)
    && forall key :: key in values ==> ApicurioReads(registry.auth, key)
  }

  /** The Registry that a file's Registry keys describe; keys of both kinds describe none. */
  ghost predicate RegistryIs(values: map<string, string>, checks: ImportChecks, registry: ImportedRegistry) {
    if forall key :: key in values ==> !ConfluentKey(key) then ApicurioRegistryIs(values, checks, registry)
    else
      && (forall key :: key in values ==> !ApicurioKey(key))
      && exists bare :: SpelledOnce(values, bare) && ConfluentRegistryIs(bare, checks, registry)
  }

  // Exactly

  lemma RegistryKeysExactly(key: string)
    ensures ConfluentKey(key) <==> IsConfluentKey(key)
    ensures ApicurioKey(key) <==> IsApicurioKey(key)
  {
  }

  lemma NamesExactly(key: string)
    ensures NameOf(key) == Unqualified(key)
  {
  }

  lemma SpelledOnceExactly(values: map<string, string>)
    ensures (exists bare :: SpelledOnce(values, bare)) <==> OneSpelling(values)
    ensures forall bare :: SpelledOnce(values, bare) <==> OneSpelling(values) && bare == Bare(values)
  {
    hide Unqualified;
    forall key ensures NameOf(key) == Unqualified(key) {
      NamesExactly(key);
    }
    forall bare | SpelledOnce(values, bare) ensures OneSpelling(values) && bare == Bare(values) {
      IsBare(values, bare);
    }
    if OneSpelling(values) {
      assert SpelledOnce(values, Bare(values));
    }
  }

  lemma UserInfoExactly(values: map<string, string>, username: string, password: string)
    ensures UserInfo(values, username, password) <==>
            && Says(values, "basic.auth.user.info", username + ":" + password)
            && username != "" && ':' !in username && Sendable(password)
  {
    SendableExactly(password);
    assert '\0' in password <==> exists i :: 0 <= i < |password| && password[i] == '\0';
  }

  lemma ConfluentOAuthExactly(bare: map<string, string>, checks: ImportChecks, auth: RegistryAuth)
    requires auth.OAuth?
    ensures ConfluentOAuth(bare, checks, auth) <==> BearerIs(bare, checks, auth)
  {
    hide TokenUrlIs, Credentials, ScopesAre, UrlAt, Required, SecretAt, SplitScopes;
    TokenUrlExactly(bare, "bearer.auth.issuer.endpoint.url", checks);
    CredentialsExactly(bare, "bearer.auth.client.id", "bearer.auth.client.secret");
    ScopesExactly(Get(bare, "bearer.auth.scope"));
  }

  lemma SecretExactly(values: map<string, string>, key: string, secret: string)
    ensures SecretAt(values, key) == Some(secret) <==> Says(values, key, secret) && Sendable(secret)
  {
    SendableExactly(secret);
  }

  lemma ConfluentLoginExactly(bare: map<string, string>, checks: ImportChecks, auth: RegistryAuth)
    ensures ConfluentLogin(bare, checks, auth) <==> ConfluentAuthIs(bare, checks, auth)
  {
    hide JavaIdentityIs, JavaIdentity, UserInfo, ConfluentOAuth, BearerIs, SecretAt, Sendable;
    JavaIdentityExactly(bare, checks);
    match auth {
      case Basic(username, password) => UserInfoExactly(bare, username, password);
      case Token(token) => SecretExactly(bare, BEARER_TOKEN, token);
      case OAuth(_, _, _, _, _, _) => ConfluentOAuthExactly(bare, checks, auth);
      case _ =>
    }
  }

  lemma OverHttpsExactly(registry: ImportedRegistry, checks: ImportChecks)
    ensures OverHttps(registry, checks) <==> Secured(registry.url, registry.caCertificates, registry.auth, checks)
  {
  }

  lemma IdentityReads(bare: map<string, string>, checks: ImportChecks, identity: Option<Identity>, key: string)
    requires JavaIdentityIs(bare, checks, identity) && key in bare
    ensures key in JavaIdentityKeys(bare) <==>
            key == "ssl.keystore.type" ||
            (identity.Some? && key in {"ssl.keystore.certificate.chain", "ssl.keystore.key", "ssl.key.password"})
  {
    hide KeyPair;
  }

  lemma LoginReads(bare: map<string, string>, checks: ImportChecks, auth: RegistryAuth, key: string)
    requires ConfluentLogin(bare, checks, auth) && key in bare
    ensures key in {BASIC_SOURCE, BEARER_SOURCE} + ConfluentAuthKeys(auth) <==>
            !auth.NoAuth? && !auth.Mtls? &&
            key in match auth
                   case Basic(_, _) => {"basic.auth.credentials.source", "basic.auth.user.info"}
                   case Token(_) => {"bearer.auth.credentials.source", "bearer.auth.token"}
                   case _ => {"bearer.auth.credentials.source", "bearer.auth.issuer.endpoint.url", "bearer.auth.client.id",
                              "bearer.auth.client.secret", "bearer.auth.scope", "bearer.auth.logical.cluster",
                              "bearer.auth.identity.pool.id"}
  {
    hide Sendable, ConfluentOAuth, JavaIdentityIs;
  }

  lemma ConfluentReadsExactly(bare: map<string, string>, checks: ImportChecks, auth: RegistryAuth)
    requires ConfluentLogin(bare, checks, auth)
    ensures (forall key :: key in bare ==> ConfluentReads(auth, key)) <==>
            bare.Keys <= {"url", IDENTIFICATION} + TRUST_KEYS + JavaIdentityKeys(bare) + {BASIC_SOURCE, BEARER_SOURCE} +
                         ConfluentAuthKeys(auth)
  {
    hide JavaIdentityIs, JavaIdentityKeys, ConfluentAuthKeys, BASIC_SOURCE, BEARER_SOURCE, ConfluentReads,
      ConfluentLogin;
    forall key | key in bare
      ensures ConfluentReads(auth, key) <==>
              key in {"url", IDENTIFICATION} + TRUST_KEYS + JavaIdentityKeys(bare) + {BASIC_SOURCE, BEARER_SOURCE} +
                     ConfluentAuthKeys(auth)
    {
      IdentityOf(bare, checks, auth);
      IdentityReads(bare, checks, if auth.Mtls? then Some(auth.identity) else None, key);
      LoginReads(bare, checks, auth, key);
      ReadsOf(auth, key);
    }
  }

  lemma IdentityOf(bare: map<string, string>, checks: ImportChecks, auth: RegistryAuth)
    requires ConfluentLogin(bare, checks, auth)
    ensures JavaIdentityIs(bare, checks, if auth.Mtls? then Some(auth.identity) else None)
  {
    hide JavaIdentityIs;
  }

  lemma ReadsOf(auth: RegistryAuth, key: string)
    ensures ConfluentReads(auth, key) <==>
            || key in {"url", "ssl.endpoint.identification.algorithm"} + TRUST_KEYS
            || key == "ssl.keystore.type"
            || (auth.Mtls? && key in {"ssl.keystore.certificate.chain", "ssl.keystore.key", "ssl.key.password"})
            || (&& !auth.NoAuth? && !auth.Mtls?
                && key in match auth
                          case Basic(_, _) => {"basic.auth.credentials.source", "basic.auth.user.info"}
                          case Token(_) => {"bearer.auth.credentials.source", "bearer.auth.token"}
                          case _ => {"bearer.auth.credentials.source", "bearer.auth.issuer.endpoint.url",
                                     "bearer.auth.client.id", "bearer.auth.client.secret", "bearer.auth.scope",
                                     "bearer.auth.logical.cluster", "bearer.auth.identity.pool.id"})
  {
  }

  lemma ConfluentRegistryExactly(values: map<string, string>, checks: ImportChecks, registry: ImportedRegistry)
    ensures (exists bare :: SpelledOnce(values, bare) && ConfluentRegistryIs(bare, checks, registry)) <==>
            ConfluentIs(values, checks, registry)
  {
    hide SpelledOnce, OneSpelling, Bare, HostnamesAreVerified, HostnamesVerified, JavaTrustIs, JavaTrust, ConfluentLogin,
      ConfluentAuthIs, OverHttps, Secured, ConfluentReads, TRUST_KEYS, JavaIdentityKeys, ConfluentAuthKeys,
      IDENTIFICATION, BASIC_SOURCE, BEARER_SOURCE;
    SpelledOnceExactly(values);
    if OneSpelling(values) {
      var bare := Bare(values);
      HostnamesExactly(bare, checks);
      JavaTrustExactly(bare, checks);
      ConfluentLoginExactly(bare, checks, registry.auth);
      OverHttpsExactly(registry, checks);
      if ConfluentLogin(bare, checks, registry.auth) {
        ConfluentReadsExactly(bare, checks, registry.auth);
      }
    }
  }

  lemma ApicurioTrustExactly(values: map<string, string>, checks: ImportChecks, trust: Option<string>)
    ensures ApicurioTrustIs(values, checks, trust) <==> ApicurioTrusts(values, checks, trust)
  {
  }

  lemma ApicurioLoginExactly(values: map<string, string>, checks: ImportChecks, auth: RegistryAuth)
    ensures ApicurioLogin(values, checks, auth) <==> ApicurioAuthIs(values, checks, auth)
  {
    hide Credentials, Required, SecretAt, ApicurioTokens, ApicurioOAuthIs;
    CredentialsExactly(values, USERNAME, PASSWORD);
    if auth.OAuth? {
      ApicurioTokensExactly(values, checks, auth);
    }
  }

  lemma ApicurioTokensExactly(values: map<string, string>, checks: ImportChecks, auth: RegistryAuth)
    requires auth.OAuth?
    ensures ApicurioTokens(values, checks, auth) <==> ApicurioOAuthIs(values, checks, auth)
  {
    hide TokenUrlIs, Credentials, ScopesAre, UrlAt, Required, SecretAt, SplitScopes;
    TokenUrlExactly(values, OAUTH_URL, checks);
    CredentialsExactly(values, OAUTH_ID, OAUTH_SECRET);
    ScopesExactly(Get(values, OAUTH_SCOPE));
  }

  lemma ApicurioReadsExactly(values: map<string, string>, checks: ImportChecks, auth: RegistryAuth)
    requires ApicurioLogin(values, checks, auth)
    ensures (forall key :: key in values ==> ApicurioReads(auth, key)) <==>
            values.Keys <= {APICURIO_URL, APICURIO_VERSION, TRUST_ALL, VERIFY_HOST, STORE_TYPE, STORE_LOCATION,
                            CERTIFICATES, CERTIFICATE, CERTIFICATE_KEY} + ApicurioAuthKeys(auth)
  {
    hide ApicurioTokens, ApicurioCertificates, Credentials;
    forall key | key in values
      ensures ApicurioReads(auth, key) <==>
              key in {APICURIO_URL, APICURIO_VERSION, TRUST_ALL, VERIFY_HOST, STORE_TYPE, STORE_LOCATION,
                      CERTIFICATES, CERTIFICATE, CERTIFICATE_KEY} + ApicurioAuthKeys(auth)
    {
    }
  }

  lemma ApicurioVerifiedExactly(values: map<string, string>, checks: ImportChecks)
    ensures ApicurioIsVerified(values, checks) <==> ApicurioVerifies(values, checks)
  {
  }

  lemma ApicurioRegistryExactly(values: map<string, string>, checks: ImportChecks, registry: ImportedRegistry)
    ensures ApicurioRegistryIs(values, checks, registry) <==> ApicurioIs(values, checks, registry)
  {
    hide ApicurioIsVerified, ApicurioVerifies, ApicurioTrustIs, ApicurioTrusts, ApicurioLogin, ApicurioAuthIs, OverHttps,
      Secured, ApicurioReads, ApicurioAuthKeys, TRUST_ALL, VERIFY_HOST, STORE_TYPE, STORE_LOCATION, CERTIFICATES,
      CERTIFICATE, CERTIFICATE_KEY;
    ApicurioVerifiedExactly(values, checks);
    ApicurioTrustExactly(values, checks, registry.caCertificates);
    ApicurioLoginExactly(values, checks, registry.auth);
    OverHttpsExactly(registry, checks);
    if ApicurioLogin(values, checks, registry.auth) {
      ApicurioReadsExactly(values, checks, registry.auth);
    }
  }

  /** The methods read off a Registry exactly when the keys describe it. */
  lemma RegistryIsExactly(values: map<string, string>, checks: ImportChecks, registry: ImportedRegistry)
    ensures RegistryIs(values, checks, registry) <==> Describes(values, checks, registry)
  {
    hide ConfluentKey, ApicurioKey, IsConfluentKey, IsApicurioKey, ApicurioRegistryIs, ApicurioIs, ConfluentIs,
      SpelledOnce, ConfluentRegistryIs;
    forall key ensures ConfluentKey(key) <==> IsConfluentKey(key) ensures ApicurioKey(key) <==> IsApicurioKey(key) {
      RegistryKeysExactly(key);
    }
    ConfluentRegistryExactly(values, checks, registry);
    ApicurioRegistryExactly(values, checks, registry);
  }
}
