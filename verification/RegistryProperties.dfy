/** The Registry part of client properties (`registry_properties.py`).

    The methods read keys one after the other; `Describes` says, key by key, which Registry a file describes. */
module RegistryProperties {
  import opened Wrappers
  import opened PropertiesSyntax
  import opened JavaRendering
  import opened JaasRendering
  import opened PropertyMapping

  datatype RegistryAuth =
    | NoAuth
    | Basic(username: string, password: string)
    | Token(token: string)
    | Mtls(identity: Identity)
    | OAuth(tokenUrl: string, clientId: string, clientSecret: string, scopes: seq<string>,
            logicalCluster: Option<string>, identityPoolId: Option<string>)

  datatype ImportedRegistry = ImportedRegistry(provider: string, url: string, caCertificates: Option<string>,
                                               auth: RegistryAuth)

  predicate StartsWith(text: string, prefix: string) {
    |prefix| <= |text| && text[..|prefix|] == prefix
  }

  predicate IsConfluentKey(key: string) {
    StartsWith(key, "schema.registry.") || StartsWith(key, "basic.auth.") || StartsWith(key, "bearer.auth.")
  }

  predicate IsApicurioKey(key: string) {
    || StartsWith(key, "apicurio.registry.url") || StartsWith(key, "apicurio.registry.auth.")
    || StartsWith(key, "apicurio.registry.tls.") || StartsWith(key, "apicurio.registry.proxy.")
  }

  /** `is_registry_key`. */
  predicate IsRegistryKey(key: string) {
    IsConfluentKey(key) || IsApicurioKey(key)
  }

  // Confluent

  /** A key without the `schema.registry.` namespace. */
  function Unqualified(key: string): string {
    if StartsWith(key, "schema.registry.") then key[|"schema.registry."|..] else key
  }

  predicate OneSpelling(values: map<string, string>) {
    forall key, other :: key in values && other in values && key != other ==> Unqualified(key) != Unqualified(other)
  }

  /** The values under their unqualified names. */
  function Bare(values: map<string, string>): map<string, string>
    requires OneSpelling(values)
  {
    map key | key in values :: Unqualified(key) := values[key]
  }

  /** `_confluent_reader`: refuses a key in both spellings. */
  method UnqualifiedValues(values: map<string, string>) returns (normalized: Option<map<string, string>>)
    ensures normalized == if OneSpelling(values) then Some(Bare(values)) else None
  {
    hide Unqualified;
    var found: map<string, string> := map[];
    var left := values.Keys;
    while left != {}
      invariant left <= values.Keys
      invariant forall key :: key in values && key !in left ==>
        Unqualified(key) in found && found[Unqualified(key)] == values[key]
      invariant forall name :: name in found ==> exists key :: key in values && key !in left && Unqualified(key) == name
      invariant forall key, other :: (key in values.Keys - left && other in values.Keys - left && key != other) ==>
        Unqualified(key) != Unqualified(other)
      decreases left
    {
      var key :| key in left;
      left := left - {key};
      var name := Unqualified(key);
      if name in found {
        return None;
      }
      ghost var known := found;
      found := found[name := values[key]];
      forall n | n in found ensures exists k :: k in values && k !in left && Unqualified(k) == n {
        if n in known {
          var k :| k in values && k !in left + {key} && Unqualified(k) == n;
        } else {
          assert Unqualified(key) == n;
        }
      }
    }
    IsBare(values, found);
    return Some(found);
  }

  lemma IsBare(values: map<string, string>, found: map<string, string>)
    requires forall key :: key in values ==> Unqualified(key) in found && found[Unqualified(key)] == values[key]
    requires forall name :: name in found ==> exists key :: key in values && Unqualified(key) == name
    requires OneSpelling(values)
    ensures found == Bare(values)
  {
    hide Unqualified;
    var bare := Bare(values);
    forall name ensures name in found <==> name in bare {
      if name in bare {
        var key :| key in values && Unqualified(key) == name;
      }
    }
    forall name | name in found ensures found[name] == bare[name] {
      var key :| key in values && Unqualified(key) == name;
    }
  }

  function Colon(text: string): (at: nat)
    ensures at <= |text|
    ensures forall i :: 0 <= i < at ==> text[i] != ':'
    ensures at < |text| ==> text[at] == ':'
  {
    if text == "" || text[0] == ':' then 0 else 1 + Colon(text[1..])
  }

  lemma ColonAt(text: string, at: nat)
    requires at < |text| && text[at] == ':' && forall i :: 0 <= i < at ==> text[i] != ':'
    ensures Colon(text) == at
  {
  }

  const BASIC_SOURCE := "basic.auth.credentials.source"
  const BEARER_SOURCE := "bearer.auth.credentials.source"
  const USER_INFO := "basic.auth.user.info"
  const BEARER_TOKEN := "bearer.auth.token"
  const BEARER_URL := "bearer.auth.issuer.endpoint.url"
  const BEARER_ID := "bearer.auth.client.id"
  const BEARER_SECRET := "bearer.auth.client.secret"
  const BEARER_SCOPE := "bearer.auth.scope"
  const BEARER_CLUSTER := "bearer.auth.logical.cluster"
  const BEARER_POOL := "bearer.auth.identity.pool.id"

  /** The authentication that unqualified values describe. */
  predicate ConfluentAuthIs(values: map<string, string>, checks: ImportChecks, auth: RegistryAuth) {
    var basic, bearer, identity := Get(values, BASIC_SOURCE), Get(values, BEARER_SOURCE), JavaIdentity(values, checks);
    && identity == Some(if auth.Mtls? then Some(auth.identity) else None)
    && (!auth.Basic? ==> basic.None? && USER_INFO !in values)
    && match auth
       case NoAuth => bearer.None?
       case Mtls(_) => bearer.None?
       case Basic(username, password) => bearer.None? && basic == Some("USER_INFO") && UserInfo(values, username, password)
       case Token(token) => bearer == Some("STATIC_TOKEN") && SecretAt(values, BEARER_TOKEN) == Some(token)
       case OAuth(_, _, _, _, _, _) => bearer == Some("OAUTHBEARER") && BearerIs(values, checks, auth)
  }

  /** One text of a name without a colon, a colon, and a password. */
  predicate UserInfo(values: map<string, string>, username: string, password: string) {
    && Get(values, USER_INFO) == Some(username + ":" + password)
    && username != "" && ':' !in username && password != "" && Plain(password) && '\0' !in password
  }

  predicate BearerIs(values: map<string, string>, checks: ImportChecks, auth: RegistryAuth)
    requires auth.OAuth?
  {
    && UrlAt(values, BEARER_URL, checks) == Some(auth.tokenUrl)
    && Required(values, BEARER_ID) == Some(auth.clientId) && SecretAt(values, BEARER_SECRET) == Some(auth.clientSecret)
    && SplitScopes(Get(values, BEARER_SCOPE)) == Some(auth.scopes)
    && Get(values, BEARER_CLUSTER) == auth.logicalCluster && Get(values, BEARER_POOL) == auth.identityPoolId
  }

  function ConfluentAuthKeys(auth: RegistryAuth): set<string> {
    match auth
    case NoAuth => {}
    case Mtls(_) => {}
    case Basic(_, _) => {USER_INFO}
    case Token(_) => {BEARER_TOKEN}
    case OAuth(_, _, _, _, _, _) => {BEARER_URL, BEARER_ID, BEARER_SECRET, BEARER_SCOPE, BEARER_CLUSTER, BEARER_POOL}
  }

  /** `_secured_registry`. */
  predicate Secured(url: string, ca: Option<string>, auth: RegistryAuth, checks: ImportChecks) {
    (auth == NoAuth && ca.None?) || StartsWith(checks.lower(url), "https://")
  }

  /** The Registry that a Confluent file describes: every key says one thing about it. */
  predicate ConfluentIs(values: map<string, string>, checks: ImportChecks, registry: ImportedRegistry) {
    && registry.provider == "confluent"
    && OneSpelling(values)
    && var bare := Bare(values);
    && Required(bare, "url") == Some(registry.url) && checks.registryUrl(registry.url)
    && HostnamesVerified(bare, checks)
    && JavaTrust(bare, checks) == Some(registry.caCertificates)
    && ConfluentAuthIs(bare, checks, registry.auth)
    && bare.Keys <= {"url", IDENTIFICATION} + TRUST_KEYS + JavaIdentityKeys(bare) + {BASIC_SOURCE, BEARER_SOURCE} +
                    ConfluentAuthKeys(registry.auth)
    && Secured(registry.url, registry.caCertificates, registry.auth, checks)
  }

  /** `_confluent_basic`. */
  method ConfluentBasic(reader: PropertyReader, source: string) returns (auth: Option<RegistryAuth>)
    modifies reader
    ensures auth.Some? ==>
              && auth.value.Basic? && source == "USER_INFO"
              && UserInfo(reader.values, auth.value.username, auth.value.password)
              && reader.taken == old(reader.taken) + {USER_INFO}
    ensures auth.None? ==> source != "USER_INFO" ||
                           forall username, password :: !UserInfo(reader.values, username, password)
  {
    if source != "USER_INFO" {
      return None;
    }
    var info := reader.Require(USER_INFO);
    if info.None? {
      NoUserInfo(reader.values);
      return None;
    }
    var at := Colon(info.value);
    if at == 0 || at >= |info.value| - 1 || !Plain(info.value[at + 1..]) || '\0' in info.value[at + 1..] {
      forall username, password ensures !UserInfo(reader.values, username, password) {
        UserInfoSplits(reader.values, username, password);
      }
      return None;
    }
    assert info.value == info.value[..at] + ":" + info.value[at + 1..];
    return Some(Basic(info.value[..at], info.value[at + 1..]));
  }

  lemma NoUserInfo(values: map<string, string>)
    requires Required(values, USER_INFO).None?
    ensures forall username, password :: !UserInfo(values, username, password)
  {
  }

  lemma UserInfoSplits(values: map<string, string>, username: string, password: string)
    ensures UserInfo(values, username, password) ==>
              && var info := values[USER_INFO];
              && Colon(info) == |username| && info[..|username|] == username && info[|username| + 1..] == password
              && |username| < |info| - 1
  {
    if UserInfo(values, username, password) {
      ColonAt(values[USER_INFO], |username|);
    }
  }

  /** `_confluent_bearer`. */
  method ConfluentBearer(reader: PropertyReader, source: string, checks: ImportChecks)
    returns (auth: Option<RegistryAuth>)
    modifies reader
    ensures auth.Some? ==>
              && reader.taken == old(reader.taken) + ConfluentAuthKeys(auth.value)
              && match auth.value
                 case Token(token) => source == "STATIC_TOKEN" && SecretAt(reader.values, BEARER_TOKEN) == Some(token)
                 case OAuth(_, _, _, _, _, _) => source == "OAUTHBEARER" && BearerIs(reader.values, checks, auth.value)
                 case _ => false
    ensures auth.None? ==> source != "STATIC_TOKEN" || SecretAt(reader.values, BEARER_TOKEN).None?
    ensures auth.None? ==> source != "OAUTHBEARER" ||
                           forall other: RegistryAuth :: other.OAuth? ==> !BearerIs(reader.values, checks, other)
  {
    hide SecretAt, UrlAt, SplitScopes;
    if source == "STATIC_TOKEN" {
      var token := reader.Secret(BEARER_TOKEN);
      return if token.None? then None else Some(Token(token.value));
    }
    if source != "OAUTHBEARER" {
      return None;
    }
    var url := reader.HttpsUrl(BEARER_URL, checks);
    if url.None? {
      return None;
    }
    var clientId := reader.Require(BEARER_ID);
    if clientId.None? {
      return None;
    }
    var secret := reader.Secret(BEARER_SECRET);
    if secret.None? {
      return None;
    }
    var scope := reader.Take(BEARER_SCOPE);
    var scopes := SplitScopes(scope);
    if scopes.None? {
      return None;
    }
    var cluster := reader.Take(BEARER_CLUSTER);
    var pool := reader.Take(BEARER_POOL);
    return Some(OAuth(url.value, clientId.value, secret.value, scopes.value, cluster, pool));
  }

  /** The authentication that an identity and the two credential sources select. */
  method ConfluentAuth(reader: PropertyReader, identity: Option<Identity>, checks: ImportChecks)
    returns (auth: Option<RegistryAuth>)
    requires JavaIdentity(reader.values, checks) == Some(identity)
    modifies reader
    ensures auth.Some? ==>
              && ConfluentAuthIs(reader.values, checks, auth.value)
              && reader.taken == old(reader.taken) + {BASIC_SOURCE, BEARER_SOURCE} + ConfluentAuthKeys(auth.value)
    ensures auth.None? ==> forall other :: !ConfluentAuthIs(reader.values, checks, other)
  {
    hide JavaIdentity, SecretAt, BearerIs, UserInfo, BASIC_SOURCE, BEARER_SOURCE, USER_INFO, BEARER_TOKEN,
      ConfluentAuthKeys;
    AuthKeysOf();
    var basic := reader.Take(BASIC_SOURCE);
    var bearer := reader.Take(BEARER_SOURCE);
    if basic.Some? && bearer.Some? {
      return None;
    }
    auth := Some(NoAuth);
    if identity.Some? {
      if basic.Some? || bearer.Some? {
        return None;
      }
      auth := Some(Mtls(identity.value));
    } else if basic.Some? {
      auth := ConfluentBasic(reader, basic.value);
    } else if bearer.Some? {
      auth := ConfluentBearer(reader, bearer.value, checks);
    }
    if reader.Has(USER_INFO) && basic.None? {
      return None;
    }
  }

  lemma AuthKeysOf()
    ensures ConfluentAuthKeys(NoAuth) == {}
    ensures forall identity :: ConfluentAuthKeys(Mtls(identity)) == {}
    ensures forall username, password :: ConfluentAuthKeys(Basic(username, password)) == {USER_INFO}
  {
  }

  /** `_confluent_registry`. */
  method ConfluentRegistry(values: map<string, string>, checks: ImportChecks)
    returns (registry: Option<ImportedRegistry>)
    ensures match registry
            case Some(found) => ConfluentIs(values, checks, found)
            case None => forall other :: !ConfluentIs(values, checks, other)
  {
    hide JavaTrust, JavaIdentity, JavaIdentityKeys, HostnamesVerified, Unqualified, StartsWith, OneSpelling, Bare,
      TRUST_KEYS, Secured, ConfluentAuthIs, ConfluentAuthKeys, BASIC_SOURCE, BEARER_SOURCE, IDENTIFICATION;
    var normalized := UnqualifiedValues(values);
    if normalized.None? {
      return None;
    }
    var reader := new PropertyReader(normalized.value);
    var url := reader.Require("url");
    if url.None? || !checks.registryUrl(url.value) {
      return None;
    }
    var verified := CheckHostnames(reader, checks);
    if !verified {
      return None;
    }
    var ca := JavaPemTrust(reader, checks);
    if ca.None? {
      return None;
    }
    var identity := JavaPemIdentity(reader, checks);
    if identity.None? {
      IdentityNeeded(values, checks);
      return None;
    }
    var auth := ConfluentAuth(reader, identity.value, checks);
    if auth.None? {
      return None;
    }
    forall other | ConfluentAuthIs(reader.values, checks, other) ensures other == auth.value {
      ConfluentAuthOnce(reader.values, checks, other, auth.value);
    }
    if !reader.NothingLeft() || !Secured(url.value, ca.value, auth.value, checks) {
      return None;
    }
    return Some(ImportedRegistry("confluent", url.value, ca.value, auth.value));
  }

  lemma IdentityNeeded(values: map<string, string>, checks: ImportChecks)
    requires OneSpelling(values) && JavaIdentity(Bare(values), checks).None?
    ensures forall other :: !ConfluentIs(values, checks, other)
  {
    hide JavaIdentity, JavaTrust, Bare, OneSpelling, Secured;
  }

  /** No file describes two authentications. */
  lemma ConfluentAuthOnce(values: map<string, string>, checks: ImportChecks, a: RegistryAuth, b: RegistryAuth)
    requires ConfluentAuthIs(values, checks, a) && ConfluentAuthIs(values, checks, b)
    ensures a == b
  {
    hide JavaIdentity, SecretAt, UrlAt, SplitScopes, UserInfo, BASIC_SOURCE, BEARER_SOURCE, USER_INFO;
    if a.Basic? && b.Basic? {
      UserInfoSplits(values, a.username, a.password);
      UserInfoSplits(values, b.username, b.password);
    }
  }

  // Apicurio

  const APICURIO_URL := "apicurio.registry.url"
  const APICURIO_VERSION := "apicurio.registry.url.version"
  const TRUST_ALL := "apicurio.registry.tls.trust-all"
  const VERIFY_HOST := "apicurio.registry.tls.verify-host"
  const STORE_TYPE := "apicurio.registry.tls.truststore.type"
  const STORE_LOCATION := "apicurio.registry.tls.truststore.location"
  const CERTIFICATES := "apicurio.registry.tls.certificates"
  const CERTIFICATE := "apicurio.registry.tls.client-certificate"
  const CERTIFICATE_KEY := "apicurio.registry.tls.client-key"
  const OAUTH_URL := "apicurio.registry.auth.service.token.endpoint"
  const OAUTH_ID := "apicurio.registry.auth.client.id"
  const OAUTH_SECRET := "apicurio.registry.auth.client.secret"
  const OAUTH_SCOPE := "apicurio.registry.auth.client.scope"
  const USERNAME := "apicurio.registry.auth.username"
  const PASSWORD := "apicurio.registry.auth.password"

  /** Verification is not turned off. */
  predicate ApicurioVerifies(values: map<string, string>, checks: ImportChecks) {
    && (TRUST_ALL in values ==> checks.lower(values[TRUST_ALL]) != "true")
    && (VERIFY_HOST in values ==> checks.lower(values[VERIFY_HOST]) == "true")
  }

  /** The trust that the file describes: a PEM store, certificates (inline or listed, one uninterpreted check),
      or the system's. */
  predicate ApicurioTrusts(values: map<string, string>, checks: ImportChecks, trust: Option<string>) {
    var storeType, location, certificates := Get(values, STORE_TYPE), Get(values, STORE_LOCATION), Get(values, CERTIFICATES);
    && (location.None? || certificates.None?)
    && (storeType.Some? ==> checks.upper(storeType.value) == "PEM") && (location.Some? ==> storeType.Some?)
    && (location.Some? ==> trust.Some? && trust == checks.readCaBundle(location.value))
    && (certificates.Some? ==> trust.Some? && trust == checks.caBundle(certificates.value))
    && (location.None? && certificates.None? ==> trust.None?)
  }

  /** The client identity that the file describes, if any. */
  predicate ApicurioIdentityIs(values: map<string, string>, checks: ImportChecks, identity: Option<Identity>) {
    match identity
    case None => CERTIFICATE !in values && CERTIFICATE_KEY !in values
    case Some(found) =>
      && CERTIFICATE in values && CERTIFICATE_KEY in values
      && var certificate := checks.certificate(values[CERTIFICATE]);
      && var key := checks.readPrivateKey(values[CERTIFICATE_KEY]);
      && certificate.Some? && key.Some?
      && ClientIdentity(certificate, key, None, checks) == Some(identity)
  }

  /** The authentication that the file describes. */
  predicate ApicurioAuthIs(values: map<string, string>, checks: ImportChecks, auth: RegistryAuth) {
    && ApicurioIdentityIs(values, checks, if auth.Mtls? then Some(auth.identity) else None)
    && (OAUTH_URL in values <==> auth.OAuth?) && (USERNAME in values <==> auth.Basic?)
    && match auth
       case NoAuth => true
       case Mtls(_) => true
       case Token(_) => false
       case Basic(username, password) =>
         Required(values, USERNAME) == Some(username) && SecretAt(values, PASSWORD) == Some(password)
       case OAuth(_, _, _, _, _, _) => ApicurioOAuthIs(values, checks, auth)
  }

  predicate ApicurioOAuthIs(values: map<string, string>, checks: ImportChecks, auth: RegistryAuth)
    requires auth.OAuth?
  {
    && UrlAt(values, OAUTH_URL, checks) == Some(auth.tokenUrl) && Required(values, OAUTH_ID) == Some(auth.clientId)
    && SecretAt(values, OAUTH_SECRET) == Some(auth.clientSecret)
    && SplitScopes(Get(values, OAUTH_SCOPE)) == Some(auth.scopes)
    && auth.logicalCluster.None? && auth.identityPoolId.None?
  }

  function ApicurioAuthKeys(auth: RegistryAuth): set<string> {
    match auth
    case Basic(_, _) => {USERNAME, PASSWORD}
    case OAuth(_, _, _, _, _, _) => {OAUTH_URL, OAUTH_ID, OAUTH_SECRET, OAUTH_SCOPE}
    case _ => {}
  }

  /** The Registry that an Apicurio file describes. */
  predicate ApicurioIs(values: map<string, string>, checks: ImportChecks, registry: ImportedRegistry) {
    && registry.provider == "apicurio"
    && Required(values, APICURIO_URL) == Some(registry.url) && checks.registryUrl(registry.url)
    && (APICURIO_VERSION in values ==> values[APICURIO_VERSION] == "3")
    && ApicurioVerifies(values, checks)
    && ApicurioTrusts(values, checks, registry.caCertificates)
    && ApicurioAuthIs(values, checks, registry.auth)
    && values.Keys <= {APICURIO_URL, APICURIO_VERSION, TRUST_ALL, VERIFY_HOST, STORE_TYPE, STORE_LOCATION, CERTIFICATES,
                       CERTIFICATE, CERTIFICATE_KEY} + ApicurioAuthKeys(registry.auth)
    && Secured(registry.url, registry.caCertificates, registry.auth, checks)
  }

  /** `_apicurio_verification`. */
  method ApicurioVerified(reader: PropertyReader, checks: ImportChecks) returns (ok: bool)
    modifies reader
    ensures ok <==> ApicurioVerifies(reader.values, checks)
    ensures ok ==> reader.taken == old(reader.taken) + {TRUST_ALL, VERIFY_HOST}
  {
    var trustAll := reader.Take(TRUST_ALL);
    if trustAll.Some? && checks.lower(trustAll.value) == "true" {
      return false;
    }
    var verifyHost := reader.Take(VERIFY_HOST);
    return verifyHost.None? || checks.lower(verifyHost.value) == "true";
  }

  /** `_apicurio_trust`. */
  method ApicurioTrust(reader: PropertyReader, checks: ImportChecks) returns (trust: Option<Option<string>>)
    modifies reader
    ensures trust.Some? ==>
              && ApicurioTrusts(reader.values, checks, trust.value)
              && reader.taken == old(reader.taken) + {STORE_TYPE, STORE_LOCATION, CERTIFICATES}
    ensures trust.None? ==> forall other :: !ApicurioTrusts(reader.values, checks, other)
  {
    hide STORE_TYPE, STORE_LOCATION, CERTIFICATES;
    var storeType := reader.Take(STORE_TYPE);
    var location := reader.Take(STORE_LOCATION);
    var certificates := reader.Take(CERTIFICATES);
    if location.Some? && certificates.Some? {
      return None;
    }
    if (location.Some? || storeType.Some?) && (storeType.None? || checks.upper(storeType.value) != "PEM") {
      return None;
    }
    if location.Some? {
      var read := checks.readCaBundle(location.value);
      return if read.None? then None else Some(read);
    }
    if certificates.Some? {
      var valid := checks.caBundle(certificates.value);
      return if valid.None? then None else Some(valid);
    }
    return Some(None);
  }

  /** `_apicurio_oauth`. */
  method ApicurioOAuth(reader: PropertyReader, checks: ImportChecks) returns (auth: Option<RegistryAuth>)
    modifies reader
    ensures auth.Some? ==>
              && auth.value.OAuth? && ApicurioOAuthIs(reader.values, checks, auth.value)
              && reader.taken == old(reader.taken) + ApicurioAuthKeys(auth.value)
    ensures auth.None? ==> forall other: RegistryAuth :: other.OAuth? ==> !ApicurioOAuthIs(reader.values, checks, other)
  {
    hide SecretAt, UrlAt, SplitScopes, OAUTH_URL, OAUTH_ID, OAUTH_SECRET, OAUTH_SCOPE;
    var url := reader.HttpsUrl(OAUTH_URL, checks);
    if url.None? {
      return None;
    }
    var clientId := reader.Require(OAUTH_ID);
    if clientId.None? {
      return None;
    }
    var secret := reader.Secret(OAUTH_SECRET);
    if secret.None? {
      return None;
    }
    var scope := reader.Take(OAUTH_SCOPE);
    var scopes := SplitScopes(scope);
    if scopes.None? {
      return None;
    }
    return Some(OAuth(url.value, clientId.value, secret.value, scopes.value, None, None));
  }

  /** `_apicurio_identity` and its validation. */
  method ApicurioIdentity(reader: PropertyReader, checks: ImportChecks) returns (identity: Option<Option<Identity>>)
    modifies reader
    ensures identity.Some? ==>
              && ApicurioIdentityIs(reader.values, checks, identity.value)
              && reader.taken == old(reader.taken) + {CERTIFICATE, CERTIFICATE_KEY}
    ensures identity.None? ==> forall other :: !ApicurioIdentityIs(reader.values, checks, other)
  {
    hide CERTIFICATE, CERTIFICATE_KEY;
    var certificate := reader.Take(CERTIFICATE);
    var key := reader.Take(CERTIFICATE_KEY);
    if certificate.Some? {
      certificate := checks.certificate(certificate.value);
      if certificate.None? {
        return None;
      }
    }
    if key.Some? {
      key := checks.readPrivateKey(key.value);
      if key.None? {
        return None;
      }
    }
    identity := ClientIdentity(certificate, key, None, checks);
  }

  /** The authentication that an identity and the credential keys select. */
  method ApicurioAuth(reader: PropertyReader, identity: Option<Identity>, checks: ImportChecks)
    returns (auth: Option<RegistryAuth>)
    requires ApicurioIdentityIs(reader.values, checks, identity)
    modifies reader
    ensures auth.Some? ==>
              && ApicurioAuthIs(reader.values, checks, auth.value)
              && reader.taken == old(reader.taken) + ApicurioAuthKeys(auth.value)
    ensures auth.None? ==> forall other :: !ApicurioAuthIs(reader.values, checks, other)
  {
    hide SecretAt, ApicurioOAuthIs, OAUTH_URL, USERNAME, PASSWORD;
    var oauth := reader.Has(OAUTH_URL);
    var basic := reader.Has(USERNAME);
    if oauth && basic {
      return None;
    }
    auth := Some(NoAuth);
    if identity.Some? {
      if oauth || basic {
        return None;
      }
      auth := Some(Mtls(identity.value));
    } else if oauth {
      auth := ApicurioOAuth(reader, checks);
    } else if basic {
      var username := reader.Require(USERNAME);
      if username.None? {
        return None;
      }
      var password := reader.Secret(PASSWORD);
      if password.None? {
        return None;
      }
      auth := Some(Basic(username.value, password.value));
    }
  }

  lemma ApicurioAuthOnce(values: map<string, string>, checks: ImportChecks, a: RegistryAuth, b: RegistryAuth)
    requires ApicurioAuthIs(values, checks, a) && ApicurioAuthIs(values, checks, b)
    ensures a == b
  {
    hide SecretAt, UrlAt, SplitScopes, OAUTH_URL, USERNAME, PASSWORD, CERTIFICATE, CERTIFICATE_KEY;
  }

  lemma ApicurioTrustOnce(values: map<string, string>, checks: ImportChecks, a: Option<string>, b: Option<string>)
    requires ApicurioTrusts(values, checks, a) && ApicurioTrusts(values, checks, b)
    ensures a == b
  {
    hide STORE_TYPE, STORE_LOCATION, CERTIFICATES;
  }

  /** `_apicurio_registry`. */
  method ApicurioRegistry(values: map<string, string>, checks: ImportChecks)
    returns (registry: Option<ImportedRegistry>)
    ensures match registry
            case Some(found) => ApicurioIs(values, checks, found)
            case None => forall other :: !ApicurioIs(values, checks, other)
  {
    hide ApicurioVerifies, ApicurioTrusts, ApicurioAuthIs, ApicurioIdentityIs, ApicurioAuthKeys, Secured, APICURIO_URL,
      APICURIO_VERSION, TRUST_ALL, VERIFY_HOST, STORE_TYPE, STORE_LOCATION, CERTIFICATES, CERTIFICATE, CERTIFICATE_KEY;
    var reader := new PropertyReader(values);
    var url := reader.Require(APICURIO_URL);
    if url.None? || !checks.registryUrl(url.value) {
      return None;
    }
    var version := reader.Take(APICURIO_VERSION);
    if version.Some? && version.value != "3" {
      return None;
    }
    var verified := ApicurioVerified(reader, checks);
    if !verified {
      return None;
    }
    var ca := ApicurioTrust(reader, checks);
    if ca.None? {
      return None;
    }
    var identity := ApicurioIdentity(reader, checks);
    if identity.None? {
      ApicurioIdentityNeeded(values, checks);
      return None;
    }
    var auth := ApicurioAuth(reader, identity.value, checks);
    if auth.None? {
      return None;
    }
    forall other | ApicurioAuthIs(values, checks, other) ensures other == auth.value {
      ApicurioAuthOnce(values, checks, other, auth.value);
    }
    forall other | ApicurioTrusts(values, checks, other) ensures other == ca.value {
      ApicurioTrustOnce(values, checks, other, ca.value);
    }
    if !reader.NothingLeft() || !Secured(url.value, ca.value, auth.value, checks) {
      return None;
    }
    return Some(ImportedRegistry("apicurio", url.value, ca.value, auth.value));
  }

  lemma ApicurioIdentityNeeded(values: map<string, string>, checks: ImportChecks)
    requires forall other :: !ApicurioIdentityIs(values, checks, other)
    ensures forall other :: !ApicurioIs(values, checks, other)
  {
    hide ApicurioIdentityIs, ApicurioTrusts, ApicurioVerifies, Secured;
  }

  // The Registry of a file

  predicate HasConfluentKeys(values: map<string, string>) {
    exists key :: key in values && IsConfluentKey(key)
  }

  predicate HasApicurioKeys(values: map<string, string>) {
    exists key :: key in values && IsApicurioKey(key)
  }

  /** The one Registry that Registry keys describe. */
  predicate Describes(values: map<string, string>, checks: ImportChecks, registry: ImportedRegistry) {
    if HasConfluentKeys(values) then !HasApicurioKeys(values) && ConfluentIs(values, checks, registry)
    else ApicurioIs(values, checks, registry)
  }

  /** A file describes at most one Registry. */
  lemma DescribesOnce(values: map<string, string>, checks: ImportChecks, a: ImportedRegistry, b: ImportedRegistry)
    requires Describes(values, checks, a) && Describes(values, checks, b)
    ensures a == b
  {
    hide HasConfluentKeys, HasApicurioKeys, ConfluentAuthIs, ApicurioAuthIs, ApicurioTrusts, OneSpelling, Bare, JavaTrust,
      Secured, ApicurioVerifies;
    if HasConfluentKeys(values) {
      ConfluentAuthOnce(Bare(values), checks, a.auth, b.auth);
    } else {
      ApicurioAuthOnce(values, checks, a.auth, b.auth);
      ApicurioTrustOnce(values, checks, a.caCertificates, b.caCertificates);
    }
  }

  /** The Registry that a file describes, if any. */
  ghost function RegistryOf(values: map<string, string>, checks: ImportChecks): Option<ImportedRegistry> {
    if exists registry :: Describes(values, checks, registry) then
      var registry :| Describes(values, checks, registry);
      Some(registry)
    else None
  }

  lemma RegistryFound(values: map<string, string>, checks: ImportChecks, registry: ImportedRegistry)
    requires Describes(values, checks, registry)
    ensures RegistryOf(values, checks) == Some(registry)
  {
    hide Describes;
    DescribesOnce(values, checks, RegistryOf(values, checks).value, registry);
  }

  /** `parse_registry_properties`: accepts exactly the files that describe a Registry, returns that one, and
      uses every Registry key of the file. */
  method ParseRegistryProperties(values: map<string, string>, checks: ImportChecks)
    returns (registry: Option<ImportedRegistry>)
    ensures match registry
            case Some(found) => Describes(values, checks, found)
            case None => forall other :: !Describes(values, checks, other)
  {
    hide IsConfluentKey, IsApicurioKey, ConfluentIs, ApicurioIs;
    var confluent := HasConfluentKeys(values);
    var apicurio := HasApicurioKeys(values);
    if confluent && apicurio {
        return None;
    }
    if confluent {
      registry := ConfluentRegistry(values, checks);
    } else {
      registry := ApicurioRegistry(values, checks);
    }
  }
}
