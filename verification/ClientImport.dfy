/** The stateful import of client properties (`client_properties.py`), and its accounting for keys. */
module ClientImport {
  import opened Wrappers
  import opened Documents
  import opened PropertiesSyntax
  import opened JavaRendering
  import opened Librdkafka
  import opened Jaas
  import opened JaasRendering
  import opened PropertyMapping
  import opened KafkaProperties
  import opened RegistryProperties
  import opened ClientProperties
  import opened ImportMeaning
  import opened RegistryMeaning
  import opened ImportedFiles

  /** `_dialect_properties`. */
  method DialectProperties(text: string) returns (inferred: Option<(Dialect, map<string, string>)>)
    ensures inferred == InferDialect(JavaProperties(text), LibrdkafkaProperties(text))
  {
    hide Matches, JAVA_MARKERS, LIBRDKAFKA_MARKERS, JavaProperties, LibrdkafkaProperties;
    var java := ParseJavaProperties(text);
    var librdkafka := ParseLibrdkafkaProperties(text);
    var readings := [java, librdkafka];
    for i := 0 to |readings|
      invariant forall k :: 0 <= k < i ==> !(HasMarker(readings[k], JAVA_MARKERS) && HasMarker(readings[k], LIBRDKAFKA_MARKERS))
    {
      if HasMarker(readings[i], JAVA_MARKERS) && HasMarker(readings[i], LIBRDKAFKA_MARKERS) {
        assert readings[i] == java || readings[i] == librdkafka;
        return None;
      }
    }
    assert readings[0] == java && readings[1] == librdkafka;
    var javaMarked := HasMarker(java, JAVA_MARKERS);
    var librdkafkaMarked := HasMarker(librdkafka, LIBRDKAFKA_MARKERS);
    if javaMarked && librdkafkaMarked {
      return None;
    }
    if java.Some? && javaMarked {
      return Some((JavaDialect, java.value));
    }
    if librdkafka.Some? && librdkafkaMarked {
      return Some((LibrdkafkaDialect, librdkafka.value));
    }
    if java.Some? && java == librdkafka {
      return Some((SharedDialect, java.value));
    }
    return None;
  }

  // The Java mapping

  method JavaCredentialsFrom(reader: PropertyReader, options: PropertyReader) returns (found: Option<(string, string)>)
    requires reader != options
    modifies reader, options
    ensures found == JavaCredentials(reader.values, options.values)
    ensures found.Some? ==>
              && reader.taken == old(reader.taken) +
                 (if CredentialsInJaas(options.values) then {} else {CLIENT_ID, CLIENT_SECRET})
              && options.taken == old(options.taken) +
                 (if CredentialsInJaas(options.values) then {"clientId", "clientSecret"} else {})
  {
    hide ValidText;
    var inProperties := reader.Has(CLIENT_ID) || reader.Has(CLIENT_SECRET);
    var inJaas := options.Has("clientId") || options.Has("clientSecret");
    if inProperties && inJaas {
      return None;
    }
    var id, secret;
    if inJaas {
      id := options.Require("clientId");
      if id.None? {
        return None;
      }
      secret := options.Secret("clientSecret");
    } else {
      id := reader.Require(CLIENT_ID);
      if id.None? {
        return None;
      }
      secret := reader.Secret(CLIENT_SECRET);
    }
    return if secret.None? then None else Some((id.value, secret.value));
  }

  method OneScopeFrom(reader: PropertyReader, options: PropertyReader) returns (scopes: Option<seq<string>>)
    requires reader != options
    modifies reader, options
    ensures scopes == OneScope(reader.values, options.values)
    ensures reader.taken == old(reader.taken) + {SCOPE} && options.taken == old(options.taken) + {"scope"}
  {
    var value := reader.Take(SCOPE);
    var option := options.Take("scope");
    if value.Some? && option.Some? {
      return None;
    }
    scopes := SplitScopes(if value.Some? then value else option);
  }

  method JavaOAuthFrom(reader: PropertyReader, options: PropertyReader, checks: ImportChecks)
    returns (auth: Option<ResolvedAuth>)
    requires reader != options && options.taken == {}
    modifies reader, options
    ensures auth == JavaOAuth(reader.values, options.values, checks)
    ensures auth.Some? ==> reader.taken == old(reader.taken) + OAuthValueKeys(options.values)
    ensures auth.Some? ==> options.taken == OAuthOptionKeys(options.values)
  {
    hide JavaTrust, SplitScopes, HostnamesVerified, SecretAt, JavaCredentials, TRUST_KEYS, OAUTH_HANDLER, HANDLER,
      TOKEN_URL, CLIENT_ID, CLIENT_SECRET, SCOPE, OneScope;
    var handler := reader.Take(HANDLER);
    if handler != Some(OAUTH_HANDLER) {
      return None;
    }
    var url := reader.HttpsUrl(TOKEN_URL, checks);
    if url.None? {
      return None;
    }
    var credentials := JavaCredentialsFrom(reader, options);
    if credentials.None? {
      return None;
    }
    var scopes := OneScopeFrom(reader, options);
    var verified := CheckHostnames(options, checks);
    if !verified {
      return None;
    }
    var ca := JavaPemTrust(options, checks);
    if ca.None? || scopes.None? {
      return None;
    }
    assert options.taken == OAuthOptionKeys(options.values);
    if !options.NothingLeft() {
      return None;
    }
    assert reader.taken == old(reader.taken) + OAuthValueKeys(options.values);
    return Some(ResolvedAuth.OAuth(url.value, credentials.value.0, scopes.value, credentials.value.1, ca.value));
  }

  method JaasOptionsFrom(reader: PropertyReader, loginModule: string, checks: ImportChecks)
    returns (options: Option<map<string, string>>)
    modifies reader
    ensures options == JaasOptions(reader.values, loginModule, checks)
    ensures reader.taken == old(reader.taken) + {"sasl.jaas.config"}
  {
    var text := reader.Require("sasl.jaas.config");
    if text.None? {
      return None;
    }
    var entries := ParseJaasEntries(text.value);
    if entries.None? || |entries.value| != 1 {
      return None;
    }
    var entry := entries.value[0];
    if entry.loginModule != loginModule || checks.lower(entry.controlFlag) != "required" {
      return None;
    }
    return Some(entry.options);
  }

  method JavaPasswordFrom(options: PropertyReader, mechanism: PasswordMechanism) returns (auth: Option<ResolvedAuth>)
    requires options.taken == {}
    modifies options
    ensures auth == JavaPassword(mechanism, options.values)
    ensures auth.Some? ==> options.taken == {"username", "password"}
  {
    hide ValidText, SecretAt;
    var username := options.Require("username");
    if username.None? {
      return None;
    }
    var password := options.Secret("password");
    if password.None? || !options.NothingLeft() || !ValidText(username.value) {
      return None;
    }
    return Some(Password(mechanism, username.value, password.value));
  }

  method JavaSaslFrom(reader: PropertyReader, checks: ImportChecks) returns (auth: Option<ResolvedAuth>)
    modifies reader
    ensures auth == JavaSasl(reader.values, checks)
    ensures auth.Some? ==> reader.taken == old(reader.taken) + JavaSaslKeys(reader.values, checks)
  {
    hide JaasOptions, JavaOAuth, OAuthValueKeys, JavaPassword, MechanismModule, OAuthOptionKeys;
    var taken := reader.Take("sasl.mechanism");
    var mechanism := OrElse(taken, "GSSAPI");
    if MechanismModule(mechanism).None? {
      return None;
    }
    var jaas := JaasOptionsFrom(reader, MechanismModule(mechanism).value, checks);
    if jaas.None? {
      return None;
    }
    var options := new PropertyReader(jaas.value);
    if mechanism == "OAUTHBEARER" {
      auth := JavaOAuthFrom(reader, options, checks);
    } else {
      assert KnownMechanism(mechanism).Some? by { ModulesOfMechanisms(mechanism); }
      auth := JavaPasswordFrom(options, KnownMechanism(mechanism).value);
    }
  }

  lemma ModulesOfMechanisms(mechanism: string)
    requires MechanismModule(mechanism).Some? && mechanism != "OAUTHBEARER"
    ensures KnownMechanism(mechanism).Some?
  {
  }

  // The librdkafka mapping

  method LibrdkafkaIdentityFrom(reader: PropertyReader, checks: ImportChecks) returns (identity: Option<Option<Identity>>)
    modifies reader
    ensures identity == LibrdkafkaIdentity(reader.values, checks)
    ensures identity.Some? ==> reader.taken == old(reader.taken) + LibrdkafkaIdentityKeys(reader.values)
  {
    hide ClientIdentity;
    var certificate := reader.Pem("ssl.certificate.pem", "ssl.certificate.location", checks.certificate,
                                  checks.readCertificate);
    if certificate.None? {
      return None;
    }
    var key := reader.Pem("ssl.key.pem", "ssl.key.location", Inline, checks.readPrivateKey);
    if key.None? {
      return None;
    }
    var password: Option<string> := None;
    if certificate.value.Some? || key.value.Some? {
      password := reader.Take("ssl.key.password");
    }
    identity := ClientIdentity(certificate.value, key.value, password, checks);
  }

  method LibrdkafkaOAuthFrom(reader: PropertyReader, checks: ImportChecks) returns (auth: Option<ResolvedAuth>)
    modifies reader
    ensures auth == LibrdkafkaOAuth(reader.values, checks)
    ensures auth.Some? ==> reader.taken == old(reader.taken) + LIBRDKAFKA_OAUTH_KEYS
  {
    hide PemAt, SplitScopes, SecretAt;
    var oidc := reader.Take("sasl.oauthbearer.method");
    if checks.lower(OrElse(oidc, "default")) != "oidc" {
      return None;
    }
    var url := reader.HttpsUrl(TOKEN_URL, checks);
    if url.None? {
      return None;
    }
    var id := reader.Require("sasl.oauthbearer.client.id");
    if id.None? {
      return None;
    }
    var secret := reader.Secret("sasl.oauthbearer.client.secret");
    if secret.None? {
      return None;
    }
    var scope := reader.Take(SCOPE);
    var scopes := SplitScopes(scope);
    var ca := reader.Pem("https.ca.pem", "https.ca.location", checks.caBundle, checks.readCaBundle);
    if ca.None? || scopes.None? {
      return None;
    }
    return Some(ResolvedAuth.OAuth(url.value, id.value, scopes.value, secret.value, ca.value));
  }

  method LibrdkafkaSaslFrom(reader: PropertyReader, checks: ImportChecks) returns (auth: Option<ResolvedAuth>)
    modifies reader
    ensures auth == LibrdkafkaSasl(reader.values, checks)
    ensures auth.Some? ==> reader.taken == old(reader.taken) + LibrdkafkaSaslKeys(reader.values)
  {
    hide LibrdkafkaOAuth, ValidText, LIBRDKAFKA_OAUTH_KEYS;
    var mechanism := reader.Take("sasl.mechanism");
    var alias := reader.Take("sasl.mechanisms");
    if mechanism.Some? && alias.Some? {
      return None;
    }
    var name := OrElse(mechanism, OrElse(alias, "GSSAPI"));
    if name == "OAUTHBEARER" {
      auth := LibrdkafkaOAuthFrom(reader, checks);
      return;
    }
    if KnownMechanism(name).None? {
      return None;
    }
    var username := reader.Require("sasl.username");
    if username.None? {
      return None;
    }
    var password := reader.Secret("sasl.password");
    if password.None? || !ValidText(username.value) {
      return None;
    }
    return Some(Password(KnownMechanism(name).value, username.value, password.value));
  }

  // Connections

  method TrustFrom(reader: PropertyReader, dialect: Dialect, checks: ImportChecks) returns (trust: Option<Option<string>>)
    modifies reader
    ensures trust == TrustAt(dialect, reader.values, checks)
    ensures trust.Some? ==> reader.taken == old(reader.taken) + TrustKeys(dialect)
  {
    if dialect.LibrdkafkaDialect? {
      trust := reader.Pem("ssl.ca.pem", "ssl.ca.location", checks.caBundle, checks.readCaBundle);
    } else {
      trust := JavaPemTrust(reader, checks);
    }
  }

  method AuthFrom(reader: PropertyReader, dialect: Dialect, protocol: string, checks: ImportChecks)
    returns (auth: Option<ResolvedAuth>)
    modifies reader
    ensures auth == AuthAt(dialect, protocol, reader.values, checks)
    ensures auth.Some? ==> reader.taken == old(reader.taken) + AuthKeys(dialect, protocol, reader.values, checks)
  {
    hide JavaSasl, LibrdkafkaSasl, JavaIdentity, LibrdkafkaIdentity, JavaSaslKeys, LibrdkafkaSaslKeys,
      JavaIdentityKeys, LibrdkafkaIdentityKeys;
    if protocol == "SSL" {
      var identity;
      if dialect.LibrdkafkaDialect? {
        identity := LibrdkafkaIdentityFrom(reader, checks);
      } else {
        identity := JavaPemIdentity(reader, checks);
      }
      auth := IdentityAuth(identity);
    } else if dialect.LibrdkafkaDialect? {
      auth := LibrdkafkaSaslFrom(reader, checks);
    } else {
      auth := JavaSaslFrom(reader, checks);
    }
  }

  /** `_connection`. */
  method ConnectionFrom(reader: PropertyReader, dialect: Dialect, checks: ImportChecks)
    returns (connection: Option<ImportedConnection>)
    requires reader.taken == {}
    modifies reader
    ensures connection == ConnectionAt(dialect, reader.values, checks)
    ensures connection.Some? ==>
              && reader.taken == ConnectionKeys(dialect, reader.values, checks)
              && NothingUnread(dialect, reader.values, checks)
  {
    hide ServersAt, HostnamesVerified, AuthAt, TrustAt, AuthKeys, TrustKeys, NothingUnread;
    if ConnectionAt(dialect, reader.values, checks).Some? {
      ConnectionReadsAll(dialect, reader.values, checks);
    }
    var bootstrap := reader.Take("bootstrap.servers");
    var servers := ServersAt(reader.values, checks);
    if servers.None? {
      return None;
    }
    var hostnames := CheckHostnames(reader, checks);
    if !hostnames {
      return None;
    }
    var verification := reader.Take(VERIFICATION);
    if verification.Some? && checks.lower(verification.value) != "true" {
      return None;
    }
    var security := reader.Take("security.protocol");
    assert reader.taken == BASE_KEYS;
    if security.None? {
      return if reader.NothingLeft() then Some(ImportedConnection(servers.value, None, None, None, None, {})) else None;
    }
    var protocol := checks.upper(security.value);
    if protocol == "PLAINTEXT" {
      return if reader.NothingLeft() then
          Some(ImportedConnection(servers.value, Some(Plaintext), None, Some(Unauthenticated), None, {}))
        else None;
    }
    if protocol != "SSL" && protocol != "SASL_SSL" {
      return None;
    }
    var trust := TrustFrom(reader, dialect, checks);
    if trust.None? {
      return None;
    }
    var auth := AuthFrom(reader, dialect, protocol, checks);
    if auth.None? {
      return None;
    }
    assert reader.taken == BASE_KEYS + TrustKeys(dialect) + AuthKeys(dialect, protocol, reader.values, checks);
    if !reader.NothingLeft() {
      return None;
    }
    return Some(ImportedConnection(servers.value, Some(Tls), trust.value, auth, None, {}));
  }

  // The whole import

  /** Every key of the file sorted by its use: Kafka, Registry, or ignored. */
  datatype Sorted = Sorted(connection: map<string, string>, registry: map<string, string>, ignored: set<string>)

  /** The keys are divided without loss or overlap, by name alone. */
  ghost predicate Divides(properties: map<string, string>, known: set<string>, sorted: Sorted) {
    && (forall key :: key in sorted.connection <==> key in properties && key in known)
    && (forall key :: key in sorted.registry <==> key in properties && key !in known && IsRegistryKey(key))
    && (forall key :: key in sorted.ignored <==> key in properties && key !in known && !IsRegistryKey(key))
    && (forall key :: key in sorted.connection ==> sorted.connection[key] == properties[key])
    && (forall key :: key in sorted.registry ==> sorted.registry[key] == properties[key])
  }

  /** The loop of `parse_client_properties` over the file's keys. */
  method SortKeys(properties: map<string, string>, known: set<string>) returns (sorted: Option<Sorted>)
    ensures sorted.Some? <==> forall key :: key in properties ==> !Refused(known, key)
    ensures sorted.Some? ==> Divides(properties, known, sorted.value)
  {
    hide IsRegistryKey, IsSecurityKey;
    var found := Sorted(map[], map[], {});
    var left := properties.Keys;
    while left != {}
      invariant left <= properties.Keys
      invariant forall key :: key in properties && key !in left ==> !Refused(known, key)
      invariant Divides(map key | key in properties && key !in left :: properties[key], known, found)
      decreases left
    {
      var key :| key in left;
      left := left - {key};
      if key in known {
        found := found.(connection := found.connection[key := properties[key]]);
      } else if IsRegistryKey(key) {
        found := found.(registry := found.registry[key := properties[key]]);
      } else {
        if IsSecurityKey(key) {
          return None;
        }
        found := found.(ignored := found.ignored + {key});
      }
    }
    assert (map key | key in properties && key !in left :: properties[key]) == properties;
    return Some(found);
  }

  /** No key of the file is lost: each is read for the connection, read for the Registry, or listed as ignored,
      and no key is two of these. Ignored keys have nothing to do with security. */
  ghost predicate Accounted(dialect: Dialect, properties: map<string, string>, imported: ImportedConnection,
                            checks: ImportChecks)
  {
    var known := KnownKeys(dialect);
    var values, registryValues := KnownPart(properties, known), RegistryPart(properties, known);
    && properties.Keys == values.Keys + registryValues.Keys + imported.ignored
    && values.Keys !! registryValues.Keys !! imported.ignored
    && NothingUnread(dialect, values, checks)
    && (registryValues != map[] <==> imported.registry.Some?)
    && (imported.registry.Some? ==> Describes(registryValues, checks, imported.registry.value))
    && forall key :: key in imported.ignored ==> !IsSecurityKey(key) && !IsRegistryKey(key)
  }

  /** The setting of either dialect's reading that turns verification off. */
  ghost predicate TurnsVerificationOff(properties: map<string, string>, checks: ImportChecks) {
    || (&& "enable.ssl.certificate.verification" in properties
        && checks.lower(properties["enable.ssl.certificate.verification"]) != "true")
    || (&& "ssl.endpoint.identification.algorithm" in properties
        && checks.lower(properties["ssl.endpoint.identification.algorithm"]) != "https")
  }

  /** The import of a text is the connection it describes, and none that turns verification off. */
  lemma ImportMeans(text: string, checks: ImportChecks)
    ensures match ImportOf(text, checks)
            case Some(found) => FileDescribes(text, checks, found)
            case None => forall other :: !FileDescribes(text, checks, other)
    ensures forall dialect, properties ::
              ReadAs(JavaProperties(text), LibrdkafkaProperties(text), dialect, properties) ==>
              TurnsVerificationOff(properties, checks) ==> ImportOf(text, checks).None?
  {
    hide ImportOf, FileDescribes, JavaProperties, LibrdkafkaProperties, ReadAs, TurnsVerificationOff;
    ImportExactly(text, checks);
    if ImportOf(text, checks).Some? {
      forall dialect, properties |
        ReadAs(JavaProperties(text), LibrdkafkaProperties(text), dialect, properties)
        ensures !TurnsVerificationOff(properties, checks)
      {
        ImportsVerify(text, checks, ImportOf(text, checks).value, dialect, properties);
      }
    }
  }

  lemma ImportsVerify(text: string, checks: ImportChecks, imported: ImportedConnection, dialect: Dialect,
                      properties: map<string, string>)
    requires FileDescribes(text, checks, imported)
    requires ReadAs(JavaProperties(text), LibrdkafkaProperties(text), dialect, properties)
    ensures !TurnsVerificationOff(properties, checks)
  {
    hide JavaProperties, LibrdkafkaProperties, ReadAs, ConnectionIs, AllRead, KafkaKey, RegistryIs, RegistryKey, Unfilled;
    ReadAsExactly(JavaProperties(text), LibrdkafkaProperties(text));
    assert PropertiesDescribe(dialect, properties, checks, imported);
    VerificationKeys();
    ConnectionVerifies(dialect, KafkaValues(properties), checks, imported);
  }

  lemma VerificationKeys()
    ensures KafkaKey("enable.ssl.certificate.verification") && KafkaKey("ssl.endpoint.identification.algorithm")
  {
    assert "enable.ssl." <= "enable.ssl.certificate.verification";
    assert "ssl." <= "ssl.endpoint.identification.algorithm";
  }

  lemma ConnectionVerifies(dialect: Dialect, values: map<string, string>, checks: ImportChecks,
                           imported: ImportedConnection)
    requires ConnectionIs(dialect, values, checks, imported)
    ensures !TurnsVerificationOff(values, checks)
  {
    hide ServersAre, TrustIs, IdentityIs, JavaLoginIs, LibrdkafkaLoginIs;
  }

  /** `parse_client_properties`: accepts exactly the files that describe a connection, and returns that one. A
      successful import accounts for every key of the file, and for every option of a JAAS entry. */
  method ParseClientProperties(text: string, checks: ImportChecks) returns (imported: Option<ImportedConnection>)
    ensures match imported
            case Some(found) => FileDescribes(text, checks, found)
            case None => forall other :: !FileDescribes(text, checks, other)
    ensures forall dialect, properties ::
              ReadAs(JavaProperties(text), LibrdkafkaProperties(text), dialect, properties) ==>
              TurnsVerificationOff(properties, checks) ==> imported.None?
    ensures imported.Some? ==>
              && var inferred := InferDialect(JavaProperties(text), LibrdkafkaProperties(text));
              && inferred.Some? && Accounted(inferred.value.0, inferred.value.1, imported.value, checks)
    ensures imported == ImportOf(text, checks)
  {
    hide JavaProperties, LibrdkafkaProperties, InferDialect, ConnectionAt, KnownKeys, IsRegistryKey, IsSecurityKey,
      HasPlaceholder, Describes, NothingUnread, ConnectionKeys, FileDescribes, ReadAs, TurnsVerificationOff;
    ImportMeans(text, checks);
    var inferred := DialectProperties(text);
    if inferred.None? {
      return None;
    }
    var (dialect, properties) := inferred.value;
    var known := KnownKeys(dialect);
    var divided := SortKeys(properties, known);
    if divided.None? {
      return None;
    }
    var sorted := divided.value;
    DividesOneWay(properties, known, sorted);
    NoRegistryImported(dialect, sorted.connection, checks);
    if !Filled(sorted.connection) || !Filled(sorted.registry) || (sorted.connection == map[] && sorted.registry == map[]) {
      return None;
    }
    var reader := new PropertyReader(sorted.connection);
    var connection := ConnectionFrom(reader, dialect, checks);
    if connection.None? {
      return None;
    }
    var found: Option<ImportedRegistry> := None;
    if sorted.registry != map[] {
      found := ParseRegistryProperties(sorted.registry, checks);
      if found.None? {
        return None;
      }
      RegistryFound(sorted.registry, checks, found.value);
    }
    imported := Some(connection.value.(registry := found, ignored := sorted.ignored));
  }

  lemma DividesOneWay(properties: map<string, string>, known: set<string>, sorted: Sorted)
    requires Divides(properties, known, sorted)
    ensures sorted.connection == KnownPart(properties, known)
    ensures sorted.registry == RegistryPart(properties, known)
    ensures sorted.ignored == set key | key in properties && key !in known && !IsRegistryKey(key)
    ensures properties.Keys == sorted.connection.Keys + sorted.registry.Keys + sorted.ignored
    ensures sorted.connection.Keys !! sorted.registry.Keys !! sorted.ignored
  {
    hide IsRegistryKey;
  }

  lemma NoRegistryImported(dialect: Dialect, values: map<string, string>, checks: ImportChecks)
    ensures ConnectionAt(dialect, values, checks).Some? ==> ConnectionAt(dialect, values, checks).value.registry.None?
  {
    hide ServersAt, HostnamesVerified, AuthAt, TrustAt, AuthKeys, TrustKeys;
  }
}
