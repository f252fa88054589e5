/** What exported client properties mean: they describe the connection they were exported from, with every kind of
    authentication and with certificates at the locations they name. */
module ExportMeaning {
  import opened Wrappers
  import opened Documents
  import opened PropertiesSyntax
  import opened JavaRendering
  import opened Librdkafka
  import opened Jaas
  import opened JaasRendering
  import opened PropertyMapping
  import opened KafkaProperties
  import opened RegistryProperties
  import opened ClientProperties
  import opened ImportMeaning
  import opened ExportImport

  /** Where the certificates of a connection are to be found. */
  datatype Locations = Locations(ca: Option<string>, certificate: Option<string>, key: Option<string>,
                                 oauthCa: Option<string>)

  ghost predicate Found(read: string -> Option<string>, location: Option<string>, content: string) {
    location.Some? && read(location.value) == Some(content)
  }

  /** A connection that a client can use, whose certificates are where they are said to be. */
  ghost predicate Usable(connection: Connection, locations: Locations, checks: ImportChecks) {
    && connection.servers != [] && Distinct(connection.servers)
    && (forall i :: 0 <= i < |connection.servers| ==>
          PlainHost(connection.servers[i]) && checks.brokerAddress(connection.servers[i]))
    && (connection.transport.Plaintext? ==> connection.auth.Unauthenticated? && connection.caCertificates.None?)
    && (connection.caCertificates.Some? ==> Found(checks.readCaBundle, locations.ca, connection.caCertificates.value))
    && UsableAuth(connection.auth, locations, checks)
  }

  ghost predicate UsableAuth(auth: ResolvedAuth, locations: Locations, checks: ImportChecks) {
    match auth
    case Unauthenticated => true
    case Password(_, username, password) => Sendable(username) && Sendable(password)
    case Mtls(certificate, key, password) =>
      password != Some("") && checks.identity(certificate, key, password) == Some((certificate, key))
    case OAuth(tokenUrl, clientId, scopes, clientSecret, ca) =>
      && tokenUrl != "" && checks.endpoint(tokenUrl) && clientId != "" && Sendable(clientSecret)
      && Distinct(scopes) && (forall i :: 0 <= i < |scopes| ==> IsScope(scopes[i]))
      && (ca.Some? ==> Found(checks.readCaBundle, locations.oauthCa, ca.value))
  }

  /** A JAAS entry can name the CA bundle of an OAuth login. */
  ghost predicate Nameable(auth: ResolvedAuth, locations: Locations) {
    auth.OAuth? && auth.caCertificates.Some? && locations.oauthCa.Some? ==> Sendable(locations.oauthCa.value)
  }

  /** librdkafka reads a client certificate and its key from files. */
  ghost predicate Filed(auth: ResolvedAuth, locations: Locations, checks: ImportChecks) {
    auth.Mtls? ==>
      && Found(checks.readCertificate, locations.certificate, auth.certificate)
      && Found(checks.readPrivateKey, locations.key, auth.privateKey)
  }

  function Described(connection: Connection): ImportedConnection {
    ImportedConnection(Some(connection.servers), Some(connection.transport), connection.caCertificates,
                       Some(connection.auth), None, {})
  }

  lemma ServersDescribed(connection: Connection, values: map<string, string>, locations: Locations,
                         checks: ImportChecks)
    requires Usable(connection, locations, checks)
    requires "bootstrap.servers" in values && values["bootstrap.servers"] == Join(connection.servers, ',')
    ensures ServersAre(values, checks, Some(connection.servers))
  {
    hide UsableAuth, PlainHost, Join, ServersAre;
    var servers := connection.servers;
    forall i | 0 <= i < |servers| ensures Strip(servers[i]) == servers[i] && ',' !in servers[i] {
      PlainHostStays(servers[i]);
    }
    SplitsJoined(servers, ',');
    assert Strips(servers) == servers;
    ServersExactly(values, checks);
  }

  ghost predicate Holds(values: map<string, string>, key: string, value: string) {
    key in values && values[key] == value
  }

  // Java

  const BASE := {
    "bootstrap.servers", "security.protocol", "ssl.endpoint.identification.algorithm", "ssl.truststore.location",
    "ssl.truststore.type"
  }

  /** The keys of a connection's transport, apart from those of its authentication. */
  lemma JavaBaseSays(connection: Connection, location: Option<string>)
    ensures var values := JavaBase(connection, location);
            && values.Keys <= BASE
            && "bootstrap.servers" in values && values["bootstrap.servers"] == Join(connection.servers, ',')
            && "security.protocol" in values && values["security.protocol"] == "SSL"
            && "ssl.endpoint.identification.algorithm" in values
            && values["ssl.endpoint.identification.algorithm"] == "https"
            && var located := connection.caCertificates.Some? && location.Some?;
            && ("ssl.truststore.location" in values <==> located)
            && ("ssl.truststore.type" in values <==> located)
            && (located ==> Holds(values, "ssl.truststore.location", location.value))
            && (located ==> Holds(values, "ssl.truststore.type", "PEM"))
  {
    hide Join;
  }

  /** The values say of a key what they said before. */
  ghost predicate Same(values: map<string, string>, before: map<string, string>, key: string) {
    (key in values <==> key in before) && (key in values ==> values[key] == before[key])
  }

  const MTLS_KEYS := {"ssl.keystore.type", "ssl.keystore.certificate.chain", "ssl.keystore.key", "ssl.key.password"}
  const PASSWORD_KEYS := {"security.protocol", "sasl.mechanism", "sasl.jaas.config"}
  const OAUTH_KEYS := {
    "security.protocol", "sasl.mechanism", "sasl.login.callback.handler.class", "sasl.jaas.config",
    "sasl.oauthbearer.token.endpoint.url", "sasl.oauthbearer.client.credentials.client.id",
    "sasl.oauthbearer.client.credentials.client.secret", "sasl.oauthbearer.scope"
  }

  lemma JavaMtlsSays(base: map<string, string>, auth: ResolvedAuth, location: Option<string>)
    requires auth.Mtls? && "ssl.key.password" !in base
    ensures JavaAuthentication(base, auth, location).Some?
    ensures var values := JavaAuthentication(base, auth, location).value;
            && Holds(values, "ssl.keystore.type", "PEM")
            && Holds(values, "ssl.keystore.certificate.chain", auth.certificate)
            && Holds(values, "ssl.keystore.key", auth.privateKey)
            && PasswordIn(values) == auth.keyPassword
            && forall key :: key !in MTLS_KEYS ==> Same(values, base, key)
  {
  }

  lemma JavaPasswordSays(base: map<string, string>, auth: ResolvedAuth, location: Option<string>)
    requires auth.Password? && Sendable(auth.username) && Sendable(auth.password)
    ensures JavaAuthentication(base, auth, location).Some?
    ensures var values := JavaAuthentication(base, auth, location).value;
            && Holds(values, "security.protocol", "SASL_SSL")
            && Holds(values, "sasl.mechanism", SaslMechanism(auth.mechanism))
            && Holds(values, "sasl.jaas.config",
                     RenderEntry(LoginModule(auth.mechanism), [("username", auth.username), ("password", auth.password)]))
            && forall key :: key !in PASSWORD_KEYS ==> Same(values, base, key)
  {
    hide RenderEntry, SaslMechanism, LoginModule, Sendable, ValidText;
    SendableExactly(auth.username);
    SendableExactly(auth.password);
  }

  lemma JavaOAuthEntriesSay(auth: ResolvedAuth, options: seq<Entry>)
    requires auth.OAuth?
    ensures var values := JavaOAuthEntries(auth, options);
            && Holds(values, "security.protocol", "SASL_SSL") && Holds(values, "sasl.mechanism", "OAUTHBEARER")
            && Holds(values, "sasl.login.callback.handler.class", OAUTH_HANDLER)
            && Holds(values, "sasl.jaas.config", RenderEntry(OAUTH_MODULE, options))
            && Holds(values, "sasl.oauthbearer.token.endpoint.url", auth.tokenUrl)
            && Holds(values, "sasl.oauthbearer.client.credentials.client.id", auth.clientId)
            && Holds(values, "sasl.oauthbearer.client.credentials.client.secret", auth.clientSecret)
            && ("sasl.oauthbearer.scope" in values <==> auth.scopes != [])
            && (auth.scopes != [] ==> values["sasl.oauthbearer.scope"] == Join(auth.scopes, ' '))
            && values.Keys <= OAUTH_KEYS
  {
    hide RenderEntry, OAUTH_HANDLER, OAUTH_MODULE, Join;
  }

  /** Servers, verification and trust, as the transport's keys say them. */
  ghost predicate TransportSaid(dialect: Dialect, connection: Connection, values: map<string, string>,
                                checks: ImportChecks) {
    && ServersAre(values, checks, Some(connection.servers)) && HostnamesAreVerified(values, checks)
    && ("enable.ssl.certificate.verification" in values ==>
          checks.lower(values["enable.ssl.certificate.verification"]) == "true")
    && TrustIs(dialect, values, checks, connection.caCertificates)
  }

  /** The keys an authentication adds touch none of the transport's. */
  lemma JavaKeysApart()
    ensures "bootstrap.servers" !in MTLS_KEYS + PASSWORD_KEYS + OAUTH_KEYS
    ensures "ssl.endpoint.identification.algorithm" !in MTLS_KEYS + PASSWORD_KEYS + OAUTH_KEYS
    ensures "ssl.truststore.location" !in MTLS_KEYS + PASSWORD_KEYS + OAUTH_KEYS
    ensures "ssl.truststore.type" !in MTLS_KEYS + PASSWORD_KEYS + OAUTH_KEYS
    ensures "ssl.truststore.certificates" !in BASE + MTLS_KEYS + PASSWORD_KEYS + OAUTH_KEYS
    ensures "enable.ssl.certificate.verification" !in BASE + MTLS_KEYS + PASSWORD_KEYS + OAUTH_KEYS
    ensures "security.protocol" !in MTLS_KEYS
    ensures MTLS_KEYS !! BASE
  {
  }

  lemma JavaTransportSaid(connection: Connection, locations: Locations, values: map<string, string>,
                          added: set<string>, checks: ImportChecks)
    requires Usable(connection, locations, checks) && KeepsCase(checks) && connection.transport.Tls?
    requires added in {{}, MTLS_KEYS, PASSWORD_KEYS, OAUTH_KEYS}
    requires forall key :: key !in added ==> Same(values, JavaBase(connection, locations.ca), key)
    ensures TransportSaid(JavaDialect, connection, values, checks)
  {
    hide Join, JavaBase, ServersAre, PlainHost, UsableAuth, BASE, MTLS_KEYS, PASSWORD_KEYS, OAUTH_KEYS;
    JavaBaseSays(connection, locations.ca);
    JavaKeysApart();
    assert Same(values, JavaBase(connection, locations.ca), "bootstrap.servers");
    assert Same(values, JavaBase(connection, locations.ca), "ssl.endpoint.identification.algorithm");
    assert Same(values, JavaBase(connection, locations.ca), "ssl.truststore.location");
    assert Same(values, JavaBase(connection, locations.ca), "ssl.truststore.type");
    assert Same(values, JavaBase(connection, locations.ca), "ssl.truststore.certificates");
    assert Same(values, JavaBase(connection, locations.ca), "enable.ssl.certificate.verification");
    ServersDescribed(connection, values, locations, checks);
  }

  lemma ModulesNamed(mechanism: PasswordMechanism)
    ensures ModuleOf(SaslMechanism(mechanism), LoginModule(mechanism)) && Named(SaslMechanism(mechanism), mechanism)
  {
  }

  lemma OAuthNamed()
    ensures ModuleOf("OAUTHBEARER", OAUTH_MODULE)
    ensures OAUTH_HANDLER == "org.apache.kafka.common.security.oauthbearer." + "OAuthBearerLoginCallbackHandler"
  {
    assert OAUTH_MODULE == "org.apache.kafka.common.security." + "oauthbearer.OAuthBearerLoginModule";
  }

  /** A printed entry is the one entry of its text. */
  lemma EntryPrinted(loginModule: string, options: seq<Entry>, checks: ImportChecks)
    requires IsWord(loginModule) && DistinctKeys(options) && PrintableOptions(options) && KeepsCase(checks)
    ensures EntryIs(RenderEntry(loginModule, options), checks, JaasEntry(loginModule, "required", MapOf(options)))
  {
    hide IsWord, PrintableOptions, DistinctKeys, MapOf, JaasEntries;
    JaasInverts(loginModule, options);
    assert RenderEntry(loginModule, options)[|RenderEntry(loginModule, options)| - 1] == ';';
  }

  lemma PasswordOptions(username: string, password: string)
    requires Sendable(username) && Sendable(password)
    ensures var options := [("username", username), ("password", password)];
            && DistinctKeys(options) && PrintableOptions(options)
            && MapOf(options) == map["username" := username, "password" := password]
  {
    hide IsWord, Sendable, ValidText;
    SendableExactly(username);
    SendableExactly(password);
    ModulesAreWords();
    var options := [("username", username), ("password", password)];
    assert options[..1] == [("username", username)] && options[..1][..0] == [];
    assert MapOf([]) == map[];
  }

  lemma JavaPasswordLogin(values: map<string, string>, auth: ResolvedAuth, checks: ImportChecks)
    requires auth.Password? && Sendable(auth.username) && Sendable(auth.password) && KeepsCase(checks)
    requires Holds(values, "sasl.mechanism", SaslMechanism(auth.mechanism))
    requires Holds(values, "sasl.jaas.config",
                   RenderEntry(LoginModule(auth.mechanism), [("username", auth.username), ("password", auth.password)]))
    ensures JavaLoginIs(values, checks, auth)
  {
    hide IsWord, PrintableOptions, DistinctKeys, MapOf, EntryIs, ModuleOf, Named, Sendable, RenderEntry, LoginModule,
      SaslMechanism;
    var options := [("username", auth.username), ("password", auth.password)];
    PasswordOptions(auth.username, auth.password);
    WordsOf(auth.mechanism);
    EntryPrinted(LoginModule(auth.mechanism), options, checks);
    ModulesNamed(auth.mechanism);
    var read := JaasEntry(LoginModule(auth.mechanism), "required", MapOf(options));
    assert EntryLogsIn(values, checks, SaslMechanism(auth.mechanism), read.options, auth) by {
      OptionsLogIn(values, checks, SaslMechanism(auth.mechanism), auth);
    }
  }

  lemma WordsOf(mechanism: PasswordMechanism)
    ensures IsWord(LoginModule(mechanism)) && IsWord(OAUTH_MODULE)
  {
    hide IsWord;
    ModulesAreWords();
  }

  lemma OptionsLogIn(values: map<string, string>, checks: ImportChecks, name: string, auth: ResolvedAuth)
    requires auth.Password? && Sendable(auth.username) && Sendable(auth.password) && Named(name, auth.mechanism)
    ensures EntryLogsIn(values, checks, name, map["username" := auth.username, "password" := auth.password], auth)
  {
    hide Named;
  }

  /** The JAAS options of an OAuth login, which name its CA bundle if it has one. */
  function OAuthOptions(ca: Option<string>, location: Option<string>): seq<Entry>
    requires ca.Some? ==> location.Some?
  {
    if ca.None? then [] else OAuthTrustOptions(location.value)
  }

  lemma TrustOptionsSay(ca: Option<string>, location: Option<string>, checks: ImportChecks)
    requires ca.Some? ==> Found(checks.readCaBundle, location, ca.value) && Sendable(location.value)
    ensures var options := OAuthOptions(ca, location);
            && DistinctKeys(options) && PrintableOptions(options)
            && MapOf(options) == (if ca.None? then map[]
                                  else map["ssl.truststore.type" := "PEM", "ssl.truststore.location" := location.value])
  {
    hide IsWord, ValidText, Sendable;
    if ca.Some? {
      SendableExactly(location.value);
      TrustOptionNames();
      var options := OAuthTrustOptions(location.value);
      assert options[..1] == [("ssl.truststore.type", "PEM")] && options[..1][..0] == [];
      assert MapOf([]) == map[];
    }
  }

  lemma TrustOptionNames()
    ensures IsWord("ssl.truststore.type") && IsWord("ssl.truststore.location") && ValidText("PEM")
  {
  }

  lemma OptionsTrust(ca: Option<string>, location: Option<string>, options: map<string, string>, checks: ImportChecks)
    requires ca.Some? ==> Found(checks.readCaBundle, location, ca.value)
    requires options == (if ca.None? then map[]
                         else map["ssl.truststore.type" := "PEM", "ssl.truststore.location" := location.value])
    ensures JavaTrustIs(options, checks, ca) && HostnamesAreVerified(options, checks)
    ensures forall key :: key in options ==> OAuthOption(key)
    ensures "clientId" !in options && "clientSecret" !in options && "scope" !in options
  {
  }

  lemma ScopesSaid(scopes: seq<string>)
    requires Distinct(scopes) && forall i :: 0 <= i < |scopes| ==> IsScope(scopes[i])
    ensures ScopesAre(Some(Join(scopes, ' ')), scopes)
    ensures scopes == [] ==> ScopesAre(None, scopes)
  {
    hide IsScope, Join, ScopesAre;
    ScopesComeBack(scopes);
    ScopesExactly(Some(Join(scopes, ' ')));
    ScopesExactly(None);
  }

  /** What the OAuth keys of the exported properties say. */
  ghost predicate OAuthSaid(values: map<string, string>, auth: ResolvedAuth, options: seq<Entry>)
    requires auth.OAuth?
  {
    && Holds(values, "sasl.mechanism", "OAUTHBEARER")
    && Holds(values, "sasl.login.callback.handler.class", OAUTH_HANDLER)
    && Holds(values, "sasl.jaas.config", RenderEntry(OAUTH_MODULE, options))
    && Holds(values, "sasl.oauthbearer.token.endpoint.url", auth.tokenUrl)
    && Holds(values, "sasl.oauthbearer.client.credentials.client.id", auth.clientId)
    && Holds(values, "sasl.oauthbearer.client.credentials.client.secret", auth.clientSecret)
    && ("sasl.oauthbearer.scope" in values <==> auth.scopes != [])
    && (auth.scopes != [] ==> values["sasl.oauthbearer.scope"] == Join(auth.scopes, ' '))
  }

  lemma OAuthIsSaid(values: map<string, string>, auth: ResolvedAuth, options: seq<Entry>)
    requires auth.OAuth?
    requires forall key :: key in OAUTH_KEYS ==> Same(values, JavaOAuthEntries(auth, options), key)
    ensures OAuthSaid(values, auth, options)
  {
    hide RenderEntry, JavaOAuthEntries, OAUTH_MODULE, OAUTH_HANDLER, Join;
    JavaOAuthEntriesSay(auth, options);
  }

  lemma JavaOAuthDescribed(values: map<string, string>, options: map<string, string>, auth: ResolvedAuth,
                           printed: seq<Entry>, checks: ImportChecks)
    requires auth.OAuth? && OAuthSaid(values, auth, printed)
    requires auth.tokenUrl != "" && checks.endpoint(auth.tokenUrl) && auth.clientId != "" && Sendable(auth.clientSecret)
    requires Distinct(auth.scopes) && forall i :: 0 <= i < |auth.scopes| ==> IsScope(auth.scopes[i])
    requires JavaTrustIs(options, checks, auth.caCertificates) && HostnamesAreVerified(options, checks)
    requires forall key :: key in options ==> OAuthOption(key)
    requires "clientId" !in options && "clientSecret" !in options && "scope" !in options
    ensures JavaOAuthIs(values, options, checks, auth)
  {
    hide RenderEntry, JavaTrustIs, OAuthOption, OAUTH_MODULE, OAUTH_HANDLER, ScopesAre, Join, IsScope, Sendable, Distinct,
      HostnamesAreVerified;
    OAuthNamed();
    ScopesSaid(auth.scopes);
  }

  lemma LogsIn(values: map<string, string>, checks: ImportChecks, name: string, text: string, entry: JaasEntry,
               auth: ResolvedAuth)
    requires Holds(values, "sasl.mechanism", name) && Holds(values, "sasl.jaas.config", text)
    requires EntryIs(text, checks, entry) && ModuleOf(name, entry.loginModule)
    requires EntryLogsIn(values, checks, name, entry.options, auth)
    ensures JavaLoginIs(values, checks, auth)
  {
    hide EntryIs, ModuleOf, EntryLogsIn;
  }

  lemma OAuthLogsIn(values: map<string, string>, options: map<string, string>, auth: ResolvedAuth, checks: ImportChecks)
    requires auth.OAuth? && JavaOAuthIs(values, options, checks, auth)
    ensures EntryLogsIn(values, checks, "OAUTHBEARER", options, auth)
  {
    hide JavaOAuthIs;
  }

  lemma JavaOAuthLogin(values: map<string, string>, auth: ResolvedAuth, location: Option<string>, checks: ImportChecks)
    requires auth.OAuth? && KeepsCase(checks) && UsableAuth(auth, Locations(None, None, None, location), checks)
    requires auth.caCertificates.Some? ==> Sendable(location.value)
    requires OAuthSaid(values, auth, OAuthOptions(auth.caCertificates, location))
    ensures JavaLoginIs(values, checks, auth)
  {
    hide IsWord, PrintableOptions, DistinctKeys, MapOf, EntryIs, ModuleOf, Sendable, RenderEntry, OAuthOptions,
      JavaTrustIs, OAuthOption, OAUTH_MODULE, OAUTH_HANDLER, Join, IsScope, Distinct, JavaOAuthIs, HostnamesAreVerified,
      EntryLogsIn, JavaLoginIs, KeepsCase;
    var ca := auth.caCertificates;
    var options := OAuthOptions(ca, location);
    TrustOptionsSay(ca, location, checks);
    WordsOf(PasswordMechanism.Plain);
    EntryPrinted(OAUTH_MODULE, options, checks);
    OAuthNamed();
    OptionsTrust(ca, location, MapOf(options), checks);
    JavaOAuthDescribed(values, MapOf(options), auth, options, checks);
    var read := JaasEntry(OAUTH_MODULE, "required", MapOf(options));
    OAuthLogsIn(values, read.options, auth, checks);
    LogsIn(values, checks, "OAUTHBEARER", RenderEntry(OAUTH_MODULE, options), read, auth);
  }

  /** Values that describe a connection, and nothing else. */
  ghost predicate Describe(dialect: Dialect, values: map<string, string>, checks: ImportChecks, connection: Connection) {
    && ConnectionIs(dialect, values, checks, Described(connection))
    && AllRead(dialect, Described(connection), values)
  }

  lemma SslDescribes(dialect: Dialect, connection: Connection, values: map<string, string>, checks: ImportChecks)
    requires connection.transport.Tls? && TransportSaid(dialect, connection, values, checks) && KeepsCase(checks)
    requires Holds(values, "security.protocol", "SSL") && IdentityIs(dialect, values, checks, connection.auth)
    ensures ConnectionIs(dialect, values, checks, Described(connection))
  {
    hide ServersAre, HostnamesAreVerified, TrustIs, IdentityIs;
  }

  lemma SaslDescribes(dialect: Dialect, connection: Connection, values: map<string, string>, checks: ImportChecks)
    requires connection.transport.Tls? && TransportSaid(dialect, connection, values, checks) && KeepsCase(checks)
    requires Holds(values, "security.protocol", "SASL_SSL")
    requires if dialect == LibrdkafkaDialect then LibrdkafkaLoginIs(values, checks, connection.auth)
             else JavaLoginIs(values, checks, connection.auth)
    ensures ConnectionIs(dialect, values, checks, Described(connection))
  {
    hide ServersAre, HostnamesAreVerified, TrustIs, LibrdkafkaLoginIs, JavaLoginIs;
  }

  lemma JavaUnauthenticatedDescribes(connection: Connection, locations: Locations, checks: ImportChecks)
    requires Usable(connection, locations, checks) && KeepsCase(checks)
    requires connection.transport.Tls? && connection.auth.Unauthenticated?
    ensures Describe(JavaDialect, JavaBase(connection, locations.ca), checks, connection)
  {
    hide Join, ServersAre, HostnamesAreVerified, TransportSaid, Usable, ConnectionIs, JavaBase;
    var values := JavaBase(connection, locations.ca);
    JavaBaseSays(connection, locations.ca);
    JavaTransportSaid(connection, locations, values, {}, checks);
    KeystoreApart();
    assert IdentityIs(JavaDialect, values, checks, Unauthenticated);
    SslDescribes(JavaDialect, connection, values, checks);
  }

  lemma KeystoreApart()
    ensures "ssl.keystore.type" !in BASE && "ssl.keystore.certificate.chain" !in BASE && "ssl.keystore.key" !in BASE
    ensures "ssl.key.password" !in BASE
  {
  }

  lemma JavaMtlsDescribes(connection: Connection, locations: Locations, checks: ImportChecks)
    requires Usable(connection, locations, checks) && KeepsCase(checks)
    requires connection.transport.Tls? && connection.auth.Mtls?
    ensures var values := JavaAuthentication(JavaBase(connection, locations.ca), connection.auth, locations.oauthCa);
            values.Some? && Describe(JavaDialect, values.value, checks, connection)
  {
    hide Join, ServersAre, HostnamesAreVerified, TransportSaid, ConnectionIs, JavaBase, JavaAuthentication, AllRead,
      PlainHost, MTLS_KEYS, BASE;
    var base := JavaBase(connection, locations.ca);
    JavaBaseSays(connection, locations.ca);
    KeystoreApart();
    JavaKeysApart();
    JavaMtlsSays(base, connection.auth, locations.oauthCa);
    var values := JavaAuthentication(base, connection.auth, locations.oauthCa).value;
    JavaTransportSaid(connection, locations, values, MTLS_KEYS, checks);
    assert Same(values, base, "security.protocol");
    assert IdentityIs(JavaDialect, values, checks, connection.auth);
    SslDescribes(JavaDialect, connection, values, checks);
    JavaAllRead(connection, values, base, MTLS_KEYS);
  }

  /** Every key of the transport, or of the authentication, is read. */
  lemma JavaAllRead(connection: Connection, values: map<string, string>, base: map<string, string>, added: set<string>)
    requires connection.transport.Tls? && base.Keys <= BASE && forall key :: key !in added ==> Same(values, base, key)
    requires match connection.auth
             case Unauthenticated => added == {}
             case Password(_, _, _) => added == PASSWORD_KEYS
             case Mtls(_, _, _) => added == MTLS_KEYS
             case OAuth(_, _, _, _, _) => added == OAUTH_KEYS
    ensures AllRead(JavaDialect, Described(connection), values)
  {
    forall key | key in values ensures Read(JavaDialect, Described(connection), key) {
      if key !in added {
        assert Same(values, base, key);
      }
    }
  }

  lemma JavaPasswordDescribes(connection: Connection, locations: Locations, checks: ImportChecks)
    requires Usable(connection, locations, checks) && KeepsCase(checks)
    requires connection.transport.Tls? && connection.auth.Password?
    ensures var values := JavaAuthentication(JavaBase(connection, locations.ca), connection.auth, locations.oauthCa);
            values.Some? && Describe(JavaDialect, values.value, checks, connection)
  {
    hide Join, ServersAre, HostnamesAreVerified, TransportSaid, ConnectionIs, JavaBase, JavaAuthentication, AllRead,
      PlainHost, PASSWORD_KEYS, BASE, RenderEntry, Sendable, SaslMechanism, LoginModule, JavaLoginIs;
    var base := JavaBase(connection, locations.ca);
    JavaBaseSays(connection, locations.ca);
    JavaPasswordSays(base, connection.auth, locations.oauthCa);
    var values := JavaAuthentication(base, connection.auth, locations.oauthCa).value;
    JavaTransportSaid(connection, locations, values, PASSWORD_KEYS, checks);
    JavaPasswordLogin(values, connection.auth, checks);
    SaslDescribes(JavaDialect, connection, values, checks);
    JavaAllRead(connection, values, base, PASSWORD_KEYS);
  }

  lemma JavaOAuthAdds(base: map<string, string>, auth: ResolvedAuth, location: Option<string>)
    requires auth.OAuth? && (auth.caCertificates.Some? ==> location.Some? && Sendable(location.value))
    ensures JavaAuthentication(base, auth, location) ==
            Some(base + JavaOAuthEntries(auth, OAuthOptions(auth.caCertificates, location)))
  {
    hide JavaOAuthEntries, OAuthTrustOptions, Sendable, ValidText;
    if auth.caCertificates.Some? {
      SendableExactly(location.value);
    }
  }

  lemma JavaOAuthDescribes(connection: Connection, locations: Locations, checks: ImportChecks)
    requires Usable(connection, locations, checks) && KeepsCase(checks)
    requires connection.transport.Tls? && connection.auth.OAuth? && Nameable(connection.auth, locations)
    ensures var values := JavaAuthentication(JavaBase(connection, locations.ca), connection.auth, locations.oauthCa);
            values.Some? && Describe(JavaDialect, values.value, checks, connection)
  {
    hide Join, ServersAre, HostnamesAreVerified, TransportSaid, ConnectionIs, JavaBase, JavaAuthentication, AllRead,
      PlainHost, OAUTH_KEYS, BASE, Sendable, JavaLoginIs, JavaOAuthEntries, OAuthOptions, IsScope, Distinct, OAuthSaid;
    var base, auth := JavaBase(connection, locations.ca), connection.auth;
    var options := OAuthOptions(auth.caCertificates, locations.oauthCa);
    var entries := JavaOAuthEntries(auth, options);
    JavaBaseSays(connection, locations.ca);
    JavaOAuthAdds(base, auth, locations.oauthCa);
    JavaOAuthEntriesSay(auth, options);
    var values := base + entries;
    OAuthOver(base, entries, auth, options);
    JavaTransportSaid(connection, locations, values, OAUTH_KEYS, checks);
    OAuthIsSaid(values, auth, options);
    JavaOAuthLogin(values, auth, locations.oauthCa, checks);
    assert Holds(values, "security.protocol", "SASL_SSL");
    SaslDescribes(JavaDialect, connection, values, checks);
    JavaAllRead(connection, values, base, OAUTH_KEYS);
  }

  lemma OAuthOver(base: map<string, string>, entries: map<string, string>, auth: ResolvedAuth, options: seq<Entry>)
    requires auth.OAuth? && entries == JavaOAuthEntries(auth, options)
    requires base.Keys <= BASE
    ensures forall key :: key in OAUTH_KEYS ==> Same(base + entries, entries, key)
    ensures forall key :: key !in OAUTH_KEYS ==> Same(base + entries, base, key)
  {
    hide JavaOAuthEntries;
    JavaOAuthEntriesSay(auth, options);
    ScopeApart();
  }

  lemma ScopeApart()
    ensures "sasl.oauthbearer.scope" !in BASE
  {
  }

  lemma PlaintextDescribes(connection: Connection, locations: Locations, dialect: Dialect, checks: ImportChecks)
    requires Usable(connection, locations, checks) && KeepsCase(checks) && connection.transport.Plaintext?
    ensures var values := map["bootstrap.servers" := Join(connection.servers, ','), "security.protocol" := "PLAINTEXT"];
            Describe(dialect, values, checks, connection)
  {
    hide Join, ServersAre;
    var values := map["bootstrap.servers" := Join(connection.servers, ','), "security.protocol" := "PLAINTEXT"];
    ServersDescribed(connection, values, locations, checks);
  }

  /** Whatever the authentication, and wherever its certificates are: the exported Java properties describe just the
      connection they were exported from. */
  lemma JavaExportDescribes(connection: Connection, locations: Locations, checks: ImportChecks)
    requires Usable(connection, locations, checks) && Nameable(connection.auth, locations) && KeepsCase(checks)
    ensures var values := JavaExport(connection, locations.ca, locations.oauthCa);
            values.Some? && Describe(JavaDialect, values.value, checks, connection)
  {
    hide Join, JavaBase, JavaAuthentication, Describe, UsableAuth, PlainHost, KeepsCase;
    if connection.transport.Plaintext? {
      PlaintextDescribes(connection, locations, JavaDialect, checks);
    } else {
      match connection.auth {
        case Unauthenticated =>
          JavaUnauthenticatedDescribes(connection, locations, checks);
          NothingAdded(JavaBase(connection, locations.ca), locations.oauthCa);
        case Password(_, _, _) => JavaPasswordDescribes(connection, locations, checks);
        case Mtls(_, _, _) => JavaMtlsDescribes(connection, locations, checks);
        case OAuth(_, _, _, _, _) => JavaOAuthDescribes(connection, locations, checks);
      }
    }
  }

  lemma NothingAdded(base: map<string, string>, location: Option<string>)
    ensures JavaAuthentication(base, Unauthenticated, location) == Some(base)
  {
  }

  // librdkafka

  const TRANSPORT := {
    "bootstrap.servers", "security.protocol", "ssl.endpoint.identification.algorithm",
    "enable.ssl.certificate.verification", "ssl.ca.location"
  }
  const FILE_KEYS := {"ssl.certificate.location", "ssl.key.location", "ssl.key.password"}
  const SASL_KEYS := {"security.protocol", "sasl.mechanism", "sasl.username", "sasl.password"}
  const TOKEN_KEYS := {
    "security.protocol", "sasl.mechanism", "sasl.oauthbearer.method", "sasl.oauthbearer.token.endpoint.url",
    "sasl.oauthbearer.client.id", "sasl.oauthbearer.client.secret", "sasl.oauthbearer.scope", "https.ca.location"
  }

  lemma TransportSays(connection: Connection, location: Option<string>)
    ensures var values := LibrdkafkaBase(connection, location);
            && values.Keys <= TRANSPORT
            && Holds(values, "bootstrap.servers", Join(connection.servers, ','))
            && Holds(values, "security.protocol", "SSL")
            && Holds(values, "ssl.endpoint.identification.algorithm", "https")
            && Holds(values, "enable.ssl.certificate.verification", "true")
            && var located := connection.caCertificates.Some? && location.Some?;
            && ("ssl.ca.location" in values <==> located)
            && (located ==> Holds(values, "ssl.ca.location", location.value))
  {
    hide Join;
  }

  lemma FilesSay(base: map<string, string>, auth: ResolvedAuth, locations: Locations)
    requires auth.Mtls? && "ssl.key.password" !in base && locations.certificate.Some? && locations.key.Some?
    ensures var values :=
              LibrdkafkaAuthentication(base, auth, locations.certificate, locations.key, locations.oauthCa);
            && values.Some? && Holds(values.value, "ssl.certificate.location", locations.certificate.value)
            && Holds(values.value, "ssl.key.location", locations.key.value)
            && PasswordIn(values.value) == auth.keyPassword
            && forall key :: key !in FILE_KEYS ==> Same(values.value, base, key)
  {
  }

  lemma SaslSays(base: map<string, string>, auth: ResolvedAuth, locations: Locations)
    requires auth.Password?
    ensures var values :=
              LibrdkafkaAuthentication(base, auth, locations.certificate, locations.key, locations.oauthCa);
            && values.Some? && Holds(values.value, "security.protocol", "SASL_SSL")
            && Holds(values.value, "sasl.mechanism", SaslMechanism(auth.mechanism))
            && Holds(values.value, "sasl.username", auth.username)
            && Holds(values.value, "sasl.password", auth.password)
            && forall key :: key !in SASL_KEYS ==> Same(values.value, base, key)
  {
    hide SaslMechanism;
  }

  /** What the OAuth keys of exported librdkafka properties say. */
  ghost predicate TokensSaid(values: map<string, string>, auth: ResolvedAuth, location: Option<string>)
    requires auth.OAuth?
  {
    && Holds(values, "sasl.mechanism", "OAUTHBEARER") && Holds(values, "sasl.oauthbearer.method", "oidc")
    && Holds(values, "sasl.oauthbearer.token.endpoint.url", auth.tokenUrl)
    && Holds(values, "sasl.oauthbearer.client.id", auth.clientId)
    && Holds(values, "sasl.oauthbearer.client.secret", auth.clientSecret)
    && ("sasl.oauthbearer.scope" in values <==> auth.scopes != [])
    && (auth.scopes != [] ==> values["sasl.oauthbearer.scope"] == Join(auth.scopes, ' '))
    && ("https.ca.location" in values <==> auth.caCertificates.Some? && location.Some?)
    && (auth.caCertificates.Some? && location.Some? ==> values["https.ca.location"] == location.value)
  }

  lemma TokensSay(auth: ResolvedAuth, location: Option<string>)
    requires auth.OAuth?
    ensures var values := LibrdkafkaOAuthEntries(auth, location);
            && TokensSaid(values, auth, location) && Holds(values, "security.protocol", "SASL_SSL")
            && values.Keys <= TOKEN_KEYS
  {
    hide Join, LibrdkafkaClientEntries;
    ClientSays(auth);
  }

  lemma ClientSays(auth: ResolvedAuth)
    requires auth.OAuth?
    ensures var values := LibrdkafkaClientEntries(auth);
            && Holds(values, "security.protocol", "SASL_SSL") && Holds(values, "sasl.mechanism", "OAUTHBEARER")
            && Holds(values, "sasl.oauthbearer.method", "oidc")
            && Holds(values, "sasl.oauthbearer.token.endpoint.url", auth.tokenUrl)
            && Holds(values, "sasl.oauthbearer.client.id", auth.clientId)
            && Holds(values, "sasl.oauthbearer.client.secret", auth.clientSecret)
            && "sasl.oauthbearer.scope" !in values && "https.ca.location" !in values && values.Keys <= TOKEN_KEYS
  {
  }

  lemma KeysApart()
    ensures "bootstrap.servers" !in FILE_KEYS + SASL_KEYS + TOKEN_KEYS
    ensures "ssl.endpoint.identification.algorithm" !in FILE_KEYS + SASL_KEYS + TOKEN_KEYS
    ensures "enable.ssl.certificate.verification" !in FILE_KEYS + SASL_KEYS + TOKEN_KEYS
    ensures "ssl.ca.location" !in FILE_KEYS + SASL_KEYS + TOKEN_KEYS
    ensures "ssl.ca.pem" !in TRANSPORT + FILE_KEYS + SASL_KEYS + TOKEN_KEYS
    ensures "security.protocol" !in FILE_KEYS
    ensures FILE_KEYS !! TRANSPORT
  {
  }

  lemma TransportIsSaid(connection: Connection, locations: Locations, values: map<string, string>,
                        added: set<string>, checks: ImportChecks)
    requires Usable(connection, locations, checks) && KeepsCase(checks) && connection.transport.Tls?
    requires added in {{}, FILE_KEYS, SASL_KEYS, TOKEN_KEYS}
    requires forall key :: key !in added ==> Same(values, LibrdkafkaBase(connection, locations.ca), key)
    ensures TransportSaid(LibrdkafkaDialect, connection, values, checks)
  {
    hide Join, LibrdkafkaBase, ServersAre, PlainHost, UsableAuth, TRANSPORT, FILE_KEYS, SASL_KEYS, TOKEN_KEYS;
    var base := LibrdkafkaBase(connection, locations.ca);
    TransportSays(connection, locations.ca);
    KeysApart();
    assert Same(values, base, "bootstrap.servers");
    assert Same(values, base, "ssl.endpoint.identification.algorithm");
    assert Same(values, base, "enable.ssl.certificate.verification");
    assert Same(values, base, "ssl.ca.location");
    assert Same(values, base, "ssl.ca.pem");
    ServersDescribed(connection, values, locations, checks);
  }

  /** Every key of the transport, or of the authentication, is read. */
  lemma LibrdkafkaAllRead(connection: Connection, values: map<string, string>, base: map<string, string>,
                          added: set<string>)
    requires connection.transport.Tls? && base.Keys <= TRANSPORT
    requires forall key :: key !in added ==> Same(values, base, key)
    requires match connection.auth
             case Unauthenticated => added == {}
             case Password(_, _, _) => added == SASL_KEYS
             case Mtls(_, _, _) => added == FILE_KEYS
             case OAuth(_, _, _, _, _) => added == TOKEN_KEYS
    ensures AllRead(LibrdkafkaDialect, Described(connection), values)
  {
    forall key | key in values ensures Read(LibrdkafkaDialect, Described(connection), key) {
      if key !in added {
        assert Same(values, base, key);
      }
    }
  }

  lemma FilesApart()
    ensures "ssl.certificate.location" !in TRANSPORT && "ssl.key.location" !in TRANSPORT
    ensures "ssl.certificate.pem" !in TRANSPORT + FILE_KEYS && "ssl.key.pem" !in TRANSPORT + FILE_KEYS
    ensures "ssl.key.password" !in TRANSPORT
  {
  }

  lemma UnauthenticatedDescribes(connection: Connection, locations: Locations, checks: ImportChecks)
    requires Usable(connection, locations, checks) && KeepsCase(checks)
    requires connection.transport.Tls? && connection.auth.Unauthenticated?
    ensures Describe(LibrdkafkaDialect, LibrdkafkaBase(connection, locations.ca), checks, connection)
  {
    hide Join, ServersAre, HostnamesAreVerified, TransportSaid, Usable, ConnectionIs, LibrdkafkaBase, TRANSPORT,
      AllRead;
    var values := LibrdkafkaBase(connection, locations.ca);
    TransportSays(connection, locations.ca);
    TransportIsSaid(connection, locations, values, {}, checks);
    FilesApart();
    assert LibrdkafkaPair(values, checks, None, None, None);
    assert IdentityIs(LibrdkafkaDialect, values, checks, Unauthenticated);
    SslDescribes(LibrdkafkaDialect, connection, values, checks);
    LibrdkafkaAllRead(connection, values, values, {});
  }

  lemma FilesDescribe(connection: Connection, locations: Locations, checks: ImportChecks)
    requires Usable(connection, locations, checks) && KeepsCase(checks)
    requires connection.transport.Tls? && connection.auth.Mtls? && Filed(connection.auth, locations, checks)
    ensures var values := LibrdkafkaAuthentication(LibrdkafkaBase(connection, locations.ca), connection.auth,
                                                   locations.certificate, locations.key, locations.oauthCa);
            values.Some? && Describe(LibrdkafkaDialect, values.value, checks, connection)
  {
    hide Join, ServersAre, HostnamesAreVerified, TransportSaid, ConnectionIs, LibrdkafkaBase, LibrdkafkaAuthentication,
      AllRead, PlainHost, FILE_KEYS, TRANSPORT;
    var base, auth := LibrdkafkaBase(connection, locations.ca), connection.auth;
    TransportSays(connection, locations.ca);
    FilesApart();
    KeysApart();
    FilesSay(base, auth, locations);
    var values :=
      LibrdkafkaAuthentication(base, auth, locations.certificate, locations.key, locations.oauthCa).value;
    TransportIsSaid(connection, locations, values, FILE_KEYS, checks);
    assert Same(values, base, "security.protocol");
    assert Same(values, base, "ssl.certificate.pem") && Same(values, base, "ssl.key.pem");
    assert LibrdkafkaPair(values, checks, Some(auth.certificate), Some(auth.privateKey),
                          Some(Identity(auth.certificate, auth.privateKey, auth.keyPassword)));
    assert IdentityIs(LibrdkafkaDialect, values, checks, auth);
    SslDescribes(LibrdkafkaDialect, connection, values, checks);
    LibrdkafkaAllRead(connection, values, base, FILE_KEYS);
  }

  lemma PasswordLogin(values: map<string, string>, auth: ResolvedAuth, checks: ImportChecks)
    requires auth.Password? && Sendable(auth.username) && Sendable(auth.password)
    requires Holds(values, "sasl.mechanism", SaslMechanism(auth.mechanism)) && "sasl.mechanisms" !in values
    requires Holds(values, "sasl.username", auth.username) && Holds(values, "sasl.password", auth.password)
    ensures LibrdkafkaLoginIs(values, checks, auth)
  {
    hide Named, SaslMechanism;
    ModulesNamed(auth.mechanism);
  }

  lemma PasswordDescribes(connection: Connection, locations: Locations, checks: ImportChecks)
    requires Usable(connection, locations, checks) && KeepsCase(checks)
    requires connection.transport.Tls? && connection.auth.Password?
    ensures var values := LibrdkafkaAuthentication(LibrdkafkaBase(connection, locations.ca), connection.auth,
                                                   locations.certificate, locations.key, locations.oauthCa);
            values.Some? && Describe(LibrdkafkaDialect, values.value, checks, connection)
  {
    hide Join, ServersAre, HostnamesAreVerified, TransportSaid, ConnectionIs, LibrdkafkaBase, LibrdkafkaAuthentication,
      AllRead, PlainHost, SASL_KEYS, TRANSPORT, Sendable, SaslMechanism, LibrdkafkaLoginIs;
    var base, auth := LibrdkafkaBase(connection, locations.ca), connection.auth;
    TransportSays(connection, locations.ca);
    SaslSays(base, auth, locations);
    var values :=
      LibrdkafkaAuthentication(base, auth, locations.certificate, locations.key, locations.oauthCa).value;
    TransportIsSaid(connection, locations, values, SASL_KEYS, checks);
    MechanismsApart();
    assert Same(values, base, "sasl.mechanisms");
    PasswordLogin(values, auth, checks);
    SaslDescribes(LibrdkafkaDialect, connection, values, checks);
    LibrdkafkaAllRead(connection, values, base, SASL_KEYS);
  }

  lemma MechanismsApart()
    ensures "sasl.mechanisms" !in TRANSPORT + SASL_KEYS + TOKEN_KEYS
    ensures "sasl.oauthbearer.scope" !in TRANSPORT && "https.ca.location" !in TRANSPORT
    ensures "https.ca.pem" !in TRANSPORT + TOKEN_KEYS
  {
  }

  lemma TokensDescribed(values: map<string, string>, auth: ResolvedAuth, location: Option<string>,
                        checks: ImportChecks)
    requires auth.OAuth? && TokensSaid(values, auth, location) && KeepsCase(checks)
    requires "sasl.mechanisms" !in values && "https.ca.pem" !in values
    requires UsableAuth(auth, Locations(None, None, None, location), checks)
    ensures LibrdkafkaLoginIs(values, checks, auth)
  {
    hide Join, IsScope, Distinct, Sendable, ScopesAre;
    ScopesSaid(auth.scopes);
  }

  lemma TokensDescribe(connection: Connection, locations: Locations, checks: ImportChecks)
    requires Usable(connection, locations, checks) && KeepsCase(checks)
    requires connection.transport.Tls? && connection.auth.OAuth?
    ensures var values := LibrdkafkaAuthentication(LibrdkafkaBase(connection, locations.ca), connection.auth,
                                                   locations.certificate, locations.key, locations.oauthCa);
            values.Some? && Describe(LibrdkafkaDialect, values.value, checks, connection)
  {
    hide Join, ServersAre, HostnamesAreVerified, TransportSaid, ConnectionIs, LibrdkafkaBase, AllRead, PlainHost,
      TOKEN_KEYS, TRANSPORT, Sendable, LibrdkafkaOAuthEntries, IsScope, Distinct, LibrdkafkaLoginIs;
    var base, auth := LibrdkafkaBase(connection, locations.ca), connection.auth;
    var entries := LibrdkafkaOAuthEntries(auth, locations.oauthCa);
    TransportSays(connection, locations.ca);
    TokensSay(auth, locations.oauthCa);
    MechanismsApart();
    var values := base + entries;
    TokensOver(base, entries, auth, locations.oauthCa);
    TransportIsSaid(connection, locations, values, TOKEN_KEYS, checks);
    TokensDescribed(values, auth, locations.oauthCa, checks);
    SaslDescribes(LibrdkafkaDialect, connection, values, checks);
    LibrdkafkaAllRead(connection, values, base, TOKEN_KEYS);
  }

  lemma TokensOver(base: map<string, string>, entries: map<string, string>, auth: ResolvedAuth,
                   location: Option<string>)
    requires auth.OAuth? && entries == LibrdkafkaOAuthEntries(auth, location) && base.Keys <= TRANSPORT
    ensures forall key :: key !in TOKEN_KEYS ==> Same(base + entries, base, key)
    ensures TokensSaid(base + entries, auth, location) && Holds(base + entries, "security.protocol", "SASL_SSL")
  {
    hide LibrdkafkaOAuthEntries, Join, TRANSPORT, TOKEN_KEYS;
    TokensSay(auth, location);
    MechanismsApart();
  }

  /** The same for exported librdkafka properties. */
  lemma LibrdkafkaExportDescribes(connection: Connection, locations: Locations, checks: ImportChecks)
    requires Usable(connection, locations, checks) && Filed(connection.auth, locations, checks) && KeepsCase(checks)
    ensures var values := LibrdkafkaExport(connection, locations.ca, locations.certificate, locations.key,
                                           locations.oauthCa);
            values.Some? && Describe(LibrdkafkaDialect, values.value, checks, connection)
  {
    hide Join, LibrdkafkaBase, LibrdkafkaAuthentication, Describe, UsableAuth, PlainHost, KeepsCase;
    if connection.transport.Plaintext? {
      PlaintextDescribes(connection, locations, LibrdkafkaDialect, checks);
    } else {
      match connection.auth {
        case Unauthenticated =>
          UnauthenticatedDescribes(connection, locations, checks);
          NothingMore(LibrdkafkaBase(connection, locations.ca), locations);
        case Password(_, _, _) => PasswordDescribes(connection, locations, checks);
        case Mtls(_, _, _) => FilesDescribe(connection, locations, checks);
        case OAuth(_, _, _, _, _) => TokensDescribe(connection, locations, checks);
      }
    }
  }

  lemma NothingMore(base: map<string, string>, locations: Locations)
    ensures LibrdkafkaAuthentication(base, Unauthenticated, locations.certificate, locations.key, locations.oauthCa)
            == Some(base)
  {
  }

  // Refusals

  /** Java properties are refused for credentials without TLS, for what a JAAS entry cannot hold, and for certificates
      without a place. */
  lemma JavaExportRefuses(connection: Connection, location: Option<string>, oauthLocation: Option<string>)
    ensures JavaExport(connection, location, oauthLocation).None? <==>
            if connection.transport.Plaintext? then connection.auth != Unauthenticated
            else
              || (connection.caCertificates != None && location == None)
              || (connection.auth.Password? && !(Sendable(connection.auth.username) && Sendable(connection.auth.password)))
              || (&& connection.auth.OAuth? && connection.auth.caCertificates != None
                  && (oauthLocation == None || !Sendable(oauthLocation.value)))
  {
    hide JavaBase, JavaOAuthEntries, RenderEntry, ValidText, Sendable;
    if connection.auth.Password? {
      SendableExactly(connection.auth.username);
      SendableExactly(connection.auth.password);
    }
    if oauthLocation.Some? {
      SendableExactly(oauthLocation.value);
    }
  }

  /** librdkafka properties are refused for credentials without TLS and for certificates without a place. */
  lemma LibrdkafkaExportRefuses(connection: Connection, locations: Locations)
    ensures LibrdkafkaExport(connection, locations.ca, locations.certificate, locations.key, locations.oauthCa).None? <==>
            if connection.transport.Plaintext? then connection.auth != Unauthenticated
            else
              || (connection.caCertificates != None && locations.ca == None)
              || (connection.auth.Mtls? && (locations.certificate == None || locations.key == None))
              || (connection.auth.OAuth? && connection.auth.caCertificates != None && locations.oauthCa == None)
  {
    hide LibrdkafkaBase, LibrdkafkaOAuthEntries;
  }
}
