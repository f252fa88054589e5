/** Exporting a connection and importing the text again gives the connection back. */
module ExportImport {
  import opened Wrappers
  import opened Documents
  import opened PropertiesSyntax
  import opened JavaRendering
  import opened Librdkafka
  import opened Jaas
  import opened JaasRendering
  import opened PropertyMapping
  import opened KafkaProperties
  import opened RegistryProperties
  import opened ClientProperties
  import opened ImportedFiles
  import opened DialectReading

  predicate IsPrintable(text: string) {
    forall i :: 0 <= i < |text| ==> 32 <= text[i] as int <= 126
  }

  /** An address without separators, blanks or backslashes. */
  predicate PlainHost(server: string) {
    server != "" && forall i :: 0 <= i < |server| ==>
      33 <= server[i] as int <= 126 && server[i] != ',' && server[i] != '\\'
  }

  predicate IsScope(scope: string) {
    scope != "" && forall i :: 0 <= i < |scope| ==> 33 <= scope[i] as int <= 126
  }

  predicate ExportableAuth(auth: ResolvedAuth, checks: ImportChecks) {
    match auth
    case Unauthenticated => true
    case Password(_, username, password) =>
      IsPrintable(username) && IsPrintable(password) && ValidText(username) && ValidText(password)
    case OAuth(tokenUrl, clientId, scopes, clientSecret, ca) =>
      && ca.None? && tokenUrl != "" && IsPrintable(tokenUrl) && checks.endpoint(tokenUrl)
      && clientId != "" && IsPrintable(clientId) && IsPrintable(clientSecret) && ValidText(clientSecret)
      && Distinct(scopes) && forall i :: 0 <= i < |scopes| ==> IsScope(scopes[i])
    case Mtls(_, _, _) => false
  }

  /** The connections the round trip is about: plaintext, or TLS with system trust; no authentication,
      PLAIN, SCRAM or OAuth without a CA; plain hosts and printable ASCII values. */
  predicate Exportable(connection: Connection, checks: ImportChecks) {
    && connection.servers != [] && Distinct(connection.servers)
    && (forall i :: 0 <= i < |connection.servers| ==>
          PlainHost(connection.servers[i]) && checks.brokerAddress(connection.servers[i]))
    && connection.caCertificates.None?
    && (connection.transport.Plaintext? ==> connection.auth.Unauthenticated?)
    && ExportableAuth(connection.auth, checks)
  }

  /** Case mapping leaves the words the exporter prints as they are. */
  predicate KeepsCase(checks: ImportChecks) {
    && checks.upper("PLAINTEXT") == "PLAINTEXT" && checks.upper("SSL") == "SSL"
    && checks.upper("SASL_SSL") == "SASL_SSL"
    && checks.lower("https") == "https" && checks.lower("true") == "true" && checks.lower("oidc") == "oidc"
    && checks.lower("required") == "required"
  }

  function ImportedOf(connection: Connection): ImportedConnection {
    ImportedConnection(Some(connection.servers), Some(connection.transport), None, Some(connection.auth), None, {})
  }

  // Lists in one value

  lemma {:induction false} FirstOfJoined(head: string, rest: string, separator: char)
    requires separator !in head
    ensures FirstOf(head + [separator] + rest, separator) == |head|
  {
    if head != "" {
      assert (head + [separator] + rest)[1..] == head[1..] + [separator] + rest;
      FirstOfJoined(head[1..], rest, separator);
    }
  }

  lemma {:induction false} FirstOfAlone(text: string, separator: char)
    requires separator !in text
    ensures FirstOf(text, separator) == |text|
  {
    if text != "" {
      FirstOfAlone(text[1..], separator);
    }
  }

  /** Splitting a joined list gives the list back. */
  lemma {:induction false} SplitsJoined(items: seq<string>, separator: char)
    requires items != [] && forall i :: 0 <= i < |items| ==> separator !in items[i]
    ensures SplitOn(Join(items, separator), separator) == items
  {
    if |items| == 1 {
      FirstOfAlone(items[0], separator);
    } else {
      var rest := Join(items[1..], separator);
      SplitsJoined(items[1..], separator);
      FirstOfJoined(items[0], rest, separator);
      var text := items[0] + [separator] + rest;
      assert text[..|items[0]|] == items[0] && text[|items[0]| + 1..] == rest;
    }
  }

  lemma PlainHostStays(server: string)
    requires PlainHost(server)
    ensures Strip(server) == server && ',' !in server
  {
    assert !IsSpace(server[0]) && !IsSpace(server[|server| - 1]);
  }

  lemma ServersComeBack(connection: Connection, values: map<string, string>, checks: ImportChecks)
    requires Exportable(connection, checks)
    requires "bootstrap.servers" in values && values["bootstrap.servers"] == Join(connection.servers, ',')
    ensures ServersAt(values, checks) == Some(Some(connection.servers))
  {
    hide ExportableAuth, PlainHost, Join;
    var servers := connection.servers;
    forall i | 0 <= i < |servers| ensures Strip(servers[i]) == servers[i] && ',' !in servers[i] {
      PlainHostStays(servers[i]);
    }
    SplitsJoined(servers, ',');
    assert Strips(servers) == servers;
  }

  lemma {:induction false} WordEndOf(word: string, rest: string)
    requires forall i :: 0 <= i < |word| ==> !IsSpace(word[i])
    requires rest == "" || IsSpace(rest[0])
    ensures WordEnd(word + rest) == |word|
  {
    if word == "" {
      assert word + rest == rest;
    } else {
      assert (word + rest)[1..] == word[1..] + rest;
      WordEndOf(word[1..], rest);
    }
  }

  lemma ScopeIsWord(scope: string)
    requires IsScope(scope)
    ensures scope != "" && forall i :: 0 <= i < |scope| ==> !IsSpace(scope[i])
  {
  }

  /** Splitting joined scopes gives the scopes back. */
  lemma {:induction false} ScopesComeBack(scopes: seq<string>)
    requires forall i :: 0 <= i < |scopes| ==> IsScope(scopes[i])
    ensures SplitWords(Join(scopes, ' ')) == scopes
  {
    if scopes == [] {
    } else if |scopes| == 1 {
      ScopeIsWord(scopes[0]);
      WordEndOf(scopes[0], "");
      assert scopes[0] + "" == scopes[0] && scopes[0][|scopes[0]|..] == "";
    } else {
      var head, rest := scopes[0], Join(scopes[1..], ' ');
      ScopeIsWord(head);
      ScopesComeBack(scopes[1..]);
      WordEndOf(head, " " + rest);
      var text := head + [' '] + rest;
      assert text == head + (" " + rest);
      assert text[..|head|] == head && text[|head|..] == " " + rest;
      assert (" " + rest)[1..] == rest;
      assert SplitWords(" " + rest) == SplitWords(rest);
    }
  }

  // The values that are exported

  predicate AllPrintable(values: map<string, string>) {
    forall key :: key in values ==> IsPrintable(values[key])
  }

  lemma {:induction false} JoinPrintable(items: seq<string>, separator: char)
    requires 32 <= separator as int <= 126 && forall i :: 0 <= i < |items| ==> IsPrintable(items[i])
    ensures IsPrintable(Join(items, separator))
  {
    if |items| > 1 {
      JoinPrintable(items[1..], separator);
    }
  }

  lemma {:induction false} ReplacePrintable(text: string, c: char, with: string)
    requires IsPrintable(text) && IsPrintable(with)
    ensures IsPrintable(Replace(text, c, with))
  {
    if text != "" {
      ReplacePrintable(text[1..], c, with);
    }
  }

  lemma {:induction false} OptionsPrintable(options: seq<Entry>)
    requires forall i :: 0 <= i < |options| ==> IsPrintable(options[i].0) && IsPrintable(options[i].1)
    ensures IsPrintable(RenderOptions(options))
  {
    hide QuoteValue;
    if options != [] {
      QuotePrintable(options[0].1);
      OptionsPrintable(options[1..]);
    }
  }

  lemma EntryPrintable(loginModule: string, options: seq<Entry>)
    requires IsPrintable(loginModule)
    requires forall i :: 0 <= i < |options| ==> IsPrintable(options[i].0) && IsPrintable(options[i].1)
    ensures IsPrintable(RenderEntry(loginModule, options))
  {
    hide RenderOptions;
    OptionsPrintable(options);
  }

  lemma QuotePrintable(value: string)
    requires IsPrintable(value)
    ensures IsPrintable(QuoteValue(value))
  {
    ReplacePrintable(value, '\\', "\\\\");
    ReplacePrintable(Replace(value, '\\', "\\\\"), '"', "\\\"");
  }

  lemma ServersPrintable(connection: Connection, checks: ImportChecks)
    requires Exportable(connection, checks)
    ensures IsPrintable(Join(connection.servers, ','))
    ensures '\\' !in Join(connection.servers, ',')
    ensures Join(connection.servers, ',') != "" && Join(connection.servers, ',')[0] != ' '
  {
    hide ExportableAuth;
    forall i | 0 <= i < |connection.servers|
      ensures IsPrintable(connection.servers[i]) && '\\' !in connection.servers[i]
    {
      assert PlainHost(connection.servers[i]);
    }
    JoinPrintable(connection.servers, ',');
    JoinWithout(connection.servers, ',');
    assert PlainHost(connection.servers[0]);
  }

  lemma {:induction false} JoinWithout(items: seq<string>, separator: char)
    requires separator != '\\' && forall i :: 0 <= i < |items| ==> '\\' !in items[i]
    ensures '\\' !in Join(items, separator)
  {
    if |items| > 1 {
      JoinWithout(items[1..], separator);
    }
  }

  // Java

  /** The Java properties of an exportable connection, written out. */
  function JavaValues(connection: Connection): map<string, string>
    requires !connection.auth.Mtls?
  {
    var servers := Join(connection.servers, ',');
    if connection.transport.Plaintext? then
      map["bootstrap.servers" := servers, "security.protocol" := "PLAINTEXT"]
    else
      match connection.auth
      case Unauthenticated =>
        map["bootstrap.servers" := servers, "security.protocol" := "SSL", IDENTIFICATION := "https"]
      case Password(mechanism, username, password) =>
        map["bootstrap.servers" := servers, "security.protocol" := "SASL_SSL", IDENTIFICATION := "https",
            "sasl.mechanism" := SaslMechanism(mechanism),
            "sasl.jaas.config" := RenderEntry(LoginModule(mechanism), [("username", username), ("password", password)])]
      case OAuth(tokenUrl, clientId, scopes, clientSecret, _) =>
        map["bootstrap.servers" := servers, "security.protocol" := "SASL_SSL", IDENTIFICATION := "https",
            "sasl.mechanism" := "OAUTHBEARER", HANDLER := OAUTH_HANDLER,
            "sasl.jaas.config" := RenderEntry(OAUTH_MODULE, []),
            TOKEN_URL := tokenUrl, CLIENT_ID := clientId, CLIENT_SECRET := clientSecret] + ScopeEntry(scopes)
  }

  lemma JavaPasswordExports(connection: Connection)
    requires connection.auth.Password? && connection.transport.Tls? && connection.caCertificates.None?
    ensures JavaBase(connection, None) +
            map["security.protocol" := "SASL_SSL", "sasl.mechanism" := SaslMechanism(connection.auth.mechanism),
                "sasl.jaas.config" := RenderEntry(LoginModule(connection.auth.mechanism),
                                                  [("username", connection.auth.username),
                                                   ("password", connection.auth.password)])]
            == JavaValues(connection)
  {
    hide Join, RenderEntry, SaslMechanism, LoginModule;
  }

  lemma JavaOAuthExports(connection: Connection)
    requires connection.auth.OAuth? && connection.transport.Tls? && connection.caCertificates.None?
    ensures JavaBase(connection, None) + JavaOAuthEntries(connection.auth, []) == JavaValues(connection)
  {
    hide Join, RenderEntry, ScopeEntry, OAUTH_HANDLER, OAUTH_MODULE;
  }

  lemma JavaExports(connection: Connection, checks: ImportChecks)
    requires Exportable(connection, checks)
    ensures JavaExport(connection, None, None) == Some(JavaValues(connection))
  {
    hide Join, RenderEntry, Distinct, IsPrintable, IsScope, PlainHost, JavaOAuthEntries, JavaBase;
    if connection.transport.Tls? {
      match connection.auth
      case Unauthenticated =>
        assert JavaBase(connection, None) == JavaValues(connection) by { JavaBaseExports(connection); }
      case Password(mechanism, username, password) =>
        JavaPasswordExports(connection);
      case OAuth(_, _, scopes, _, _) =>
        JavaOAuthExports(connection);
    }
  }

  lemma JavaBaseExports(connection: Connection)
    requires connection.auth.Unauthenticated? && connection.transport.Tls? && connection.caCertificates.None?
    ensures JavaBase(connection, None) == JavaValues(connection)
  {
  }

  lemma PrintableConcat(a: string, b: string)
    requires IsPrintable(a) && IsPrintable(b)
    ensures IsPrintable(a + b)
  {
  }

  lemma PackagePrintable()
    ensures IsPrintable(PACKAGE)
  {
  }

  lemma NamesPrintable()
    ensures IsPrintable("plain.PlainLoginModule") && IsPrintable("scram.ScramLoginModule")
    ensures IsPrintable("oauthbearer.") && IsPrintable("OAuthBearerLoginModule")
    ensures IsPrintable("OAuthBearerLoginCallbackHandler")
  {
  }

  lemma ModulesPrintable()
    ensures IsPrintable(PLAIN_MODULE) && IsPrintable(SCRAM_MODULE)
    ensures IsPrintable(OAUTH_MODULE) && IsPrintable(OAUTH_HANDLER)
  {
    hide PACKAGE, IsPrintable;
    PackagePrintable();
    NamesPrintable();
    PrintableConcat(PACKAGE, "plain.PlainLoginModule");
    PrintableConcat(PACKAGE, "scram.ScramLoginModule");
    PrintableConcat(PACKAGE, "oauthbearer.");
    PrintableConcat(PACKAGE + "oauthbearer.", "OAuthBearerLoginModule");
    PrintableConcat(PACKAGE + "oauthbearer.", "OAuthBearerLoginCallbackHandler");
  }

  lemma ConstantsPrintable()
    ensures forall mechanism :: IsPrintable(SaslMechanism(mechanism)) && IsPrintable(LoginModule(mechanism))
    ensures IsPrintable("SASL_SSL") && IsPrintable("SSL") && IsPrintable("PLAINTEXT") && IsPrintable("https")
    ensures IsPrintable("OAUTHBEARER") && IsPrintable(OAUTH_HANDLER) && IsPrintable(OAUTH_MODULE)
    ensures IsPrintable("username") && IsPrintable("password") && IsPrintable("true") && IsPrintable("oidc")
  {
    hide PACKAGE, PLAIN_MODULE, SCRAM_MODULE, OAUTH_HANDLER, OAUTH_MODULE;
    ModulesPrintable();
  }

  lemma JavaValuesPrintable(connection: Connection, checks: ImportChecks)
    requires Exportable(connection, checks)
    ensures AllPrintable(JavaValues(connection))
  {
    hide Join, RenderEntry, Distinct, IsPrintable, PlainHost;
    ConstantsPrintable();
    ServersPrintable(connection, checks);
    match connection.auth
    case Unauthenticated =>
    case Password(mechanism, username, password) =>
      EntryPrintable(LoginModule(mechanism), [("username", username), ("password", password)]);
    case OAuth(_, _, scopes, _, _) =>
      EntryPrintable(OAUTH_MODULE, []);
      assert forall i :: 0 <= i < |scopes| ==> IsPrintable(scopes[i]) by { ScopesPrintable(scopes); }
      JoinPrintable(scopes, ' ');
  }

  lemma ScopesPrintable(scopes: seq<string>)
    requires forall i :: 0 <= i < |scopes| ==> IsScope(scopes[i])
    ensures forall i :: 0 <= i < |scopes| ==> IsPrintable(scopes[i])
  {
  }

  // Importing what Java printed

  lemma WordConcat(a: string, b: string)
    requires IsWord(a) && forall i :: 0 <= i < |b| ==> ContinuesWord(b[i])
    ensures IsWord(a + b)
  {
  }

  predicate WordTail(text: string) {
    forall i :: 0 <= i < |text| ==> ContinuesWord(text[i])
  }

  lemma PackageIsWord()
    ensures IsWord(PACKAGE)
  {
  }

  lemma OptionsAreWords()
    ensures IsWord("username") && IsWord("password")
  {
  }

  lemma PasswordModulesAreTails()
    ensures WordTail("plain.PlainLoginModule") && WordTail("scram.ScramLoginModule")
  {
  }

  lemma OAuthModuleIsTail()
    ensures WordTail("oauthbearer.") && WordTail("OAuthBearerLoginModule")
  {
  }

  lemma ModulesAreWords()
    ensures IsWord(PLAIN_MODULE) && IsWord(SCRAM_MODULE) && IsWord(OAUTH_MODULE)
    ensures IsWord("username") && IsWord("password")
  {
    hide PACKAGE, IsWord;
    PackageIsWord();
    OptionsAreWords();
    PasswordModulesAreTails();
    OAuthModuleIsTail();
    WordConcat(PACKAGE, "plain.PlainLoginModule");
    WordConcat(PACKAGE, "scram.ScramLoginModule");
    WordConcat(PACKAGE, "oauthbearer.");
    WordConcat(PACKAGE + "oauthbearer.", "OAuthBearerLoginModule");
  }

  lemma MechanismsKnown(mechanism: PasswordMechanism)
    ensures KnownMechanism(SaslMechanism(mechanism)) == Some(mechanism)
    ensures MechanismModule(SaslMechanism(mechanism)) == Some(LoginModule(mechanism))
    ensures SaslMechanism(mechanism) != "" && SaslMechanism(mechanism) != "OAUTHBEARER"
    ensures MechanismModule("OAUTHBEARER") == Some(OAUTH_MODULE)
  {
    hide LoginModule, OAUTH_MODULE;
  }

  lemma PasswordOptions(username: string, password: string)
    ensures MapOf([("username", username), ("password", password)]) ==
            map["username" := username, "password" := password]
    ensures DistinctKeys([("username", username), ("password", password)])
  {
    var options := [("username", username), ("password", password)];
    var first := options[..1];
    assert first == [("username", username)] && first[..0] == [];
    assert MapOf(first) == map["username" := username];
    assert MapOf(options) == MapOf(first)["password" := password];
  }

  lemma JaasComesBack(values: map<string, string>, loginModule: string, options: seq<Entry>, checks: ImportChecks)
    requires KeepsCase(checks) && IsWord(loginModule) && DistinctKeys(options) && PrintableOptions(options)
    requires "sasl.jaas.config" in values && values["sasl.jaas.config"] == RenderEntry(loginModule, options)
    ensures JaasOptions(values, loginModule, checks) == Some(MapOf(options))
  {
    hide JaasEntries, IsWord, PrintableOptions, MapOf, RenderOptions;
    JaasInverts(loginModule, options);
  }

  lemma JavaPasswordComesBack(connection: Connection, checks: ImportChecks)
    requires Exportable(connection, checks) && KeepsCase(checks)
    requires connection.auth.Password? && connection.transport.Tls?
    ensures JavaSasl(JavaValues(connection), checks) == Some(connection.auth)
    ensures {"sasl.mechanism", "sasl.jaas.config"} <= JavaSaslKeys(JavaValues(connection), checks)
  {
    hide Join, RenderEntry, JaasOptions, IsWord, ValidText, IsPrintable, Distinct, PlainHost, LoginModule, MechanismModule,
      KnownMechanism, MapOf, SaslMechanism, OAuthValueKeys;
    var Password(mechanism, username, password) := connection.auth;
    var values := JavaValues(connection);
    var options := [("username", username), ("password", password)];
    ModulesAreWords();
    LoginModuleIsWord(mechanism);
    MechanismsKnown(mechanism);
    PasswordOptions(username, password);
    JaasComesBack(values, LoginModule(mechanism), options, checks);
    assert username != "" by { ValidNotEmpty(username); }
  }

  lemma ValidNotEmpty(value: string)
    requires ValidText(value)
    ensures value != ""
  {
  }

  lemma LoginModuleIsWord(mechanism: PasswordMechanism)
    ensures IsWord(LoginModule(mechanism))
  {
    hide IsWord, PLAIN_MODULE, SCRAM_MODULE, OAUTH_MODULE;
    ModulesAreWords();
  }

  /** What the Java export of an OAuth connection holds under each key. */
  lemma JavaOAuthHolds(connection: Connection)
    requires connection.auth.OAuth? && connection.transport.Tls?
    ensures var values := JavaValues(connection);
            && Get(values, "sasl.mechanism") == Some("OAUTHBEARER")
            && Get(values, "sasl.jaas.config") == Some(RenderEntry(OAUTH_MODULE, []))
            && Get(values, HANDLER) == Some(OAUTH_HANDLER)
            && Get(values, TOKEN_URL) == Some(connection.auth.tokenUrl)
            && Get(values, CLIENT_ID) == Some(connection.auth.clientId)
            && Get(values, CLIENT_SECRET) == Some(connection.auth.clientSecret)
  {
    hide Join, RenderEntry, OAUTH_MODULE, OAUTH_HANDLER;
  }

  lemma JavaOAuthScope(connection: Connection)
    requires connection.auth.OAuth? && connection.transport.Tls?
    ensures Get(JavaValues(connection), SCOPE) ==
            if connection.auth.scopes == [] then None else Some(Join(connection.auth.scopes, ' '))
  {
    hide Join, RenderEntry, OAUTH_MODULE, OAUTH_HANDLER;
  }

  lemma JavaOAuthComesBack(connection: Connection, checks: ImportChecks)
    requires Exportable(connection, checks) && KeepsCase(checks)
    requires connection.auth.OAuth? && connection.transport.Tls?
    ensures JavaSasl(JavaValues(connection), checks) == Some(connection.auth)
    ensures {"sasl.mechanism", "sasl.jaas.config", HANDLER, TOKEN_URL, CLIENT_ID, CLIENT_SECRET, SCOPE} <=
            JavaSaslKeys(JavaValues(connection), checks)
  {
    hide Join, RenderEntry, JaasOptions, IsWord, ValidText, IsPrintable, Distinct, PlainHost, LoginModule, MechanismModule,
      KnownMechanism, MapOf, SaslMechanism, OAUTH_MODULE, OAUTH_HANDLER, JavaOAuth, JavaValues, HANDLER, TOKEN_URL,
      CLIENT_ID, CLIENT_SECRET, SCOPE, ExportableAuth;
    var values := JavaValues(connection);
    ModulesAreWords();
    MechanismsKnown(PasswordMechanism.Plain);
    NoEntries();
    JavaOAuthHolds(connection);
    assert DistinctKeys([]) && PrintableOptions([]);
    JaasComesBack(values, OAUTH_MODULE, [], checks);
    OAuthValuesComeBack(connection, checks);
    assert !CredentialsInJaas(map[]);
  }

  lemma OAuthValuesComeBack(connection: Connection, checks: ImportChecks)
    requires Exportable(connection, checks) && KeepsCase(checks)
    requires connection.auth.OAuth? && connection.transport.Tls?
    ensures JavaOAuth(JavaValues(connection), map[], checks) == Some(connection.auth)
  {
    hide Join, RenderEntry, ValidText, IsPrintable, PlainHost, OAUTH_MODULE, OAUTH_HANDLER, SplitWords, Distinct,
      JavaValues, HANDLER, TOKEN_URL, CLIENT_ID, CLIENT_SECRET, SCOPE, OneScope, IsScope;
    JavaOAuthHolds(connection);
    JavaOAuthScope(connection);
    ScopesOfValues(connection, JavaValues(connection));
  }

  /** The scopes of an export, present or not, come back. */
  lemma ScopesOfValues(connection: Connection, values: map<string, string>)
    requires connection.auth.OAuth? && Distinct(connection.auth.scopes)
    requires forall i :: 0 <= i < |connection.auth.scopes| ==> IsScope(connection.auth.scopes[i])
    requires Get(values, SCOPE) == if connection.auth.scopes == [] then None else Some(Join(connection.auth.scopes, ' '))
    ensures SplitScopes(Get(values, SCOPE)) == Some(connection.auth.scopes)
    ensures OneScope(values, map[]) == Some(connection.auth.scopes)
  {
    ScopesComeBack(connection.auth.scopes);
  }

  lemma JavaNoTrust(connection: Connection, checks: ImportChecks)
    requires !connection.auth.Mtls?
    ensures JavaTrust(JavaValues(connection), checks) == Some(None)
    ensures VERIFICATION !in JavaValues(connection)
    ensures connection.auth.Unauthenticated? ==> JavaIdentity(JavaValues(connection), checks) == Some(None)
  {
    hide JavaValues, JavaKeys, VERIFICATION;
    JavaKeysBound(connection);
    NoTrustKeys(connection);
    NoIdentityKeys(connection);
  }

  lemma NoTrustKeys(connection: Connection)
    ensures VERIFICATION !in JavaKeys(connection)
    ensures TRUST_KEYS !! JavaKeys(connection)
  {
  }

  lemma NoIdentityKeys(connection: Connection)
    ensures {"ssl.keystore.type", "ssl.keystore.certificate.chain", "ssl.keystore.key"} !! JavaKeys(connection)
  {
  }

  lemma JavaBaseHolds(connection: Connection)
    requires !connection.auth.Mtls?
    ensures var values := JavaValues(connection);
            && "bootstrap.servers" in values && values["bootstrap.servers"] == Join(connection.servers, ',')
            && "security.protocol" in values
            && values["security.protocol"] ==
               (if connection.transport.Plaintext? then "PLAINTEXT"
                else if connection.auth.Unauthenticated? then "SSL" else "SASL_SSL")
            && (IDENTIFICATION in values ==> values[IDENTIFICATION] == "https")
  {
    hide Join, RenderEntry, SaslMechanism, LoginModule, OAUTH_MODULE, OAUTH_HANDLER;
  }

  /** The keys of a Java export. */
  function JavaKeys(connection: Connection): set<string> {
    {"bootstrap.servers", "security.protocol"} +
    (if connection.transport.Plaintext? then {} else {IDENTIFICATION}) +
    (if connection.transport.Plaintext? || connection.auth.Unauthenticated? then {}
     else {"sasl.mechanism", "sasl.jaas.config"}) +
    (if connection.transport.Tls? && connection.auth.OAuth? then {HANDLER, TOKEN_URL, CLIENT_ID, CLIENT_SECRET, SCOPE}
     else {})
  }

  lemma JavaKeysBound(connection: Connection)
    requires !connection.auth.Mtls?
    ensures JavaValues(connection).Keys <= JavaKeys(connection)
  {
    hide Join, RenderEntry, SaslMechanism, LoginModule, OAUTH_MODULE, OAUTH_HANDLER, HANDLER, TOKEN_URL, CLIENT_ID,
      CLIENT_SECRET;
    assert SCOPE == "sasl.oauthbearer.scope";
  }

  lemma JavaUnauthenticatedComesBack(connection: Connection, dialect: Dialect, checks: ImportChecks)
    requires Exportable(connection, checks) && KeepsCase(checks) && !dialect.LibrdkafkaDialect?
    requires connection.auth.Unauthenticated?
    ensures ConnectionAt(dialect, JavaValues(connection), checks) == Some(ImportedOf(connection))
  {
    hide Join, JavaValues, ServersAt, JavaTrust, JavaSasl, JavaSaslKeys, JavaIdentity, ExportableAuth, Distinct, PlainHost,
      TRUST_KEYS, HANDLER, TOKEN_URL, CLIENT_ID, CLIENT_SECRET, SCOPE, IDENTIFICATION, VERIFICATION, JavaIdentityKeys;
    hide JavaKeys, BASE_KEYS, Exportable, KeepsCase, Join, HostnamesVerified, CertificatesVerified;
    var values := JavaValues(connection);
    CaseKept(checks);
    TransportFits(connection, checks);
    JavaBaseHolds(connection);
    JavaKeysBound(connection);
    UnauthenticatedKeys(connection);
    JavaNoTrust(connection, checks);
    ServersComeBack(connection, values, checks);
    JavaChecked(connection, checks);
  }

  lemma CaseKept(checks: ImportChecks)
    requires KeepsCase(checks)
    ensures checks.upper("PLAINTEXT") == "PLAINTEXT" && checks.upper("SSL") == "SSL"
  {
  }

  lemma TransportFits(connection: Connection, checks: ImportChecks)
    requires Exportable(connection, checks)
    ensures connection.caCertificates.None? && (connection.transport.Plaintext? ==> connection.auth.Unauthenticated?)
  {
  }

  /** The checks of an import that an export never fails. */
  lemma JavaChecked(connection: Connection, checks: ImportChecks)
    requires Exportable(connection, checks) && KeepsCase(checks) && !connection.auth.Mtls?
    ensures HostnamesVerified(JavaValues(connection), checks) && CertificatesVerified(JavaValues(connection), checks)
  {
    hide Join, JavaValues, Exportable, JavaTrust, JavaIdentity;
    JavaBaseHolds(connection);
    JavaNoTrust(connection, checks);
  }

  lemma UnauthenticatedKeys(connection: Connection)
    requires connection.auth.Unauthenticated?
    ensures JavaKeys(connection) <= BASE_KEYS
  {
  }

  /** The Java mapping turns the exported properties into the exported connection. */
  lemma JavaConnectionComesBack(connection: Connection, dialect: Dialect, checks: ImportChecks)
    requires Exportable(connection, checks) && KeepsCase(checks) && !dialect.LibrdkafkaDialect?
    ensures ConnectionAt(dialect, JavaValues(connection), checks) == Some(ImportedOf(connection))
  {
    hide Join, JavaValues, ServersAt, JavaTrust, JavaSasl, JavaSaslKeys, JavaIdentity, ExportableAuth, Distinct, PlainHost,
      TRUST_KEYS, HANDLER, TOKEN_URL, CLIENT_ID, CLIENT_SECRET, SCOPE, IDENTIFICATION, VERIFICATION, JavaIdentityKeys;
    MtlsNotExportable(connection.auth, checks);
    if connection.auth.Unauthenticated? {
      JavaUnauthenticatedComesBack(connection, dialect, checks);
      return;
    }
    var values := JavaValues(connection);
    JavaBaseHolds(connection);
    JavaKeysBound(connection);
    JavaNoTrust(connection, checks);
    ServersComeBack(connection, values, checks);
    assert ExportableAuth(connection.auth, checks);
    match connection.auth
    case Unauthenticated =>
    case Password(_, _, _) => JavaPasswordComesBack(connection, checks);
    case OAuth(_, _, _, _, _) => JavaOAuthComesBack(connection, checks);
  }

  lemma MtlsNotExportable(auth: ResolvedAuth, checks: ImportChecks)
    requires ExportableAuth(auth, checks)
    ensures !auth.Mtls?
  {
  }

  lemma JavaKeysKnown(connection: Connection)
    ensures JavaKeys(connection) <= KnownKeys(JavaDialect)
    ensures connection.auth.Unauthenticated? ==> JavaKeys(connection) <= KnownKeys(SharedDialect)
  {
  }

  // The names of the exported keys

  lemma BaseKeysDotted()
    ensures DottedName("bootstrap.servers")
    ensures DottedName("security.protocol")
    ensures DottedName(IDENTIFICATION)
    ensures DottedName(VERIFICATION)
  {
    IdentificationDotted();
    VerificationDotted();
    hide IDENTIFICATION, VERIFICATION;
  }

  lemma PiecesDotted()
    ensures DottedName("ssl.endpoint.") && DottedName("identification.algorithm")
    ensures DottedName("enable.ssl.") && DottedName("certificate.verification")
  {
  }

  lemma IdentificationDotted()
    ensures DottedName(IDENTIFICATION)
  {
    hide DottedName;
    PiecesDotted();
    DottedConcat("ssl.endpoint.", "identification.algorithm");
    assert IDENTIFICATION == "ssl.endpoint." + "identification.algorithm";
  }

  lemma VerificationDotted()
    ensures DottedName(VERIFICATION)
  {
    hide DottedName;
    PiecesDotted();
    DottedConcat("enable.ssl.", "certificate.verification");
    assert VERIFICATION == "enable.ssl." + "certificate.verification";
  }

  lemma SaslKeysDotted()
    ensures DottedName("sasl.mechanism")
    ensures DottedName("sasl.jaas.config")
    ensures DottedName(HANDLER)
  {
  }

  lemma SharedOAuthKeysDotted()
    ensures DottedName(TOKEN_URL)
    ensures DottedName(SCOPE)
  {
  }

  lemma LibrdkafkaKeysDotted()
    ensures DottedName("sasl.username")
    ensures DottedName("sasl.password")
    ensures DottedName("sasl.oauthbearer.method")
    ensures DottedName("sasl.oauthbearer.client.id")
    ensures DottedName("sasl.oauthbearer.client.secret")
  {
  }

  lemma DottedConcat(a: string, b: string)
    requires DottedName(a) && DottedName(b) && |a| + |b| <= MAX_KEY_LENGTH
    ensures DottedName(a + b)
  {
  }

  lemma CredentialsDotted()
    ensures DottedName("sasl.oauthbearer.client.credentials.")
  {
  }

  lemma ClientIdDotted()
    ensures DottedName(CLIENT_ID)
  {
    assert DottedName("client.id");
    hide DottedName;
    CredentialsDotted();
    DottedConcat("sasl.oauthbearer.client.credentials.", "client.id");
    assert CLIENT_ID == "sasl.oauthbearer.client.credentials." + "client.id";
  }

  lemma ClientSecretDotted()
    ensures DottedName(CLIENT_SECRET)
  {
    assert DottedName("client.secret");
    hide DottedName;
    CredentialsDotted();
    DottedConcat("sasl.oauthbearer.client.credentials.", "client.secret");
    assert CLIENT_SECRET == "sasl.oauthbearer.client.credentials." + "client.secret";
  }

  lemma JavaKeysDotted(connection: Connection)
    ensures forall key :: key in JavaKeys(connection) ==> DottedName(key)
  {
    hide DottedName, IDENTIFICATION, HANDLER, TOKEN_URL, SCOPE, CLIENT_ID, CLIENT_SECRET;
    BaseKeysDotted();
    SaslKeysDotted();
    SharedOAuthKeysDotted();
    ClientIdDotted();
    ClientSecretDotted();
  }

  // Markers

  /** What sets the librdkafka markers apart from the exported keys: first letters and, for whole names, length. */
  predicate LibrdkafkaShape(marker: string) {
    && |marker| >= 5
    && (|| (marker[0] == 's' && marker[1] == 'a' && |marker| in {13, 15, 23, 26, 30} && marker[|marker| - 1] != '.')
        || (marker[0] == 's' && marker[1] == 's' && marker[4] in {'c', 'k'})
        || marker[0] in {'e', 'h'})
  }

  lemma LibrdkafkaShapes()
    ensures forall i :: 0 <= i < |LIBRDKAFKA_MARKERS| ==> LibrdkafkaShape(LIBRDKAFKA_MARKERS[i])
  {
    assert LibrdkafkaShape("sasl.username") && LibrdkafkaShape("sasl.password") && LibrdkafkaShape("sasl.mechanisms");
    assert LibrdkafkaShape("sasl.oauthbearer.method") && LibrdkafkaShape("sasl.oauthbearer.client.id");
    assert LibrdkafkaShape("sasl.oauthbearer.client.secret") && LibrdkafkaShape("https.ca.");
    assert LibrdkafkaShape("ssl.ca.") && LibrdkafkaShape("ssl.certificate.");
    assert LibrdkafkaShape("ssl.key.pem") && LibrdkafkaShape("ssl.key.location");
    assert LibrdkafkaShape("enable.ssl.certificate.verification");
  }

  predicate NoLibrdkafkaShape(key: string) {
    && |key| >= 5
    && (|| key[0] == 'b'
        || (key[0] == 's' && key[1] == 'e')
        || (key[0] == 's' && key[1] == 's' && key[4] == 'e')
        || (key[0] == 's' && key[1] == 'a' && |key| !in {13, 15, 23, 26, 30}))
  }

  lemma UnmarkedByShape(key: string)
    requires NoLibrdkafkaShape(key)
    ensures !Matches(key, LIBRDKAFKA_MARKERS)
  {
    hide LIBRDKAFKA_MARKERS;
    LibrdkafkaShapes();
  }

  lemma BaseKeysUnmarked()
    ensures !Matches("bootstrap.servers", LIBRDKAFKA_MARKERS)
    ensures !Matches("security.protocol", LIBRDKAFKA_MARKERS)
    ensures !Matches(IDENTIFICATION, LIBRDKAFKA_MARKERS)
    ensures !Matches("sasl.mechanism", LIBRDKAFKA_MARKERS)
  {
    hide Matches, LIBRDKAFKA_MARKERS;
    UnmarkedByShape("bootstrap.servers");
    UnmarkedByShape("security.protocol");
    UnmarkedByShape(IDENTIFICATION);
    UnmarkedByShape("sasl.mechanism");
  }

  lemma JaasKeysUnmarked()
    ensures !Matches("sasl.jaas.config", LIBRDKAFKA_MARKERS)
    ensures !Matches(HANDLER, LIBRDKAFKA_MARKERS)
    ensures !Matches(TOKEN_URL, LIBRDKAFKA_MARKERS)
  {
    hide Matches, LIBRDKAFKA_MARKERS;
    UnmarkedByShape("sasl.jaas.config");
    UnmarkedByShape(HANDLER);
    UnmarkedByShape(TOKEN_URL);
  }

  lemma OAuthKeysUnmarked()
    ensures !Matches(SCOPE, LIBRDKAFKA_MARKERS)
    ensures !Matches(CLIENT_ID, LIBRDKAFKA_MARKERS)
    ensures !Matches(CLIENT_SECRET, LIBRDKAFKA_MARKERS)
  {
    hide Matches, LIBRDKAFKA_MARKERS;
    UnmarkedByShape(SCOPE);
    var id, secret := "sasl.oauthbearer.client.credentials." + "client.id",
                      "sasl.oauthbearer.client.credentials." + "client.secret";
    assert id == CLIENT_ID && secret == CLIENT_SECRET;
    UnmarkedByShape(id);
    UnmarkedByShape(secret);
  }

  predicate JavaShape(marker: string) {
    && |marker| >= 5
    && (|| (marker[0] == 's' && marker[1] == 'a' && |marker| in {16, 33} && marker[|marker| - 1] != '.')
        || (marker[0] == 's' && marker[1] == 'a' && |marker| == 36)
        || (marker[0] == 's' && marker[1] == 's' && marker[4] in {'t', 'k'})
        || marker[0] == 'a'
        || (marker[0] == 's' && marker[1] == 'c'))
  }

  lemma JavaShapes()
    ensures forall i :: 0 <= i < |JAVA_MARKERS| ==> JavaShape(JAVA_MARKERS[i])
  {
    assert JavaShape("sasl.jaas.config") && JavaShape("sasl.login.callback.handler.class");
    assert JavaShape("ssl.truststore.") && JavaShape("ssl.keystore.");
    assert JavaShape("sasl.oauthbearer.client.credentials.");
    assert JavaShape("apicurio.registry.") && JavaShape("schema.registry.ssl.");
  }

  predicate NoJavaShape(key: string) {
    && |key| >= 5
    && (|| key[0] in {'b', 'e'}
        || (key[0] == 's' && key[1] == 'e')
        || (key[0] == 's' && key[1] == 's' && key[4] == 'e')
        || (key[0] == 's' && key[1] == 'a' && |key| < 36 && |key| !in {16, 33}))
  }

  lemma NotJavaByShape(key: string)
    requires NoJavaShape(key)
    ensures !Matches(key, JAVA_MARKERS)
  {
    hide JAVA_MARKERS;
    JavaShapes();
  }

  lemma BaseKeysNotJava()
    ensures !Matches("bootstrap.servers", JAVA_MARKERS)
    ensures !Matches("security.protocol", JAVA_MARKERS)
    ensures !Matches(VERIFICATION, JAVA_MARKERS)
    ensures !Matches(IDENTIFICATION, JAVA_MARKERS)
    ensures !Matches("sasl.mechanism", JAVA_MARKERS)
  {
    hide Matches, JAVA_MARKERS;
    NotJavaByShape("bootstrap.servers");
    NotJavaByShape("security.protocol");
    NotJavaByShape(VERIFICATION);
    NotJavaByShape(IDENTIFICATION);
    NotJavaByShape("sasl.mechanism");
  }

  lemma PasswordKeysNotJava()
    ensures !Matches("sasl.username", JAVA_MARKERS)
    ensures !Matches("sasl.password", JAVA_MARKERS)
  {
    hide Matches, JAVA_MARKERS;
    NotJavaByShape("sasl.username");
    NotJavaByShape("sasl.password");
  }

  lemma OAuthKeysNotJava()
    ensures !Matches(TOKEN_URL, JAVA_MARKERS)
    ensures !Matches(SCOPE, JAVA_MARKERS)
    ensures !Matches("sasl.oauthbearer.method", JAVA_MARKERS)
  {
    hide Matches, JAVA_MARKERS;
    NotJavaByShape(TOKEN_URL);
    NotJavaByShape(SCOPE);
    NotJavaByShape("sasl.oauthbearer.method");
  }

  lemma ClientKeysNotJava()
    ensures !Matches("sasl.oauthbearer.client.id", JAVA_MARKERS)
    ensures !Matches("sasl.oauthbearer.client.secret", JAVA_MARKERS)
  {
    hide Matches, JAVA_MARKERS;
    NotJavaByShape("sasl.oauthbearer.client.id");
    NotJavaByShape("sasl.oauthbearer.client.secret");
  }

  lemma JavaKeysUnmarked(connection: Connection)
    ensures forall key :: key in JavaKeys(connection) ==> !Matches(key, LIBRDKAFKA_MARKERS)
    ensures connection.auth.Unauthenticated? ==>
              forall key :: key in JavaKeys(connection) ==> !Matches(key, JAVA_MARKERS)
    ensures Matches("sasl.jaas.config", JAVA_MARKERS)
  {
    hide Matches, IDENTIFICATION, HANDLER, TOKEN_URL, SCOPE, CLIENT_ID, CLIENT_SECRET, JAVA_MARKERS, LIBRDKAFKA_MARKERS;
    BaseKeysUnmarked();
    JaasKeysUnmarked();
    OAuthKeysUnmarked();
    BaseKeysNotJava();
    JaasMarks();
  }

  lemma JaasMarks()
    ensures Matches("sasl.jaas.config", JAVA_MARKERS)
    ensures Matches(VERIFICATION, LIBRDKAFKA_MARKERS)
  {
    assert MatchesMarker("sasl.jaas.config", JAVA_MARKERS[0]);
    assert MatchesMarker(VERIFICATION, LIBRDKAFKA_MARKERS[7]);
  }

  // The Java round trip

  /** What the round trip needs of the printed entries: they are the exported properties, in any order. */
  predicate Prints(entries: seq<Entry>, values: map<string, string>) {
    DistinctKeys(entries) && MapOf(entries) == values
  }

  lemma SmallMap(entries: seq<Entry>, values: map<string, string>, keys: set<string>)
    requires Prints(entries, values) && values.Keys <= keys
    ensures |entries| <= |keys|
  {
    MapOfKeys(entries);
    SubsetSize(values.Keys, keys);
  }

  lemma {:induction false} SubsetSize(a: set<string>, b: set<string>)
    requires a <= b
    ensures |a| <= |b|
  {
    if a != {} {
      var item :| item in a;
      SubsetSize(a - {item}, b - {item});
    }
  }

  lemma JavaKeysFew(connection: Connection)
    ensures |JavaKeys(connection)| <= 10
  {
    hide IDENTIFICATION, HANDLER, TOKEN_URL, SCOPE, CLIENT_ID, CLIENT_SECRET;
  }

  lemma PrintedEntries(entries: seq<Entry>, values: map<string, string>, keys: set<string>)
    requires Prints(entries, values) && values.Keys <= keys && |keys| <= 12 && AllPrintable(values)
    requires forall key :: key in keys ==> DottedName(key)
    ensures |entries| <= MAX_PROPERTIES
    ensures forall i :: 0 <= i < |entries| ==>
              && DottedName(entries[i].0) && IsAscii(entries[i].1) && IsPrintable(entries[i].1)
              && entries[i].0 in values && values[entries[i].0] == entries[i].1
  {
    hide DottedName, MapOf;
    SmallMap(entries, values, keys);
    EntriesOf(entries, values);
  }

  /** Nothing but known keys: no Registry, nothing refused, nothing ignored. */
  lemma ImportsKnown(dialect: Dialect, values: map<string, string>, connection: ImportedConnection, checks: ImportChecks)
    requires values.Keys <= KnownKeys(dialect) && values != map[]
    requires ConnectionAt(dialect, values, checks) == Some(connection) && connection.ignored == {}
    requires connection.registry.None?
    ensures PropertiesImport(dialect, values, checks) == if Filled(values) then Some(connection) else None
  {
    hide KnownKeys, ConnectionAt, IsRegistryKey, IsSecurityKey, HasPlaceholder;
    assert KnownPart(values, KnownKeys(dialect)) == values;
    assert RegistryPart(values, KnownKeys(dialect)).Keys == {};
    assert (set key | key in values && key !in KnownKeys(dialect) && !IsRegistryKey(key)) == {};
  }

  lemma JavaTextInfers(connection: Connection, entries: seq<Entry>, checks: ImportChecks)
    requires Exportable(connection, checks) && connection.auth != Unauthenticated
    requires Prints(entries, JavaValues(connection))
    ensures var text := RenderLines(entries);
            InferDialect(JavaProperties(text), LibrdkafkaProperties(text)) ==
            Some((JavaDialect, JavaValues(connection)))
  {
    hide JavaProperties, LibrdkafkaProperties, JavaValues, Exportable, Matches, JavaKeys, DottedName, MapOf, RenderLines,
      JAVA_MARKERS, LIBRDKAFKA_MARKERS;
    ExportedIsPlain(connection, checks);
    var values := JavaValues(connection);
    JavaKeysBound(connection);
    JavaKeysDotted(connection);
    JavaKeysFew(connection);
    JavaKeysUnmarked(connection);
    JavaValuesPrintable(connection, checks);
    PrintedEntries(entries, values, JavaKeys(connection));
    JavaRoundTrip(entries);
    JavaTextElsewhere(entries);
    assert "sasl.jaas.config" in values by { JaasPrinted(connection); }
  }

  lemma ExportedIsPlain(connection: Connection, checks: ImportChecks)
    requires Exportable(connection, checks)
    ensures !connection.auth.Mtls?
    ensures connection.auth != Unauthenticated ==> connection.transport.Tls?
    ensures connection.transport.Plaintext? ==> connection.auth.Unauthenticated?
  {
  }

  lemma JaasPrinted(connection: Connection)
    requires !connection.auth.Mtls? && !connection.auth.Unauthenticated? && connection.transport.Tls?
    ensures "sasl.jaas.config" in JavaValues(connection)
  {
    hide Join, RenderEntry, SaslMechanism, LoginModule, OAUTH_MODULE, OAUTH_HANDLER;
  }

  /** Without authentication nothing marks the dialect, and the two readers agree. */
  lemma SharedTextInfers(connection: Connection, entries: seq<Entry>, checks: ImportChecks)
    requires Exportable(connection, checks) && connection.auth == Unauthenticated
    requires Prints(entries, JavaValues(connection))
    ensures var text := RenderLines(entries);
            && RenderProperties(entries) == Some(text)
            && InferDialect(JavaProperties(text), LibrdkafkaProperties(text)) ==
               Some((SharedDialect, JavaValues(connection)))
  {
    hide JavaProperties, LibrdkafkaProperties, Exportable, Matches, JavaKeys, DottedName, MapOf, RenderLines, PlainValue,
      JAVA_MARKERS, LIBRDKAFKA_MARKERS, JavaValues, RenderProperties;
    var values := JavaValues(connection);
    JavaKeysBound(connection);
    JavaKeysDotted(connection);
    JavaKeysFew(connection);
    JavaKeysUnmarked(connection);
    JavaValuesPrintable(connection, checks);
    PrintedEntries(entries, values, JavaKeys(connection));
    SharedValuesPlain(connection, checks);
    SharedReading(entries);
  }

  lemma SharedValuesPlain(connection: Connection, checks: ImportChecks)
    requires Exportable(connection, checks) && connection.auth == Unauthenticated
    ensures forall key :: key in JavaValues(connection) ==> PlainValue(JavaValues(connection)[key])
  {
    hide Join, Exportable;
    ServersPrintable(connection, checks);
    PlainConstants();
  }

  lemma PlainConstants()
    ensures PlainValue("PLAINTEXT") && PlainValue("SSL") && PlainValue("https") && PlainValue("true")
  {
  }

  /** Exporting a connection as Java properties and importing the text gives the connection back:
      servers, transport, authentication, secret and scopes. The one exception is a value that looks like
      an unfilled placeholder, for which the import is refused. */
  lemma JavaExportImports(connection: Connection, entries: seq<Entry>, checks: ImportChecks)
    requires Exportable(connection, checks) && KeepsCase(checks)
    requires JavaExport(connection, None, None).Some? ==>
               Prints(entries, JavaExport(connection, None, None).value)
    ensures JavaExport(connection, None, None).Some?
    ensures ImportOf(RenderLines(entries), checks) ==
            if Filled(JavaExport(connection, None, None).value) then Some(ImportedOf(connection)) else None
  {
    hide JavaProperties, LibrdkafkaProperties, Exportable, JavaKeys, RenderLines, JavaValues, ConnectionAt, KnownKeys,
      PropertiesImport, InferDialect, JavaExport;
    JavaExports(connection, checks);
    ExportedIsPlain(connection, checks);
    var values := JavaValues(connection);
    JavaKeysBound(connection);
    JavaKeysKnown(connection);
    JavaBaseHolds(connection);
    var dialect := if connection.auth.Unauthenticated? then SharedDialect else JavaDialect;
    if connection.auth.Unauthenticated? {
      SharedTextInfers(connection, entries, checks);
    } else {
      JavaTextInfers(connection, entries, checks);
    }
    JavaConnectionComesBack(connection, dialect, checks);
    ImportsKnown(dialect, values, ImportedOf(connection), checks);
  }

  // The librdkafka round trip

  /** The librdkafka properties of an exportable connection, written out. */
  function LibrdkafkaValues(connection: Connection): map<string, string>
    requires !connection.auth.Mtls?
  {
    var servers := Join(connection.servers, ',');
    if connection.transport.Plaintext? then
      map["bootstrap.servers" := servers, "security.protocol" := "PLAINTEXT"]
    else
      match connection.auth
      case Unauthenticated =>
        map["bootstrap.servers" := servers, "security.protocol" := "SSL", VERIFICATION := "true",
            IDENTIFICATION := "https"]
      case Password(mechanism, username, password) =>
        map["bootstrap.servers" := servers, "security.protocol" := "SASL_SSL", VERIFICATION := "true",
            IDENTIFICATION := "https", "sasl.mechanism" := SaslMechanism(mechanism),
            "sasl.username" := username, "sasl.password" := password]
      case OAuth(tokenUrl, clientId, scopes, clientSecret, _) =>
        map["bootstrap.servers" := servers, "security.protocol" := "SASL_SSL", VERIFICATION := "true",
            IDENTIFICATION := "https", "sasl.mechanism" := "OAUTHBEARER", "sasl.oauthbearer.method" := "oidc",
            TOKEN_URL := tokenUrl, "sasl.oauthbearer.client.id" := clientId,
            "sasl.oauthbearer.client.secret" := clientSecret] + ScopeEntry(scopes)
  }

  lemma LibrdkafkaExports(connection: Connection, checks: ImportChecks)
    requires Exportable(connection, checks)
    ensures LibrdkafkaExport(connection, None, None, None, None) == Some(LibrdkafkaValues(connection))
  {
    hide Join, Distinct, IsPrintable, IsScope, PlainHost, LibrdkafkaOAuthEntries, LibrdkafkaBase;
    if connection.transport.Tls? {
      match connection.auth
      case Unauthenticated =>
        assert LibrdkafkaBase(connection, None) == LibrdkafkaValues(connection) by { LibrdkafkaBaseExports(connection); }
      case Password(mechanism, username, password) =>
        LibrdkafkaPasswordExports(connection);
      case OAuth(_, _, scopes, _, _) =>
        LibrdkafkaOAuthExports(connection);
    }
  }

  lemma LibrdkafkaBaseExports(connection: Connection)
    requires connection.auth.Unauthenticated? && connection.transport.Tls? && connection.caCertificates.None?
    ensures LibrdkafkaBase(connection, None) == LibrdkafkaValues(connection)
  {
    hide Join;
  }

  lemma LibrdkafkaPasswordExports(connection: Connection)
    requires connection.auth.Password? && connection.transport.Tls? && connection.caCertificates.None?
    ensures LibrdkafkaBase(connection, None) +
            map["security.protocol" := "SASL_SSL", "sasl.mechanism" := SaslMechanism(connection.auth.mechanism),
                "sasl.username" := connection.auth.username, "sasl.password" := connection.auth.password]
            == LibrdkafkaValues(connection)
  {
    hide Join, SaslMechanism;
  }

  lemma LibrdkafkaOAuthExports(connection: Connection)
    requires connection.auth.OAuth? && connection.auth.caCertificates.None?
    requires connection.transport.Tls? && connection.caCertificates.None?
    ensures LibrdkafkaBase(connection, None) + LibrdkafkaOAuthEntries(connection.auth, None)
            == LibrdkafkaValues(connection)
  {
    hide Join, ScopeEntry, OptionalEntry, LibrdkafkaBase, LibrdkafkaClientEntries;
    var base, client, scope := LibrdkafkaBase(connection, None), LibrdkafkaClientEntries(connection.auth),
                               ScopeEntry(connection.auth.scopes);
    NothingOptional("https.ca.location");
    assert client + scope + map[] == client + scope;
    Regrouped(base, client, scope, map[]);
    assert base + client + scope + map[] == base + client + scope;
    LibrdkafkaOAuthFixed(connection);
  }

  lemma NothingOptional(key: string)
    ensures OptionalEntry(key, None) == map[]
  {
  }

  /** The entries of an OAuth export without its scopes. */
  lemma LibrdkafkaOAuthFixed(connection: Connection)
    requires connection.auth.OAuth? && connection.auth.caCertificates.None?
    requires connection.transport.Tls? && connection.caCertificates.None?
    ensures LibrdkafkaBase(connection, None) + LibrdkafkaClientEntries(connection.auth) +
            ScopeEntry(connection.auth.scopes) == LibrdkafkaValues(connection)
  {
    hide Join, ScopeEntry;
    var OAuth(tokenUrl, clientId, scopes, clientSecret, _) := connection.auth;
    var left := LibrdkafkaBase(connection, None) + LibrdkafkaClientEntries(connection.auth);
    var right := map["bootstrap.servers" := Join(connection.servers, ','), "security.protocol" := "SASL_SSL",
                     VERIFICATION := "true", IDENTIFICATION := "https", "sasl.mechanism" := "OAUTHBEARER",
                     "sasl.oauthbearer.method" := "oidc", TOKEN_URL := tokenUrl,
                     "sasl.oauthbearer.client.id" := clientId, "sasl.oauthbearer.client.secret" := clientSecret];
    assert left.Keys == right.Keys;
    forall key | key in right ensures left[key] == right[key] {
    }
    assert left == right;
  }

  lemma LibrdkafkaValuesPrintable(connection: Connection, checks: ImportChecks)
    requires Exportable(connection, checks)
    ensures AllPrintable(LibrdkafkaValues(connection))
  {
    hide Join, Distinct, IsPrintable, PlainHost;
    ConstantsPrintable();
    ServersPrintable(connection, checks);
    if connection.auth.OAuth? {
      ScopesPrintable(connection.auth.scopes);
      JoinPrintable(connection.auth.scopes, ' ');
    }
  }

  lemma LibrdkafkaBaseHolds(connection: Connection)
    requires !connection.auth.Mtls?
    ensures var values := LibrdkafkaValues(connection);
            && "bootstrap.servers" in values && values["bootstrap.servers"] == Join(connection.servers, ',')
            && "security.protocol" in values
            && values["security.protocol"] ==
               (if connection.transport.Plaintext? then "PLAINTEXT"
                else if connection.auth.Unauthenticated? then "SSL" else "SASL_SSL")
            && (IDENTIFICATION in values ==> values[IDENTIFICATION] == "https")
            && (VERIFICATION in values ==> values[VERIFICATION] == "true")
            && (VERIFICATION in values <==> connection.transport.Tls?)
  {
    hide Join, SaslMechanism;
  }

  /** The keys of a librdkafka export. */
  function LibrdkafkaKeys(connection: Connection): set<string> {
    {"bootstrap.servers", "security.protocol"} +
    (if connection.transport.Plaintext? then {} else {IDENTIFICATION, VERIFICATION}) +
    (if connection.transport.Plaintext? || connection.auth.Unauthenticated? then {} else {"sasl.mechanism"}) +
    (if connection.transport.Tls? && connection.auth.Password? then {"sasl.username", "sasl.password"} else {}) +
    (if connection.transport.Tls? && connection.auth.OAuth? then
       {"sasl.oauthbearer.method", TOKEN_URL, "sasl.oauthbearer.client.id", "sasl.oauthbearer.client.secret", SCOPE}
     else {})
  }

  lemma LibrdkafkaKeysBound(connection: Connection)
    requires !connection.auth.Mtls?
    ensures LibrdkafkaValues(connection).Keys <= LibrdkafkaKeys(connection)
  {
    hide Join, SaslMechanism, TOKEN_URL, IDENTIFICATION, VERIFICATION;
    assert SCOPE == "sasl.oauthbearer.scope";
  }

  lemma LibrdkafkaKeysDottedAll(connection: Connection)
    ensures forall key :: key in LibrdkafkaKeys(connection) ==> DottedName(key)
  {
    hide DottedName, IDENTIFICATION, VERIFICATION, TOKEN_URL, SCOPE, HANDLER;
    BaseKeysDotted();
    SaslKeysDotted();
    SharedOAuthKeysDotted();
    LibrdkafkaKeysDotted();
  }

  lemma DisplaySize(a: string, b: string, c: string, d: string, e: string)
    ensures |{a, b, c, d, e}| <= 5 && |{a, b}| <= 2 && |{a}| <= 1
  {
  }

  lemma UnionSize(a: set<string>, b: set<string>)
    ensures |a + b| <= |a| + |b|
  {
    assert |a + b| == |a| + |b| - |a * b|;
  }

  lemma FewInAll(a: set<string>, b: set<string>, c: set<string>, d: set<string>, e: set<string>)
    requires |a| <= 2 && |b| <= 2 && |c| <= 1 && |d| <= 2 && |e| <= 5
    ensures |a + b + c + d + e| <= 12
  {
    UnionSize(a, b);
    UnionSize(a + b, c);
    UnionSize(a + b + c, d);
    UnionSize(a + b + c + d, e);
  }

  lemma LibrdkafkaKeysFew(connection: Connection)
    ensures |LibrdkafkaKeys(connection)| <= 12
  {
    hide IDENTIFICATION, VERIFICATION, TOKEN_URL, SCOPE;
    DisplaySize("bootstrap.servers", "security.protocol", "", "", "");
    DisplaySize(IDENTIFICATION, VERIFICATION, "", "", "");
    DisplaySize("sasl.mechanism", "", "", "", "");
    DisplaySize("sasl.username", "sasl.password", "", "", "");
    DisplaySize("sasl.oauthbearer.method", TOKEN_URL, "sasl.oauthbearer.client.id", "sasl.oauthbearer.client.secret",
                SCOPE);
    FewInAll({"bootstrap.servers", "security.protocol"},
             if connection.transport.Plaintext? then {} else {IDENTIFICATION, VERIFICATION},
             if connection.transport.Plaintext? || connection.auth.Unauthenticated? then {} else {"sasl.mechanism"},
             if connection.transport.Tls? && connection.auth.Password? then {"sasl.username", "sasl.password"} else {},
             if connection.transport.Tls? && connection.auth.OAuth? then
               {"sasl.oauthbearer.method", TOKEN_URL, "sasl.oauthbearer.client.id", "sasl.oauthbearer.client.secret",
                SCOPE}
             else {});
  }

  lemma LibrdkafkaKeysNotJava(connection: Connection)
    ensures forall key :: key in LibrdkafkaKeys(connection) ==> !Matches(key, JAVA_MARKERS)
    ensures connection.transport.Plaintext? ==>
              forall key :: key in LibrdkafkaKeys(connection) ==> !Matches(key, LIBRDKAFKA_MARKERS)
    ensures Matches(VERIFICATION, LIBRDKAFKA_MARKERS)
  {
    hide Matches, IDENTIFICATION, VERIFICATION, TOKEN_URL, SCOPE, JAVA_MARKERS, LIBRDKAFKA_MARKERS;
    BaseKeysNotJava();
    PasswordKeysNotJava();
    OAuthKeysNotJava();
    ClientKeysNotJava();
    BaseKeysUnmarked();
    JaasMarks();
  }

  lemma LibrdkafkaNoTrust(connection: Connection, checks: ImportChecks)
    requires !connection.auth.Mtls?
    ensures LibrdkafkaTrust(LibrdkafkaValues(connection), checks) == Some(None)
    ensures connection.auth.Unauthenticated? ==> LibrdkafkaIdentity(LibrdkafkaValues(connection), checks) == Some(None)
  {
    hide LibrdkafkaValues, LibrdkafkaKeys;
    LibrdkafkaKeysBound(connection);
    NoLibrdkafkaTrustKeys(connection);
    NoLibrdkafkaIdentityKeys(connection);
  }

  lemma NoLibrdkafkaTrustKeys(connection: Connection)
    ensures {"ssl.ca.pem", "ssl.ca.location"} !! LibrdkafkaKeys(connection)
  {
  }

  lemma NoLibrdkafkaIdentityKeys(connection: Connection)
    ensures {"ssl.certificate.pem", "ssl.certificate.location", "ssl.key.pem", "ssl.key.location"} !!
            LibrdkafkaKeys(connection)
  {
  }

  lemma LibrdkafkaPasswordComesBack(connection: Connection, checks: ImportChecks)
    requires Exportable(connection, checks) && connection.auth.Password? && connection.transport.Tls?
    ensures LibrdkafkaSasl(LibrdkafkaValues(connection), checks) == Some(connection.auth)
    ensures {"sasl.mechanism", "sasl.username", "sasl.password"} <= LibrdkafkaSaslKeys(LibrdkafkaValues(connection))
  {
    hide Join, ValidText, IsPrintable, Distinct, PlainHost, KnownMechanism, SaslMechanism, MechanismModule, LoginModule;
    MechanismsKnown(connection.auth.mechanism);
    ValidNotEmpty(connection.auth.username);
  }

  /** What the librdkafka export of an OAuth connection holds under each key. */
  lemma LibrdkafkaOAuthHolds(connection: Connection)
    requires connection.auth.OAuth? && connection.transport.Tls?
    ensures var values := LibrdkafkaValues(connection);
            && Get(values, "sasl.mechanism") == Some("OAUTHBEARER")
            && Get(values, "sasl.oauthbearer.method") == Some("oidc")
            && Get(values, TOKEN_URL) == Some(connection.auth.tokenUrl)
            && Get(values, "sasl.oauthbearer.client.id") == Some(connection.auth.clientId)
            && Get(values, "sasl.oauthbearer.client.secret") == Some(connection.auth.clientSecret)
  {
    hide Join;
  }

  lemma LibrdkafkaOAuthLacks(connection: Connection)
    requires connection.auth.OAuth? && connection.transport.Tls?
    ensures var values := LibrdkafkaValues(connection);
            && "sasl.mechanisms" !in values && "https.ca.pem" !in values && "https.ca.location" !in values
            && Get(values, SCOPE) ==
               if connection.auth.scopes == [] then None else Some(Join(connection.auth.scopes, ' '))
  {
    hide Join;
  }

  lemma LibrdkafkaOAuthComesBack(connection: Connection, checks: ImportChecks)
    requires Exportable(connection, checks) && KeepsCase(checks) && connection.auth.OAuth? && connection.transport.Tls?
    ensures LibrdkafkaSasl(LibrdkafkaValues(connection), checks) == Some(connection.auth)
    ensures {"sasl.mechanism", "sasl.oauthbearer.method", TOKEN_URL, "sasl.oauthbearer.client.id",
             "sasl.oauthbearer.client.secret", SCOPE} <= LibrdkafkaSaslKeys(LibrdkafkaValues(connection))
  {
    hide Join, ValidText, IsPrintable, Distinct, PlainHost, LibrdkafkaValues, SplitWords, IsScope, OneScope;
    LibrdkafkaOAuthHolds(connection);
    LibrdkafkaOAuthLacks(connection);
    ScopesOfValues(connection, LibrdkafkaValues(connection));
  }

  /** The mapping of the inferred dialect turns the exported properties into the exported connection. */
  lemma LibrdkafkaConnectionComesBack(connection: Connection, checks: ImportChecks)
    requires Exportable(connection, checks) && KeepsCase(checks)
    ensures ConnectionAt(LibrdkafkaDialect, LibrdkafkaValues(connection), checks) == Some(ImportedOf(connection))
  {
    hide Join, LibrdkafkaValues, ServersAt, LibrdkafkaTrust, LibrdkafkaSasl, LibrdkafkaSaslKeys, LibrdkafkaIdentity,
      ExportableAuth, Distinct, PlainHost, TOKEN_URL, SCOPE, IDENTIFICATION, VERIFICATION, LibrdkafkaIdentityKeys;
    MtlsNotExportable(connection.auth, checks);
    var values := LibrdkafkaValues(connection);
    LibrdkafkaBaseHolds(connection);
    LibrdkafkaKeysBound(connection);
    LibrdkafkaNoTrust(connection, checks);
    ServersComeBack(connection, values, checks);
    match connection.auth
    case Unauthenticated =>
    case Password(_, _, _) => LibrdkafkaPasswordComesBack(connection, checks);
    case OAuth(_, _, _, _, _) => LibrdkafkaOAuthComesBack(connection, checks);
  }

  lemma LibrdkafkaKeysKnown(connection: Connection)
    ensures LibrdkafkaKeys(connection) <= KnownKeys(LibrdkafkaDialect)
  {
  }

  lemma LibrdkafkaTextInfers(connection: Connection, entries: seq<Entry>, checks: ImportChecks)
    requires Exportable(connection, checks) && connection.transport.Tls?
    requires Prints(entries, LibrdkafkaValues(connection))
    ensures RenderProperties(entries).Some?
    ensures var text := RenderProperties(entries).value;
            InferDialect(JavaProperties(text), LibrdkafkaProperties(text)) ==
            Some((LibrdkafkaDialect, LibrdkafkaValues(connection)))
  {
    hide JavaProperties, LibrdkafkaProperties, LibrdkafkaValues, Exportable, Matches, LibrdkafkaKeys, DottedName, MapOf,
      RenderRawLines, JAVA_MARKERS, LIBRDKAFKA_MARKERS, VERIFICATION;
    ExportedIsPlain(connection, checks);
    var values := LibrdkafkaValues(connection);
    LibrdkafkaKeysBound(connection);
    LibrdkafkaKeysDottedAll(connection);
    LibrdkafkaKeysFew(connection);
    LibrdkafkaKeysNotJava(connection);
    LibrdkafkaValuesPrintable(connection, checks);
    PrintedEntries(entries, values, LibrdkafkaKeys(connection));
    forall i | 0 <= i < |entries| ensures PrintableEntry(entries[i]) && Clean(entries[i].1) {
      PlainKey(entries[i].0);
    }
    LibrdkafkaRoundTrip(entries);
    LibrdkafkaTextElsewhere(entries);
    LibrdkafkaBaseHolds(connection);
    assert VERIFICATION in values;
  }

  /** Exporting a connection as librdkafka properties and importing the text gives the connection back,
      with the same exception. */
  lemma LibrdkafkaExportImports(connection: Connection, entries: seq<Entry>, checks: ImportChecks)
    requires Exportable(connection, checks) && KeepsCase(checks)
    requires LibrdkafkaExport(connection, None, None, None, None).Some? ==>
               Prints(entries, LibrdkafkaExport(connection, None, None, None, None).value)
    ensures LibrdkafkaExport(connection, None, None, None, None).Some? && RenderProperties(entries).Some?
    ensures ImportOf(RenderProperties(entries).value, checks) ==
            if Filled(LibrdkafkaExport(connection, None, None, None, None).value) then Some(ImportedOf(connection))
            else None
  {
    hide JavaProperties, LibrdkafkaProperties, Exportable, LibrdkafkaKeys, JavaKeys, RenderProperties, RenderLines,
      JavaValues, LibrdkafkaValues, ConnectionAt, KnownKeys, PropertiesImport, InferDialect, LibrdkafkaExport;
    LibrdkafkaExports(connection, checks);
    ExportedIsPlain(connection, checks);
    var values := LibrdkafkaValues(connection);
    if connection.transport.Tls? {
      LibrdkafkaTextInfers(connection, entries, checks);
      LibrdkafkaConnectionComesBack(connection, checks);
      LibrdkafkaKeysBound(connection);
      LibrdkafkaKeysKnown(connection);
      LibrdkafkaBaseHolds(connection);
      ImportsKnown(LibrdkafkaDialect, values, ImportedOf(connection), checks);
    } else {
      PlaintextAlike(connection);
      SharedTextInfers(connection, entries, checks);
      JavaConnectionComesBack(connection, SharedDialect, checks);
      JavaKeysBound(connection);
      JavaKeysKnown(connection);
      JavaBaseHolds(connection);
      ImportsKnown(SharedDialect, values, ImportedOf(connection), checks);
    }
  }

  lemma PlaintextAlike(connection: Connection)
    requires !connection.auth.Mtls? && connection.transport.Plaintext?
    ensures LibrdkafkaValues(connection) == JavaValues(connection)
  {
  }
}
