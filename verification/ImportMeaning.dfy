/** What client properties mean, key by key.

    The predicates here are told in literal keys and values; neither the methods nor the functions they compute use
    them. The lemmas show that a connection is imported exactly when a file describes it. */
module ImportMeaning {
  import opened Wrappers
  import opened Documents
  import opened PropertiesSyntax
  import opened JavaRendering
  import opened Librdkafka
  import opened Jaas
  import opened JaasRendering
  import opened PropertyMapping
  import opened KafkaProperties
  import opened RegistryProperties
  import opened ClientProperties

  // The dialect

  ghost predicate JavaOnly(key: string) {
    || key == "sasl.jaas.config" || key == "sasl.login.callback.handler.class"
    || "ssl.truststore." <= key || "ssl.keystore." <= key || "sasl.oauthbearer.client.credentials." <= key
    || "apicurio.registry." <= key || "schema.registry.ssl." <= key
  }

  ghost predicate LibrdkafkaOnly(key: string) {
    || key == "sasl.username" || key == "sasl.password" || key == "sasl.mechanisms"
    || "ssl.ca." <= key || "ssl.certificate." <= key || key == "ssl.key.pem" || key == "ssl.key.location"
    || key == "enable.ssl.certificate.verification" || key == "sasl.oauthbearer.method"
    || key == "sasl.oauthbearer.client.id" || key == "sasl.oauthbearer.client.secret" || "https.ca." <= key
  }

  ghost predicate SomeJavaOnly(properties: map<string, string>) {
    exists key :: key in properties && JavaOnly(key)
  }

  ghost predicate SomeLibrdkafkaOnly(properties: map<string, string>) {
    exists key :: key in properties && LibrdkafkaOnly(key)
  }

  /** A file is read in the dialect of its own keys, if neither reading has a key of the other dialect; without such
      keys, both readings have to agree. */
  ghost predicate ReadAs(java: Option<map<string, string>>, librdkafka: Option<map<string, string>>, dialect: Dialect,
                         properties: map<string, string>) {
    match dialect
    case JavaDialect =>
      && java == Some(properties) && SomeJavaOnly(properties) && !SomeLibrdkafkaOnly(properties)
      && (librdkafka.Some? ==> !SomeLibrdkafkaOnly(librdkafka.value))
    case LibrdkafkaDialect =>
      && librdkafka == Some(properties) && SomeLibrdkafkaOnly(properties) && !SomeJavaOnly(properties)
      && (java.Some? ==> !SomeJavaOnly(java.value))
    case SharedDialect =>
      && java == Some(properties) && librdkafka == Some(properties)
      && !SomeJavaOnly(properties) && !SomeLibrdkafkaOnly(properties)
  }

  /** A marker that ends in a dot stands for all keys that begin with it. */
  lemma MarksExactly(key: string, markers: seq<string>)
    ensures forall i :: 0 <= i < |markers| ==>
              var marker := markers[i];
              MatchesMarker(key, marker) <==>
              key == marker || (marker != "" && marker[|marker| - 1] == '.' && marker <= key)
  {
    forall i | 0 <= i < |markers| ensures StartsWith(key, markers[i]) <==> markers[i] <= key {
    }
  }

  lemma JavaOnlyExactly(key: string)
    ensures JavaOnly(key) <==> Matches(key, JAVA_MARKERS)
  {
    hide MatchesMarker;
    MarksExactly(key, JAVA_MARKERS);
    assert MatchesMarker(key, JAVA_MARKERS[0]) <==> key == "sasl.jaas.config";
    assert MatchesMarker(key, JAVA_MARKERS[1]) <==> key == "sasl.login.callback.handler.class";
    assert MatchesMarker(key, JAVA_MARKERS[2]) <==> "ssl.truststore." <= key;
    assert MatchesMarker(key, JAVA_MARKERS[3]) <==> "ssl.keystore." <= key;
    assert MatchesMarker(key, JAVA_MARKERS[4]) <==> "sasl.oauthbearer.client.credentials." <= key;
    assert MatchesMarker(key, JAVA_MARKERS[5]) <==> "apicurio.registry." <= key;
    assert MatchesMarker(key, JAVA_MARKERS[6]) <==> "schema.registry.ssl." <= key;
  }

  lemma LibrdkafkaOnlyExactly(key: string)
    ensures LibrdkafkaOnly(key) <==> Matches(key, LIBRDKAFKA_MARKERS)
  {
    hide MatchesMarker;
    MarksExactly(key, LIBRDKAFKA_MARKERS);
    assert MatchesMarker(key, LIBRDKAFKA_MARKERS[0]) <==> key == "sasl.username";
    assert MatchesMarker(key, LIBRDKAFKA_MARKERS[1]) <==> key == "sasl.password";
    assert MatchesMarker(key, LIBRDKAFKA_MARKERS[2]) <==> key == "sasl.mechanisms";
    assert MatchesMarker(key, LIBRDKAFKA_MARKERS[3]) <==> "ssl.ca." <= key;
    assert MatchesMarker(key, LIBRDKAFKA_MARKERS[4]) <==> "ssl.certificate." <= key;
    assert MatchesMarker(key, LIBRDKAFKA_MARKERS[5]) <==> key == "ssl.key.pem";
    assert MatchesMarker(key, LIBRDKAFKA_MARKERS[6]) <==> key == "ssl.key.location";
    assert MatchesMarker(key, LIBRDKAFKA_MARKERS[7]) <==> key == "enable.ssl.certificate.verification";
    assert MatchesMarker(key, LIBRDKAFKA_MARKERS[8]) <==> key == "sasl.oauthbearer.method";
    assert MatchesMarker(key, LIBRDKAFKA_MARKERS[9]) <==> key == "sasl.oauthbearer.client.id";
    assert MatchesMarker(key, LIBRDKAFKA_MARKERS[10]) <==> key == "sasl.oauthbearer.client.secret";
    assert MatchesMarker(key, LIBRDKAFKA_MARKERS[11]) <==> "https.ca." <= key;
  }

  lemma MarkersExactly(reading: Option<map<string, string>>)
    ensures HasMarker(reading, JAVA_MARKERS) <==> reading.Some? && SomeJavaOnly(reading.value)
    ensures HasMarker(reading, LIBRDKAFKA_MARKERS) <==> reading.Some? && SomeLibrdkafkaOnly(reading.value)
  {
    hide JavaOnly, LibrdkafkaOnly, Matches, JAVA_MARKERS, LIBRDKAFKA_MARKERS;
    forall key
      ensures JavaOnly(key) <==> Matches(key, JAVA_MARKERS)
      ensures LibrdkafkaOnly(key) <==> Matches(key, LIBRDKAFKA_MARKERS)
    {
      JavaOnlyExactly(key);
      LibrdkafkaOnlyExactly(key);
    }
  }

  lemma ReadAsExactly(java: Option<map<string, string>>, librdkafka: Option<map<string, string>>)
    ensures forall dialect, properties ::
              ReadAs(java, librdkafka, dialect, properties) <==>
              InferDialect(java, librdkafka) == Some((dialect, properties))
  {
    hide SomeJavaOnly, SomeLibrdkafkaOnly, HasMarker, JAVA_MARKERS, LIBRDKAFKA_MARKERS;
    MarkersExactly(java);
    MarkersExactly(librdkafka);
  }

  // Values

  /** White space: the ASCII ones and the separators of Unicode. */
  ghost predicate White(c: char) {
    c as int in {9, 10, 11, 12, 13, 28, 29, 30, 31, 32, 0x85, 0xA0, 0x1680,
                 0x2000, 0x2001, 0x2002, 0x2003, 0x2004, 0x2005, 0x2006, 0x2007, 0x2008, 0x2009, 0x200A,
                 0x2028, 0x2029, 0x202F, 0x205F, 0x3000}
  }

  ghost predicate AllWhite(text: string) {
    forall c :: c in text ==> White(c)
  }

  /** A text that a client can send: not empty, and without NUL or line breaks. */
  ghost predicate Sendable(text: string) {
    text != "" && forall c :: c in text ==> c != '\0' && c != '\r' && c != '\n'
  }

  /** A text with white space around it, and none at its own ends. */
  ghost predicate Surrounded(raw: string, text: string) {
    && (text != "" ==> !White(text[0]) && !White(text[|text| - 1]))
    && exists before, after :: raw == before + text + after && AllWhite(before) && AllWhite(after)
  }

  /** Items with a comma between two neighbours. */
  ghost predicate Listed(text: string, items: seq<string>)
    decreases |items|
  {
    && items != [] && ',' !in items[0]
    && if |items| == 1 then text == items[0]
       else exists rest :: text == items[0] + "," + rest && Listed(rest, items[1..])
  }

  ghost predicate Once(items: seq<string>) {
    forall i, j :: 0 <= i < |items| && 0 <= j < |items| && items[i] == items[j] ==> i == j
  }

  lemma OnceExactly(items: seq<string>)
    ensures Once(items) <==> Distinct(items)
  {
  }

  ghost predicate ServersAre(values: map<string, string>, checks: ImportChecks, servers: Option<seq<string>>) {
    if servers == None then "bootstrap.servers" !in values
    else
      && "bootstrap.servers" in values && Once(servers.value)
      && exists raw :: ServersListed(values["bootstrap.servers"], raw, checks, servers.value)
  }

  ghost predicate ServersListed(text: string, raw: seq<string>, checks: ImportChecks, servers: seq<string>) {
    && Listed(text, raw) && |raw| == |servers|
    && forall i :: 0 <= i < |servers| ==> Surrounded(raw[i], servers[i]) && checks.brokerAddress(servers[i])
  }

  /** Words with white space around and between them. */
  ghost predicate WordsAre(text: string, words: seq<string>)
    decreases |words|
  {
    if words == [] then AllWhite(text)
    else
      && words[0] != "" && (forall c :: c in words[0] ==> !White(c))
      && exists before, rest ::
           && text == before + words[0] + rest && AllWhite(before)
           && (rest != "" ==> White(rest[0])) && WordsAre(rest, words[1..])
  }

  ghost predicate ScopesAre(value: Option<string>, scopes: seq<string>) {
    Once(scopes) && (if value == None then scopes == [] else WordsAre(value.value, scopes))
  }

  /** A PEM text given inline or by its location, but not by both. */
  ghost predicate PemIs(values: map<string, string>, inlineKey: string, locationKey: string,
                        validate: string -> Option<string>, read: string -> Option<string>, pem: Option<string>) {
    if inlineKey in values then
      locationKey !in values && pem != None && pem == validate(values[inlineKey])
    else if locationKey in values then
      pem != None && pem == read(values[locationKey])
    else pem == None
  }

  /** The trust of Java's settings: certificates in PEM, or the system's trust. */
  ghost predicate JavaTrustIs(values: map<string, string>, checks: ImportChecks, trust: Option<string>) {
    && PemIs(values, "ssl.truststore.certificates", "ssl.truststore.location", checks.caBundle, checks.readCaBundle,
             trust)
    && ("ssl.truststore.type" in values ==> values["ssl.truststore.type"] == "PEM")
    && (trust != None ==> "ssl.truststore.type" in values)
  }

  /** A certificate and key that belong together, with the password of the key. */
  ghost predicate KeyPair(certificate: string, key: string, password: Option<string>, checks: ImportChecks,
                          identity: Identity) {
    && password != Some("") && identity.password == password
    && checks.identity(certificate, key, password) == Some((identity.certificate, identity.privateKey))
  }

  ghost function PasswordIn(values: map<string, string>): Option<string> {
    if "ssl.key.password" in values then Some(values["ssl.key.password"]) else None
  }

  ghost predicate JavaIdentityIs(values: map<string, string>, checks: ImportChecks, identity: Option<Identity>) {
    && ("ssl.keystore.type" in values ==> values["ssl.keystore.type"] == "PEM")
    && match identity
       case None => "ssl.keystore.certificate.chain" !in values && "ssl.keystore.key" !in values
       case Some(found) =>
         && "ssl.keystore.type" in values && "ssl.keystore.certificate.chain" in values && "ssl.keystore.key" in values
         && KeyPair(values["ssl.keystore.certificate.chain"], values["ssl.keystore.key"], PasswordIn(values), checks, found)
  }

  ghost predicate LibrdkafkaIdentityIs(values: map<string, string>, checks: ImportChecks, identity: Option<Identity>) {
    exists certificate, key :: LibrdkafkaPair(values, checks, certificate, key, identity)
  }

  ghost predicate LibrdkafkaPair(values: map<string, string>, checks: ImportChecks, certificate: Option<string>,
                                 key: Option<string>, identity: Option<Identity>) {
    && PemIs(values, "ssl.certificate.pem", "ssl.certificate.location", checks.certificate, checks.readCertificate,
             certificate)
    && PemIs(values, "ssl.key.pem", "ssl.key.location", AsGiven, checks.readPrivateKey, key)
    && match identity
       case None => certificate == None && key == None
       case Some(found) =>
         certificate != None && key != None && KeyPair(certificate.value, key.value, PasswordIn(values), checks, found)
  }

  function AsGiven(text: string): Option<string> {
    Some(text)
  }

  // Logins

  /** The two halves of a login: a name, and a secret that a client can send. */
  ghost predicate Credentials(values: map<string, string>, nameKey: string, secretKey: string, name: string,
                              secret: string) {
    && nameKey in values && values[nameKey] == name && name != ""
    && secretKey in values && values[secretKey] == secret && Sendable(secret)
  }

  ghost predicate Named(name: string, mechanism: PasswordMechanism) {
    match mechanism
    case Plain => name == "PLAIN"
    case ScramSha256 => name == "SCRAM-SHA-256"
    case ScramSha512 => name == "SCRAM-SHA-512"
  }

  ghost predicate TokenUrlIs(values: map<string, string>, key: string, checks: ImportChecks, url: string) {
    key in values && values[key] == url && url != "" && checks.endpoint(url)
  }

  /** The credentials of an OAuth login: in the JAAS entry or in the properties, but not in both. */
  ghost predicate JavaCredentialsAre(values: map<string, string>, options: map<string, string>, name: string,
                                     secret: string) {
    if "clientId" in options || "clientSecret" in options then
      && "sasl.oauthbearer.client.credentials.client.id" !in values
      && "sasl.oauthbearer.client.credentials.client.secret" !in values
      && Credentials(options, "clientId", "clientSecret", name, secret)
    else
      Credentials(values, "sasl.oauthbearer.client.credentials.client.id",
                  "sasl.oauthbearer.client.credentials.client.secret", name, secret)
  }

  ghost predicate JavaScopesAre(values: map<string, string>, options: map<string, string>, scopes: seq<string>) {
    if "sasl.oauthbearer.scope" in values then
      "scope" !in options && ScopesAre(Some(values["sasl.oauthbearer.scope"]), scopes)
    else if "scope" in options then ScopesAre(Some(options["scope"]), scopes)
    else scopes == []
  }

  ghost predicate HostnamesAreVerified(values: map<string, string>, checks: ImportChecks) {
    "ssl.endpoint.identification.algorithm" in values ==>
      checks.lower(values["ssl.endpoint.identification.algorithm"]) == "https"
  }

  ghost predicate OAuthOption(key: string) {
    || key == "clientId" || key == "clientSecret" || key == "scope" || key == "ssl.endpoint.identification.algorithm"
    || key == "ssl.truststore.type" || key == "ssl.truststore.certificates" || key == "ssl.truststore.location"
  }

  ghost predicate CallbackIs(values: map<string, string>, handler: string) {
    && "sasl.login.callback.handler.class" in values
    && values["sasl.login.callback.handler.class"] == "org.apache.kafka.common.security.oauthbearer." + handler
  }

  /** The OAuth login of Java properties and of the options of their JAAS entry. */
  ghost predicate JavaOAuthIs(values: map<string, string>, options: map<string, string>, checks: ImportChecks,
                              auth: ResolvedAuth)
    requires auth.OAuth?
  {
    && CallbackIs(values, "OAuthBearerLoginCallbackHandler")
    && TokenUrlIs(values, "sasl.oauthbearer.token.endpoint.url", checks, auth.tokenUrl)
    && JavaCredentialsAre(values, options, auth.clientId, auth.clientSecret)
    && JavaScopesAre(values, options, auth.scopes)
    && JavaTrustIs(options, checks, auth.caCertificates) && HostnamesAreVerified(options, checks)
    && forall key :: key in options ==> OAuthOption(key)
  }

  /** The login that a JAAS entry makes under a mechanism. */
  ghost predicate EntryLogsIn(values: map<string, string>, checks: ImportChecks, name: string,
                              options: map<string, string>, auth: ResolvedAuth) {
    match auth
    case Password(mechanism, username, password) =>
      && Named(name, mechanism)
      && Credentials(options, "username", "password", username, password) && Sendable(username)
      && forall key :: key in options ==> key in {"username", "password"}
    case OAuth(_, _, _, _, _) => name == "OAUTHBEARER" && JavaOAuthIs(values, options, checks, auth)
    case _ => false
  }

  ghost predicate ModuleOf(name: string, loginModule: string) {
    || (name == "PLAIN" && loginModule == "org.apache.kafka.common.security." + "plain.PlainLoginModule")
    || (name == "SCRAM-SHA-256" && loginModule == "org.apache.kafka.common.security." + "scram.ScramLoginModule")
    || (name == "SCRAM-SHA-512" && loginModule == "org.apache.kafka.common.security." + "scram.ScramLoginModule")
    || (name == "OAUTHBEARER" &&
        loginModule == "org.apache.kafka.common.security." + "oauthbearer.OAuthBearerLoginModule")
  }

  /** The one entry of a JAAS text, which has to be required. */
  ghost predicate EntryIs(text: string, checks: ImportChecks, entry: JaasEntry) {
    text != "" && JaasEntries(text) == Some([entry]) && checks.lower(entry.controlFlag) == "required"
  }

  ghost predicate JavaLoginIs(values: map<string, string>, checks: ImportChecks, auth: ResolvedAuth) {
    && "sasl.mechanism" in values && "sasl.jaas.config" in values
    && exists entry ::
         && EntryIs(values["sasl.jaas.config"], checks, entry)
         && ModuleOf(values["sasl.mechanism"], entry.loginModule)
         && EntryLogsIn(values, checks, values["sasl.mechanism"], entry.options, auth)
  }

  /** An absent or empty method stands for `default`. */
  ghost predicate MethodIs(values: map<string, string>, checks: ImportChecks, name: string) {
    if "sasl.oauthbearer.method" in values && values["sasl.oauthbearer.method"] != "" then
      checks.lower(values["sasl.oauthbearer.method"]) == name
    else checks.lower("default") == name
  }

  ghost predicate LibrdkafkaOAuthIs(values: map<string, string>, checks: ImportChecks, auth: ResolvedAuth)
    requires auth.OAuth?
  {
    && MethodIs(values, checks, "oidc")
    && TokenUrlIs(values, "sasl.oauthbearer.token.endpoint.url", checks, auth.tokenUrl)
    && Credentials(values, "sasl.oauthbearer.client.id", "sasl.oauthbearer.client.secret", auth.clientId,
                   auth.clientSecret)
    && ScopesAre(Get(values, "sasl.oauthbearer.scope"), auth.scopes)
    && PemIs(values, "https.ca.pem", "https.ca.location", checks.caBundle, checks.readCaBundle, auth.caCertificates)
  }

  ghost predicate LibrdkafkaLoginIs(values: map<string, string>, checks: ImportChecks, auth: ResolvedAuth) {
    && ("sasl.mechanism" in values <==> "sasl.mechanisms" !in values)
    && var name := if "sasl.mechanism" in values then values["sasl.mechanism"] else values["sasl.mechanisms"];
    && match auth
       case Password(mechanism, username, password) =>
         && Named(name, mechanism)
         && Credentials(values, "sasl.username", "sasl.password", username, password) && Sendable(username)
       case OAuth(_, _, _, _, _) => name == "OAUTHBEARER" && LibrdkafkaOAuthIs(values, checks, auth)
       case _ => false
  }

  // Connections

  ghost predicate TrustIs(dialect: Dialect, values: map<string, string>, checks: ImportChecks, trust: Option<string>) {
    if dialect == LibrdkafkaDialect then
      PemIs(values, "ssl.ca.pem", "ssl.ca.location", checks.caBundle, checks.readCaBundle, trust)
    else JavaTrustIs(values, checks, trust)
  }

  ghost predicate IdentityIs(dialect: Dialect, values: map<string, string>, checks: ImportChecks, auth: ResolvedAuth) {
    && (auth.Unauthenticated? || auth.Mtls?)
    && var identity :=
         if auth.Unauthenticated? then None
         else Some(Identity(auth.certificate, auth.privateKey, auth.keyPassword));
    if dialect == LibrdkafkaDialect then LibrdkafkaIdentityIs(values, checks, identity)
    else JavaIdentityIs(values, checks, identity)
  }

  /** The Kafka connection that a file's values describe. */
  ghost predicate ConnectionIs(dialect: Dialect, values: map<string, string>, checks: ImportChecks,
                               connection: ImportedConnection) {
    && ServersAre(values, checks, connection.servers)
    && HostnamesAreVerified(values, checks)
    && ("enable.ssl.certificate.verification" in values ==>
          checks.lower(values["enable.ssl.certificate.verification"]) == "true")
    && match connection.transport
       case None =>
         "security.protocol" !in values && connection.auth == None && connection.caCertificates == None
       case Some(Plaintext) =>
         && "security.protocol" in values && checks.upper(values["security.protocol"]) == "PLAINTEXT"
         && connection.auth == Some(Unauthenticated) && connection.caCertificates == None
       case Some(Tls) =>
         && "security.protocol" in values && connection.auth != None
         && TrustIs(dialect, values, checks, connection.caCertificates)
         && if checks.upper(values["security.protocol"]) == "SSL" then
              IdentityIs(dialect, values, checks, connection.auth.value)
            else
              && checks.upper(values["security.protocol"]) == "SASL_SSL"
              && if dialect == LibrdkafkaDialect then LibrdkafkaLoginIs(values, checks, connection.auth.value)
                 else JavaLoginIs(values, checks, connection.auth.value)
  }

  /** The keys that make up such a connection. */
  ghost predicate Read(dialect: Dialect, connection: ImportedConnection, key: string) {
    || key == "bootstrap.servers" || key == "security.protocol"
    || key == "ssl.endpoint.identification.algorithm" || key == "enable.ssl.certificate.verification"
    || (&& connection.transport == Some(Tls) && connection.auth != None
        && if dialect == LibrdkafkaDialect then LibrdkafkaReads(connection.auth.value, key)
           else JavaReads(connection.auth.value, key))
  }

  ghost predicate JavaReads(auth: ResolvedAuth, key: string) {
    || key == "ssl.truststore.type" || key == "ssl.truststore.certificates" || key == "ssl.truststore.location"
    || match auth
       case Unauthenticated => key == "ssl.keystore.type"
       case Mtls(_, _, _) =>
         key in {"ssl.keystore.type", "ssl.keystore.certificate.chain", "ssl.keystore.key", "ssl.key.password"}
       case Password(_, _, _) => key in {"sasl.mechanism", "sasl.jaas.config"}
       case OAuth(_, _, _, _, _) =>
         key in {"sasl.mechanism", "sasl.jaas.config", "sasl.login.callback.handler.class",
                 "sasl.oauthbearer.token.endpoint.url", "sasl.oauthbearer.scope",
                 "sasl.oauthbearer.client.credentials.client.id", "sasl.oauthbearer.client.credentials.client.secret"}
  }

  ghost predicate LibrdkafkaReads(auth: ResolvedAuth, key: string) {
    || key == "ssl.ca.pem" || key == "ssl.ca.location"
    || match auth
       case Unauthenticated => false
       case Mtls(_, _, _) =>
         key in {"ssl.certificate.pem", "ssl.certificate.location", "ssl.key.pem", "ssl.key.location",
                 "ssl.key.password"}
       case Password(_, _, _) => key in {"sasl.mechanism", "sasl.mechanisms", "sasl.username", "sasl.password"}
       case OAuth(_, _, _, _, _) =>
         key in {"sasl.mechanism", "sasl.mechanisms", "sasl.oauthbearer.method", "sasl.oauthbearer.token.endpoint.url",
                 "sasl.oauthbearer.client.id", "sasl.oauthbearer.client.secret", "sasl.oauthbearer.scope",
                 "https.ca.pem", "https.ca.location"}
  }

  // Values, exactly

  lemma WhiteExactly(c: char)
    ensures White(c) <==> IsSpace(c)
  {
  }

  lemma SendableExactly(text: string)
    ensures Sendable(text) <==> ValidText(text)
  {
    if ValidText(text) {
      forall c | c in text ensures c != '\0' && c != '\r' && c != '\n' {
        var i :| 0 <= i < |text| && text[i] == c;
      }
    }
    assert forall i :: 0 <= i < |text| ==> text[i] in text;
  }

  lemma SurroundedMore(first: string, raw: string, last: string, text: string)
    requires Surrounded(raw, text) && AllWhite(first) && AllWhite(last)
    ensures Surrounded(first + raw + last, text)
  {
    hide White;
    var before, after :| raw == before + text + after && AllWhite(before) && AllWhite(after);
    assert first + raw + last == (first + before) + text + (after + last);
    assert AllWhite(first + before) && AllWhite(after + last);
  }

  lemma {:induction false} StripSurrounds(raw: string)
    ensures Surrounded(raw, Strip(raw))
    decreases |raw|
  {
    hide White, IsSpace, AllWhite, Surrounded;
    WhiteEnds(raw);
    NoneIsWhite();
    if raw != "" && IsSpace(raw[0]) {
      StripSurrounds(raw[1..]);
      SurroundedMore([raw[0]], raw[1..], "", Strip(raw));
      assert raw == [raw[0]] + raw[1..] + "";
    } else if raw != "" && IsSpace(raw[|raw| - 1]) {
      StripSurrounds(raw[..|raw| - 1]);
      SurroundedMore("", raw[..|raw| - 1], [raw[|raw| - 1]], Strip(raw));
      assert raw == "" + raw[..|raw| - 1] + [raw[|raw| - 1]];
    } else {
      NothingAround(raw);
    }
  }

  lemma NoneIsWhite()
    ensures AllWhite("") && forall c :: White(c) ==> AllWhite([c])
  {
    hide White;
  }

  lemma NothingAround(raw: string)
    requires raw != "" ==> !White(raw[0]) && !White(raw[|raw| - 1])
    ensures Surrounded(raw, raw)
  {
    hide White;
    assert raw == "" + raw + "" && AllWhite("");
  }

  lemma WhiteEnds(raw: string)
    ensures raw != "" ==> (White(raw[0]) <==> IsSpace(raw[0]))
    ensures raw != "" ==> (White(raw[|raw| - 1]) <==> IsSpace(raw[|raw| - 1]))
  {
    if raw != "" {
      WhiteExactly(raw[0]);
      WhiteExactly(raw[|raw| - 1]);
    }
  }

  lemma {:induction false} StripsTo(before: string, text: string, after: string)
    requires AllWhite(before) && AllWhite(after)
    requires text != "" ==> !White(text[0]) && !White(text[|text| - 1])
    ensures Strip(before + text + after) == text
    decreases |before| + |after|
  {
    hide White;
    var raw := before + text + after;
    WhiteEnds(raw);
    if before != "" {
      assert raw[1..] == before[1..] + text + after;
      assert raw[0] in before;
      StripsTo(before[1..], text, after);
    } else if after != "" {
      if text == "" {
        assert raw[1..] == before + text + after[1..];
        assert raw[0] in after;
        StripsTo(before, text, after[1..]);
      } else {
        assert raw[..|raw| - 1] == before + text + after[..|after| - 1];
        assert raw[|raw| - 1] in after && raw[0] == text[0];
        StripsTo(before, text, after[..|after| - 1]);
      }
    } else {
      assert raw == text;
    }
  }

  lemma SurroundedExactly(raw: string, text: string)
    ensures Surrounded(raw, text) <==> Strip(raw) == text
  {
    hide White, Strip;
    StripSurrounds(raw);
    if Surrounded(raw, text) {
      var before, after :| raw == before + text + after && AllWhite(before) && AllWhite(after);
      StripsTo(before, text, after);
    }
  }

  lemma {:induction false} ListedExactly(text: string, items: seq<string>)
    ensures Listed(text, items) <==> SplitOn(text, ',') == items
    decreases |text|
  {
    var at := FirstOf(text, ',');
    var parts := SplitOn(text, ',');
    if at == |text| {
      assert ',' !in text;
    } else {
      assert parts == [text[..at]] + SplitOn(text[at + 1..], ',') && parts[1..] == SplitOn(text[at + 1..], ',');
      assert text == text[..at] + "," + text[at + 1..];
      ListedExactly(text[at + 1..], if items == [] then [] else items[1..]);
      if Listed(text, items) {
        assert |items| > 1;
        var rest :| text == items[0] + "," + rest && Listed(rest, items[1..]);
        FirstComma(items[0], rest, at);
        assert items[0] == text[..at] && rest == text[at + 1..];
        assert Listed(text[at + 1..], items[1..]);
        assert items == [items[0]] + items[1..];
      }
    }
  }

  lemma FirstComma(item: string, rest: string, at: nat)
    requires ',' !in item
    ensures FirstOf(item + "," + rest, ',') == |item|
  {
    var text := item + "," + rest;
    assert text[|item|] == ',' && forall i :: 0 <= i < |item| ==> text[i] == item[i];
  }

  lemma ServersExactly(values: map<string, string>, checks: ImportChecks)
    ensures forall servers :: ServersAre(values, checks, servers) <==> ServersAt(values, checks) == Some(servers)
  {
    hide Listed, Surrounded, Strip, SplitOn, Once, Distinct;
    forall servers ensures ServersAre(values, checks, servers) <==> ServersAt(values, checks) == Some(servers) {
      if "bootstrap.servers" in values && servers.Some? {
        OnceExactly(servers.value);
        ServersListedExactly(values["bootstrap.servers"], checks, servers.value);
      }
    }
  }

  lemma ServersListedExactly(text: string, checks: ImportChecks, servers: seq<string>)
    ensures (exists raw :: ServersListed(text, raw, checks, servers)) <==>
            && servers == Strips(SplitOn(text, ','))
            && forall i :: 0 <= i < |servers| ==> checks.brokerAddress(servers[i])
  {
    hide Listed, Surrounded, Strip, SplitOn;
    var parts := SplitOn(text, ',');
    if raw :| ServersListed(text, raw, checks, servers) {
      ListedExactly(text, raw);
      forall i | 0 <= i < |servers| ensures servers[i] == Strips(parts)[i] {
        SurroundedExactly(raw[i], servers[i]);
      }
    }
    if servers == Strips(parts) && forall i :: 0 <= i < |servers| ==> checks.brokerAddress(servers[i]) {
      ListedExactly(text, parts);
      forall i | 0 <= i < |servers| ensures Surrounded(parts[i], servers[i]) {
        SurroundedExactly(parts[i], servers[i]);
      }
      assert ServersListed(text, parts, checks, servers);
    }
  }

  lemma {:induction false} WordsExactly(text: string, words: seq<string>)
    ensures WordsAre(text, words) <==> SplitWords(text) == words
    decreases |text|
  {
    hide White, IsSpace, AllWhite;
    NoneIsWhite();
    if text == "" {
      return;
    }
    WhiteExactly(text[0]);
    if IsSpace(text[0]) {
      WordsExactly(text[1..], words);
      WordsBehindSpace(text, words);
    } else {
      var end := WordEnd(text);
      if words != [] {
        WordsExactly(text[end..], words[1..]);
        WordsBehindWord(text, end, words);
        assert words == [words[0]] + words[1..];
      } else {
        assert text[0] in text;
        assert !AllWhite(text) by { OneIsNot(text); }
      }
    }
  }

  lemma OneIsNot(text: string)
    requires text != "" && !White(text[0])
    ensures !AllWhite(text)
  {
    assert text[0] in text;
  }

  lemma WordsBehindSpace(text: string, words: seq<string>)
    requires text != "" && White(text[0])
    ensures WordsAre(text, words) <==> WordsAre(text[1..], words)
  {
    hide White, WordsAre;
    if words == [] {
      assert WordsAre(text, []) <==> AllWhite(text) by { NoWords(text); }
      NoWords(text[1..]);
      assert text == [text[0]] + text[1..];
      assert AllWhite(text[1..]) ==> AllWhite([text[0]] + text[1..]);
    } else {
      if before, rest :| WordFirst(text, words, before, rest) {
        assert before != "";
        assert text[1..] == before[1..] + words[0] + rest;
        assert WordFirst(text[1..], words, before[1..], rest);
      }
      if before, rest :| WordFirst(text[1..], words, before, rest) {
        assert text == ([text[0]] + before) + words[0] + rest;
        assert WordFirst(text, words, [text[0]] + before, rest);
      }
      SomeWord(text, words);
      SomeWord(text[1..], words);
    }
  }

  ghost predicate WordFirst(text: string, words: seq<string>, before: string, rest: string)
    requires words != []
  {
    && words[0] != "" && (forall c :: c in words[0] ==> !White(c))
    && text == before + words[0] + rest && AllWhite(before)
    && (rest != "" ==> White(rest[0])) && WordsAre(rest, words[1..])
  }

  lemma NoWords(text: string)
    ensures WordsAre(text, []) <==> AllWhite(text)
  {
  }

  lemma SomeWord(text: string, words: seq<string>)
    requires words != []
    ensures WordsAre(text, words) <==> exists before, rest :: WordFirst(text, words, before, rest)
  {
    hide White, AllWhite;
    if WordsAre(text, words) {
      var before, rest :|
        && text == before + words[0] + rest && AllWhite(before)
        && (rest != "" ==> White(rest[0])) && WordsAre(rest, words[1..]);
      assert WordFirst(text, words, before, rest);
    }
  }

  lemma WordsBehindWord(text: string, end: nat, words: seq<string>)
    requires words != [] && text != "" && !White(text[0]) && end == WordEnd(text)
    ensures WordsAre(text, words) <==> words[0] == text[..end] && WordsAre(text[end..], words[1..])
  {
    hide White, WordsAre, IsSpace;
    SomeWord(text, words);
    forall i | 0 <= i < |text| ensures White(text[i]) <==> IsSpace(text[i]) {
      WhiteExactly(text[i]);
    }
    if before, rest :| WordFirst(text, words, before, rest) {
      assert before == "";
      assert words[0][0] in words[0];
      forall i | 0 <= i < |words[0]| ensures !White(text[i]) {
        assert text[i] == words[0][i] && words[0][i] in words[0];
      }
      assert rest != "" ==> text[|words[0]|] == rest[0];
      assert |words[0]| == end;
      assert words[0] == text[..end] && rest == text[end..];
    }
    if words[0] == text[..end] && WordsAre(text[end..], words[1..]) {
      assert text == "" + words[0] + text[end..];
      assert WordFirst(text, words, "", text[end..]);
    }
  }

  lemma ScopesExactly(value: Option<string>)
    ensures forall scopes :: ScopesAre(value, scopes) <==> SplitScopes(value) == Some(scopes)
  {
    hide WordsAre, SplitWords, Once, Distinct;
    forall scopes ensures Once(scopes) <==> Distinct(scopes) {
      OnceExactly(scopes);
    }
    if value.Some? {
      forall scopes ensures WordsAre(value.value, scopes) <==> SplitWords(value.value) == scopes {
        WordsExactly(value.value, scopes);
      }
    }
  }

  lemma PemExactly(values: map<string, string>, inlineKey: string, locationKey: string,
                   validate: string -> Option<string>, read: string -> Option<string>)
    ensures forall pem :: PemIs(values, inlineKey, locationKey, validate, read, pem) <==>
                          PemAt(values, inlineKey, locationKey, validate, read) == Some(pem)
  {
  }

  lemma JavaTrustExactly(values: map<string, string>, checks: ImportChecks)
    ensures forall trust :: JavaTrustIs(values, checks, trust) <==> JavaTrust(values, checks) == Some(trust)
  {
    PemExactly(values, "ssl.truststore.certificates", "ssl.truststore.location", checks.caBundle, checks.readCaBundle);
  }

  lemma JavaIdentityExactly(values: map<string, string>, checks: ImportChecks)
    ensures forall identity :: JavaIdentityIs(values, checks, identity) <==> JavaIdentity(values, checks) == Some(identity)
  {
  }

  lemma LibrdkafkaIdentityExactly(values: map<string, string>, checks: ImportChecks)
    ensures forall identity :: LibrdkafkaIdentityIs(values, checks, identity) <==>
                               LibrdkafkaIdentity(values, checks) == Some(identity)
  {
    PemExactly(values, "ssl.certificate.pem", "ssl.certificate.location", checks.certificate, checks.readCertificate);
    PemExactly(values, "ssl.key.pem", "ssl.key.location", Inline, checks.readPrivateKey);
    forall identity | LibrdkafkaIdentity(values, checks) == Some(identity)
      ensures LibrdkafkaIdentityIs(values, checks, identity)
    {
      var certificate, key := LibrdkafkaCertificate(values, checks).value, LibrdkafkaKey(values, checks).value;
      assert LibrdkafkaPair(values, checks, certificate, key, identity);
    }
    forall identity | LibrdkafkaIdentityIs(values, checks, identity)
      ensures LibrdkafkaIdentity(values, checks) == Some(identity)
    {
      var certificate, key :| LibrdkafkaPair(values, checks, certificate, key, identity);
    }
  }

  // Logins, exactly

  lemma CredentialsExactly(values: map<string, string>, nameKey: string, secretKey: string)
    ensures forall name, secret :: Credentials(values, nameKey, secretKey, name, secret) <==>
                                   Required(values, nameKey) == Some(name) && SecretAt(values, secretKey) == Some(secret)
  {
    hide Sendable, ValidText;
    if secretKey in values {
      SendableExactly(values[secretKey]);
    }
  }

  lemma TokenUrlExactly(values: map<string, string>, key: string, checks: ImportChecks)
    ensures forall url :: TokenUrlIs(values, key, checks, url) <==> UrlAt(values, key, checks) == Some(url)
  {
  }

  lemma NamedExactly(name: string)
    ensures forall mechanism :: Named(name, mechanism) <==> KnownMechanism(name) == Some(mechanism)
    ensures KnownMechanism(name).Some? ==> name != "OAUTHBEARER" && name != "" && name != "GSSAPI"
  {
  }

  lemma JavaCredentialsExactly(values: map<string, string>, options: map<string, string>)
    ensures forall name, secret :: JavaCredentialsAre(values, options, name, secret) <==>
                                   JavaCredentials(values, options) == Some((name, secret))
  {
    hide Credentials, Required, SecretAt;
    CredentialsExactly(options, "clientId", "clientSecret");
    CredentialsExactly(values, CLIENT_ID, CLIENT_SECRET);
  }

  lemma JavaScopesExactly(values: map<string, string>, options: map<string, string>)
    ensures forall scopes :: JavaScopesAre(values, options, scopes) <==> OneScope(values, options) == Some(scopes)
  {
    hide ScopesAre, SplitScopes;
    if SCOPE in values {
      ScopesExactly(Some(values[SCOPE]));
    }
    if "scope" in options {
      ScopesExactly(Some(options["scope"]));
    }
    NoScopes();
  }

  lemma NoScopes()
    ensures SplitScopes(None) == Some([])
  {
  }

  lemma OAuthOptionsExactly(options: map<string, string>)
    ensures (forall key :: key in options ==> OAuthOption(key)) <==> options.Keys <= OAuthOptionKeys(options)
  {
  }

  lemma CallbackExactly(values: map<string, string>)
    ensures CallbackIs(values, "OAuthBearerLoginCallbackHandler") <==> Get(values, HANDLER) == Some(OAUTH_HANDLER)
  {
    assert OAUTH_HANDLER == "org.apache.kafka.common.security.oauthbearer." + "OAuthBearerLoginCallbackHandler";
  }

  lemma JavaOAuthExactly(values: map<string, string>, options: map<string, string>, checks: ImportChecks)
    ensures forall auth: ResolvedAuth :: (auth.OAuth? && JavaOAuthIs(values, options, checks, auth)) <==>
                                         JavaOAuth(values, options, checks) == Some(auth)
  {
    hide CallbackIs, TokenUrlIs, JavaCredentialsAre, JavaScopesAre, JavaTrustIs, OAuthOption, UrlAt, JavaCredentials,
      OneScope, JavaTrust, OAuthOptionKeys, HANDLER, TOKEN_URL, OAUTH_HANDLER;
    CallbackExactly(values);
    assert TOKEN_URL == "sasl.oauthbearer.token.endpoint.url" by { TokenUrlKey(); }
    TokenUrlExactly(values, TOKEN_URL, checks);
    JavaCredentialsExactly(values, options);
    JavaScopesExactly(values, options);
    JavaTrustExactly(options, checks);
    OAuthOptionsExactly(options);
    HostnamesExactly(options, checks);
  }

  lemma TokenUrlKey()
    ensures TOKEN_URL == "sasl.oauthbearer.token.endpoint.url"
  {
  }

  lemma HostnamesExactly(values: map<string, string>, checks: ImportChecks)
    ensures HostnamesAreVerified(values, checks) <==> HostnamesVerified(values, checks)
  {
  }

  /** The options of a file's only JAAS entry, if it is required and belongs to a login module. */
  lemma OnlyEntry(values: map<string, string>, loginModule: string, checks: ImportChecks)
    ensures match JaasOptions(values, loginModule, checks)
            case Some(options) =>
              "sasl.jaas.config" in values &&
              exists entry :: EntryIs(values["sasl.jaas.config"], checks, entry) &&
                              entry.loginModule == loginModule && entry.options == options
            case None =>
              "sasl.jaas.config" in values ==>
                forall entry :: EntryIs(values["sasl.jaas.config"], checks, entry) ==> entry.loginModule != loginModule
  {
    hide JaasEntries;
    var text := Required(values, "sasl.jaas.config");
    if text.Some? && JaasEntries(text.value).Some? && |JaasEntries(text.value).value| == 1 {
      var entries := JaasEntries(text.value).value;
      assert entries == [entries[0]];
      assert JaasOptions(values, loginModule, checks).Some? ==> EntryIs(text.value, checks, entries[0]);
    }
  }

  lemma ModulesExactly(name: string)
    ensures forall loginModule :: ModuleOf(name, loginModule) <==> MechanismModule(name) == Some(loginModule)
    ensures MechanismModule(name).Some? ==> name != "GSSAPI" && name != ""
    ensures MechanismModule(name).Some? && name != "OAUTHBEARER" ==> KnownMechanism(name).Some?
  {
    assert OAUTH_MODULE == "org.apache.kafka.common.security." + "oauthbearer.OAuthBearerLoginModule";
  }

  lemma EntryLogsInExactly(values: map<string, string>, checks: ImportChecks, name: string,
                           options: map<string, string>)
    requires MechanismModule(name).Some?
    ensures forall auth :: EntryLogsIn(values, checks, name, options, auth) <==>
              (if name == "OAUTHBEARER" then JavaOAuth(values, options, checks)
               else if KnownMechanism(name).Some? then JavaPassword(KnownMechanism(name).value, options)
               else None) == Some(auth)
  {
    hide Credentials, Required, SecretAt, JavaOAuthIs, JavaOAuth, Sendable, ValidText, Named, KnownMechanism;
    NamedExactly(name);
    CredentialsExactly(options, "username", "password");
    JavaOAuthExactly(values, options, checks);
    if "username" in options {
      SendableExactly(options["username"]);
    }
    RequiredIs(options, "username");
    assert (forall key :: key in options ==> key in {"username", "password"}) <==>
           options.Keys <= {"username", "password"};
  }

  lemma RequiredIs(values: map<string, string>, key: string)
    ensures Required(values, key).Some? ==> key in values && Required(values, key).value == values[key]
  {
  }

  lemma OneEntry(text: string, checks: ImportChecks)
    ensures forall entry, other :: EntryIs(text, checks, entry) && EntryIs(text, checks, other) ==> entry == other
  {
    hide JaasEntries;
    forall entry, other | EntryIs(text, checks, entry) && EntryIs(text, checks, other) ensures entry == other {
      assert [entry][0] == [other][0];
    }
  }

  lemma JavaLoginExactly(values: map<string, string>, checks: ImportChecks)
    ensures forall auth :: JavaLoginIs(values, checks, auth) <==> JavaSasl(values, checks) == Some(auth)
  {
    hide EntryLogsIn, EntryIs, ModuleOf, MechanismModule, JaasOptions, JavaOAuth, JavaPassword, KnownMechanism;
    var name := OrElse(Get(values, "sasl.mechanism"), "GSSAPI");
    ModulesExactly(name);
    if "sasl.mechanism" in values {
      ModulesExactly(values["sasl.mechanism"]);
    }
    if MechanismModule(name).Some? {
      OnlyEntry(values, MechanismModule(name).value, checks);
      var options := JaasOptions(values, MechanismModule(name).value, checks);
      if options.Some? {
        EntryLogsInExactly(values, checks, name, options.value);
        forall auth | JavaLoginIs(values, checks, auth) ensures EntryLogsIn(values, checks, name, options.value, auth) {
          OneEntry(values["sasl.jaas.config"], checks);
        }
        forall auth | EntryLogsIn(values, checks, name, options.value, auth) ensures JavaLoginIs(values, checks, auth) {
        }
      }
    }
  }

  lemma LibrdkafkaOAuthExactly(values: map<string, string>, checks: ImportChecks)
    ensures forall auth: ResolvedAuth :: (auth.OAuth? && LibrdkafkaOAuthIs(values, checks, auth)) <==>
                                         LibrdkafkaOAuth(values, checks) == Some(auth)
  {
    hide TokenUrlIs, Credentials, ScopesAre, PemIs, UrlAt, Required, SecretAt, SplitScopes, PemAt, TOKEN_URL, SCOPE;
    assert TOKEN_URL == "sasl.oauthbearer.token.endpoint.url" by { TokenUrlKey(); }
    assert SCOPE == "sasl.oauthbearer.scope" by { ScopeKey(); }
    TokenUrlExactly(values, TOKEN_URL, checks);
    CredentialsExactly(values, "sasl.oauthbearer.client.id", "sasl.oauthbearer.client.secret");
    ScopesExactly(Get(values, SCOPE));
    PemExactly(values, "https.ca.pem", "https.ca.location", checks.caBundle, checks.readCaBundle);
  }

  lemma ScopeKey()
    ensures SCOPE == "sasl.oauthbearer.scope"
  {
  }

  lemma LibrdkafkaLoginExactly(values: map<string, string>, checks: ImportChecks)
    ensures forall auth :: LibrdkafkaLoginIs(values, checks, auth) <==> LibrdkafkaSasl(values, checks) == Some(auth)
  {
    hide LibrdkafkaOAuthIs, Credentials, Required, SecretAt, Sendable, ValidText, Named, KnownMechanism, LibrdkafkaOAuth;
    var name := LibrdkafkaMechanism(values);
    NamedExactly(name);
    if "sasl.mechanism" in values {
      NamedExactly(values["sasl.mechanism"]);
    } else if "sasl.mechanisms" in values {
      NamedExactly(values["sasl.mechanisms"]);
    }
    NamedExactly("GSSAPI");
    LibrdkafkaOAuthExactly(values, checks);
    CredentialsExactly(values, "sasl.username", "sasl.password");
    if "sasl.username" in values {
      SendableExactly(values["sasl.username"]);
    }
    RequiredIs(values, "sasl.username");
  }

  // Connections, exactly

  lemma TrustExactly(dialect: Dialect, values: map<string, string>, checks: ImportChecks)
    ensures forall trust :: TrustIs(dialect, values, checks, trust) <==> TrustAt(dialect, values, checks) == Some(trust)
  {
    hide PemIs, PemAt, JavaTrustIs, JavaTrust;
    JavaTrustExactly(values, checks);
    PemExactly(values, "ssl.ca.pem", "ssl.ca.location", checks.caBundle, checks.readCaBundle);
  }

  lemma IdentityExactly(dialect: Dialect, values: map<string, string>, checks: ImportChecks)
    ensures forall auth :: IdentityIs(dialect, values, checks, auth) <==> AuthAt(dialect, "SSL", values, checks) == Some(auth)
  {
    hide LibrdkafkaIdentityIs, LibrdkafkaIdentity, JavaIdentityIs, JavaIdentity;
    LibrdkafkaIdentityExactly(values, checks);
    JavaIdentityExactly(values, checks);
    var found := if dialect.LibrdkafkaDialect? then LibrdkafkaIdentity(values, checks) else JavaIdentity(values, checks);
    forall auth | IdentityIs(dialect, values, checks, auth) ensures IdentityAuth(found) == Some(auth) {
    }
    forall auth | IdentityAuth(found) == Some(auth) ensures IdentityIs(dialect, values, checks, auth) {
      if found.value.Some? {
        var Identity(certificate, key, password) := found.value.value;
        assert auth == ResolvedAuth.Mtls(certificate, key, password);
      }
    }
  }

  lemma LoginExactly(dialect: Dialect, values: map<string, string>, checks: ImportChecks)
    ensures forall auth :: (if dialect == LibrdkafkaDialect then LibrdkafkaLoginIs(values, checks, auth)
                            else JavaLoginIs(values, checks, auth)) <==>
                           AuthAt(dialect, "SASL_SSL", values, checks) == Some(auth)
  {
    hide LibrdkafkaLoginIs, LibrdkafkaSasl, JavaLoginIs, JavaSasl;
    LibrdkafkaLoginExactly(values, checks);
    JavaLoginExactly(values, checks);
  }

  lemma LibrdkafkaLoginReads(values: map<string, string>, checks: ImportChecks, auth: ResolvedAuth)
    requires LibrdkafkaSasl(values, checks) == Some(auth)
    ensures forall key :: key in values ==>
              (key in {"ssl.ca.pem", "ssl.ca.location"} + LibrdkafkaSaslKeys(values) <==> LibrdkafkaReads(auth, key))
  {
    hide PemAt, UrlAt, Required, SecretAt, SplitScopes, KnownMechanism, ValidText;
    NamedExactly(LibrdkafkaMechanism(values));
  }

  lemma LibrdkafkaIdentityReads(values: map<string, string>, checks: ImportChecks, auth: ResolvedAuth)
    requires IdentityAuth(LibrdkafkaIdentity(values, checks)) == Some(auth)
    ensures forall key :: key in values ==>
              (key in {"ssl.ca.pem", "ssl.ca.location"} + LibrdkafkaIdentityKeys(values) <==> LibrdkafkaReads(auth, key))
  {
    assert auth.Unauthenticated? || auth.Mtls?;
    assert auth.Unauthenticated? <==> !HasLibrdkafkaIdentity(values);
  }

  lemma JavaLoginKeys(values: map<string, string>, checks: ImportChecks, auth: ResolvedAuth)
    requires JavaSasl(values, checks) == Some(auth)
    ensures forall key :: key in values ==>
              (key in TRUST_KEYS + JavaSaslKeys(values, checks) <==> JavaReads(auth, key))
  {
    hide JaasOptions, JavaTrust, SplitScopes, OAuthOptionKeys, ValidText, OneScope, UrlAt, Required, SecretAt,
      HostnamesVerified, KnownMechanism, MechanismModule;
    ModulesExactly(OrElse(Get(values, "sasl.mechanism"), "GSSAPI"));
  }

  lemma JavaIdentityReads(values: map<string, string>, checks: ImportChecks, auth: ResolvedAuth)
    requires IdentityAuth(JavaIdentity(values, checks)) == Some(auth)
    ensures forall key :: key in values ==>
              (key in TRUST_KEYS + JavaIdentityKeys(values) <==> JavaReads(auth, key))
  {
  }

  ghost predicate AuthReads(dialect: Dialect, auth: ResolvedAuth, key: string) {
    if dialect == LibrdkafkaDialect then LibrdkafkaReads(auth, key) else JavaReads(auth, key)
  }

  lemma AuthReadsExactly(dialect: Dialect, protocol: string, values: map<string, string>, checks: ImportChecks,
                         auth: ResolvedAuth)
    requires protocol == "SSL" || protocol == "SASL_SSL"
    requires AuthAt(dialect, protocol, values, checks) == Some(auth)
    ensures forall key :: key in values ==>
              (key in TrustKeys(dialect) + AuthKeys(dialect, protocol, values, checks) <==>
               AuthReads(dialect, auth, key))
  {
    hide LibrdkafkaReads, JavaReads, LibrdkafkaIdentity, JavaIdentity, LibrdkafkaSasl, JavaSasl, LibrdkafkaIdentityKeys,
      JavaIdentityKeys, LibrdkafkaSaslKeys, JavaSaslKeys, TRUST_KEYS;
    if protocol == "SSL" {
      if dialect == LibrdkafkaDialect {
        LibrdkafkaIdentityReads(values, checks, auth);
      } else {
        JavaIdentityReads(values, checks, auth);
      }
    } else {
      if dialect == LibrdkafkaDialect {
        LibrdkafkaLoginReads(values, checks, auth);
      } else {
        JavaLoginKeys(values, checks, auth);
      }
    }
  }

  lemma BaseReads(key: string)
    ensures key in BASE_KEYS <==>
            || key == "bootstrap.servers" || key == "security.protocol"
            || key == "ssl.endpoint.identification.algorithm" || key == "enable.ssl.certificate.verification"
  {
  }

  lemma VerifiedExactly(values: map<string, string>, checks: ImportChecks)
    ensures CertificatesVerified(values, checks) <==>
            ("enable.ssl.certificate.verification" in values ==>
               checks.lower(values["enable.ssl.certificate.verification"]) == "true")
  {
  }

  /** All keys of the values make up the connection. */
  ghost predicate AllRead(dialect: Dialect, connection: ImportedConnection, values: map<string, string>) {
    forall key :: key in values ==> Read(dialect, connection, key)
  }

  lemma AllReadExactly(dialect: Dialect, values: map<string, string>, connection: ImportedConnection, keys: set<string>)
    requires if connection.transport == Some(Tls) && connection.auth.Some? then
               forall key :: key in values ==> (key in keys <==> AuthReads(dialect, connection.auth.value, key))
             else keys == {}
    ensures AllRead(dialect, connection, values) <==> values.Keys <= BASE_KEYS + keys
  {
    hide JavaReads, LibrdkafkaReads, BASE_KEYS;
    forall key ensures key in BASE_KEYS <==>
      || key == "bootstrap.servers" || key == "security.protocol"
      || key == "ssl.endpoint.identification.algorithm" || key == "enable.ssl.certificate.verification"
    {
      BaseReads(key);
    }
  }

  /** A connection is accepted exactly when the values describe it, and all of them do. */
  lemma ConnectionExactly(dialect: Dialect, values: map<string, string>, checks: ImportChecks,
                          connection: ImportedConnection)
    requires connection.registry == None && connection.ignored == {}
    ensures ConnectionAt(dialect, values, checks) == Some(connection) <==>
            ConnectionIs(dialect, values, checks, connection) && AllRead(dialect, connection, values)
  {
    hide ServersAre, ServersAt, HostnamesVerified, HostnamesAreVerified, CertificatesVerified, AuthAt, TrustAt, AuthKeys,
      TrustKeys, BASE_KEYS, TrustIs, IdentityIs, JavaLoginIs, LibrdkafkaLoginIs, AllRead, AuthReads;
    ServersExactly(values, checks);
    HostnamesExactly(values, checks);
    VerifiedExactly(values, checks);
    TrustExactly(dialect, values, checks);
    IdentityExactly(dialect, values, checks);
    LoginExactly(dialect, values, checks);
    var protocol := if "security.protocol" in values then checks.upper(values["security.protocol"]) else "";
    if connection.transport == Some(Tls) && connection.auth.Some? && (protocol == "SSL" || protocol == "SASL_SSL") &&
       AuthAt(dialect, protocol, values, checks) == connection.auth {
      AuthReadsExactly(dialect, protocol, values, checks, connection.auth.value);
      AllReadExactly(dialect, values, connection, TrustKeys(dialect) + AuthKeys(dialect, protocol, values, checks));
    } else if connection.transport != Some(Tls) {
      AllReadExactly(dialect, values, connection, {});
    }
  }
}
