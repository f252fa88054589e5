/** Importing a connection from client properties (`client_properties.py`). */
module ClientProperties {
  import opened Wrappers
  import opened Documents
  import opened PropertiesSyntax
  import opened JavaRendering
  import opened Librdkafka
  import opened Jaas
  import opened JaasRendering
  import opened PropertyMapping
  import opened KafkaProperties
  import opened RegistryProperties

  datatype Dialect = JavaDialect | LibrdkafkaDialect | SharedDialect

  datatype ImportedConnection = ImportedConnection(
    servers: Option<seq<string>>, transport: Option<Transport>, caCertificates: Option<string>,
    auth: Option<ResolvedAuth>, registry: Option<ImportedRegistry>, ignored: set<string>)

  const SHARED_KEYS := {
    "bootstrap.servers", "security.protocol", "sasl.mechanism", "sasl.oauthbearer.token.endpoint.url",
    "sasl.oauthbearer.scope", "ssl.endpoint.identification.algorithm", "ssl.key.password"
  }
  const JAVA_ONLY_KEYS := {
    "sasl.jaas.config", "sasl.login.callback.handler.class", "sasl.oauthbearer.client.credentials.client.id",
    "sasl.oauthbearer.client.credentials.client.secret", "ssl.truststore.type", "ssl.truststore.location",
    "ssl.truststore.certificates", "ssl.keystore.type", "ssl.keystore.certificate.chain", "ssl.keystore.key"
  }
  const LIBRDKAFKA_ONLY_KEYS := {
    "sasl.mechanisms", "sasl.username", "sasl.password", "sasl.oauthbearer.method", "sasl.oauthbearer.client.id",
    "sasl.oauthbearer.client.secret", "ssl.ca.pem", "ssl.ca.location", "ssl.certificate.pem",
    "ssl.certificate.location", "ssl.key.pem", "ssl.key.location", "enable.ssl.certificate.verification",
    "https.ca.pem", "https.ca.location"
  }
  const JAVA_MARKERS := [
    "sasl.jaas.config", "sasl.login.callback.handler.class", "ssl.truststore.", "ssl.keystore.",
    "sasl.oauthbearer.client.credentials.", "apicurio.registry.", "schema.registry.ssl."
  ]
  const LIBRDKAFKA_MARKERS := [
    "sasl.username", "sasl.password", "sasl.mechanisms", "ssl.ca.", "ssl.certificate.", "ssl.key.pem",
    "ssl.key.location", "enable.ssl.certificate.verification", "sasl.oauthbearer.method",
    "sasl.oauthbearer.client.id", "sasl.oauthbearer.client.secret", "https.ca."
  ]
  const SECURITY_PREFIXES := ["sasl.", "ssl.", "security.", "https.", "enable.ssl.", "enable.sasl."]

  // Dialect inference

  predicate MatchesMarker(key: string, marker: string) {
    key == marker || (marker != "" && marker[|marker| - 1] == '.' && StartsWith(key, marker))
  }

  /** `_matches`. */
  predicate Matches(key: string, markers: seq<string>) {
    exists i :: 0 <= i < |markers| && MatchesMarker(key, markers[i])
  }

  predicate HasMarker(properties: Option<map<string, string>>, markers: seq<string>) {
    properties.Some? && exists key :: key in properties.value && Matches(key, markers)
  }

  /** `_dialect_properties`, for what each dialect's reader made of the text. */
  function InferDialect(java: Option<map<string, string>>, librdkafka: Option<map<string, string>>):
    Option<(Dialect, map<string, string>)>
  {
    if HasMarker(java, JAVA_MARKERS) && HasMarker(java, LIBRDKAFKA_MARKERS) then None
    else if HasMarker(librdkafka, JAVA_MARKERS) && HasMarker(librdkafka, LIBRDKAFKA_MARKERS) then None
    else if HasMarker(java, JAVA_MARKERS) && HasMarker(librdkafka, LIBRDKAFKA_MARKERS) then None
    else if HasMarker(java, JAVA_MARKERS) then Some((JavaDialect, java.value))
    else if HasMarker(librdkafka, LIBRDKAFKA_MARKERS) then Some((LibrdkafkaDialect, librdkafka.value))
    else if java.Some? && java == librdkafka then Some((SharedDialect, java.value))
    else None
  }

  // Key classification

  function KnownKeys(dialect: Dialect): set<string> {
    match dialect
    case JavaDialect => SHARED_KEYS + JAVA_ONLY_KEYS
    case LibrdkafkaDialect => SHARED_KEYS + LIBRDKAFKA_ONLY_KEYS
    case SharedDialect => SHARED_KEYS
  }

  /** `_reject_security_key`. */
  predicate IsSecurityKey(key: string) {
    exists i :: 0 <= i < |SECURITY_PREFIXES| && StartsWith(key, SECURITY_PREFIXES[i])
  }

  predicate Twice(value: string, at: nat, c: char) {
    at + 1 < |value| && value[at] == c && value[at + 1] == c
  }

  /** The pattern `{{ ... }}` anywhere in a value. */
  predicate HasPlaceholder(value: string) {
    exists i, j :: 0 <= i && i + 2 <= j <= |value| - 2 && Twice(value, i, '{') && Twice(value, j, '}')
  }

  // Values

  function SplitOn(text: string, separator: char): (parts: seq<string>)
    ensures |parts| >= 1
  {
    var at := FirstOf(text, separator);
    if at == |text| then [text] else [text[..at]] + SplitOn(text[at + 1..], separator)
  }

  function FirstOf(text: string, c: char): (at: nat)
    ensures at <= |text|
    ensures forall i :: 0 <= i < at ==> text[i] != c
    ensures at < |text| ==> text[at] == c
  {
    if text == "" || text[0] == c then 0 else 1 + FirstOf(text[1..], c)
  }

  /** `text.strip()`. */
  function Strip(text: string): string {
    if text != "" && IsSpace(text[0]) then Strip(text[1..])
    else if text != "" && IsSpace(text[|text| - 1]) then Strip(text[..|text| - 1])
    else text
  }

  function Strips(parts: seq<string>): seq<string> {
    seq(|parts|, i requires 0 <= i < |parts| => Strip(parts[i]))
  }

  /** `_bootstrap_servers`. */
  function ServersAt(values: map<string, string>, checks: ImportChecks): Option<Option<seq<string>>> {
    if "bootstrap.servers" !in values then Some(None)
    else
      var servers := Strips(SplitOn(values["bootstrap.servers"], ','));
      if Distinct(servers) && forall i :: 0 <= i < |servers| ==> checks.brokerAddress(servers[i]) then
        Some(Some(servers))
      else None
  }

  const VERIFICATION := "enable.ssl.certificate.verification"

  /** `_check_certificate_verification`. */
  predicate CertificatesVerified(values: map<string, string>, checks: ImportChecks) {
    VERIFICATION in values ==> checks.lower(values[VERIFICATION]) == "true"
  }

  // The Java mapping

  function KnownMechanism(name: string): Option<PasswordMechanism> {
    if name == "PLAIN" then Some(PasswordMechanism.Plain)
    else if name == "SCRAM-SHA-256" then Some(ScramSha256)
    else if name == "SCRAM-SHA-512" then Some(ScramSha512)
    else None
  }

  function MechanismModule(name: string): Option<string> {
    if name == "OAUTHBEARER" then Some(OAUTH_MODULE)
    else if KnownMechanism(name).Some? then Some(LoginModule(KnownMechanism(name).value))
    else None
  }

  function OrElse(value: Option<string>, other: string): string {
    if value.Some? && value.value != "" then value.value else other
  }

  /** `_jaas`: the options of the one login module the mechanism needs. */
  function JaasOptions(values: map<string, string>, loginModule: string, checks: ImportChecks):
    Option<map<string, string>>
  {
    var text := Required(values, "sasl.jaas.config");
    var entries := if text.None? then None else JaasEntries(text.value);
    if entries.None? || |entries.value| != 1 then None
    else
      var entry := entries.value[0];
      if entry.loginModule != loginModule || checks.lower(entry.controlFlag) != "required" then None
      else Some(entry.options)
  }

  const CLIENT_ID := "sasl.oauthbearer.client.credentials.client.id"
  const CLIENT_SECRET := "sasl.oauthbearer.client.credentials.client.secret"
  const HANDLER := "sasl.login.callback.handler.class"
  const TOKEN_URL := "sasl.oauthbearer.token.endpoint.url"
  const SCOPE := "sasl.oauthbearer.scope"

  predicate CredentialsInJaas(options: map<string, string>) {
    "clientId" in options || "clientSecret" in options
  }

  function OAuthOptionKeys(options: map<string, string>): set<string> {
    {"scope", IDENTIFICATION} + TRUST_KEYS +
    if CredentialsInJaas(options) then {"clientId", "clientSecret"} else {}
  }

  function OAuthValueKeys(options: map<string, string>): set<string> {
    {HANDLER, TOKEN_URL, SCOPE} + if CredentialsInJaas(options) then {} else {CLIENT_ID, CLIENT_SECRET}
  }

  /** `_java_client_credentials`. */
  function JavaCredentials(values: map<string, string>, options: map<string, string>): Option<(string, string)> {
    var inJaas := CredentialsInJaas(options);
    if inJaas && (CLIENT_ID in values || CLIENT_SECRET in values) then None
    else
      var id := if inJaas then Required(options, "clientId") else Required(values, CLIENT_ID);
      var secret := if inJaas then SecretAt(options, "clientSecret") else SecretAt(values, CLIENT_SECRET);
      if id.None? || secret.None? then None else Some((id.value, secret.value))
  }

  /** `_one_of`. */
  function OneScope(values: map<string, string>, options: map<string, string>): Option<seq<string>> {
    if SCOPE in values && "scope" in options then None
    else SplitScopes(if SCOPE in values then Some(values[SCOPE]) else Get(options, "scope"))
  }

  /** `_java_oauth`. */
  function JavaOAuth(values: map<string, string>, options: map<string, string>, checks: ImportChecks):
    Option<ResolvedAuth>
  {
    var url, credentials, scopes := UrlAt(values, TOKEN_URL, checks), JavaCredentials(values, options),
                                    OneScope(values, options);
    var ca := JavaTrust(options, checks);
    if Get(values, HANDLER) != Some(OAUTH_HANDLER) || url.None? || credentials.None? || scopes.None? || ca.None? ||
       !HostnamesVerified(options, checks) || !(options.Keys <= OAuthOptionKeys(options)) then None
    else Some(ResolvedAuth.OAuth(url.value, credentials.value.0, scopes.value, credentials.value.1, ca.value))
  }

  /** The password login of a JAAS entry. */
  function JavaPassword(mechanism: PasswordMechanism, options: map<string, string>): Option<ResolvedAuth> {
    var username, password := Required(options, "username"), SecretAt(options, "password");
    if username.None? || password.None? || !(options.Keys <= {"username", "password"}) || !ValidText(username.value) then
      None
    else Some(Password(mechanism, username.value, password.value))
  }

  /** `_JavaMapping.sasl`. */
  function JavaSasl(values: map<string, string>, checks: ImportChecks): Option<ResolvedAuth> {
    var mechanism := OrElse(Get(values, "sasl.mechanism"), "GSSAPI");
    if MechanismModule(mechanism).None? then None
    else
      var options := JaasOptions(values, MechanismModule(mechanism).value, checks);
      if options.None? then None
      else if mechanism == "OAUTHBEARER" then JavaOAuth(values, options.value, checks)
      else JavaPassword(KnownMechanism(mechanism).value, options.value)
  }

  /** The options that the login of a mechanism reads. */
  function JaasKeys(mechanism: string, options: map<string, string>): set<string> {
    if mechanism == "OAUTHBEARER" then OAuthOptionKeys(options) else {"username", "password"}
  }

  /** An accepted login read one JAAS entry and left none of its options unread. */
  lemma JaasIsUsed(values: map<string, string>, checks: ImportChecks)
    requires JavaSasl(values, checks).Some?
    ensures var mechanism := OrElse(Get(values, "sasl.mechanism"), "GSSAPI");
            && MechanismModule(mechanism).Some?
            && var options := JaasOptions(values, MechanismModule(mechanism).value, checks);
            && options.Some? && options.value.Keys <= JaasKeys(mechanism, options.value)
  {
    hide JaasOptions, JavaTrust, SplitScopes, OAuthOptionKeys, ValidText, JavaCredentials, OneScope;
  }

  function JavaSaslKeys(values: map<string, string>, checks: ImportChecks): set<string> {
    var mechanism := OrElse(Get(values, "sasl.mechanism"), "GSSAPI");
    var options := if MechanismModule(mechanism).None? then None
                   else JaasOptions(values, MechanismModule(mechanism).value, checks);
    {"sasl.mechanism", "sasl.jaas.config"} +
    if mechanism == "OAUTHBEARER" && options.Some? then OAuthValueKeys(options.value) else {}
  }

  /** `_mtls`. */
  function IdentityAuth(identity: Option<Option<Identity>>): Option<ResolvedAuth> {
    if identity.None? then None
    else if identity.value.None? then Some(Unauthenticated)
    else
      var Identity(certificate, key, password) := identity.value.value;
      Some(ResolvedAuth.Mtls(certificate, key, password))
  }

  // The librdkafka mapping

  function LibrdkafkaTrust(values: map<string, string>, checks: ImportChecks): Option<Option<string>> {
    PemAt(values, "ssl.ca.pem", "ssl.ca.location", checks.caBundle, checks.readCaBundle)
  }

  function LibrdkafkaCertificate(values: map<string, string>, checks: ImportChecks): Option<Option<string>> {
    PemAt(values, "ssl.certificate.pem", "ssl.certificate.location", checks.certificate, checks.readCertificate)
  }

  function LibrdkafkaKey(values: map<string, string>, checks: ImportChecks): Option<Option<string>> {
    PemAt(values, "ssl.key.pem", "ssl.key.location", Inline, checks.readPrivateKey)
  }

  function Inline(value: string): Option<string> {
    Some(value)
  }

  predicate HasLibrdkafkaIdentity(values: map<string, string>) {
    || "ssl.certificate.pem" in values || "ssl.certificate.location" in values
    || "ssl.key.pem" in values || "ssl.key.location" in values
  }

  function LibrdkafkaIdentityKeys(values: map<string, string>): set<string> {
    {"ssl.certificate.pem", "ssl.certificate.location", "ssl.key.pem", "ssl.key.location"} +
    if HasLibrdkafkaIdentity(values) then {"ssl.key.password"} else {}
  }

  function LibrdkafkaIdentity(values: map<string, string>, checks: ImportChecks): Option<Option<Identity>> {
    var certificate, key := LibrdkafkaCertificate(values, checks), LibrdkafkaKey(values, checks);
    if certificate.None? || key.None? then None
    else
      ClientIdentity(certificate.value, key.value,
                     if HasLibrdkafkaIdentity(values) then Get(values, "ssl.key.password") else None, checks)
  }

  const LIBRDKAFKA_OAUTH_KEYS := {
    "sasl.oauthbearer.method", "sasl.oauthbearer.token.endpoint.url", "sasl.oauthbearer.client.id",
    "sasl.oauthbearer.client.secret", "sasl.oauthbearer.scope", "https.ca.pem", "https.ca.location"
  }

  /** `_librdkafka_oauth`. */
  function LibrdkafkaOAuth(values: map<string, string>, checks: ImportChecks): Option<ResolvedAuth> {
    var url, id, secret := UrlAt(values, TOKEN_URL, checks), Required(values, "sasl.oauthbearer.client.id"),
                           SecretAt(values, "sasl.oauthbearer.client.secret");
    var scopes := SplitScopes(Get(values, SCOPE));
    var ca := PemAt(values, "https.ca.pem", "https.ca.location", checks.caBundle, checks.readCaBundle);
    if checks.lower(OrElse(Get(values, "sasl.oauthbearer.method"), "default")) != "oidc" || url.None? || id.None? ||
       secret.None? || scopes.None? || ca.None? then None
    else Some(ResolvedAuth.OAuth(url.value, id.value, scopes.value, secret.value, ca.value))
  }

  function LibrdkafkaMechanism(values: map<string, string>): string {
    OrElse(Get(values, "sasl.mechanism"), OrElse(Get(values, "sasl.mechanisms"), "GSSAPI"))
  }

  /** `_LibrdkafkaMapping.sasl`. */
  function LibrdkafkaSasl(values: map<string, string>, checks: ImportChecks): Option<ResolvedAuth> {
    var mechanism := LibrdkafkaMechanism(values);
    if "sasl.mechanism" in values && "sasl.mechanisms" in values then None
    else if mechanism == "OAUTHBEARER" then LibrdkafkaOAuth(values, checks)
    else if KnownMechanism(mechanism).None? then None
    else
      var username, password := Required(values, "sasl.username"), SecretAt(values, "sasl.password");
      if username.None? || password.None? || !ValidText(username.value) then None
      else Some(Password(KnownMechanism(mechanism).value, username.value, password.value))
  }

  function LibrdkafkaSaslKeys(values: map<string, string>): set<string> {
    {"sasl.mechanism", "sasl.mechanisms"} +
    if LibrdkafkaMechanism(values) == "OAUTHBEARER" then LIBRDKAFKA_OAUTH_KEYS else {"sasl.username", "sasl.password"}
  }

  // Connections

  const BASE_KEYS := {"bootstrap.servers", IDENTIFICATION, VERIFICATION, "security.protocol"}

  function TrustAt(dialect: Dialect, values: map<string, string>, checks: ImportChecks): Option<Option<string>> {
    if dialect.LibrdkafkaDialect? then LibrdkafkaTrust(values, checks) else JavaTrust(values, checks)
  }

  function TrustKeys(dialect: Dialect): set<string> {
    if dialect.LibrdkafkaDialect? then {"ssl.ca.pem", "ssl.ca.location"} else TRUST_KEYS
  }

  function AuthAt(dialect: Dialect, protocol: string, values: map<string, string>, checks: ImportChecks):
    Option<ResolvedAuth>
  {
    if protocol == "SSL" then
      IdentityAuth(if dialect.LibrdkafkaDialect? then LibrdkafkaIdentity(values, checks) else JavaIdentity(values, checks))
    else if dialect.LibrdkafkaDialect? then LibrdkafkaSasl(values, checks)
    else JavaSasl(values, checks)
  }

  function AuthKeys(dialect: Dialect, protocol: string, values: map<string, string>, checks: ImportChecks): set<string> {
    if protocol == "SSL" then
      if dialect.LibrdkafkaDialect? then LibrdkafkaIdentityKeys(values) else JavaIdentityKeys(values)
    else if dialect.LibrdkafkaDialect? then LibrdkafkaSaslKeys(values)
    else JavaSaslKeys(values, checks)
  }

  /** The keys that a connection reads. */
  function ConnectionKeys(dialect: Dialect, values: map<string, string>, checks: ImportChecks): set<string> {
    if "security.protocol" !in values || checks.upper(values["security.protocol"]) == "PLAINTEXT" then BASE_KEYS
    else
      BASE_KEYS + TrustKeys(dialect) + AuthKeys(dialect, checks.upper(values["security.protocol"]), values, checks)
  }

  /** The Kafka connection the known keys describe; a key that no rule uses is a rejection. */
  function ConnectionAt(dialect: Dialect, values: map<string, string>, checks: ImportChecks): Option<ImportedConnection> {
    var servers := ServersAt(values, checks);
    if servers.None? || !HostnamesVerified(values, checks) || !CertificatesVerified(values, checks) then None
    else if "security.protocol" !in values then
      if values.Keys <= BASE_KEYS then Some(ImportedConnection(servers.value, None, None, None, None, {})) else None
    else
      var protocol := checks.upper(values["security.protocol"]);
      if protocol == "PLAINTEXT" then
        if values.Keys <= BASE_KEYS then
          Some(ImportedConnection(servers.value, Some(Plaintext), None, Some(Unauthenticated), None, {}))
        else None
      else if protocol != "SSL" && protocol != "SASL_SSL" then None
      else
        var trust, auth := TrustAt(dialect, values, checks), AuthAt(dialect, protocol, values, checks);
        if trust.None? || auth.None? ||
           !(values.Keys <= BASE_KEYS + TrustKeys(dialect) + AuthKeys(dialect, protocol, values, checks)) then None
        else Some(ImportedConnection(servers.value, Some(Tls), trust.value, auth, None, {}))
  }

  /** The accepted values name no key that the connection does not read; and if it logs in with JAAS, no option
      of the entry is unread either. */
  predicate NothingUnread(dialect: Dialect, values: map<string, string>, checks: ImportChecks) {
    && values.Keys <= ConnectionKeys(dialect, values, checks)
    && (("security.protocol" in values && checks.upper(values["security.protocol"]) == "SASL_SSL" &&
         !dialect.LibrdkafkaDialect?) ==>
          var mechanism := OrElse(Get(values, "sasl.mechanism"), "GSSAPI");
          && MechanismModule(mechanism).Some?
          && var options := JaasOptions(values, MechanismModule(mechanism).value, checks);
          && options.Some? && options.value.Keys <= JaasKeys(mechanism, options.value))
  }

  lemma ConnectionReadsAll(dialect: Dialect, values: map<string, string>, checks: ImportChecks)
    requires ConnectionAt(dialect, values, checks).Some?
    ensures NothingUnread(dialect, values, checks)
  {
    hide JaasOptions, JavaSasl, LibrdkafkaSasl, JavaSaslKeys, LibrdkafkaSaslKeys, TrustAt, TrustKeys, ServersAt, JaasKeys,
      MechanismModule, JavaIdentity, LibrdkafkaIdentity, JavaIdentityKeys, LibrdkafkaIdentityKeys, HostnamesVerified;
    if JavaSasl(values, checks).Some? {
      JaasIsUsed(values, checks);
    }
  }
}
