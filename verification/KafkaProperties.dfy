/** Kafka connections as client properties (`kafka.py`). */
module KafkaProperties {
  import opened Wrappers
  import opened Documents
  import opened JavaRendering
  import opened JaasRendering

  datatype Transport = Plaintext | Tls

  /** Authentication with its secrets resolved. */
  datatype ResolvedAuth =
    | Unauthenticated
    | Password(mechanism: PasswordMechanism, username: string, password: string)
    | Mtls(certificate: string, privateKey: string, keyPassword: Option<string>)
    | OAuth(tokenUrl: string, clientId: string, scopes: seq<string>, clientSecret: string,
            caCertificates: Option<string>)

  datatype Connection = Connection(servers: seq<string>, transport: Transport, caCertificates: Option<string>,
                                   auth: ResolvedAuth)

  /** `separator.join(items)`, for a one-character separator. */
  function Join(items: seq<string>, separator: char): string {
    if items == [] then "" else if |items| == 1 then items[0] else items[0] + [separator] + Join(items[1..], separator)
  }

  function SaslMechanism(mechanism: PasswordMechanism): string {
    match mechanism
    case Plain => "PLAIN"
    case ScramSha256 => "SCRAM-SHA-256"
    case ScramSha512 => "SCRAM-SHA-512"
  }

  const PACKAGE := "org.apache.kafka.common.security."
  const PLAIN_MODULE := PACKAGE + "plain.PlainLoginModule"
  const SCRAM_MODULE := PACKAGE + "scram.ScramLoginModule"
  const OAUTH_MODULE := PACKAGE + "oauthbearer." + "OAuthBearerLoginModule"
  const OAUTH_HANDLER := PACKAGE + "oauthbearer." + "OAuthBearerLoginCallbackHandler"

  function LoginModule(mechanism: PasswordMechanism): string {
    if mechanism.Plain? then PLAIN_MODULE else SCRAM_MODULE
  }

  // Java

  function JavaBase(connection: Connection, caLocation: Option<string>): map<string, string> {
    map["bootstrap.servers" := Join(connection.servers, ','), "security.protocol" := "SSL",
        "ssl.endpoint.identification.algorithm" := "https"] +
    if connection.caCertificates.Some? && caLocation.Some? then
      map["ssl.truststore.location" := caLocation.value, "ssl.truststore.type" := "PEM"]
    else map[]
  }

  function OptionalEntry(key: string, value: Option<string>): map<string, string> {
    if value.None? then map[] else map[key := value.value]
  }

  function ScopeEntry(scopes: seq<string>): map<string, string> {
    if scopes == [] then map[] else map["sasl.oauthbearer.scope" := Join(scopes, ' ')]
  }

  function JavaOAuthEntries(auth: ResolvedAuth, options: seq<Entry>): map<string, string>
    requires auth.OAuth?
  {
    map["security.protocol" := "SASL_SSL", "sasl.mechanism" := "OAUTHBEARER",
        "sasl.login.callback.handler.class" := OAUTH_HANDLER,
        "sasl.jaas.config" := RenderEntry(OAUTH_MODULE, options),
        "sasl.oauthbearer.token.endpoint.url" := auth.tokenUrl,
        "sasl.oauthbearer.client.credentials.client.id" := auth.clientId,
        "sasl.oauthbearer.client.credentials.client.secret" := auth.clientSecret] +
    ScopeEntry(auth.scopes)
  }

  /** The JAAS options that name an OAuth CA bundle. */
  function OAuthTrustOptions(location: string): seq<Entry> {
    [("ssl.truststore.type", "PEM"), ("ssl.truststore.location", location)]
  }

  /** `java_properties`: what a connection exports; `None` is a refusal. */
  function JavaExport(connection: Connection, caLocation: Option<string>, oauthCaLocation: Option<string>):
    Option<map<string, string>>
  {
    if connection.transport.Plaintext? then
      if !connection.auth.Unauthenticated? then None
      else Some(map["bootstrap.servers" := Join(connection.servers, ','), "security.protocol" := "PLAINTEXT"])
    else if connection.caCertificates.Some? && caLocation.None? then None
    else JavaAuthentication(JavaBase(connection, caLocation), connection.auth, oauthCaLocation)
  }

  function JavaAuthentication(base: map<string, string>, auth: ResolvedAuth, oauthCaLocation: Option<string>):
    Option<map<string, string>>
  {
    match auth
    case Unauthenticated => Some(base)
    case Password(mechanism, username, password) =>
      if !ValidText(username) || !ValidText(password) then None
      else
        Some(base + map["security.protocol" := "SASL_SSL", "sasl.mechanism" := SaslMechanism(mechanism),
                        "sasl.jaas.config" := RenderEntry(LoginModule(mechanism),
                                                          [("username", username), ("password", password)])])
    case Mtls(certificate, key, password) =>
      Some(base + map["ssl.keystore.type" := "PEM", "ssl.keystore.certificate.chain" := certificate,
                      "ssl.keystore.key" := key]
           + OptionalEntry("ssl.key.password", password))
    case OAuth(_, _, _, _, ca) =>
      if ca.None? then Some(base + JavaOAuthEntries(auth, []))
      else if oauthCaLocation.None? || !ValidText(oauthCaLocation.value) then None
      else Some(base + JavaOAuthEntries(auth, OAuthTrustOptions(oauthCaLocation.value)))
  }

  /** `java_properties`, which fills a dictionary step by step. */
  method ExportJava(connection: Connection, caLocation: Option<string>, oauthCaLocation: Option<string>)
    returns (exported: Option<map<string, string>>)
    ensures exported == JavaExport(connection, caLocation, oauthCaLocation)
  {
    hide Join, RenderEntry;
    if !connection.auth.Unauthenticated? && !connection.transport.Tls? {
      return None;
    }
    var properties := map["bootstrap.servers" := Join(connection.servers, ',')];
    if connection.transport.Plaintext? {
      properties := properties["security.protocol" := "PLAINTEXT"];
      return Some(properties);
    }
    properties := properties["security.protocol" := "SSL"]["ssl.endpoint.identification.algorithm" := "https"];
    if connection.caCertificates.Some? {
      if caLocation.None? {
        return None;
      }
      properties := properties["ssl.truststore.location" := caLocation.value]["ssl.truststore.type" := "PEM"];
    }
    assert properties == JavaBase(connection, caLocation);
    exported := AddJavaAuthentication(properties, connection.auth, oauthCaLocation);
  }

  /** `_add_java_authentication`. */
  method AddJavaAuthentication(base: map<string, string>, auth: ResolvedAuth, oauthCaLocation: Option<string>)
    returns (updated: Option<map<string, string>>)
    ensures updated == JavaAuthentication(base, auth, oauthCaLocation)
  {
    hide RenderEntry, SaslMechanism, LoginModule, JavaOAuthEntries;
    var properties := base;
    match auth {
      case Unauthenticated =>
      case Password(mechanism, username, password) =>
        if !ValidText(username) || !ValidText(password) {
          return None;
        }
        properties := properties["security.protocol" := "SASL_SSL"]["sasl.mechanism" := SaslMechanism(mechanism)];
        var entry := RenderEntry(LoginModule(mechanism), [("username", username), ("password", password)]);
        properties := properties["sasl.jaas.config" := entry];
        assert properties == base + map["security.protocol" := "SASL_SSL", "sasl.mechanism" := SaslMechanism(mechanism),
                                        "sasl.jaas.config" := entry];
      case Mtls(certificate, key, password) =>
        properties := properties["ssl.keystore.type" := "PEM"]["ssl.keystore.certificate.chain" := certificate];
        properties := properties["ssl.keystore.key" := key];
        ghost var identity := base + map["ssl.keystore.type" := "PEM", "ssl.keystore.certificate.chain" := certificate,
                                         "ssl.keystore.key" := key];
        assert properties == identity;
        if password.Some? {
          properties := properties["ssl.key.password" := password.value];
        }
        assert properties == identity + OptionalEntry("ssl.key.password", password);
      case OAuth(_, _, _, _, ca) =>
        if ca.None? {
          properties := AddJavaOAuth(properties, auth, []);
        } else {
          if oauthCaLocation.None? || !ValidText(oauthCaLocation.value) {
            return None;
          }
          properties := AddJavaOAuth(properties, auth, OAuthTrustOptions(oauthCaLocation.value));
        }
    }
    return Some(properties);
  }

  /** `_add_java_oauth`. */
  method AddJavaOAuth(base: map<string, string>, auth: ResolvedAuth, options: seq<Entry>)
    returns (properties: map<string, string>)
    requires auth.OAuth?
    ensures properties == base + JavaOAuthEntries(auth, options)
  {
    hide RenderEntry, Join;
    properties := base["security.protocol" := "SASL_SSL"]["sasl.mechanism" := "OAUTHBEARER"];
    properties := properties["sasl.login.callback.handler.class" := OAUTH_HANDLER];
    properties := properties["sasl.jaas.config" := RenderEntry(OAUTH_MODULE, options)];
    properties := properties["sasl.oauthbearer.token.endpoint.url" := auth.tokenUrl];
    properties := properties["sasl.oauthbearer.client.credentials.client.id" := auth.clientId];
    properties := properties["sasl.oauthbearer.client.credentials.client.secret" := auth.clientSecret];
    if auth.scopes != [] {
      properties := properties["sasl.oauthbearer.scope" := Join(auth.scopes, ' ')];
    }
  }

  // librdkafka

  /** `librdkafka_properties`, for exports without inline PEM: a connection that needs a CA bundle or a
      client certificate takes their locations. */
  function LibrdkafkaExport(connection: Connection, caLocation: Option<string>, certificateLocation: Option<string>,
                            keyLocation: Option<string>, oauthCaLocation: Option<string>):
    Option<map<string, string>>
  {
    if connection.transport.Plaintext? then
      if !connection.auth.Unauthenticated? then None
      else Some(map["bootstrap.servers" := Join(connection.servers, ','), "security.protocol" := "PLAINTEXT"])
    else if connection.caCertificates.Some? && caLocation.None? then None
    else
      LibrdkafkaAuthentication(LibrdkafkaBase(connection, caLocation), connection.auth, certificateLocation,
                               keyLocation, oauthCaLocation)
  }

  function LibrdkafkaAuthentication(base: map<string, string>, auth: ResolvedAuth, certificateLocation: Option<string>,
                                    keyLocation: Option<string>, oauthCaLocation: Option<string>):
    Option<map<string, string>>
  {
    match auth
    case Unauthenticated => Some(base)
    case Password(mechanism, username, password) =>
      Some(base + map["security.protocol" := "SASL_SSL", "sasl.mechanism" := SaslMechanism(mechanism),
                      "sasl.username" := username, "sasl.password" := password])
    case Mtls(_, _, password) =>
      if certificateLocation.None? || keyLocation.None? then None
      else
        Some(base + map["ssl.certificate.location" := certificateLocation.value,
                        "ssl.key.location" := keyLocation.value]
             + OptionalEntry("ssl.key.password", password))
    case OAuth(_, _, _, _, ca) =>
      if ca.Some? && oauthCaLocation.None? then None
      else Some(base + LibrdkafkaOAuthEntries(auth, oauthCaLocation))
  }

  function LibrdkafkaBase(connection: Connection, caLocation: Option<string>): map<string, string> {
    map["bootstrap.servers" := Join(connection.servers, ','), "security.protocol" := "SSL",
        "enable.ssl.certificate.verification" := "true", "ssl.endpoint.identification.algorithm" := "https"] +
    OptionalEntry("ssl.ca.location", if connection.caCertificates.Some? then caLocation else None)
  }

  function LibrdkafkaOAuthEntries(auth: ResolvedAuth, oauthCaLocation: Option<string>): map<string, string>
    requires auth.OAuth?
  {
    LibrdkafkaClientEntries(auth) + ScopeEntry(auth.scopes) +
    OptionalEntry("https.ca.location", if auth.caCertificates.Some? then oauthCaLocation else None)
  }

  function LibrdkafkaClientEntries(auth: ResolvedAuth): map<string, string>
    requires auth.OAuth?
  {
    map["security.protocol" := "SASL_SSL", "sasl.mechanism" := "OAUTHBEARER", "sasl.oauthbearer.method" := "oidc",
        "sasl.oauthbearer.token.endpoint.url" := auth.tokenUrl, "sasl.oauthbearer.client.id" := auth.clientId,
        "sasl.oauthbearer.client.secret" := auth.clientSecret]
  }

  /** `librdkafka_properties`, which fills a dictionary step by step. */
  method ExportLibrdkafka(connection: Connection, caLocation: Option<string>, certificateLocation: Option<string>,
                          keyLocation: Option<string>, oauthCaLocation: Option<string>)
    returns (exported: Option<map<string, string>>)
    ensures exported == LibrdkafkaExport(connection, caLocation, certificateLocation, keyLocation, oauthCaLocation)
  {
    hide Join, LibrdkafkaAuthentication;
    if !connection.auth.Unauthenticated? && !connection.transport.Tls? {
      return None;
    }
    var properties := map["bootstrap.servers" := Join(connection.servers, ',')];
    if connection.transport.Plaintext? {
      properties := properties["security.protocol" := "PLAINTEXT"];
      return Some(properties);
    }
    properties := properties["security.protocol" := "SSL"]["enable.ssl.certificate.verification" := "true"];
    properties := properties["ssl.endpoint.identification.algorithm" := "https"];
    if connection.caCertificates.Some? {
      if caLocation.None? {
        return None;
      }
      properties := properties["ssl.ca.location" := caLocation.value];
    }
    assert properties == LibrdkafkaBase(connection, caLocation);
    exported := AddLibrdkafkaAuthentication(properties, connection.auth, certificateLocation, keyLocation, oauthCaLocation);
  }

  /** `_add_librdkafka_authentication`. */
  method AddLibrdkafkaAuthentication(base: map<string, string>, auth: ResolvedAuth, certificateLocation: Option<string>,
                                     keyLocation: Option<string>, oauthCaLocation: Option<string>)
    returns (updated: Option<map<string, string>>)
    ensures updated == LibrdkafkaAuthentication(base, auth, certificateLocation, keyLocation, oauthCaLocation)
  {
    hide SaslMechanism, LibrdkafkaOAuthEntries;
    var properties := base;
    match auth {
      case Unauthenticated =>
      case Password(mechanism, username, password) =>
        properties := properties["security.protocol" := "SASL_SSL"]["sasl.mechanism" := SaslMechanism(mechanism)];
        properties := properties["sasl.username" := username]["sasl.password" := password];
        assert properties == base + map["security.protocol" := "SASL_SSL", "sasl.mechanism" := SaslMechanism(mechanism),
                                        "sasl.username" := username, "sasl.password" := password];
      case Mtls(_, _, password) =>
        if certificateLocation.None? || keyLocation.None? {
          return None;
        }
        properties := properties["ssl.certificate.location" := certificateLocation.value];
        properties := properties["ssl.key.location" := keyLocation.value];
        ghost var identity := base + map["ssl.certificate.location" := certificateLocation.value,
                                         "ssl.key.location" := keyLocation.value];
        assert properties == identity;
        if password.Some? {
          properties := properties["ssl.key.password" := password.value];
        }
        assert properties == identity + OptionalEntry("ssl.key.password", password);
      case OAuth(_, _, _, _, ca) =>
        if ca.Some? && oauthCaLocation.None? {
          return None;
        }
        properties := AddLibrdkafkaOAuth(properties, auth, oauthCaLocation);
    }
    return Some(properties);
  }

  /** `_add_librdkafka_oauth`. */
  method AddLibrdkafkaOAuth(base: map<string, string>, auth: ResolvedAuth, oauthCaLocation: Option<string>)
    returns (properties: map<string, string>)
    requires auth.OAuth? && (auth.caCertificates.Some? ==> oauthCaLocation.Some?)
    ensures properties == base + LibrdkafkaOAuthEntries(auth, oauthCaLocation)
  {
    hide Join, OptionalEntry, ScopeEntry, LibrdkafkaClientEntries;
    properties := AddClient(base, auth);
    ghost var client := properties;
    ScopeUpdate(properties, auth.scopes);
    if auth.scopes != [] {
      properties := properties["sasl.oauthbearer.scope" := Join(auth.scopes, ' ')];
    }
    var location := if auth.caCertificates.Some? then oauthCaLocation else None;
    OptionalUpdate(properties, "https.ca.location", location);
    if auth.caCertificates.Some? {
      properties := properties["https.ca.location" := oauthCaLocation.value];
    }
    assert properties == client + ScopeEntry(auth.scopes) + OptionalEntry("https.ca.location", location);
    Regrouped(base, LibrdkafkaClientEntries(auth), ScopeEntry(auth.scopes), OptionalEntry("https.ca.location", location));
  }

  lemma Regrouped(base: map<string, string>, first: map<string, string>, second: map<string, string>,
                  third: map<string, string>)
    ensures base + first + second + third == base + (first + second + third)
  {
  }

  method AddClient(base: map<string, string>, auth: ResolvedAuth) returns (properties: map<string, string>)
    requires auth.OAuth?
    ensures properties == base + LibrdkafkaClientEntries(auth)
  {
    properties := base["security.protocol" := "SASL_SSL"]["sasl.mechanism" := "OAUTHBEARER"];
    properties := properties["sasl.oauthbearer.method" := "oidc"];
    properties := properties["sasl.oauthbearer.token.endpoint.url" := auth.tokenUrl];
    properties := properties["sasl.oauthbearer.client.id" := auth.clientId];
    properties := properties["sasl.oauthbearer.client.secret" := auth.clientSecret];
  }

  lemma ScopeUpdate(properties: map<string, string>, scopes: seq<string>)
    ensures properties + ScopeEntry(scopes) ==
            if scopes == [] then properties else properties["sasl.oauthbearer.scope" := Join(scopes, ' ')]
  {
  }

  lemma OptionalUpdate(properties: map<string, string>, key: string, value: Option<string>)
    ensures properties + OptionalEntry(key, value) ==
            if value.None? then properties else properties[key := value.value]
  {
  }
}
