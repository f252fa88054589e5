/** Stored profile documents, their JSON text shape, and the references found in them. */
module Documents {
  import opened Wrappers
  import opened References

  datatype PasswordMechanism = Plain | ScramSha256 | ScramSha512

  datatype KafkaAuth =
    | KafkaNone
    | KafkaSasl(mechanism: PasswordMechanism, username: string, passwordRef: Reference)
    | KafkaMtls(clientCertificate: string, privateKeyRef: Reference, privateKeyPasswordRef: Option<Reference>)
    | KafkaOAuth(tokenUrl: string, clientId: string, scopes: seq<string>, clientSecretRef: Reference,
                 caCertificates: Option<string>)

  datatype RegistryAuth =
    | RegistryNone
    | RegistryBasic(username: string, passwordRef: Reference)
    | RegistryBearer(tokenRef: Reference)
    | RegistryMtls(privateKeyRef: Reference, privateKeyPasswordRef: Option<Reference>)
    | RegistryOAuth(tokenUrl: string, clientId: string, scopes: seq<string>, clientSecretRef: Reference,
                    caCertificates: Option<string>, logicalCluster: Option<string>,
                    identityPoolId: Option<string>)

  datatype RegistryTls = RegistryTls(caCertificates: Option<string>, clientCertificate: Option<string>)

  datatype Registry = Registry(provider: string, url: string, tls: Option<RegistryTls>, auth: RegistryAuth)

  datatype Kafka = Kafka(bootstrapServers: seq<string>, transport: string, caCertificates: Option<string>,
                         auth: KafkaAuth)

  datatype Document = Document(id: Uuid, description: Option<string>, labels: map<string, string>,
                               kafka: Kafka, registry: Option<Registry>)

  /** The references of one Kafka authentication, under the field each property stands for. */
  function KafkaReferences(auth: KafkaAuth): map<Field, Reference> {
    match auth
    case KafkaNone => map[]
    case KafkaSasl(_, _, passwordRef) => map[KafkaPassword := passwordRef]
    case KafkaMtls(_, keyRef, None) => map[KafkaPrivateKey := keyRef]
    case KafkaMtls(_, keyRef, Some(passwordRef)) =>
      map[KafkaPrivateKey := keyRef, KafkaPrivateKeyPassword := passwordRef]
    case KafkaOAuth(_, _, _, secretRef, _) => map[KafkaClientSecret := secretRef]
  }

  function RegistryReferences(registry: Option<Registry>): map<Field, Reference> {
    match registry
    case None => map[]
    case Some(section) =>
      match section.auth
      case RegistryNone => map[]
      case RegistryBasic(_, passwordRef) => map[RegistryPassword := passwordRef]
      case RegistryBearer(tokenRef) => map[RegistryToken := tokenRef]
      case RegistryMtls(keyRef, None) => map[RegistryPrivateKey := keyRef]
      case RegistryMtls(keyRef, Some(passwordRef)) =>
        map[RegistryPrivateKey := keyRef, RegistryPrivateKeyPassword := passwordRef]
      case RegistryOAuth(_, _, _, secretRef, _, _, _) => map[RegistryClientSecret := secretRef]
  }

  /** Every credential reference the profile holds (`profile_secret_references`). */
  function ProfileReferences(document: Document): map<Field, Reference> {
    KafkaReferences(document.kafka.auth) + RegistryReferences(document.registry)
  }

  /** Each reference names its own profile and field, which loading and editing both check. */
  predicate Owned(references: map<Field, Reference>, profileId: Uuid) {
    forall field :: field in references ==>
      references[field].profileId == profileId && references[field].field == field &&
      IsCanonical(references[field])
  }

  predicate WellOwned(document: Document) {
    IsCanonicalUuid(document.id) && Owned(ProfileReferences(document), document.id)
  }

  // The stored text, as the JSON value `encode_profile` dumps and reconciliation loads.

  datatype Json = Text(text: string) | List(items: seq<Json>) | Object(entries: map<string, Json>)

  function EncodeTexts(texts: seq<string>): Json {
    List(seq(|texts|, i requires 0 <= i < |texts| => Text(texts[i])))
  }

  function EncodeOptional(key: string, value: Option<string>): map<string, Json> {
    if value.None? then map[] else map[key := Text(value.value)]
  }

  function EncodeReference(key: string, reference: Reference): map<string, Json> {
    map[key := Text(RenderReference(reference))]
  }

  function EncodeOptionalReference(key: string, reference: Option<Reference>): map<string, Json> {
    if reference.None? then map[] else EncodeReference(key, reference.value)
  }

  function MechanismName(mechanism: PasswordMechanism): string {
    match mechanism
    case Plain => "plain"
    case ScramSha256 => "scram-sha-256"
    case ScramSha512 => "scram-sha-512"
  }

  function EncodeKeyPair(keyRef: Reference, passwordRef: Option<Reference>): map<string, Json> {
    EncodeReference("privateKeyRef", keyRef) + EncodeOptionalReference("privateKeyPasswordRef", passwordRef)
  }

  function EncodeOAuth(url: string, clientId: string, scopes: seq<string>, secretRef: Reference): map<string, Json> {
    map["type" := Text("oauth"), "tokenUrl" := Text(url), "clientId" := Text(clientId)]
    + map["scopes" := EncodeTexts(scopes)]
    + EncodeReference("clientSecretRef", secretRef)
  }

  function EncodeKafkaAuth(auth: KafkaAuth): Json {
    match auth
    case KafkaNone => Object(map["type" := Text("none")])
    case KafkaSasl(mechanism, username, passwordRef) =>
      Object(map["type" := Text(MechanismName(mechanism)), "username" := Text(username)]
             + EncodeReference("passwordRef", passwordRef))
    case KafkaMtls(certificate, keyRef, passwordRef) =>
      Object(map["type" := Text("mtls"), "clientCertificate" := Text(certificate)]
             + EncodeKeyPair(keyRef, passwordRef))
    case KafkaOAuth(url, clientId, scopes, secretRef, ca) =>
      Object(EncodeOAuth(url, clientId, scopes, secretRef) + EncodeOptional("caCertificates", ca))
  }

  function EncodeRegistryAuth(auth: RegistryAuth): Json {
    match auth
    case RegistryNone => Object(map["type" := Text("none")])
    case RegistryBasic(username, passwordRef) =>
      Object(map["type" := Text("basic"), "username" := Text(username)]
             + EncodeReference("passwordRef", passwordRef))
    case RegistryBearer(tokenRef) =>
      Object(map["type" := Text("token")] + EncodeReference("tokenRef", tokenRef))
    case RegistryMtls(keyRef, passwordRef) =>
      Object(map["type" := Text("mtls")] + EncodeKeyPair(keyRef, passwordRef))
    case RegistryOAuth(url, clientId, scopes, secretRef, ca, cluster, pool) =>
      Object(EncodeOAuth(url, clientId, scopes, secretRef)
             + (EncodeOptional("caCertificates", ca) + EncodeOptional("logicalCluster", cluster)
                + EncodeOptional("identityPoolId", pool)))
  }

  function UrlProperty(provider: string): string {
    if provider == "apicurio" then "apicurio.registry.url" else "schema.registry.url"
  }

  function EncodeRegistryTls(tls: RegistryTls): Json {
    Object(EncodeOptional("caCertificates", tls.caCertificates)
           + EncodeOptional("clientCertificate", tls.clientCertificate))
  }

  function EncodeRegistry(registry: Registry): Json {
    Object(map["provider" := Text(registry.provider), UrlProperty(registry.provider) := Text(registry.url),
               "auth" := EncodeRegistryAuth(registry.auth)]
           + (if registry.tls.None? then map[]
              else map["tls" := EncodeRegistryTls(registry.tls.value)]))
  }

  function EncodeKafka(kafka: Kafka): Json {
    Object(map["bootstrapServers" := EncodeTexts(kafka.bootstrapServers),
               "transport" := Text(kafka.transport), "auth" := EncodeKafkaAuth(kafka.auth)]
           + (if kafka.caCertificates.None? then map[]
              else map["tls" := Object(EncodeOptional("caCertificates", kafka.caCertificates))]))
  }

  function EncodeLabels(labels: map<string, string>): Json {
    Object(map key | key in labels :: Text(labels[key]))
  }

  function LabelsEntry(labels: map<string, string>): map<string, Json> {
    if labels == map[] then map[] else map["labels" := EncodeLabels(labels)]
  }

  function RegistryEntry(registry: Option<Registry>): map<string, Json> {
    if registry.None? then map[] else map["registry" := EncodeRegistry(registry.value)]
  }

  /** `encode_profile`: the value whose JSON text a profile row stores. */
  function EncodeProfile(document: Document): Json {
    Object(map["id" := Text(document.id)] + EncodeOptional("description", document.description)
           + map["kafka" := EncodeKafka(document.kafka)]
           + LabelsEntry(document.labels) + RegistryEntry(document.registry))
  }
}
