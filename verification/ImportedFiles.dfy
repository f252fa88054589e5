/** What a file of client properties imports as, and what it means to its reader. */
module ImportedFiles {
  import opened Wrappers
  import opened PropertiesSyntax
  import opened JavaRendering
  import opened Librdkafka
  import opened PropertyMapping
  import opened KafkaProperties
  import opened RegistryProperties
  import opened ClientProperties
  import opened ImportMeaning
  import opened RegistryMeaning

  predicate Refused(known: set<string>, key: string) {
    key !in known && !IsRegistryKey(key) && IsSecurityKey(key)
  }

  predicate Filled(properties: map<string, string>) {
    forall key :: key in properties ==> !HasPlaceholder(properties[key])
  }

  function KnownPart(properties: map<string, string>, known: set<string>): map<string, string> {
    map key | key in properties && key in known :: properties[key]
  }

  function RegistryPart(properties: map<string, string>, known: set<string>): map<string, string> {
    map key | key in properties && key !in known && IsRegistryKey(key) :: properties[key]
  }

  /** What the properties of a file import as. */
  ghost function PropertiesImport(dialect: Dialect, properties: map<string, string>, checks: ImportChecks):
    Option<ImportedConnection>
  {
    var known := KnownKeys(dialect);
    var values, registryValues := KnownPart(properties, known), RegistryPart(properties, known);
    var connection, registry := ConnectionAt(dialect, values, checks), RegistryOf(registryValues, checks);
    if || (values == map[] && registryValues == map[]) || !Filled(values) || !Filled(registryValues)
       || (exists key :: key in properties && Refused(known, key))
       || connection.None? || (registryValues != map[] && registry.None?) then None
    else Some(connection.value.(registry := if registryValues == map[] then None else registry,
                                ignored := set key | key in properties && key !in known && !IsRegistryKey(key)))
  }

  /** What a text imports as. */
  ghost function ImportOf(text: string, checks: ImportChecks): Option<ImportedConnection> {
    var inferred := InferDialect(JavaProperties(text), LibrdkafkaProperties(text));
    if inferred.None? then None else PropertiesImport(inferred.value.0, inferred.value.1, checks)
  }

  // What a file means

  ghost predicate SecurityKey(key: string) {
    || "sasl." <= key || "ssl." <= key || "security." <= key || "https." <= key
    || "enable.ssl." <= key || "enable.sasl." <= key
  }

  /** The keys that say something about a connection; all others are an application's own. */
  ghost predicate KafkaKey(key: string) {
    key == "bootstrap.servers" || SecurityKey(key)
  }

  ghost predicate RegistryKey(key: string) {
    ConfluentKey(key) || ApicurioKey(key)
  }

  /** A template's placeholder is still in the value. */
  ghost predicate Unfilled(value: string) {
    exists before, inside, after :: value == before + "{{" + inside + "}}" + after
  }

  ghost function KafkaValues(properties: map<string, string>): map<string, string> {
    map key | key in properties && KafkaKey(key) :: properties[key]
  }

  ghost function RegistryValues(properties: map<string, string>): map<string, string> {
    map key | key in properties && RegistryKey(key) :: properties[key]
  }

  /** The connection that a file's properties describe: all of its Kafka keys make up one Kafka connection, its
      Registry keys one Registry, and only keys of neither kind are ignored. */
  ghost predicate PropertiesDescribe(dialect: Dialect, properties: map<string, string>, checks: ImportChecks,
                                     imported: ImportedConnection) {
    var values, registry := KafkaValues(properties), RegistryValues(properties);
    && (values != map[] || registry != map[])
    && (forall key :: key in properties && (KafkaKey(key) || RegistryKey(key)) ==> !Unfilled(properties[key]))
    && ConnectionIs(dialect, values, checks, imported) && AllRead(dialect, imported, values)
    && (if registry == map[] then imported.registry == None
        else imported.registry != None && RegistryIs(registry, checks, imported.registry.value))
    && imported.ignored == set key | key in properties && !KafkaKey(key) && !RegistryKey(key)
  }

  ghost predicate FileDescribes(text: string, checks: ImportChecks, imported: ImportedConnection) {
    exists dialect, properties ::
      && ReadAs(JavaProperties(text), LibrdkafkaProperties(text), dialect, properties)
      && PropertiesDescribe(dialect, properties, checks, imported)
  }

  // Exactly

  lemma SecurityKeyExactly(key: string)
    ensures SecurityKey(key) <==> IsSecurityKey(key)
  {
    assert forall i :: 0 <= i < |SECURITY_PREFIXES| ==>
      (StartsWith(key, SECURITY_PREFIXES[i]) <==> SECURITY_PREFIXES[i] <= key);
    hide StartsWith;
    assert StartsWith(key, SECURITY_PREFIXES[0]) <==> "sasl." <= key;
    assert StartsWith(key, SECURITY_PREFIXES[1]) <==> "ssl." <= key;
    assert StartsWith(key, SECURITY_PREFIXES[2]) <==> "security." <= key;
    assert StartsWith(key, SECURITY_PREFIXES[3]) <==> "https." <= key;
    assert StartsWith(key, SECURITY_PREFIXES[4]) <==> "enable.ssl." <= key;
    assert StartsWith(key, SECURITY_PREFIXES[5]) <==> "enable.sasl." <= key;
  }

  lemma KafkaStart(key: string)
    requires KafkaKey(key)
    ensures |key| >= 2
    ensures || (key[0] == 'b' && key[1] == 'o') || key[0] == 'h' || key[0] == 'e'
            || (key[0] == 's' && (key[1] == 'a' || key[1] == 's' || key[1] == 'e'))
  {
  }

  lemma RegistryStart(key: string)
    requires RegistryKey(key)
    ensures |key| >= 2
    ensures || (key[0] == 'b' && (key[1] == 'a' || key[1] == 'e')) || key[0] == 'a' || (key[0] == 's' && key[1] == 'c')
  {
  }

  lemma KeysAreApart(key: string)
    ensures !(KafkaKey(key) && RegistryKey(key))
  {
    hide KafkaKey, RegistryKey;
    if KafkaKey(key) && RegistryKey(key) {
      KafkaStart(key);
      RegistryStart(key);
    }
  }

  lemma UnfilledExactly(value: string)
    ensures Unfilled(value) <==> HasPlaceholder(value)
  {
    if HasPlaceholder(value) {
      var i, j :| 0 <= i && i + 2 <= j <= |value| - 2 && Twice(value, i, '{') && Twice(value, j, '}');
      assert value == value[..i] + "{{" + value[i + 2..j] + "}}" + value[j + 2..];
    }
    if before, inside, after :| value == before + "{{" + inside + "}}" + after {
      var i, j := |before|, |before| + 2 + |inside|;
      assert Twice(value, i, '{') && Twice(value, j, '}');
    }
  }

  lemma SharedKnown(key: string)
    requires key in SHARED_KEYS
    ensures KafkaKey(key)
  {
  }

  lemma JavaLoginKnown()
    ensures "sasl." <= "sasl.jaas.config" && "sasl." <= "sasl.login.callback.handler.class"
  {
  }

  lemma CredentialsKnown()
    ensures "sasl." <= "sasl.oauthbearer.client.credentials.client.id"
    ensures "sasl.oauthbearer.client.credentials." <= "sasl.oauthbearer.client.credentials.client.id"
    ensures "sasl." <= "sasl.oauthbearer.client.credentials.client.secret"
    ensures "sasl.oauthbearer.client.credentials." <= "sasl.oauthbearer.client.credentials.client.secret"
  {
  }

  lemma TrustStoreKnown()
    ensures "ssl." <= "ssl.truststore.type" && "ssl.truststore." <= "ssl.truststore.type"
    ensures "ssl." <= "ssl.truststore.location" && "ssl.truststore." <= "ssl.truststore.location"
    ensures "ssl." <= "ssl.truststore.certificates" && "ssl.truststore." <= "ssl.truststore.certificates"
  {
  }

  lemma KeyStoreKnown()
    ensures "ssl." <= "ssl.keystore.type" && "ssl.keystore." <= "ssl.keystore.type"
    ensures "ssl." <= "ssl.keystore.certificate.chain" && "ssl.keystore." <= "ssl.keystore.certificate.chain"
    ensures "ssl." <= "ssl.keystore.key" && "ssl.keystore." <= "ssl.keystore.key"
  {
  }

  lemma JavaKeyStarts(key: string)
    requires || ("ssl." <= key && ("ssl.truststore." <= key || "ssl.keystore." <= key))
             || ("sasl." <= key && "sasl.oauthbearer.client.credentials." <= key)
             || ("sasl." <= key && (key == "sasl.jaas.config" || key == "sasl.login.callback.handler.class"))
    ensures KafkaKey(key) && JavaOnly(key)
  {
  }

  lemma JavaKnown(key: string)
    requires key in JAVA_ONLY_KEYS
    ensures KafkaKey(key) && JavaOnly(key)
  {
    hide KafkaKey, JavaOnly;
    JavaLoginKnown();
    CredentialsKnown();
    TrustStoreKnown();
    KeyStoreKnown();
    JavaKeyStarts(key);
  }

  lemma LibrdkafkaKnown(key: string)
    requires key in LIBRDKAFKA_ONLY_KEYS
    ensures KafkaKey(key) && LibrdkafkaOnly(key)
  {
  }

  lemma KnownIsKafka(dialect: Dialect, key: string)
    requires key in KnownKeys(dialect)
    ensures KafkaKey(key)
  {
    hide KafkaKey, JavaOnly, LibrdkafkaOnly, SHARED_KEYS, JAVA_ONLY_KEYS, LIBRDKAFKA_ONLY_KEYS;
    if key in SHARED_KEYS {
      SharedKnown(key);
    } else if key in JAVA_ONLY_KEYS {
      JavaKnown(key);
    } else {
      LibrdkafkaKnown(key);
    }
  }

  lemma JavaReadsKnown(auth: ResolvedAuth, key: string)
    requires JavaReads(auth, key)
    ensures key in SHARED_KEYS || key in JAVA_ONLY_KEYS
  {
  }

  lemma LibrdkafkaReadsKnown(auth: ResolvedAuth, key: string)
    requires LibrdkafkaReads(auth, key)
    ensures key in SHARED_KEYS || key in LIBRDKAFKA_ONLY_KEYS
  {
  }

  lemma BaseKnown(key: string)
    requires || key == "bootstrap.servers" || key == "security.protocol"
             || key == "ssl.endpoint.identification.algorithm" || key == "enable.ssl.certificate.verification"
    ensures key in SHARED_KEYS || (key in LIBRDKAFKA_ONLY_KEYS && LibrdkafkaOnly(key))
  {
  }

  /** What a connection reads is known in its dialect, or tells that the file is of another one. */
  lemma ReadIsKnown(dialect: Dialect, connection: ImportedConnection, key: string)
    requires Read(dialect, connection, key)
    ensures || key in KnownKeys(dialect) || (dialect != LibrdkafkaDialect && LibrdkafkaOnly(key))
            || (dialect == SharedDialect && JavaOnly(key))
  {
    hide JavaReads, LibrdkafkaReads, JavaOnly, LibrdkafkaOnly, SHARED_KEYS, JAVA_ONLY_KEYS, LIBRDKAFKA_ONLY_KEYS, KafkaKey;
    if || key == "bootstrap.servers" || key == "security.protocol"
       || key == "ssl.endpoint.identification.algorithm" || key == "enable.ssl.certificate.verification" {
      BaseKnown(key);
    } else if dialect == LibrdkafkaDialect {
      LibrdkafkaReadsKnown(connection.auth.value, key);
    } else {
      JavaReadsKnown(connection.auth.value, key);
      if key in JAVA_ONLY_KEYS {
        JavaKnown(key);
      }
    }
  }

  /** Without a refused key, the known keys are the ones that say something about Kafka. */
  lemma PartsExactly(dialect: Dialect, properties: map<string, string>)
    ensures var known := KnownKeys(dialect);
            && RegistryPart(properties, known) == RegistryValues(properties)
            && ((forall key :: key in properties ==> !Refused(known, key)) <==>
                (forall key :: key in properties && KafkaKey(key) ==> key in known))
            && ((forall key :: key in properties && KafkaKey(key) ==> key in known) ==>
                  KnownPart(properties, known) == KafkaValues(properties))
  {
    hide KafkaKey, RegistryKey, IsRegistryKey, IsSecurityKey, KnownKeys;
    var known := KnownKeys(dialect);
    forall key
      ensures RegistryKey(key) <==> IsRegistryKey(key)
      ensures key in known ==> KafkaKey(key)
      ensures !(KafkaKey(key) && RegistryKey(key))
      ensures KafkaKey(key) && key !in known ==> IsSecurityKey(key)
      ensures IsSecurityKey(key) ==> KafkaKey(key)
    {
      KeyKinds(dialect, key);
    }
  }

  lemma KeyKinds(dialect: Dialect, key: string)
    ensures RegistryKey(key) <==> IsRegistryKey(key)
    ensures key in KnownKeys(dialect) ==> KafkaKey(key)
    ensures !(KafkaKey(key) && RegistryKey(key))
    ensures KafkaKey(key) && key !in KnownKeys(dialect) ==> IsSecurityKey(key)
    ensures IsSecurityKey(key) ==> KafkaKey(key)
  {
    hide SecurityKey, IsSecurityKey, IsConfluentKey, IsApicurioKey, ConfluentKey, ApicurioKey, JAVA_ONLY_KEYS,
      LIBRDKAFKA_ONLY_KEYS;
    RegistryKeysExactly(key);
    SecurityKeyExactly(key);
    KeysAreApart(key);
    if key in KnownKeys(dialect) {
      KnownIsKafka(dialect, key);
    }
  }

  lemma NoneRefused(java: Option<map<string, string>>, librdkafka: Option<map<string, string>>, dialect: Dialect,
                    properties: map<string, string>, imported: ImportedConnection)
    requires ReadAs(java, librdkafka, dialect, properties) && AllRead(dialect, imported, KafkaValues(properties))
    ensures forall key :: key in properties && KafkaKey(key) ==> key in KnownKeys(dialect)
  {
    hide KafkaKey, KnownKeys, Read, JavaOnly, LibrdkafkaOnly;
    forall key | key in properties && KafkaKey(key) ensures key in KnownKeys(dialect) {
      assert key in KafkaValues(properties);
      ReadIsKnown(dialect, imported, key);
    }
  }

  /** What is said about Kafka does not depend on the Registry or on ignored keys. */
  lemma KafkaAlone(dialect: Dialect, values: map<string, string>, checks: ImportChecks, imported: ImportedConnection,
                   alone: ImportedConnection)
    requires alone == imported.(registry := None, ignored := {})
    ensures ConnectionIs(dialect, values, checks, alone) <==> ConnectionIs(dialect, values, checks, imported)
    ensures AllRead(dialect, alone, values) <==> AllRead(dialect, imported, values)
  {
    hide ServersAre, HostnamesAreVerified, TrustIs, IdentityIs, JavaLoginIs, LibrdkafkaLoginIs, JavaReads,
      LibrdkafkaReads;
  }

  lemma ConnectionAlone(dialect: Dialect, values: map<string, string>, checks: ImportChecks)
    requires ConnectionAt(dialect, values, checks).Some?
    ensures ConnectionAt(dialect, values, checks).value.registry.None?
    ensures ConnectionAt(dialect, values, checks).value.ignored == {}
  {
    hide ServersAt, HostnamesVerified, AuthAt, TrustAt, AuthKeys, TrustKeys;
  }

  lemma RegistryOfExactly(values: map<string, string>, checks: ImportChecks)
    ensures forall registry :: RegistryOf(values, checks) == Some(registry) <==> RegistryIs(values, checks, registry)
  {
    hide RegistryIs, Describes;
    forall registry ensures RegistryOf(values, checks) == Some(registry) <==> RegistryIs(values, checks, registry) {
      RegistryIsExactly(values, checks, registry);
      if Describes(values, checks, registry) {
        RegistryFound(values, checks, registry);
      }
    }
  }

  /** What a file of some dialect imports as is what its properties describe. */
  lemma PropertiesExactly(java: Option<map<string, string>>, librdkafka: Option<map<string, string>>, dialect: Dialect,
                          properties: map<string, string>, checks: ImportChecks, imported: ImportedConnection)
    requires ReadAs(java, librdkafka, dialect, properties)
    ensures PropertiesImport(dialect, properties, checks) == Some(imported) <==>
            PropertiesDescribe(dialect, properties, checks, imported)
  {
    hide KafkaKey, RegistryKey, IsRegistryKey, KnownKeys, ConnectionAt, ConnectionIs, AllRead, RegistryIs, RegistryOf,
      Unfilled, HasPlaceholder, ReadAs, Refused, KafkaValues, RegistryValues, KnownPart, RegistryPart, Filled;
    var values, registry := KafkaValues(properties), RegistryValues(properties);
    var alone := imported.(registry := None, ignored := {});
    PartsExactly(dialect, properties);
    if AllRead(dialect, imported, values) {
      NoneRefused(java, librdkafka, dialect, properties, imported);
    }
    if forall key :: key in properties && KafkaKey(key) ==> key in KnownKeys(dialect) {
      IgnoredKeys(dialect, properties);
      FilledExactly(properties);
      RegistryOfExactly(registry, checks);
      ConnectionExactly(dialect, values, checks, alone);
      KafkaAlone(dialect, values, checks, imported, alone);
      if ConnectionAt(dialect, values, checks).Some? {
        ConnectionAlone(dialect, values, checks);
        var found := ConnectionAt(dialect, values, checks).value;
        assert found.(registry := imported.registry, ignored := imported.ignored) == imported <==> found == alone;
      }
    }
  }

  lemma FilledExactly(properties: map<string, string>)
    ensures Filled(KafkaValues(properties)) && Filled(RegistryValues(properties)) <==>
            forall key :: key in properties && (KafkaKey(key) || RegistryKey(key)) ==> !Unfilled(properties[key])
  {
    hide KafkaKey, RegistryKey, Unfilled, HasPlaceholder;
    forall value ensures Unfilled(value) <==> HasPlaceholder(value) {
      UnfilledExactly(value);
    }
    forall key | key in properties && (KafkaKey(key) || RegistryKey(key))
      ensures key in KafkaValues(properties) || key in RegistryValues(properties)
    {
    }
  }

  lemma IgnoredKeys(dialect: Dialect, properties: map<string, string>)
    requires forall key :: key in properties && KafkaKey(key) ==> key in KnownKeys(dialect)
    ensures (set key | key in properties && key !in KnownKeys(dialect) && !IsRegistryKey(key)) ==
            (set key | key in properties && !KafkaKey(key) && !RegistryKey(key))
  {
    hide KafkaKey, RegistryKey, IsRegistryKey, KnownKeys;
    forall key
      ensures RegistryKey(key) <==> IsRegistryKey(key)
      ensures key in KnownKeys(dialect) ==> KafkaKey(key)
    {
      KeyKinds(dialect, key);
    }
  }

  /** A text imports as a connection exactly when it describes it. */
  lemma ImportExactly(text: string, checks: ImportChecks)
    ensures forall imported :: ImportOf(text, checks) == Some(imported) <==> FileDescribes(text, checks, imported)
  {
    hide JavaProperties, LibrdkafkaProperties, InferDialect, ReadAs, PropertiesImport, PropertiesDescribe;
    var java, librdkafka := JavaProperties(text), LibrdkafkaProperties(text);
    ReadAsExactly(java, librdkafka);
    forall dialect, properties, imported | ReadAs(java, librdkafka, dialect, properties)
      ensures PropertiesImport(dialect, properties, checks) == Some(imported) <==>
              PropertiesDescribe(dialect, properties, checks, imported)
    {
      PropertiesExactly(java, librdkafka, dialect, properties, checks, imported);
    }
  }
}
