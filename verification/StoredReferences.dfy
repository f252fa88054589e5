/** The references reconciliation finds in a stored document (`reconciliation.py`).

    The scan knows nothing about profiles: it takes the text under every key that ends in
    `Ref`, at any depth. `EncodedReferences` says what that amounts to for a profile, and
    shows that label names can get in its way. */
module StoredReferences {
  import opened Wrappers
  import opened References
  import opened Documents

  predicate IsReferenceKey(key: string) {
    |key| >= 3 && key[|key| - 3..] == "Ref"
  }

  predicate AllCanonical(references: map<Field, Reference>) {
    forall field :: field in references ==> IsCanonical(references[field])
  }

  /** Every value under a `...Ref` key, at any depth, is the text of a reference. */
  predicate Readable(value: Json)
    decreases value, 0
  {
    match value
    case Text(_) => true
    case List(items) => forall i :: 0 <= i < |items| ==> Readable(items[i])
    case Object(entries) => forall key :: key in entries ==> ReadableEntry(key, entries[key])
  }

  predicate ReadableEntry(key: string, value: Json)
    decreases value, 1
  {
    if IsReferenceKey(key) then value.Text? && ParseReference(value.text).Some? else Readable(value)
  }

  predicate Holds(value: Json, reference: Reference)
    decreases value, 0
  {
    match value
    case Text(_) => false
    case List(items) => exists i :: 0 <= i < |items| && Holds(items[i], reference)
    case Object(entries) => exists key :: key in entries && EntryHolds(key, entries[key], reference)
  }

  predicate EntryHolds(key: string, value: Json, reference: Reference)
    decreases value, 1
  {
    if IsReferenceKey(key) then value.Text? && ParseReference(value.text) == Some(reference)
    else Holds(value, reference)
  }

  /** `_collect_secret_references`: adds what one value holds to `references`, or stops at the
      first unreadable entry. */
  method CollectSecretReferences(value: Json, references: set<Reference>)
    returns (found: Option<set<Reference>>)
    ensures found.Some? <==> Readable(value)
    ensures found.Some? ==> forall r :: r in found.value <==> r in references || Holds(value, r)
    decreases value
  {
    var all := references;
    match value {
      case Text(_) =>
      case List(items) =>
        for i := 0 to |items|
          invariant forall j :: 0 <= j < i ==> Readable(items[j])
          invariant forall r :: r in all <==> r in references || exists j :: 0 <= j < i && Holds(items[j], r)
        {
          var step := CollectSecretReferences(items[i], all);
          if step.None? {
            return None;
          }
          all := step.value;
        }
      case Object(entries) =>
        var left := entries.Keys;
        while left != {}
          invariant left <= entries.Keys
          invariant forall key :: key in entries && key !in left ==> ReadableEntry(key, entries[key])
          invariant forall r :: r in all <==>
            r in references || exists key :: key in entries && key !in left && EntryHolds(key, entries[key], r)
          decreases left
        {
          var key :| key in left;
          var before, known := left, all;
          left := left - {key};
          if IsReferenceKey(key) {
            if !entries[key].Text? || ParseReference(entries[key].text).None? {
              assert !ReadableEntry(key, entries[key]);
              return None;
            }
            all := all + {ParseReference(entries[key].text).value};
          } else {
            var step := CollectSecretReferences(entries[key], all);
            if step.None? {
              assert !ReadableEntry(key, entries[key]);
              return None;
            }
            all := step.value;
          }
          assert forall r :: r in all <==> r in known || EntryHolds(key, entries[key], r);
          forall r ensures r in all <==>
            r in references || exists k :: k in entries && k !in left && EntryHolds(k, entries[k], r)
          {
            if k :| k in entries && k !in left && EntryHolds(k, entries[k], r) {
              assert k == key || k !in before;
            }
          }
        }
    }
    found := Some(all);
  }

  predicate ReadableLabels(labels: map<string, string>) {
    forall key :: key in labels && IsReferenceKey(key) ==> ParseReference(labels[key]).Some?
  }

  predicate LabelHolds(labels: map<string, string>, reference: Reference) {
    exists key :: key in labels && IsReferenceKey(key) && ParseReference(labels[key]) == Some(reference)
  }

  lemma TextsHoldNothing(texts: seq<string>, reference: Reference)
    ensures Readable(EncodeTexts(texts)) && !Holds(EncodeTexts(texts), reference)
  {
  }

  /** What two objects without a common key hold, their union holds. */
  lemma Merged(left: map<string, Json>, right: map<string, Json>, reference: Reference)
    requires left.Keys !! right.Keys
    ensures Readable(Object(left + right)) <==> Readable(Object(left)) && Readable(Object(right))
    ensures Holds(Object(left + right), reference) <==>
            Holds(Object(left), reference) || Holds(Object(right), reference)
  {
    var both := left + right;
    assert forall key :: key in left ==> key in both && both[key] == left[key];
    assert forall key :: key in right ==> key in both && both[key] == right[key];
  }

  lemma Single(key: string, value: Json, reference: Reference)
    ensures Readable(Object(map[key := value])) <==> ReadableEntry(key, value)
    ensures Holds(Object(map[key := value]), reference) <==> EntryHolds(key, value, reference)
  {
    assert map[key := value][key] == value;
  }

  lemma Nested(key: string, value: Json, reference: Reference)
    requires !IsReferenceKey(key)
    ensures Readable(Object(map[key := value])) <==> Readable(value)
    ensures Holds(Object(map[key := value]), reference) <==> Holds(value, reference)
  {
    Single(key, value, reference);
  }

  lemma TextEntry(key: string, text: string, reference: Reference)
    ensures ReadableEntry(key, Text(text)) <==> (IsReferenceKey(key) ==> ParseReference(text).Some?)
    ensures EntryHolds(key, Text(text), reference) <==>
            IsReferenceKey(key) && ParseReference(text) == Some(reference)
  {
  }

  /** Plain text properties contribute nothing. */
  predicate PlainEntries(entries: map<string, Json>) {
    forall key :: key in entries ==> !IsReferenceKey(key) && entries[key].Text?
  }

  lemma PlainHoldsNothing(entries: map<string, Json>, reference: Reference)
    requires PlainEntries(entries)
    ensures Readable(Object(entries)) && !Holds(Object(entries), reference)
  {
    forall key | key in entries
      ensures ReadableEntry(key, entries[key]) && !EntryHolds(key, entries[key], reference)
    {
      TextEntry(key, entries[key].text, reference);
    }
  }

  lemma ReferenceEntry(key: string, stored: Reference, reference: Reference)
    requires IsReferenceKey(key) && IsCanonical(stored)
    ensures Readable(Object(EncodeReference(key, stored)))
    ensures Holds(Object(EncodeReference(key, stored)), reference) <==> reference == stored
  {
    ParseRender(stored);
    TextEntry(key, RenderReference(stored), reference);
    Single(key, Text(RenderReference(stored)), reference);
  }

  lemma PlainAndReference(plain: map<string, Json>, key: string, stored: Reference, reference: Reference)
    requires PlainEntries(plain) && IsReferenceKey(key) && IsCanonical(stored)
    ensures Readable(Object(plain + EncodeReference(key, stored)))
    ensures Holds(Object(plain + EncodeReference(key, stored)), reference) <==> reference == stored
  {
    PlainHoldsNothing(plain, reference);
    ReferenceEntry(key, stored, reference);
    Merged(plain, EncodeReference(key, stored), reference);
  }

  lemma KeyPairReferences(plain: map<string, Json>, keyRef: Reference, passwordRef: Option<Reference>,
                          reference: Reference)
    requires PlainEntries(plain)
    requires IsCanonical(keyRef) && (passwordRef.Some? ==> IsCanonical(passwordRef.value))
    ensures Readable(Object(plain + EncodeKeyPair(keyRef, passwordRef)))
    ensures Holds(Object(plain + EncodeKeyPair(keyRef, passwordRef)), reference) <==>
            reference == keyRef || Some(reference) == passwordRef
  {
    var key, password := EncodeReference("privateKeyRef", keyRef),
      EncodeOptionalReference("privateKeyPasswordRef", passwordRef);
    PlainHoldsNothing(plain, reference);
    ReferenceEntry("privateKeyRef", keyRef, reference);
    Merged(key, password, reference);
    if passwordRef.Some? {
      ReferenceEntry("privateKeyPasswordRef", passwordRef.value, reference);
    }
    Merged(plain, key + password, reference);
  }

  lemma OAuthReferences(url: string, clientId: string, scopes: seq<string>, secretRef: Reference,
                        rest: map<string, Json>, reference: Reference)
    requires IsCanonical(secretRef) && PlainEntries(rest)
    requires rest.Keys !! {"type", "tokenUrl", "clientId", "scopes", "clientSecretRef"}
    ensures Readable(Object(EncodeOAuth(url, clientId, scopes, secretRef) + rest))
    ensures Holds(Object(EncodeOAuth(url, clientId, scopes, secretRef) + rest), reference) <==>
            reference == secretRef
  {
    var plain := map["type" := Text("oauth"), "tokenUrl" := Text(url), "clientId" := Text(clientId)];
    var listed := map["scopes" := EncodeTexts(scopes)];
    var secret := EncodeReference("clientSecretRef", secretRef);
    assert PlainEntries(plain);
    PlainHoldsNothing(plain, reference);
    PlainHoldsNothing(rest, reference);
    TextsHoldNothing(scopes, reference);
    Nested("scopes", EncodeTexts(scopes), reference);
    ReferenceEntry("clientSecretRef", secretRef, reference);
    Merged(plain, listed, reference);
    Merged(plain + listed, secret, reference);
    Merged(plain + listed + secret, rest, reference);
  }

  lemma KafkaAuthReferences(auth: KafkaAuth, reference: Reference)
    requires AllCanonical(KafkaReferences(auth))
    ensures Readable(EncodeKafkaAuth(auth))
    ensures Holds(EncodeKafkaAuth(auth), reference) <==> reference in KafkaReferences(auth).Values
  {
    hide Readable, Holds, ReadableEntry, EntryHolds, ParseReference, IsCanonicalUuid, EncodeOAuth, EncodeKeyPair;
    var references := KafkaReferences(auth);
    match auth
    case KafkaNone =>
      PlainHoldsNothing(map["type" := Text("none")], reference);
    case KafkaSasl(mechanism, username, passwordRef) =>
      assert references[KafkaPassword] == passwordRef;
      PlainAndReference(map["type" := Text(MechanismName(mechanism)), "username" := Text(username)],
                        "passwordRef", passwordRef, reference);
    case KafkaMtls(certificate, keyRef, passwordRef) =>
      assert references[KafkaPrivateKey] == keyRef;
      assert passwordRef.Some? ==> references[KafkaPrivateKeyPassword] == passwordRef.value;
      KeyPairReferences(map["type" := Text("mtls"), "clientCertificate" := Text(certificate)],
                        keyRef, passwordRef, reference);
    case KafkaOAuth(url, clientId, scopes, secretRef, ca) =>
      assert references[KafkaClientSecret] == secretRef;
      OAuthReferences(url, clientId, scopes, secretRef, EncodeOptional("caCertificates", ca), reference);
  }

  lemma RegistryAuthReferences(registry: Registry, reference: Reference)
    requires AllCanonical(RegistryReferences(Some(registry)))
    ensures Readable(EncodeRegistryAuth(registry.auth))
    ensures Holds(EncodeRegistryAuth(registry.auth), reference) <==>
            reference in RegistryReferences(Some(registry)).Values
  {
    hide Readable, Holds, ReadableEntry, EntryHolds, ParseReference, IsCanonicalUuid, EncodeOAuth, EncodeKeyPair;
    var references := RegistryReferences(Some(registry));
    assert forall field :: field in references ==> IsCanonical(references[field]);
    match registry.auth
    case RegistryNone =>
      PlainHoldsNothing(map["type" := Text("none")], reference);
    case RegistryBasic(username, passwordRef) =>
      assert references[RegistryPassword] == passwordRef;
      PlainAndReference(map["type" := Text("basic"), "username" := Text(username)],
                        "passwordRef", passwordRef, reference);
    case RegistryBearer(tokenRef) =>
      assert references[RegistryToken] == tokenRef;
      PlainAndReference(map["type" := Text("token")], "tokenRef", tokenRef, reference);
    case RegistryMtls(keyRef, passwordRef) =>
      assert references[RegistryPrivateKey] == keyRef;
      assert passwordRef.Some? ==> references[RegistryPrivateKeyPassword] == passwordRef.value;
      RegistryKeyReferences(registry.auth, reference);
    case RegistryOAuth(_, _, _, secretRef, _, _, _) =>
      assert references[RegistryClientSecret] == secretRef;
      RegistryOAuthReferences(registry.auth, reference);
  }

  lemma RegistryKeyReferences(auth: RegistryAuth, reference: Reference)
    requires auth.RegistryMtls? && IsCanonical(auth.privateKeyRef)
    requires auth.privateKeyPasswordRef.Some? ==> IsCanonical(auth.privateKeyPasswordRef.value)
    ensures Readable(EncodeRegistryAuth(auth))
    ensures Holds(EncodeRegistryAuth(auth), reference) <==>
            reference == auth.privateKeyRef || Some(reference) == auth.privateKeyPasswordRef
  {
    KeyPairReferences(map["type" := Text("mtls")], auth.privateKeyRef, auth.privateKeyPasswordRef, reference);
  }

  lemma RegistryOAuthReferences(auth: RegistryAuth, reference: Reference)
    requires auth.RegistryOAuth? && IsCanonical(auth.clientSecretRef)
    ensures Readable(EncodeRegistryAuth(auth))
    ensures Holds(EncodeRegistryAuth(auth), reference) <==> reference == auth.clientSecretRef
  {
    hide Readable, Holds, ReadableEntry, EntryHolds, ParseReference, IsCanonicalUuid, EncodeOAuth;
    OAuthReferences(auth.tokenUrl, auth.clientId, auth.scopes, auth.clientSecretRef,
                    EncodeOptional("caCertificates", auth.caCertificates)
                    + EncodeOptional("logicalCluster", auth.logicalCluster)
                    + EncodeOptional("identityPoolId", auth.identityPoolId), reference);
  }

  lemma KafkaSectionReferences(kafka: Kafka, reference: Reference)
    requires AllCanonical(KafkaReferences(kafka.auth))
    ensures Readable(EncodeKafka(kafka))
    ensures Holds(EncodeKafka(kafka), reference) <==> reference in KafkaReferences(kafka.auth).Values
  {
    hide Readable, Holds, ReadableEntry, EntryHolds, ParseReference, IsCanonicalUuid, EncodeOAuth, EncodeKeyPair;
    hide EncodeKafkaAuth, EncodeTexts;
    var tls := if kafka.caCertificates.None? then map[]
      else map["tls" := Object(EncodeOptional("caCertificates", kafka.caCertificates))];
    var servers := map["bootstrapServers" := EncodeTexts(kafka.bootstrapServers)];
    var transport := map["transport" := Text(kafka.transport)];
    var auth := map["auth" := EncodeKafkaAuth(kafka.auth)];
    KafkaAuthReferences(kafka.auth, reference);
    TextsHoldNothing(kafka.bootstrapServers, reference);
    Nested("bootstrapServers", EncodeTexts(kafka.bootstrapServers), reference);
    PlainHoldsNothing(transport, reference);
    Nested("auth", EncodeKafkaAuth(kafka.auth), reference);
    PlainHoldsNothing(EncodeOptional("caCertificates", kafka.caCertificates), reference);
    Nested("tls", Object(EncodeOptional("caCertificates", kafka.caCertificates)), reference);
    Merged(servers, transport, reference);
    Merged(servers + transport, auth, reference);
    Merged(servers + transport + auth, tls, reference);
    assert servers + transport + auth + tls == EncodeKafka(kafka).entries;
  }

  lemma SectionKeys(registry: Registry)
    ensures UrlProperty(registry.provider) != "auth" && UrlProperty(registry.provider) != "tls"
    ensures PlainEntries(map["provider" := Text(registry.provider),
                             UrlProperty(registry.provider) := Text(registry.url)])
    ensures !IsReferenceKey("auth") && !IsReferenceKey("tls")
    ensures registry.tls.Some? ==> PlainEntries(EncodeRegistryTls(registry.tls.value).entries)
  {
  }

  lemma RegistrySectionReferences(registry: Registry, reference: Reference)
    requires AllCanonical(RegistryReferences(Some(registry)))
    ensures Readable(EncodeRegistry(registry))
    ensures Holds(EncodeRegistry(registry), reference) <==>
            reference in RegistryReferences(Some(registry)).Values
  {
    hide Readable, Holds, ReadableEntry, EntryHolds, ParseReference, IsCanonicalUuid, EncodeOAuth, EncodeKeyPair;
    hide EncodeRegistryAuth, RegistryReferences, AllCanonical, UrlProperty, IsReferenceKey, EncodeOptional;
    var plain := map["provider" := Text(registry.provider), UrlProperty(registry.provider) := Text(registry.url)];
    var auth := map["auth" := EncodeRegistryAuth(registry.auth)];
    var tls := if registry.tls.None? then map[] else map["tls" := EncodeRegistryTls(registry.tls.value)];
    RegistryAuthReferences(registry, reference);
    SectionKeys(registry);
    PlainHoldsNothing(map[], reference);
    PlainHoldsNothing(plain, reference);
    Nested("auth", EncodeRegistryAuth(registry.auth), reference);
    if registry.tls.Some? {
      PlainHoldsNothing(EncodeRegistryTls(registry.tls.value).entries, reference);
      assert Object(EncodeRegistryTls(registry.tls.value).entries) == EncodeRegistryTls(registry.tls.value);
      Nested("tls", EncodeRegistryTls(registry.tls.value), reference);
    }
    Merged(plain, auth, reference);
    Merged(plain + auth, tls, reference);
    assert EncodeRegistry(registry) == Object(plain + auth + tls);
  }

  lemma LabelReferences(labels: map<string, string>, reference: Reference)
    ensures Readable(EncodeLabels(labels)) <==> ReadableLabels(labels)
    ensures Holds(EncodeLabels(labels), reference) <==> LabelHolds(labels, reference)
  {
    var entries := EncodeLabels(labels).entries;
    assert entries.Keys == labels.Keys;
    assert forall key :: key in labels ==> entries[key] == Text(labels[key]);
    forall key | key in labels { TextEntry(key, labels[key], reference); }
    if !Readable(EncodeLabels(labels)) {
      var key :| key in entries && !ReadableEntry(key, entries[key]);
      assert key in labels && IsReferenceKey(key) && ParseReference(labels[key]).None?;
    }
    if !ReadableLabels(labels) {
      var key :| key in labels && IsReferenceKey(key) && ParseReference(labels[key]).None?;
      assert key in entries && !ReadableEntry(key, entries[key]);
    }
    if Holds(EncodeLabels(labels), reference) {
      var key :| key in entries && EntryHolds(key, entries[key], reference);
      assert key in labels && IsReferenceKey(key) && ParseReference(labels[key]) == Some(reference);
    }
    if LabelHolds(labels, reference) {
      var key :| key in labels && IsReferenceKey(key) && ParseReference(labels[key]) == Some(reference);
      assert key in entries && EntryHolds(key, entries[key], reference);
    }
  }

  lemma LabelsEntryReferences(labels: map<string, string>, reference: Reference)
    ensures LabelsEntry(labels).Keys <= {"labels"}
    ensures Readable(Object(LabelsEntry(labels))) <==> ReadableLabels(labels)
    ensures Holds(Object(LabelsEntry(labels)), reference) <==> LabelHolds(labels, reference)
  {
    hide Readable, Holds, ReadableEntry, EntryHolds, ParseReference, EncodeLabels;
    PlainHoldsNothing(map[], reference);
    LabelReferences(labels, reference);
    Nested("labels", EncodeLabels(labels), reference);
  }

  lemma RegistryEntryReferences(registry: Option<Registry>, reference: Reference)
    requires AllCanonical(RegistryReferences(registry))
    ensures RegistryEntry(registry).Keys <= {"registry"}
    ensures Readable(Object(RegistryEntry(registry)))
    ensures Holds(Object(RegistryEntry(registry)), reference) <==> reference in RegistryReferences(registry).Values
  {
    hide Readable, Holds, ReadableEntry, EntryHolds, EncodeRegistry, AllCanonical;
    if registry.None? {
      PlainHoldsNothing(map[], reference);
    } else {
      RegistrySectionReferences(registry.value, reference);
      Nested("registry", EncodeRegistry(registry.value), reference);
    }
  }

  /** What the scan reads from a profile: exactly the credential references of its authentication,
      plus whatever a label whose name ends in `Ref` happens to say. It fails exactly when such a
      label holds any other text. */
  lemma EncodedReferences(document: Document, reference: Reference)
    requires AllCanonical(ProfileReferences(document))
    ensures Readable(EncodeProfile(document)) <==> ReadableLabels(document.labels)
    ensures Holds(EncodeProfile(document), reference) <==>
            reference in ProfileReferences(document).Values || LabelHolds(document.labels, reference)
  {
    ReferencesSplit(document);
    hide Readable, Holds, ReadableEntry, EntryHolds, EncodeRegistry, EncodeKafka, EncodeLabels, LabelsEntry,
      RegistryEntry, ProfileReferences, KafkaReferences, RegistryReferences, AllCanonical, IsCanonicalUuid;
    var head := map["id" := Text(document.id)] + EncodeOptional("description", document.description);
    var kafka := map["kafka" := EncodeKafka(document.kafka)];
    PlainHoldsNothing(head, reference);
    KafkaSectionReferences(document.kafka, reference);
    Nested("kafka", EncodeKafka(document.kafka), reference);
    LabelsEntryReferences(document.labels, reference);
    RegistryEntryReferences(document.registry, reference);
    Merged(head, kafka, reference);
    Merged(head + kafka, LabelsEntry(document.labels), reference);
    Merged(head + kafka + LabelsEntry(document.labels), RegistryEntry(document.registry), reference);
  }

  /** Kafka and Registry fields never clash, so a profile's references are those of both sections. */
  lemma ReferencesSplit(document: Document)
    ensures ProfileReferences(document).Values ==
            KafkaReferences(document.kafka.auth).Values + RegistryReferences(document.registry).Values
    ensures AllCanonical(ProfileReferences(document)) ==>
              AllCanonical(KafkaReferences(document.kafka.auth)) && AllCanonical(RegistryReferences(document.registry))
  {
    var kafka, registry := KafkaReferences(document.kafka.auth), RegistryReferences(document.registry);
    var both := ProfileReferences(document);
    assert kafka.Keys !! registry.Keys;
    assert forall field :: field in kafka ==> field in both && both[field] == kafka[field];
    assert forall field :: field in registry ==> field in both && both[field] == registry[field];
  }
}
