/** Readers that account for their keys (`property_mapping.py`).

    A mapping asks a `PropertyReader` for each key it knows; what it never asked for is an error at the end. Certificate, PEM and URL validation are uninterpreted `ImportChecks`. */
module PropertyMapping {
  import opened Wrappers
  import opened PropertiesSyntax
  import opened JavaRendering
  import opened JaasRendering

  /** Library and validation functions that this model leaves uninterpreted; `None` is a rejection.
      Validators of PEM text include its normalization, and readers the resolution of the path. */
  datatype ImportChecks = ImportChecks(
    lower: string -> string, upper: string -> string, brokerAddress: string -> bool, endpoint: string -> bool,
    registryUrl: string -> bool, caBundle: string -> Option<string>, readCaBundle: string -> Option<string>,
    certificate: string -> Option<string>, readCertificate: string -> Option<string>,
    readPrivateKey: string -> Option<string>,
    identity: (string, string, Option<string>) -> Option<(string, string)>)

  /** What proves a client's identity. */
  datatype Identity = Identity(certificate: string, privateKey: string, password: Option<string>)

  function Get(values: map<string, string>, key: string): Option<string> {
    if key in values then Some(values[key]) else None
  }

  function Required(values: map<string, string>, key: string): Option<string> {
    if key in values && values[key] != "" then Some(values[key]) else None
  }

  function SecretAt(values: map<string, string>, key: string): Option<string> {
    if key in values && ValidText(values[key]) then Some(values[key]) else None
  }

  function UrlAt(values: map<string, string>, key: string, checks: ImportChecks): Option<string> {
    if key in values && values[key] != "" && checks.endpoint(values[key]) then Some(values[key]) else None
  }

  /** A certificate text from one of two keys; the outer option is a rejection, of both keys among others. */
  function PemAt(values: map<string, string>, inlineKey: string, locationKey: string,
                 validate: string -> Option<string>, read: string -> Option<string>): Option<Option<string>> {
    if inlineKey in values && locationKey in values then None
    else if inlineKey in values then
      if validate(values[inlineKey]).None? then None else Some(validate(values[inlineKey]))
    else if locationKey in values then
      if read(values[locationKey]).None? then None else Some(read(values[locationKey]))
    else Some(None)
  }

  class PropertyReader {
    const values: map<string, string>
    var taken: set<string>

    constructor (values: map<string, string>)
      ensures this.values == values && taken == {}
    {
      this.values, this.taken := values, {};
    }

    predicate Has(key: string) {
      key in values
    }

    method Take(key: string) returns (value: Option<string>)
      modifies this
      ensures taken == old(taken) + {key} && value == Get(values, key)
    {
      taken := taken + {key};
      value := if key in values then Some(values[key]) else None;
    }

    method Require(key: string) returns (value: Option<string>)
      modifies this
      ensures taken == old(taken) + {key} && value == Required(values, key)
    {
      value := Take(key);
      if value == Some("") {
        return None;
      }
    }

    method Secret(key: string) returns (value: Option<string>)
      modifies this
      ensures taken == old(taken) + {key} && value == SecretAt(values, key)
    {
      value := Require(key);
      if value.Some? && !ValidText(value.value) {
        return None;
      }
    }

    method HttpsUrl(key: string, checks: ImportChecks) returns (value: Option<string>)
      modifies this
      ensures taken == old(taken) + {key} && value == UrlAt(values, key, checks)
    {
      value := Require(key);
      if value.Some? && !checks.endpoint(value.value) {
        return None;
      }
    }

    method Pem(inlineKey: string, locationKey: string, validate: string -> Option<string>,
               read: string -> Option<string>)
      returns (pem: Option<Option<string>>)
      modifies this
      ensures taken == old(taken) + {inlineKey, locationKey}
      ensures pem == PemAt(values, inlineKey, locationKey, validate, read)
    {
      var inline := Take(inlineKey);
      var location := Take(locationKey);
      if inline.Some? && location.Some? {
        return None;
      }
      if inline.Some? {
        var valid := validate(inline.value);
        return if valid.None? then None else Some(valid);
      }
      if location.Some? {
        var valid := read(location.value);
        return if valid.None? then None else Some(valid);
      }
      return Some(None);
    }

    /** `reject_unused`: whether no key was left untaken. */
    predicate NothingLeft()
      reads this
    {
      values.Keys <= taken
    }
  }

  // Shared rules

  const IDENTIFICATION := "ssl.endpoint.identification.algorithm"

  /** `check_hostname_verification`. */
  function HostnamesVerified(values: map<string, string>, checks: ImportChecks): bool {
    IDENTIFICATION in values ==> checks.lower(values[IDENTIFICATION]) == "https"
  }

  method CheckHostnames(reader: PropertyReader, checks: ImportChecks) returns (ok: bool)
    modifies reader
    ensures reader.taken == old(reader.taken) + {IDENTIFICATION}
    ensures ok <==> HostnamesVerified(reader.values, checks)
  {
    var algorithm := reader.Take(IDENTIFICATION);
    ok := algorithm.None? || checks.lower(algorithm.value) == "https";
  }

  /** `str.isspace`. */
  predicate IsSpace(c: char) {
    var code := c as int;
    || 9 <= code <= 13 || 28 <= code <= 32 || code == 0x85 || code == 0xA0 || code == 0x1680
    || 0x2000 <= code <= 0x200A || code == 0x2028 || code == 0x2029 || code == 0x202F || code == 0x205F
    || code == 0x3000
  }

  function WordEnd(text: string): (end: nat)
    ensures end <= |text|
    ensures forall i :: 0 <= i < end ==> !IsSpace(text[i])
    ensures end < |text| ==> IsSpace(text[end])
  {
    if text == "" || IsSpace(text[0]) then 0 else 1 + WordEnd(text[1..])
  }

  /** `text.split()`. */
  function SplitWords(text: string): seq<string>
    decreases |text|
  {
    if text == "" then []
    else if IsSpace(text[0]) then SplitWords(text[1..])
    else [text[..WordEnd(text)]] + SplitWords(text[WordEnd(text)..])
  }

  predicate Distinct<T(==)>(items: seq<T>) {
    forall i, j :: 0 <= i < j < |items| ==> items[i] != items[j]
  }

  /** `split_scopes`. */
  function SplitScopes(value: Option<string>): Option<seq<string>> {
    var scopes := if value.None? then [] else SplitWords(value.value);
    if Distinct(scopes) then Some(scopes) else None
  }

  const TRUST_KEYS := {"ssl.truststore.type", "ssl.truststore.certificates", "ssl.truststore.location"}

  /** `java_pem_trust`. */
  function JavaTrust(values: map<string, string>, checks: ImportChecks): Option<Option<string>> {
    var present := "ssl.truststore.certificates" in values || "ssl.truststore.location" in values;
    var storeType := Get(values, "ssl.truststore.type");
    if (storeType.Some? || present) && storeType != Some("PEM") then None
    else PemAt(values, "ssl.truststore.certificates", "ssl.truststore.location", checks.caBundle, checks.readCaBundle)
  }

  method JavaPemTrust(reader: PropertyReader, checks: ImportChecks) returns (trust: Option<Option<string>>)
    modifies reader
    ensures trust == JavaTrust(reader.values, checks)
    ensures trust.Some? ==> reader.taken == old(reader.taken) + TRUST_KEYS
  {
    var storeType := reader.Take("ssl.truststore.type");
    var present := reader.Has("ssl.truststore.certificates") || reader.Has("ssl.truststore.location");
    if (storeType.Some? || present) && storeType != Some("PEM") {
      return None;
    }
    trust := reader.Pem("ssl.truststore.certificates", "ssl.truststore.location", checks.caBundle, checks.readCaBundle);
  }

  /** `client_identity`: the outer option is a rejection, the inner one an absent identity. */
  function ClientIdentity(certificate: Option<string>, key: Option<string>, password: Option<string>,
                          checks: ImportChecks): Option<Option<Identity>> {
    if certificate.None? && key.None? then Some(None)
    else if certificate.None? || key.None? || password == Some("") then None
    else
      var valid := checks.identity(certificate.value, key.value, password);
      if valid.None? then None else Some(Some(Identity(valid.value.0, valid.value.1, password)))
  }

  function JavaIdentityKeys(values: map<string, string>): set<string> {
    {"ssl.keystore.type", "ssl.keystore.certificate.chain", "ssl.keystore.key"} +
    if "ssl.keystore.certificate.chain" in values || "ssl.keystore.key" in values then {"ssl.key.password"} else {}
  }

  /** `java_pem_identity` and its validation. */
  function JavaIdentity(values: map<string, string>, checks: ImportChecks): Option<Option<Identity>> {
    var storeType := Get(values, "ssl.keystore.type");
    var chain, key := Get(values, "ssl.keystore.certificate.chain"), Get(values, "ssl.keystore.key");
    var present := chain.Some? || key.Some?;
    if (storeType.Some? || present) && storeType != Some("PEM") then None
    else ClientIdentity(chain, key, if present then Get(values, "ssl.key.password") else None, checks)
  }

  method JavaPemIdentity(reader: PropertyReader, checks: ImportChecks) returns (identity: Option<Option<Identity>>)
    modifies reader
    ensures identity == JavaIdentity(reader.values, checks)
    ensures identity.Some? ==> reader.taken == old(reader.taken) + JavaIdentityKeys(reader.values)
  {
    var storeType := reader.Take("ssl.keystore.type");
    var chain := reader.Take("ssl.keystore.certificate.chain");
    var key := reader.Take("ssl.keystore.key");
    var present := chain.Some? || key.Some?;
    if (storeType.Some? || present) && storeType != Some("PEM") {
      return None;
    }
    var password: Option<string> := None;
    if present {
      password := reader.Take("ssl.key.password");
    }
    identity := ClientIdentity(chain, key, password, checks);
  }
}
