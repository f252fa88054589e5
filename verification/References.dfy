/** Immutable credential references (`secret_store.py`).

    A reference is stored as the text `profile/PROFILE/CREDENTIAL/FIELD`. The rest of
    the model works on the parsed triple, which `ParseRender` and `RenderParse` show
    to carry exactly the information of the text. */
module References {
  import opened Wrappers

  type Uuid = string

  type Secret = string

  datatype Field =
    | KafkaPassword
    | KafkaClientSecret
    | KafkaPrivateKey
    | KafkaPrivateKeyPassword
    | RegistryPassword
    | RegistryToken
    | RegistryClientSecret
    | RegistryPrivateKey
    | RegistryPrivateKeyPassword
  {
    function Name(): string {
      match this
      case KafkaPassword => "kafka/password"
      case KafkaClientSecret => "kafka/oauth/client-secret"
      case KafkaPrivateKey => "kafka/tls/private-key"
      case KafkaPrivateKeyPassword => "kafka/tls/private-key-password"
      case RegistryPassword => "registry/password"
      case RegistryToken => "registry/token"
      case RegistryClientSecret => "registry/oauth/client-secret"
      case RegistryPrivateKey => "registry/tls/private-key"
      case RegistryPrivateKeyPassword => "registry/tls/private-key-password"
    }
  }

  datatype Reference = Reference(profileId: Uuid, credentialId: Uuid, field: Field)

  /** The field with this exact name, if it is one of the nine supported ones. */
  function FieldNamed(name: string): Option<Field> {
    if name == "kafka/password" then Some(KafkaPassword)
    else if name == "kafka/oauth/client-secret" then Some(KafkaClientSecret)
    else if name == "kafka/tls/private-key" then Some(KafkaPrivateKey)
    else if name == "kafka/tls/private-key-password" then Some(KafkaPrivateKeyPassword)
    else if name == "registry/password" then Some(RegistryPassword)
    else if name == "registry/token" then Some(RegistryToken)
    else if name == "registry/oauth/client-secret" then Some(RegistryClientSecret)
    else if name == "registry/tls/private-key" then Some(RegistryPrivateKey)
    else if name == "registry/tls/private-key-password" then Some(RegistryPrivateKeyPassword)
    else None
  }

  predicate IsLowerHex(c: char) {
    '0' <= c <= '9' || 'a' <= c <= 'f'
  }

  /** Whether a text equals the canonical form of the UUID it denotes. */
  predicate IsCanonicalUuid(text: string) {
    && |text| == 36
    && forall i :: 0 <= i < 36 ==>
         if i == 8 || i == 13 || i == 18 || i == 23 then text[i] == '-' else IsLowerHex(text[i])
  }

  predicate IsCanonical(reference: Reference) {
    IsCanonicalUuid(reference.profileId) && IsCanonicalUuid(reference.credentialId)
  }

  /** `text.split("/", limit)`. */
  function SplitSlashes(text: string, limit: nat): (parts: seq<string>)
    ensures 1 <= |parts| <= limit + 1
    decreases limit, |text|
  {
    var at := FirstSlash(text);
    if limit == 0 || at == |text| then [text]
    else [text[..at]] + SplitSlashes(text[at + 1..], limit - 1)
  }

  function FirstSlash(text: string): (at: nat)
    ensures at <= |text|
    ensures '/' !in text[..at]
    ensures at < |text| ==> text[at] == '/'
  {
    if text == "" || text[0] == '/' then 0 else 1 + FirstSlash(text[1..])
  }

  function RenderReference(reference: Reference): string {
    "profile/" + reference.profileId + "/" + reference.credentialId + "/" + reference.field.Name()
  }

  function ParseReference(text: string): Option<Reference> {
    var parts := SplitSlashes(text, 3);
    if |parts| != 4 || parts[0] != "profile" || !IsCanonicalUuid(parts[1]) || !IsCanonicalUuid(parts[2]) then
      None
    else
      match FieldNamed(parts[3])
      case None => None
      case Some(field) => Some(Reference(parts[1], parts[2], field))
  }

  lemma FieldNames(field: Field)
    ensures FieldNamed(field.Name()) == Some(field)
  {
    match field
    case KafkaPassword =>
    case KafkaClientSecret =>
    case KafkaPrivateKey =>
    case KafkaPrivateKeyPassword =>
    case RegistryPassword =>
    case RegistryToken =>
    case RegistryClientSecret =>
    case RegistryPrivateKey =>
    case RegistryPrivateKeyPassword =>
  }

  lemma NamedField(name: string)
    ensures FieldNamed(name).Some? ==> FieldNamed(name).value.Name() == name
  {
  }

  lemma UuidHasNoSlash(text: string)
    requires IsCanonicalUuid(text)
    ensures '/' !in text
  {
    forall i | 0 <= i < |text| ensures text[i] != '/' {
      assert if i == 8 || i == 13 || i == 18 || i == 23 then text[i] == '-' else IsLowerHex(text[i]);
    }
  }

  /** Splitting takes a slash-free prefix off the front. */
  lemma SplitStep(head: string, rest: string, limit: nat)
    requires '/' !in head && limit > 0
    ensures SplitSlashes(head + "/" + rest, limit) == [head] + SplitSlashes(rest, limit - 1)
  {
    var text := head + "/" + rest;
    var at := FirstSlash(text);
    assert text[|head|] == '/';
    assert at >= |head|;
    assert at <= |head|;
    assert text[..at] == head && text[at + 1..] == rest;
  }

  /** Joining the parts with slashes gives the text back. */
  function JoinSlashes(parts: seq<string>): string
    requires parts != []
  {
    if |parts| == 1 then parts[0] else parts[0] + "/" + JoinSlashes(parts[1..])
  }

  lemma JoinFirst(first: string, rest: seq<string>)
    requires rest != []
    ensures JoinSlashes([first] + rest) == first + "/" + JoinSlashes(rest)
  {
    assert ([first] + rest)[1..] == rest;
  }

  lemma {:induction false} JoinSplit(text: string, limit: nat)
    ensures JoinSlashes(SplitSlashes(text, limit)) == text
    decreases limit
  {
    hide FirstSlash, JoinSlashes;
    var at := FirstSlash(text);
    if limit > 0 && at < |text| {
      var first, later := text[..at], text[at + 1..];
      JoinSplit(later, limit - 1);
      JoinFirst(first, SplitSlashes(later, limit - 1));
      assert first + "/" + later == text;
    } else {
      JoinOne(text);
    }
  }

  lemma JoinOne(text: string)
    ensures JoinSlashes([text]) == text
  {
  }

  lemma JoinFour(parts: seq<string>)
    requires |parts| == 4
    ensures JoinSlashes(parts) == parts[0] + "/" + parts[1] + "/" + parts[2] + "/" + parts[3]
  {
    assert JoinSlashes(parts[1..][1..][1..]) == parts[3];
    assert JoinSlashes(parts[1..][1..]) == parts[2] + "/" + parts[3];
    assert JoinSlashes(parts[1..]) == parts[1] + "/" + (parts[2] + "/" + parts[3]);
  }

  /** Every reference the program builds parses back to the same owner, credential and field. */
  lemma ParseRender(reference: Reference)
    requires IsCanonical(reference)
    ensures ParseReference(RenderReference(reference)) == Some(reference)
  {
    hide IsCanonicalUuid, FieldNamed, Field.Name, SplitSlashes;
    UuidHasNoSlash(reference.profileId);
    UuidHasNoSlash(reference.credentialId);
    FieldNames(reference.field);
    SplitsInFour(reference.profileId, reference.credentialId, reference.field.Name());
  }

  lemma SplitsInFour(owner: string, credential: string, name: string)
    requires '/' !in owner && '/' !in credential
    ensures SplitSlashes("profile/" + owner + "/" + credential + "/" + name, 3) == ["profile", owner, credential, name]
  {
    hide SplitSlashes;
    assert "profile/" + owner + "/" + credential + "/" + name == "profile" + "/" + (owner + "/" + (credential + "/" + name));
    SplitStep("profile", owner + "/" + (credential + "/" + name), 3);
    SplitStep(owner, credential + "/" + name, 2);
    SplitStep(credential, name, 1);
    SplitNothing(name);
  }

  lemma SplitNothing(text: string)
    ensures SplitSlashes(text, 0) == [text]
  {
  }

  /** No other text denotes a reference: an accepted text is the rendering of what it parses to. */
  lemma RenderParse(text: string)
    requires ParseReference(text).Some?
    ensures IsCanonical(ParseReference(text).value)
    ensures RenderReference(ParseReference(text).value) == text
  {
    hide IsCanonicalUuid, FieldNamed, Field.Name, SplitSlashes, JoinSlashes;
    var parts := SplitSlashes(text, 3);
    JoinSplit(text, 3);
    NamedField(parts[3]);
    JoinFour(parts);
    var Reference(owner, credential, field) := ParseReference(text).value;
    assert "profile" + "/" + owner + "/" + credential + "/" + field.Name() == RenderReference(Reference(owner, credential, field));
  }
}
