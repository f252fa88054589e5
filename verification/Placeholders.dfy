/** When an export is taken for an unfilled template (`client_properties.py`), told from the connection's fields. */
module Placeholders {
  import opened Wrappers
  import opened Documents
  import opened JavaRendering
  import opened Librdkafka
  import opened Jaas
  import opened JaasRendering
  import opened PropertyMapping
  import opened KafkaProperties
  import opened ClientProperties
  import opened ImportedFiles
  import opened ExportImport

  // Braces in a text

  predicate Opens(text: string) {
    exists i :: 0 <= i < |text| && Twice(text, i, '{')
  }

  predicate Closes(text: string) {
    exists i :: 0 <= i < |text| && Twice(text, i, '}')
  }

  predicate IsBrace(c: char) {
    c == '{' || c == '}'
  }

  predicate Braceless(text: string) {
    forall i :: 0 <= i < |text| ==> !IsBrace(text[i])
  }

  lemma BracelessIsFilled(text: string)
    requires Braceless(text)
    ensures !Opens(text) && !Closes(text) && !HasPlaceholder(text)
  {
  }

  /** A placeholder within one of the texts, or from one to a later one. */
  predicate Spans(texts: seq<string>) {
    || (exists i :: 0 <= i < |texts| && HasPlaceholder(texts[i]))
    || (exists i, j :: 0 <= i < j < |texts| && Opens(texts[i]) && Closes(texts[j]))
  }

  /** A character that is no brace keeps the braces on its two sides apart. */
  lemma Apart(left: string, c: char, right: string)
    requires !IsBrace(c)
    ensures Opens(left + [c] + right) <==> Opens(left) || Opens(right)
    ensures Closes(left + [c] + right) <==> Closes(left) || Closes(right)
    ensures HasPlaceholder(left + [c] + right) <==>
            HasPlaceholder(left) || HasPlaceholder(right) || (Opens(left) && Closes(right))
  {
    OpensApart(left, c, right);
    ClosesApart(left, c, right);
    PlaceholderApart(left, c, right);
  }

  lemma TwiceApart(left: string, c: char, right: string, at: nat, brace: char)
    requires !IsBrace(c) && IsBrace(brace)
    ensures Twice(left + [c] + right, at, brace) <==>
            Twice(left, at, brace) || (at > |left| && Twice(right, at - |left| - 1, brace))
  {
    var text := left + [c] + right;
    assert text[|left|] == c;
    assert forall i :: 0 <= i < |left| ==> text[i] == left[i];
    assert forall i :: 0 <= i < |right| ==> text[|left| + 1 + i] == right[i];
    if at > |left| && at + 1 < |text| {
      assert text[at] == right[at - |left| - 1] && text[at + 1] == right[at - |left|];
    }
  }

  lemma OpensApart(left: string, c: char, right: string)
    requires !IsBrace(c)
    ensures Opens(left + [c] + right) <==> Opens(left) || Opens(right)
  {
    hide Twice;
    var text := left + [c] + right;
    if Opens(text) {
      var i :| 0 <= i < |text| && Twice(text, i, '{');
      TwiceInside(left, c, right, i, '{');
    }
    if Opens(left) {
      var i :| 0 <= i < |left| && Twice(left, i, '{');
      TwiceApart(left, c, right, i, '{');
    }
    if Opens(right) {
      var i :| 0 <= i < |right| && Twice(right, i, '{');
      TwiceApart(left, c, right, |left| + 1 + i, '{');
    }
  }

  lemma ClosesApart(left: string, c: char, right: string)
    requires !IsBrace(c)
    ensures Closes(left + [c] + right) <==> Closes(left) || Closes(right)
  {
    hide Twice;
    var text := left + [c] + right;
    if Closes(text) {
      var i :| 0 <= i < |text| && Twice(text, i, '}');
      TwiceInside(left, c, right, i, '}');
    }
    if Closes(left) {
      var i :| 0 <= i < |left| && Twice(left, i, '}');
      TwiceApart(left, c, right, i, '}');
    }
    if Closes(right) {
      var i :| 0 <= i < |right| && Twice(right, i, '}');
      TwiceApart(left, c, right, |left| + 1 + i, '}');
    }
  }

  lemma TwiceInside(left: string, c: char, right: string, at: nat, brace: char)
    requires !IsBrace(c) && IsBrace(brace) && Twice(left + [c] + right, at, brace)
    ensures if at < |left| then Twice(left, at, brace)
            else |left| < at < |left| + 1 + |right| && Twice(right, at - |left| - 1, brace)
  {
    TwiceApart(left, c, right, at, brace);
  }

  lemma PlaceholderApart(left: string, c: char, right: string)
    requires !IsBrace(c)
    ensures HasPlaceholder(left + [c] + right) <==>
            HasPlaceholder(left) || HasPlaceholder(right) || (Opens(left) && Closes(right))
  {
    var text, shift := left + [c] + right, |left| + 1;
    if HasPlaceholder(text) {
      var i, j :| 0 <= i && i + 2 <= j <= |text| - 2 && Twice(text, i, '{') && Twice(text, j, '}');
      TwiceInside(left, c, right, i, '{');
      TwiceInside(left, c, right, j, '}');
      Located(left, c, right, i, j);
    }
    if HasPlaceholder(left) {
      var i, j :| 0 <= i && i + 2 <= j <= |left| - 2 && Twice(left, i, '{') && Twice(left, j, '}');
      TwiceApart(left, c, right, i, '{');
      TwiceApart(left, c, right, j, '}');
    }
    if HasPlaceholder(right) {
      var i, j :| 0 <= i && i + 2 <= j <= |right| - 2 && Twice(right, i, '{') && Twice(right, j, '}');
      TwiceApart(left, c, right, shift + i, '{');
      TwiceApart(left, c, right, shift + j, '}');
    }
    if Opens(left) && Closes(right) {
      var i :| 0 <= i < |left| && Twice(left, i, '{');
      var j :| 0 <= j < |right| && Twice(right, j, '}');
      TwiceApart(left, c, right, i, '{');
      TwiceApart(left, c, right, shift + j, '}');
    }
  }

  lemma Located(left: string, c: char, right: string, i: nat, j: nat)
    requires i + 2 <= j
    requires if i < |left| then Twice(left, i, '{') else i > |left| && Twice(right, i - |left| - 1, '{')
    requires if j < |left| then Twice(left, j, '}') else j > |left| && Twice(right, j - |left| - 1, '}')
    ensures HasPlaceholder(left) || HasPlaceholder(right) || (Opens(left) && Closes(right))
  {
  }

  // Lists

  lemma {:induction false} JoinedOpens(items: seq<string>, separator: char)
    requires !IsBrace(separator)
    ensures Opens(Join(items, separator)) <==> exists i :: 0 <= i < |items| && Opens(items[i])
    ensures Closes(Join(items, separator)) <==> exists i :: 0 <= i < |items| && Closes(items[i])
  {
    hide Opens, Closes;
    if items == [] {
      BracelessIsFilled("");
    } else if |items| > 1 {
      var rest := items[1..];
      JoinedOpens(rest, separator);
      Apart(items[0], separator, Join(rest, separator));
      assert forall i :: 0 < i < |items| ==> items[i] == rest[i - 1];
      assert forall i :: 0 <= i < |rest| ==> rest[i] == items[i + 1];
    }
  }

  /** A joined list looks like a placeholder exactly when its items do, alone or together. */
  lemma {:induction false} JoinedSpans(items: seq<string>, separator: char)
    requires !IsBrace(separator)
    ensures HasPlaceholder(Join(items, separator)) <==> Spans(items)
  {
    hide Opens, Closes, HasPlaceholder;
    if items == [] {
      BracelessIsFilled("");
    } else if |items| > 1 {
      var rest := items[1..];
      JoinedSpans(rest, separator);
      JoinedOpens(rest, separator);
      Apart(items[0], separator, Join(rest, separator));
      SpansOneMore(items);
    }
  }

  lemma SpansOneMore(items: seq<string>)
    requires items != []
    ensures Spans(items) <==>
            HasPlaceholder(items[0]) || Spans(items[1..]) ||
            (Opens(items[0]) && exists j :: 0 <= j < |items[1..]| && Closes(items[1..][j]))
  {
    hide Opens, Closes, HasPlaceholder;
    var rest := items[1..];
    if Spans(items) {
      if i :| 0 <= i < |items| && HasPlaceholder(items[i]) {
        assert i > 0 ==> HasPlaceholder(rest[i - 1]);
      } else {
        var i, j :| 0 <= i < j < |items| && Opens(items[i]) && Closes(items[j]);
        assert Closes(rest[j - 1]);
        assert i > 0 ==> Opens(rest[i - 1]);
      }
    }
    if Spans(rest) {
      if i :| 0 <= i < |rest| && HasPlaceholder(rest[i]) {
        assert HasPlaceholder(items[i + 1]);
      } else {
        var i, j :| 0 <= i < j < |rest| && Opens(rest[i]) && Closes(rest[j]);
        assert Opens(items[i + 1]) && Closes(items[j + 1]);
      }
    }
    if j :| 0 <= j < |rest| && Closes(rest[j]) {
      assert Closes(items[j + 1]);
    }
  }

  // Quoted values

  lemma TwiceFirst(c: char, rest: string, brace: char)
    ensures Twice([c] + rest, 0, brace) <==> c == brace && rest != "" && rest[0] == brace
    ensures forall i :: 0 <= i < |rest| ==> (Twice([c] + rest, i + 1, brace) <==> Twice(rest, i, brace))
  {
  }

  lemma OpensFirst(c: char, rest: string)
    ensures Opens([c] + rest) <==> (c == '{' && rest != "" && rest[0] == '{') || Opens(rest)
  {
    hide Twice;
    TwiceFirst(c, rest, '{');
    var text := [c] + rest;
    if Opens(text) {
      var i :| 0 <= i < |text| && Twice(text, i, '{');
      assert i > 0 ==> Twice(rest, i - 1, '{');
    }
    if Opens(rest) {
      var i :| 0 <= i < |rest| && Twice(rest, i, '{');
      assert Twice(text, i + 1, '{');
    }
  }

  lemma ClosesFirst(c: char, rest: string)
    ensures Closes([c] + rest) <==> (c == '}' && rest != "" && rest[0] == '}') || Closes(rest)
  {
    hide Twice;
    TwiceFirst(c, rest, '}');
    var text := [c] + rest;
    if Closes(text) {
      var i :| 0 <= i < |text| && Twice(text, i, '}');
      assert i > 0 ==> Twice(rest, i - 1, '}');
    }
    if Closes(rest) {
      var i :| 0 <= i < |rest| && Twice(rest, i, '}');
      assert Twice(text, i + 1, '}');
    }
  }

  lemma PlaceholderFirst(c: char, rest: string)
    ensures HasPlaceholder([c] + rest) <==>
            (c == '{' && rest != "" && rest[0] == '{' && Closes(rest[1..])) || HasPlaceholder(rest)
  {
    hide Twice;
    var text := [c] + rest;
    TwiceFirst(c, rest, '{');
    TwiceFirst(c, rest, '}');
    if rest != "" {
      assert rest == [rest[0]] + rest[1..];
      TwiceFirst(rest[0], rest[1..], '}');
    }
    if HasPlaceholder(text) {
      var i, j :| 0 <= i && i + 2 <= j <= |text| - 2 && Twice(text, i, '{') && Twice(text, j, '}');
      assert Twice(rest, j - 1, '}');
      if i > 0 {
        assert Twice(rest, i - 1, '{');
      } else {
        assert Twice(rest[1..], j - 2, '}');
      }
    }
    if HasPlaceholder(rest) {
      var i, j :| 0 <= i && i + 2 <= j <= |rest| - 2 && Twice(rest, i, '{') && Twice(rest, j, '}');
      assert Twice(text, i + 1, '{') && Twice(text, j + 1, '}');
    }
    if c == '{' && rest != "" && rest[0] == '{' && Closes(rest[1..]) {
      var j :| 0 <= j < |rest[1..]| && Twice(rest[1..], j, '}');
      TwiceFits(rest[1..], j, '}');
      assert Twice(rest, j + 1, '}') && Twice(text, j + 2, '}');
    }
  }

  lemma TwiceFits(text: string, at: nat, brace: char)
    requires Twice(text, at, brace)
    ensures at + 2 <= |text|
  {
  }

  /** Quoting neither makes nor breaks a pair of braces. */
  lemma {:induction false} QuotedBraces(value: string)
    ensures Opens(QuoteChars(value)) <==> Opens(value)
    ensures Closes(QuoteChars(value)) <==> Closes(value)
    ensures HasPlaceholder(QuoteChars(value)) <==> HasPlaceholder(value)
    ensures forall c :: IsBrace(c) ==>
              (QuoteChars(value) != "" && QuoteChars(value)[0] == c <==> value != "" && value[0] == c)
  {
    hide Opens, Closes, HasPlaceholder;
    if value != "" {
      var c, rest := value[0], value[1..];
      QuotedBraces(rest);
      assert value == [c] + rest;
      OpensFirst(c, rest);
      ClosesFirst(c, rest);
      PlaceholderFirst(c, rest);
      var quoted := QuoteChars(rest);
      if |QuoteChar(c)| == 2 {
        assert QuoteChars(value) == "\\" + ([c] + quoted);
        assert !IsBrace(c);
        assert "" + ['\\'] + ([c] + quoted) == QuoteChars(value);
        assert "" + [c] + quoted == [c] + quoted;
        BracelessIsFilled("");
        Apart("", '\\', [c] + quoted);
        Apart("", c, quoted);
      } else {
        assert QuoteChars(value) == [c] + quoted;
        OpensFirst(c, quoted);
        ClosesFirst(c, quoted);
        PlaceholderFirst(c, quoted);
        if c == '{' && rest != "" && rest[0] == '{' {
          QuotedBraces(rest[1..]);
          assert quoted[1..] == QuoteChars(rest[1..]);
        }
      }
    }
  }

  /** The login text of a user looks like a placeholder exactly when the two fields do, alone or together. */
  lemma LoginSpans(loginModule: string, username: string, password: string)
    requires IsWord(loginModule)
    ensures HasPlaceholder(RenderEntry(loginModule, [("username", username), ("password", password)])) <==>
            Spans([username, password])
  {
    hide Opens, Closes, HasPlaceholder, QuoteChars, Spans, IsWord;
    LoginText(loginModule, username, password);
    var user, word := QuoteChars(username), QuoteChars(password);
    QuotedBraces(username);
    QuotedBraces(password);
    assert Braceless(loginModule) by { WordIsBraceless(loginModule); }
    var start := loginModule + " required username=";
    assert Braceless(start);
    BracelessIsFilled(start);
    BracelessIsFilled(" password=");
    BracelessIsFilled(";");
    var fourth := word + ['"'] + ";";
    Apart(word, '"', ";");
    var third := " password=" + ['"'] + fourth;
    Apart(" password=", '"', fourth);
    var second := user + ['"'] + third;
    Apart(user, '"', third);
    Apart(start, '"', second);
    SpansOfTwo(username, password);
  }

  lemma SpansOfTwo(first: string, second: string)
    ensures Spans([first, second]) <==>
            HasPlaceholder(first) || HasPlaceholder(second) || (Opens(first) && Closes(second))
  {
    hide Opens, Closes, HasPlaceholder;
    var both := [first, second];
    assert both[0] == first && both[1] == second;
  }

  lemma WordIsBraceless(word: string)
    requires IsWord(word)
    ensures Braceless(word)
  {
  }

  lemma LoginText(loginModule: string, username: string, password: string)
    ensures RenderEntry(loginModule, [("username", username), ("password", password)]) ==
            loginModule + " required username=" + ['"'] +
            (QuoteChars(username) + ['"'] + (" password=" + ['"'] + (QuoteChars(password) + ['"'] + ";")))
  {
    hide QuoteChars, Replace;
    QuotesEachChar(username);
    QuotesEachChar(password);
    var user, word := QuoteChars(username), QuoteChars(password);
    var options: seq<Entry> := [("username", username), ("password", password)];
    var last := RenderOptions(options[1..]);
    assert options[1..] == [("password", password)] && options[1..][1..] == [];
    OptionText(options[1..]);
    OptionText(options);
    Regroup(loginModule + " required", " username=", user, last, ";");
    assert loginModule + " required" + " username=" == loginModule + " required username=";
    Regroup("", " password=", word, "", ";");
    assert "" + " password=" == " password=" && "" + ";" == ";";
    assert last + ";" == "" + (" password=" + ("\"" + word + "\"") + "") + ";";
  }

  lemma OptionText(options: seq<Entry>)
    requires options != [] && options[0].0 in {"username", "password"}
    ensures RenderOptions(options) ==
            (if options[0].0 == "username" then " username=" else " password=") +
            ("\"" + QuoteChars(options[0].1) + "\"") + RenderOptions(options[1..])
  {
    hide QuoteChars, Replace;
    QuotesEachChar(options[0].1);
    assert " " + "username" + "=" == " username=" && " " + "password" + "=" == " password=";
  }

  lemma Regroup(start: string, name: string, value: string, rest: string, end: string)
    ensures start + (name + ("\"" + value + "\"") + rest) + end ==
            (start + name) + ['"'] + (value + ['"'] + (rest + end))
  {
  }

  // Exports

  /** No field of a connection looks like a placeholder: alone, or together with those printed in one value with
      it. The Java export prints username and password in one value. */
  predicate JavaFieldsFilled(connection: Connection) {
    && !Spans(connection.servers)
    && match connection.auth
       case Password(_, username, password) => !Spans([username, password])
       case _ => OAuthFieldsFilled(connection.auth)
  }

  /** The librdkafka export prints them in two. */
  predicate LibrdkafkaFieldsFilled(connection: Connection) {
    && !Spans(connection.servers)
    && match connection.auth
       case Password(_, username, password) => !HasPlaceholder(username) && !HasPlaceholder(password)
       case _ => OAuthFieldsFilled(connection.auth)
  }

  predicate OAuthFieldsFilled(auth: ResolvedAuth) {
    match auth
    case OAuth(tokenUrl, clientId, scopes, clientSecret, _) =>
      && !HasPlaceholder(tokenUrl) && !HasPlaceholder(clientId) && !HasPlaceholder(clientSecret) && !Spans(scopes)
    case _ => true
  }

  lemma ShortConstantsFilled()
    ensures !HasPlaceholder("PLAINTEXT") && !HasPlaceholder("SSL") && !HasPlaceholder("SASL_SSL")
    ensures !HasPlaceholder("https") && !HasPlaceholder("true") && !HasPlaceholder("oidc")
    ensures !HasPlaceholder("OAUTHBEARER")
    ensures forall mechanism :: !HasPlaceholder(SaslMechanism(mechanism))
  {
  }

  lemma HandlerFilled()
    ensures !HasPlaceholder(OAUTH_HANDLER)
  {
    hide PACKAGE, OAUTH_HANDLER, HasPlaceholder;
    PackageIsWord();
    OAuthModuleIsTail();
    WordIsBraceless(PACKAGE);
    assert Braceless("oauthbearer.") && Braceless("OAuthBearerLoginCallbackHandler");
    BracelessIsFilled(PACKAGE + "oauthbearer." + "OAuthBearerLoginCallbackHandler");
    HandlerText();
  }

  lemma HandlerText()
    ensures OAUTH_HANDLER == PACKAGE + "oauthbearer." + "OAuthBearerLoginCallbackHandler"
  {
  }

  lemma EmptyEntryFilled()
    ensures !HasPlaceholder(RenderEntry(OAUTH_MODULE, []))
  {
    hide OAUTH_MODULE, HasPlaceholder, IsWord;
    ModulesAreWords();
    WordIsBraceless(OAUTH_MODULE);
    BracelessIsFilled(RenderEntry(OAUTH_MODULE, []));
  }

  /** Nothing but the fields can make a Java export look unfilled. */
  lemma JavaFilledByFields(connection: Connection, checks: ImportChecks)
    requires Exportable(connection, checks)
    ensures Filled(JavaValues(connection)) <==> JavaFieldsFilled(connection)
  {
    hide HasPlaceholder, Spans, Join, RenderEntry, LoginModule, SaslMechanism, OAUTH_HANDLER, OAUTH_MODULE, PlainHost,
      IsPrintable, Distinct, ValidText, IsScope, HANDLER, TOKEN_URL, CLIENT_ID, CLIENT_SECRET, SCOPE;
    ShortConstantsFilled();
    JoinedSpans(connection.servers, ',');
    var values := JavaValues(connection);
    assert "bootstrap.servers" in values;
    match connection.auth
    case Unauthenticated =>
    case Password(mechanism, username, password) =>
      LoginModuleIsWord(mechanism);
      LoginSpans(LoginModule(mechanism), username, password);
      assert "sasl.jaas.config" in values;
    case OAuth(tokenUrl, clientId, scopes, clientSecret, _) =>
      JavaOAuthFilled(connection);
  }

  lemma JavaOAuthFilled(connection: Connection)
    requires connection.auth.OAuth? && connection.transport.Tls?
    ensures Filled(JavaValues(connection)) <==>
            !HasPlaceholder(Join(connection.servers, ',')) && OAuthFieldsFilled(connection.auth)
  {
    hide HasPlaceholder, Spans, Join, RenderEntry, OAUTH_HANDLER, OAUTH_MODULE;
    ShortConstantsFilled();
    HandlerFilled();
    EmptyEntryFilled();
    JoinedSpans(connection.auth.scopes, ' ');
    JavaOAuthHolds(connection);
    var values := JavaValues(connection);
    assert "bootstrap.servers" in values && HANDLER in values && TOKEN_URL in values && CLIENT_ID in values;
    assert CLIENT_SECRET in values && (connection.auth.scopes != [] ==> SCOPE in values);
    NoScopes(connection.auth.scopes);
  }

  lemma NoScopes(scopes: seq<string>)
    ensures scopes == [] ==> !Spans(scopes)
  {
  }

  lemma LibrdkafkaFilledByFields(connection: Connection, checks: ImportChecks)
    requires Exportable(connection, checks)
    ensures Filled(LibrdkafkaValues(connection)) <==> LibrdkafkaFieldsFilled(connection)
  {
    hide HasPlaceholder, Spans, Join, SaslMechanism, PlainHost, IsPrintable, Distinct, ValidText, IsScope,
      TOKEN_URL, SCOPE;
    ShortConstantsFilled();
    JoinedSpans(connection.servers, ',');
    var values := LibrdkafkaValues(connection);
    assert "bootstrap.servers" in values;
    match connection.auth
    case Unauthenticated =>
    case Password(mechanism, username, password) =>
      assert "sasl.username" in values && "sasl.password" in values;
    case OAuth(tokenUrl, clientId, scopes, clientSecret, _) =>
      JoinedSpans(scopes, ' ');
      NoScopes(scopes);
      LibrdkafkaOAuthFilled(connection);
  }

  lemma LibrdkafkaOAuthFilled(connection: Connection)
    requires connection.auth.OAuth? && connection.transport.Tls?
    ensures Filled(LibrdkafkaValues(connection)) <==>
            !HasPlaceholder(Join(connection.servers, ',')) && OAuthFieldsFilled(connection.auth)
  {
    hide HasPlaceholder, Spans, Join;
    ShortConstantsFilled();
    JoinedSpans(connection.auth.scopes, ' ');
    NoScopes(connection.auth.scopes);
    LibrdkafkaOAuthHolds(connection);
    var values := LibrdkafkaValues(connection);
    assert "bootstrap.servers" in values && TOKEN_URL in values && "sasl.oauthbearer.client.id" in values;
    assert "sasl.oauthbearer.client.secret" in values && (connection.auth.scopes != [] ==> SCOPE in values);
  }

  /** Exporting as Java properties and importing is the identity exactly when no field of the connection looks like
      a placeholder. */
  lemma JavaImportsByFields(connection: Connection, entries: seq<Entry>, checks: ImportChecks)
    requires Exportable(connection, checks) && KeepsCase(checks)
    requires JavaExport(connection, None, None).Some? ==>
               Prints(entries, JavaExport(connection, None, None).value)
    ensures ImportOf(RenderLines(entries), checks) ==
            if JavaFieldsFilled(connection) then Some(ImportedOf(connection)) else None
  {
    hide ImportOf, Filled, JavaFieldsFilled, RenderLines, JavaValues, JavaExport, Exportable;
    JavaExportImports(connection, entries, checks);
    ExportedIsPlain(connection, checks);
    JavaExports(connection, checks);
    JavaFilledByFields(connection, checks);
  }

  lemma LibrdkafkaImportsByFields(connection: Connection, entries: seq<Entry>, checks: ImportChecks)
    requires Exportable(connection, checks) && KeepsCase(checks)
    requires LibrdkafkaExport(connection, None, None, None, None).Some? ==>
               Prints(entries, LibrdkafkaExport(connection, None, None, None, None).value)
    ensures RenderProperties(entries).Some?
    ensures ImportOf(RenderProperties(entries).value, checks) ==
            if LibrdkafkaFieldsFilled(connection) then Some(ImportedOf(connection)) else None
  {
    hide ImportOf, Filled, LibrdkafkaFieldsFilled, RenderProperties, LibrdkafkaValues, LibrdkafkaExport, Exportable;
    LibrdkafkaExportImports(connection, entries, checks);
    ExportedIsPlain(connection, checks);
    LibrdkafkaExports(connection, checks);
    LibrdkafkaFilledByFields(connection, checks);
  }

  function PlainLogin(username: string, password: string): Connection {
    Connection(["localhost:9092"], Tls, None, Password(PasswordMechanism.Plain, username, password))
  }

  /** The failing input: a password in double braces is refused in either dialect. */
  lemma BracedPasswordIsRefused(java: seq<Entry>, librdkafka: seq<Entry>, checks: ImportChecks)
    requires KeepsCase(checks) && checks.brokerAddress("localhost:9092")
    requires var connection := PlainLogin("user", "{{x}}");
             && (JavaExport(connection, None, None).Some? ==> Prints(java, JavaExport(connection, None, None).value))
             && (LibrdkafkaExport(connection, None, None, None, None).Some? ==>
                   Prints(librdkafka, LibrdkafkaExport(connection, None, None, None, None).value))
    ensures ImportOf(RenderLines(java), checks) == None
    ensures RenderProperties(librdkafka).Some? && ImportOf(RenderProperties(librdkafka).value, checks) == None
  {
    hide ImportOf, RenderLines, RenderProperties, JavaExport, LibrdkafkaExport, Prints, KeepsCase;
    var connection := PlainLogin("user", "{{x}}");
    LoginIsExportable("user", "{{x}}", checks);
    BracedText();
    SpansOfTwo("user", "{{x}}");
    JavaImportsByFields(connection, java, checks);
    LibrdkafkaImportsByFields(connection, librdkafka, checks);
  }

  /** A username that opens and a password that closes fail only where they are printed in one value. */
  lemma BracesMeetInJavaOnly(java: seq<Entry>, librdkafka: seq<Entry>, checks: ImportChecks)
    requires KeepsCase(checks) && checks.brokerAddress("localhost:9092")
    requires var connection := PlainLogin("{{", "}}");
             && (JavaExport(connection, None, None).Some? ==> Prints(java, JavaExport(connection, None, None).value))
             && (LibrdkafkaExport(connection, None, None, None, None).Some? ==>
                   Prints(librdkafka, LibrdkafkaExport(connection, None, None, None, None).value))
    ensures ImportOf(RenderLines(java), checks) == None
    ensures RenderProperties(librdkafka).Some?
    ensures ImportOf(RenderProperties(librdkafka).value, checks) == Some(ImportedOf(PlainLogin("{{", "}}")))
  {
    hide ImportOf, RenderLines, RenderProperties, JavaExport, LibrdkafkaExport, Prints, KeepsCase;
    var connection := PlainLogin("{{", "}}");
    LoginIsExportable("{{", "}}", checks);
    BracedText();
    SpansOfTwo("{{", "}}");
    HostFilled();
    JavaImportsByFields(connection, java, checks);
    LibrdkafkaImportsByFields(connection, librdkafka, checks);
  }

  lemma LoginIsExportable(username: string, password: string, checks: ImportChecks)
    requires (username, password) in {("user", "{{x}}"), ("{{", "}}")} && checks.brokerAddress("localhost:9092")
    ensures Exportable(PlainLogin(username, password), checks)
  {
    assert PlainHost("localhost:9092");
  }

  lemma BracedText()
    ensures HasPlaceholder("{{x}}") && Opens("{{") && Closes("}}")
    ensures !HasPlaceholder("{{") && !HasPlaceholder("}}")
  {
    assert Twice("{{x}}", 0, '{') && Twice("{{x}}", 3, '}');
    assert Twice("{{", 0, '{') && Twice("}}", 0, '}');
  }

  lemma HostFilled()
    ensures !Spans(["localhost:9092"])
  {
    BracelessIsFilled("localhost:9092");
  }
}
