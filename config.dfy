/**
 * The option schema of `register` (index.js), read as a validator that
 * runs once when the plugin is registered. Options are checked in the
 * order the schema lists them and the first violation is reported; only a
 * fully valid option set yields a configuration. Whether a string is a
 * host name is given as `isHostname`.
 */
module Config {
  import opened Wrappers

  /** The JavaScript values an option can hold, as far as the schema tells them apart. */
  datatype JsValue = JsString(s: string) | JsFunction(id: nat) | JsOther

  /** The plugin's options; a key that is absent stands for an undefined option. */
  type Options = map<string, JsValue>

  datatype ProviderParams = DefaultProviderParams | CustomProviderParams(id: nat)

  datatype Config = Config(
    auth0Domain: string,
    auth0PublicKey: string,
    auth0SecretKey: string,
    providerParams: ProviderParams,
    sessionSecretKey: string,
    validateFunc: Option<nat>)

  datatype ConfigError =
    | Required(key: string)
    | NotAString(key: string)
    | Empty(key: string)
    | NotAHostname(key: string)
    | NotAToken(key: string)
    | TooShort(key: string, limit: nat)
    | PatternMismatch(key: string)
    | NotAFunction(key: string)
    | NotAllowed(keys: set<string>)

  /** The checks the schema attaches to a string option, in the order it lists them. */
  datatype Rule = Hostname | Token | MinLength(limit: nat) | SecretPattern

  const DomainKey := "auth0Domain"
  const PublicKeyKey := "auth0PublicKey"
  const SecretKeyKey := "auth0SecretKey"
  const ProviderParamsKey := "providerParams"
  const SessionSecretKeyKey := "sessionSecretKey"
  const ValidateFuncKey := "validateFunc"

  const KnownKeys: set<string> :=
    {DomainKey, PublicKeyKey, SecretKeyKey, ProviderParamsKey, SessionSecretKeyKey, ValidateFuncKey}

  const DomainRules := [Hostname, MinLength(3)]
  const PublicKeyRules := [Token, MinLength(10)]
  const SecretKeyRules := [MinLength(30), SecretPattern]
  const SessionSecretKeyRules := [MinLength(32)]

  predicate IsWordChar(c: char) {
    'A' <= c <= 'Z' || 'a' <= c <= 'z' || '0' <= c <= '9' || c == '_'
  }

  /** joi's `token()`: letters, digits and underscores only. */
  predicate IsToken(s: string) {
    forall i :: 0 <= i < |s| ==> IsWordChar(s[i])
  }

  /** The `auth0SecretKey` pattern `^[A-Za-z\d_-]+$`. */
  predicate MatchesSecretPattern(s: string) {
    |s| >= 1 && forall i :: 0 <= i < |s| ==> IsWordChar(s[i]) || s[i] == '-'
  }

  predicate Satisfies(s: string, rule: Rule, isHostname: string -> bool) {
    match rule
    case Hostname => isHostname(s)
    case Token => IsToken(s)
    case MinLength(n) => |s| >= n
    case SecretPattern => MatchesSecretPattern(s)
  }

  function RuleError(key: string, rule: Rule): ConfigError {
    match rule
    case Hostname => NotAHostname(key)
    case Token => NotAToken(key)
    case MinLength(n) => TooShort(key, n)
    case SecretPattern => PatternMismatch(key)
  }

  /** The first of `rules` that `s` breaks, reported against `key`. */
  function FirstBroken(key: string, s: string, rules: seq<Rule>, isHostname: string -> bool): (r: Option<ConfigError>)
    ensures r.None? <==> forall i :: 0 <= i < |rules| ==> Satisfies(s, rules[i], isHostname)
    ensures r.Some? ==> exists i :: 0 <= i < |rules| && !Satisfies(s, rules[i], isHostname) && r.value == RuleError(key, rules[i])
                                   && forall j :: 0 <= j < i ==> Satisfies(s, rules[j], isHostname)
  {
    if rules == [] then None
    else if !Satisfies(s, rules[0], isHostname) then Some(RuleError(key, rules[0]))
    else
      var r := FirstBroken(key, s, rules[1..], isHostname);
      assert forall i :: 1 <= i < |rules| ==> rules[i] == rules[1..][i - 1];
      r
  }

  /** A required, non-empty string option that keeps all of its rules. */
  predicate GoodString(options: Options, key: string, rules: seq<Rule>, isHostname: string -> bool) {
    key in options && options[key].JsString? && options[key].s != ""
    && forall i :: 0 <= i < |rules| ==> Satisfies(options[key].s, rules[i], isHostname)
  }

  /** An optional function option. */
  predicate GoodFunction(options: Options, key: string) {
    key in options ==> options[key].JsFunction?
  }

  function CheckString(options: Options, key: string, rules: seq<Rule>, isHostname: string -> bool): (r: Result<string, ConfigError>)
    ensures r.Ok? <==> GoodString(options, key, rules, isHostname)
    ensures r.Ok? ==> r.value == options[key].s
    ensures r.Err? ==> !r.error.NotAllowed? && !r.error.NotAFunction? && r.error.key == key
  {
    if key !in options then Err(Required(key))
    else match options[key]
      case JsString(s) =>
        if s == "" then Err(Empty(key))
        else (match FirstBroken(key, s, rules, isHostname)
          case Some(e) => Err(e)
          case None => Ok(s))
      case _ => Err(NotAString(key))
  }

  function CheckFunction(options: Options, key: string): (r: Result<Option<nat>, ConfigError>)
    ensures r.Ok? <==> GoodFunction(options, key)
    ensures r.Ok? ==> (r.value.Some? <==> key in options) && (r.value.Some? ==> options[key] == JsFunction(r.value.value))
    ensures r.Err? ==> r.error == NotAFunction(key)
  {
    if key !in options then Ok(None)
    else match options[key]
      case JsFunction(id) => Ok(Some(id))
      case _ => Err(NotAFunction(key))
  }

  /** Every constraint of the schema, in no particular order. */
  predicate Acceptable(options: Options, isHostname: string -> bool) {
    && GoodString(options, DomainKey, DomainRules, isHostname)
    && GoodString(options, PublicKeyKey, PublicKeyRules, isHostname)
    && GoodString(options, SecretKeyKey, SecretKeyRules, isHostname)
    && GoodFunction(options, ProviderParamsKey)
    && GoodString(options, SessionSecretKeyKey, SessionSecretKeyRules, isHostname)
    && GoodFunction(options, ValidateFuncKey)
    && options.Keys <= KnownKeys
  }

  /** What every accepted configuration satisfies. */
  predicate WellFormed(c: Config, isHostname: string -> bool) {
    && isHostname(c.auth0Domain) && |c.auth0Domain| >= 3
    && IsToken(c.auth0PublicKey) && |c.auth0PublicKey| >= 10
    && |c.auth0SecretKey| >= 30 && MatchesSecretPattern(c.auth0SecretKey)
    && |c.sessionSecretKey| >= 32
  }

  /**
   * `joi.attempt(option, schema)`: None stands for undefined options, which
   * the schema refuses as a whole. A missing `providerParams` defaults to
   * `defaultParams`.
   */
  function Validate(options: Option<Options>, isHostname: string -> bool): (r: Result<Config, ConfigError>)
    ensures r.Ok? <==> options.Some? && Acceptable(options.value, isHostname)
    ensures r.Ok? ==> WellFormed(r.value, isHostname)
    ensures r.Ok? ==>
      var o := options.value;
      && r.value.auth0Domain == o[DomainKey].s
      && r.value.auth0PublicKey == o[PublicKeyKey].s
      && r.value.auth0SecretKey == o[SecretKeyKey].s
      && r.value.sessionSecretKey == o[SessionSecretKeyKey].s
      && (r.value.providerParams == DefaultProviderParams <==> ProviderParamsKey !in o)
      && (ProviderParamsKey in o ==> o[ProviderParamsKey] == JsFunction(r.value.providerParams.id))
      && (r.value.validateFunc.Some? <==> ValidateFuncKey in o)
      && (ValidateFuncKey in o ==> o[ValidateFuncKey] == JsFunction(r.value.validateFunc.value))
    ensures r.Err? && r.error.Required? ==> options.None? || r.error.key !in options.value
    ensures r.Err? && r.error.NotAllowed? ==> options.Some? && r.error.keys == options.value.Keys - KnownKeys != {}
  {
    match options
    case None => Err(Required("value"))
    case Some(o) =>
      var domain :- CheckString(o, DomainKey, DomainRules, isHostname);
      var publicKey :- CheckString(o, PublicKeyKey, PublicKeyRules, isHostname);
      var secretKey :- CheckString(o, SecretKeyKey, SecretKeyRules, isHostname);
      var provider :- CheckFunction(o, ProviderParamsKey);
      var sessionKey :- CheckString(o, SessionSecretKeyKey, SessionSecretKeyRules, isHostname);
      var validate :- CheckFunction(o, ValidateFuncKey);
      var unknown := o.Keys - KnownKeys;
      if unknown != {} then Err(NotAllowed(unknown))
      else
        var params := match provider case Some(id) => CustomProviderParams(id) case None => DefaultProviderParams;
        assert Satisfies(domain, DomainRules[0], isHostname) && Satisfies(domain, DomainRules[1], isHostname);
        assert Satisfies(publicKey, PublicKeyRules[0], isHostname) && Satisfies(publicKey, PublicKeyRules[1], isHostname);
        assert Satisfies(secretKey, SecretKeyRules[0], isHostname) && Satisfies(secretKey, SecretKeyRules[1], isHostname);
        assert Satisfies(sessionKey, SessionSecretKeyRules[0], isHostname);
        Ok(Config(domain, publicKey, secretKey, params, sessionKey, validate))
  }

  // ---------------------------------------------------------------- lemmas

  /** Leaving out any required option is refused. */
  lemma MissingRequired(options: Options, key: string, isHostname: string -> bool)
    requires key in {DomainKey, PublicKeyKey, SecretKeyKey, SessionSecretKeyKey}
    requires key !in options
    ensures Validate(Some(options), isHostname).Err?
  {
  }

  /** A session secret shorter than 32 characters is refused. */
  lemma ShortSessionSecret(options: Options, isHostname: string -> bool)
    requires SessionSecretKeyKey in options && options[SessionSecretKeyKey].JsString?
    requires |options[SessionSecretKeyKey].s| < 32
    ensures Validate(Some(options), isHostname).Err?
  {
  }

  /** Registering with no options at all is refused as a missing option. */
  lemma ValidateMissing(isHostname: string -> bool)
    ensures Validate(Some(map[]), isHostname) == Err(Required(DomainKey))
    ensures Validate(None, isHostname) == Err(Required("value"))
  {
  }

  /** The option set that the project's tests register with is accepted once its domain counts as a host name. */
  lemma ValidateTestOptions(isHostname: string -> bool)
    requires isHostname("my-app.auth0.com")
    ensures Validate(Some(TestOptions), isHostname)
         == Ok(Config("my-app.auth0.com", "someclientid", "evenmoresecretthanthesessionsecretkey",
                      DefaultProviderParams, "pleasemakethissignificantlymoresecure", None))
  {
    TestOptionKeys();
    TestStrings(isHostname);
  }

  lemma TestOptionKeys()
    ensures TestOptions.Keys == {SessionSecretKeyKey, DomainKey, PublicKeyKey, SecretKeyKey}
    ensures TestOptions.Keys <= KnownKeys
    ensures ProviderParamsKey !in TestOptions && ValidateFuncKey !in TestOptions
  {
  }

  lemma TestStrings(isHostname: string -> bool)
    requires isHostname("my-app.auth0.com")
    ensures CheckString(TestOptions, DomainKey, DomainRules, isHostname) == Ok("my-app.auth0.com")
    ensures CheckString(TestOptions, PublicKeyKey, PublicKeyRules, isHostname) == Ok("someclientid")
    ensures CheckString(TestOptions, SecretKeyKey, SecretKeyRules, isHostname) == Ok("evenmoresecretthanthesessionsecretkey")
    ensures CheckString(TestOptions, SessionSecretKeyKey, SessionSecretKeyRules, isHostname) == Ok("pleasemakethissignificantlymoresecure")
  {
    TestOptionKeys();
    TestToken();
    TestSecret();
  }

  lemma TestToken()
    ensures IsToken("someclientid")
  {
  }

  lemma TestSecret()
    ensures MatchesSecretPattern("evenmoresecretthanthesessionsecretkey")
  {
  }

  const TestOptions: Options := map[
    SessionSecretKeyKey := JsString("pleasemakethissignificantlymoresecure"),
    DomainKey := JsString("my-app.auth0.com"),
    PublicKeyKey := JsString("someclientid"),
    SecretKeyKey := JsString("evenmoresecretthanthesessionsecretkey")]
}
