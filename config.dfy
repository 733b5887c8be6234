/**
 * config.py: the settings of the replier, read from the process environment. The
 * environment is a map from variable name to value; a name that is not a key is unset.
 */
module Config {
  import opened Wrappers
  import opened Text
  import opened Decimal

  type Env = map<string, string>

  datatype Settings = Settings(
    fbPageId: string,
    fbAccessToken: string,
    fbApiVersion: string,
    ollamaHost: string,
    ollamaModel: string,
    ollamaTimeoutS: int,
    pollIntervalS: int,
    lookbackPosts: int,
    commentLimitPerPost: int,
    dryRun: bool,
    brandName: string,
    brandVoice: string,
    maxReplyChars: int)

  const DefaultApiVersion: string := "v20.0"
  const DefaultOllamaHost: string := "http://127.0.0.1:11434"
  const DefaultOllamaModel: string := "llama3.1"
  const DefaultOllamaTimeoutS: int := 120
  const DefaultPollIntervalS: int := 30
  const DefaultLookbackPosts: int := 10
  const DefaultCommentLimitPerPost: int := 50
  const DefaultDryRun: bool := true
  const DefaultBrandName: string := "Your Page"
  const DefaultBrandVoice: string := "Helpful, friendly, concise."
  const DefaultMaxReplyChars: int := 700

  /** The settings with both credentials given and every other field at its declared default. */
  function Defaults(pageId: string, accessToken: string): (s: Settings)
    ensures s.fbPageId == pageId && s.fbAccessToken == accessToken
  {
    Settings(pageId, accessToken, DefaultApiVersion, DefaultOllamaHost, DefaultOllamaModel,
             DefaultOllamaTimeoutS, DefaultPollIntervalS, DefaultLookbackPosts,
             DefaultCommentLimitPerPost, DefaultDryRun, DefaultBrandName, DefaultBrandVoice,
             DefaultMaxReplyChars)
  }

  /** The spellings of "true" that `_get_bool` accepts, after strip and lower-casing. */
  const TrueWords: set<string> := {"1", "true", "yes", "y", "on"}

  /** `_get_bool(name, default)`. */
  function GetBool(env: Env, name: string, default: bool): (b: bool)
    ensures name !in env ==> b == default
    ensures name in env ==> (b <==> Lower(Strip(env[name])) in TrueWords)
  {
    if name !in env then default else Lower(Strip(env[name])) in TrueWords
  }

  /** No whitespace at either end. */
  predicate Unpadded(s: string) {
    s == [] || (!IsSpace(s[0]) && !IsSpace(s[|s| - 1]))
  }

  /**
   * `os.getenv(name, default).strip() or default`, for a default without surrounding
   * whitespace (all the declared defaults are, `DefaultsUnpadded`): the stripped value
   * when it is set and not blank, the default otherwise.
   */
  function GetStr(env: Env, name: string, default: string): (r: string)
    ensures name in env && Strip(env[name]) != [] ==> r == Strip(env[name])
    ensures (name !in env || Strip(env[name]) == []) ==> r == default
  {
    if name in env && Strip(env[name]) != [] then Strip(env[name]) else default
  }

  /** For an unpadded default, `GetStr` is the expression as the source writes it. */
  lemma GetStrAsWritten(env: Env, name: string, default: string)
    requires Unpadded(default)
    ensures GetStr(env, name, default)
         == (var v := Strip(if name in env then env[name] else default); if v != [] then v else default)
  {
    StripUnpadded(default);
  }

  /**
   * `int(os.getenv(name, str(default)))`: the text of an unset variable is the decimal
   * form of the default, which parses back to it (`GetIntDefaultText`).
   */
  function GetInt(env: Env, name: string, default: int): (r: Option<int>)
    ensures name !in env ==> r == Some(default)
    ensures name in env ==> r == ParseInt(env[name])
  {
    if name in env then ParseInt(env[name]) else Some(default)
  }

  /** Parsing the default's decimal text gives what `GetInt` gives. */
  lemma GetIntDefaultText(env: Env, name: string, default: int)
    requires WithinStrLimit(default)
    ensures GetInt(env, name, default) == ParseInt(if name in env then env[name] else IntToDecimal(default))
  {
    IntToDecimalRoundTrip(default);
  }

  /** Why `load_settings` gives up: `SystemExit`, or the `ValueError` of `int()`. */
  datatype ConfigError = MissingCredentials | NotAnInteger(name: string)

  /** The integer settings, in the order `load_settings` evaluates them. */
  datatype Ints = Ints(timeout: int, poll: int, lookback: int, commentLimit: int, maxReply: int)

  /** The integer settings, or the name of the first one that does not parse. */
  function ReadInts(env: Env): Result<Ints, string> {
    match GetInt(env, "OLLAMA_TIMEOUT_S", DefaultOllamaTimeoutS)
    case None => Failure("OLLAMA_TIMEOUT_S")
    case Some(timeout) =>
      match GetInt(env, "POLL_INTERVAL_S", DefaultPollIntervalS)
      case None => Failure("POLL_INTERVAL_S")
      case Some(poll) =>
        match GetInt(env, "LOOKBACK_POSTS", DefaultLookbackPosts)
        case None => Failure("LOOKBACK_POSTS")
        case Some(lookback) =>
          match GetInt(env, "COMMENT_LIMIT_PER_POST", DefaultCommentLimitPerPost)
          case None => Failure("COMMENT_LIMIT_PER_POST")
          case Some(commentLimit) =>
            match GetInt(env, "MAX_REPLY_CHARS", DefaultMaxReplyChars)
            case None => Failure("MAX_REPLY_CHARS")
            case Some(maxReply) => Success(Ints(timeout, poll, lookback, commentLimit, maxReply))
  }

  /** `load_settings()`. */
  function LoadSettings(env: Env): Result<Settings, ConfigError> {
    var pageId := Strip(if "FB_PAGE_ID" in env then env["FB_PAGE_ID"] else "");
    var token := Strip(if "FB_ACCESS_TOKEN" in env then env["FB_ACCESS_TOKEN"] else "");
    if pageId == [] || token == [] then Failure(MissingCredentials)
    else
      match ReadInts(env)
      case Failure(name) => Failure(NotAnInteger(name))
      case Success(n) =>
        Success(Settings(
          pageId,
          token,
          GetStr(env, "FB_API_VERSION", DefaultApiVersion),
          GetStr(env, "OLLAMA_HOST", DefaultOllamaHost),
          GetStr(env, "OLLAMA_MODEL", DefaultOllamaModel),
          n.timeout,
          n.poll,
          n.lookback,
          n.commentLimit,
          GetBool(env, "DRY_RUN", DefaultDryRun),
          GetStr(env, "BRAND_NAME", DefaultBrandName),
          GetStr(env, "BRAND_VOICE", DefaultBrandVoice),
          n.maxReply))
  }

  /** The stripped value of a variable, "" when it is unset. */
  function StrippedOrEmpty(env: Env, name: string): string {
    Strip(if name in env then env[name] else "")
  }

  /** Loading stops with `SystemExit` exactly when a credential is unset or blank. */
  lemma MissingCredentialsExactly(env: Env)
    ensures LoadSettings(env) == Failure(MissingCredentials) <==>
              StrippedOrEmpty(env, "FB_PAGE_ID") == [] || StrippedOrEmpty(env, "FB_ACCESS_TOKEN") == []
  {
  }

  /** Settings that load hold both credentials stripped and non-empty. */
  lemma CredentialsStored(env: Env)
    requires LoadSettings(env).Success?
    ensures LoadSettings(env).value.fbPageId == StrippedOrEmpty(env, "FB_PAGE_ID") != []
    ensures LoadSettings(env).value.fbAccessToken == StrippedOrEmpty(env, "FB_ACCESS_TOKEN") != []
  {
  }

  /**
   * The string settings other than the credentials: the stripped value where it is set
   * and not blank, the declared default otherwise.
   */
  lemma StringSettings(env: Env)
    requires LoadSettings(env).Success?
    ensures LoadSettings(env).value.fbApiVersion == GetStr(env, "FB_API_VERSION", DefaultApiVersion)
    ensures LoadSettings(env).value.ollamaHost == GetStr(env, "OLLAMA_HOST", DefaultOllamaHost)
    ensures LoadSettings(env).value.ollamaModel == GetStr(env, "OLLAMA_MODEL", DefaultOllamaModel)
    ensures LoadSettings(env).value.brandName == GetStr(env, "BRAND_NAME", DefaultBrandName)
    ensures LoadSettings(env).value.brandVoice == GetStr(env, "BRAND_VOICE", DefaultBrandVoice)
    ensures LoadSettings(env).value.dryRun == GetBool(env, "DRY_RUN", DefaultDryRun)
  {
  }

  /**
   * An environment that sets the two credentials and none of the other variables loads
   * the declared defaults.
   */
  lemma OnlyCredentials(env: Env)
    requires StrippedOrEmpty(env, "FB_PAGE_ID") != [] && StrippedOrEmpty(env, "FB_ACCESS_TOKEN") != []
    requires "FB_API_VERSION" !in env && "OLLAMA_HOST" !in env && "OLLAMA_MODEL" !in env
    requires "OLLAMA_TIMEOUT_S" !in env && "POLL_INTERVAL_S" !in env && "LOOKBACK_POSTS" !in env
    requires "COMMENT_LIMIT_PER_POST" !in env && "DRY_RUN" !in env && "BRAND_NAME" !in env
    requires "BRAND_VOICE" !in env && "MAX_REPLY_CHARS" !in env
    ensures LoadSettings(env) == Success(Defaults(StrippedOrEmpty(env, "FB_PAGE_ID"), StrippedOrEmpty(env, "FB_ACCESS_TOKEN")))
  {
    assert ReadInts(env) == Success(Ints(DefaultOllamaTimeoutS, DefaultPollIntervalS, DefaultLookbackPosts,
                                         DefaultCommentLimitPerPost, DefaultMaxReplyChars));
    assert GetStr(env, "FB_API_VERSION", DefaultApiVersion) == DefaultApiVersion;
    assert GetStr(env, "OLLAMA_HOST", DefaultOllamaHost) == DefaultOllamaHost;
    assert GetStr(env, "OLLAMA_MODEL", DefaultOllamaModel) == DefaultOllamaModel;
    assert GetStr(env, "BRAND_NAME", DefaultBrandName) == DefaultBrandName;
    assert GetStr(env, "BRAND_VOICE", DefaultBrandVoice) == DefaultBrandVoice;
    assert GetBool(env, "DRY_RUN", DefaultDryRun) == DefaultDryRun;
  }

  /** The string defaults have no surrounding whitespace to strip. */
  lemma DefaultsUnpadded()
    ensures Unpadded(DefaultApiVersion) && Unpadded(DefaultOllamaHost) && Unpadded(DefaultOllamaModel)
    ensures Unpadded(DefaultBrandName) && Unpadded(DefaultBrandVoice)
  {
  }

  /** When set, any value outside the accepted spellings is false, whatever the default. */
  lemma GetBoolIgnoresDefaultWhenSet(env: Env, name: string)
    requires name in env
    ensures GetBool(env, name, true) == GetBool(env, name, false)
  {
  }

  /** An integer setting read by `GetInt` can be written back by `str()`. */
  lemma GetIntWithinStrLimit(env: Env, name: string, default: int)
    requires WithinStrLimit(default) && GetInt(env, name, default).Some?
    ensures WithinStrLimit(GetInt(env, name, default).value)
  {
    if name in env {
      ParsedWithinStrLimit(env[name]);
    }
  }

  /** The integer defaults are far below the digit limit. */
  lemma IntDefaultsWithinStrLimit()
    ensures WithinStrLimit(DefaultOllamaTimeoutS) && WithinStrLimit(DefaultPollIntervalS)
    ensures WithinStrLimit(DefaultLookbackPosts) && WithinStrLimit(DefaultCommentLimitPerPost)
    ensures WithinStrLimit(DefaultMaxReplyChars)
  {
    assert Pow10(3) == 1000;
    ShortDecimal(DefaultOllamaTimeoutS, 3);
    ShortDecimal(DefaultPollIntervalS, 3);
    ShortDecimal(DefaultLookbackPosts, 3);
    ShortDecimal(DefaultCommentLimitPerPost, 3);
    ShortDecimal(DefaultMaxReplyChars, 3);
  }

  /**
   * Every integer of loaded settings has at most `MaxStrDigits` digits, so `str()` of it
   * (the `limit` parameters of the Graph requests) does not raise.
   */
  lemma IntSettingsWithinStrLimit(env: Env)
    requires LoadSettings(env).Success?
    ensures WithinStrLimit(LoadSettings(env).value.ollamaTimeoutS)
    ensures WithinStrLimit(LoadSettings(env).value.pollIntervalS)
    ensures WithinStrLimit(LoadSettings(env).value.lookbackPosts)
    ensures WithinStrLimit(LoadSettings(env).value.commentLimitPerPost)
    ensures WithinStrLimit(LoadSettings(env).value.maxReplyChars)
  {
    IntDefaultsWithinStrLimit();
    GetIntWithinStrLimit(env, "OLLAMA_TIMEOUT_S", DefaultOllamaTimeoutS);
    GetIntWithinStrLimit(env, "POLL_INTERVAL_S", DefaultPollIntervalS);
    GetIntWithinStrLimit(env, "LOOKBACK_POSTS", DefaultLookbackPosts);
    GetIntWithinStrLimit(env, "COMMENT_LIMIT_PER_POST", DefaultCommentLimitPerPost);
    GetIntWithinStrLimit(env, "MAX_REPLY_CHARS", DefaultMaxReplyChars);
  }
}
