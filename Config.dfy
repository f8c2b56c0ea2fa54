/** The application configuration of `src/core/config.py`: every setting read once from the
    environment when the object is built, the connection URLs derived from them, the check for
    required secrets and the dictionary export. The environment is an input map; `urlparse` is a
    function parameter. */
module Config {
  import opened Wrappers
  import opened Strings
  import opened Dicts
  import opened Numerals
  import opened Urls

  /** The process environment. */
  type Env = map<string, string>

  /** `os.getenv(key, default)`. */
  function GetEnv(env: Env, key: string, default: string): string {
    if key in env then env[key] else default
  }

  /** `os.getenv(key)`: `None` when the variable is unset. */
  function GetEnvOpt(env: Env, key: string): Option<string> {
    if key in env then Some(env[key]) else None
  }

  /** Python truthiness of a value that is a string or `None`. */
  predicate Truthy(o: Option<string>) {
    o.Some? && o.value != ""
  }

  /** How an f-string renders a string that may be `None`. */
  function Render(o: Option<string>): string {
    match o
    case Some(s) => s
    case None => "None"
  }

  /** `int(s)`, raising `ValueError` on text that is not a decimal numeral. */
  function ToInt(s: string): Result<int, string> {
    match ParseInt(s)
    case Some(i) => Success(i)
    case None => Failure("ValueError: invalid literal for int() with base 10: '" + s + "'")
  }

  /** `int(os.getenv(key, default))` with an integer default, which `int` returns unchanged. */
  function IntEnv(env: Env, key: string, default: int): Result<int, string> {
    if key in env then ToInt(env[key]) else Success(default)
  }

  /** `parsed.port or default`: a missing port and port 0 are both falsy. */
  function PortOr(port: Option<int>, default: int): int {
    match port
    case Some(p) => if p == 0 then default else p
    case None => default
  }

  /** `s.lstrip('/')`. */
  function LStripSlashes(s: string): (r: string)
    ensures |r| <= |s| && r == s[|s| - |r|..]
    ensures r == [] || r[0] != '/'
    ensures forall i :: 0 <= i < |s| - |r| ==> s[i] == '/'
  {
    if s != [] && s[0] == '/' then LStripSlashes(s[1..]) else s
  }

  /** Every attribute `__init__` assigns, in Dafny's naming. A host, password or user read from a
      parsed URL may be `None`; the same attributes read from plain variables are strings, held here
      as `Some`. */
  datatype Config = Config(
    flaskEnv: string,
    flaskDebug: bool,
    secretKey: string,
    host: string,
    port: int,
    redisUrl: Option<string>,
    redisHost: Option<string>,
    redisPort: int,
    redisPassword: Option<string>,
    redisDb: int,
    mongodbUri: Option<string>,
    mongodbHost: Option<string>,
    mongodbPort: int,
    mongodbDb: string,
    mongodbUser: Option<string>,
    mongodbPassword: Option<string>,
    celeryBrokerUrl: string,
    celeryResultBackend: string,
    celeryTaskSerializer: string,
    celeryResultSerializer: string,
    celeryAcceptContent: seq<string>,
    celeryTimezone: string,
    celeryEnableUtc: bool,
    ratelimitEnabled: bool,
    ratelimitStorageUrl: string,
    ratelimitStrategy: string,
    ratelimitDefault: string,
    jwtSecretKey: string,
    jwtAccessTokenExpires: int,
    metricsPort: int,
    sentryDsn: Option<string>,
    uploadFolder: string,
    maxContentLength: int,
    maxUrlsPerAnalysis: int,
    maxTestimonialsPerUrl: int,
    analysisTimeout: int,
    cacheType: string,
    cacheDefaultTimeout: int,
    cacheKeyPrefix: string,
    exportFormats: seq<string>,
    maxExportSize: int,
    salesforceUsername: string,
    salesforcePassword: string,
    salesforceSecurityToken: string,
    hubspotApiKey: string,
    zendeskEmail: string,
    zendeskApiToken: string,
    zendeskSubdomain: string)

  /** The Redis settings as `(host, port, password, db)`. */
  type RedisSettings = (Option<string>, int, Option<string>, int)

  /** The Redis settings taken apart from `REDIS_URL`. */
  function RedisFromUrl(url: string, urlparse: UrlParser): Result<RedisSettings, string> {
    var parts :- urlparse(url);
    var port :- parts.port;
    var path := LStripSlashes(parts.path);
    var db :- if path == "" then Success(0) else ToInt(path);
    Success((parts.hostname, PortOr(port, 6379), parts.password, db))
  }

  /** The Redis settings read from their own variables. */
  function RedisFromEnv(env: Env): Result<RedisSettings, string> {
    var port :- IntEnv(env, "REDIS_PORT", 6379);
    var db :- IntEnv(env, "REDIS_DB", 0);
    Success((Some(GetEnv(env, "REDIS_HOST", "localhost")), port, GetEnvOpt(env, "REDIS_PASSWORD"), db))
  }

  /** The MongoDB settings as `(host, port, db, user, password)`. */
  type MongoSettings = (Option<string>, int, string, Option<string>, Option<string>)

  function MongoFromUri(uri: string, urlparse: UrlParser): Result<MongoSettings, string> {
    var parts :- urlparse(uri);
    var port :- parts.port;
    var db := LStripSlashes(parts.path);
    Success((parts.hostname, PortOr(port, 27017), if db == "" then "icp_analyzer" else db,
             parts.username, parts.password))
  }

  function MongoFromEnv(env: Env): Result<MongoSettings, string> {
    var port :- IntEnv(env, "MONGODB_PORT", 27017);
    Success((Some(GetEnv(env, "MONGODB_HOST", "localhost")), port, GetEnv(env, "MONGODB_DB", "icp_analyzer"),
             Some(GetEnv(env, "MONGODB_USER", "")), Some(GetEnv(env, "MONGODB_PASSWORD", ""))))
  }

  /** The URL `get_redis_url` writes for the given settings. */
  function RedisUrlOf(host: Option<string>, port: int, password: Option<string>, db: int): string {
    var auth := if Truthy(password) then ":" + password.value + "@" else "";
    "redis://" + auth + Render(host) + ":" + IntStr(port) + "/" + IntStr(db)
  }

  /** `get_redis_url()`. */
  function RedisUrl(c: Config): string {
    RedisUrlOf(c.redisHost, c.redisPort, c.redisPassword, c.redisDb)
  }

  /** `get_mongodb_url()`: the configured URI verbatim, else one assembled from the parts, with
      credentials only when both user and password are non-empty. */
  function MongodbUrl(c: Config): string {
    if Truthy(c.mongodbUri) then c.mongodbUri.value
    else
      var auth := if Truthy(c.mongodbUser) && Truthy(c.mongodbPassword)
        then c.mongodbUser.value + ":" + c.mongodbPassword.value + "@" else "";
      "mongodb://" + auth + Render(c.mongodbHost) + ":" + IntStr(c.mongodbPort) + "/" + c.mongodbDb
  }

  /** The integer settings `__init__` reads after the connection settings, as
      `(jwt expiry, metrics port, max content length, max URLs, max testimonials, analysis timeout,
      cache timeout, max export size)`, each `int()` in turn. */
  function Limits(env: Env): Result<(int, int, int, int, int, int, int, int), string> {
    var jwtExpires :- IntEnv(env, "JWT_ACCESS_TOKEN_EXPIRES", 3600);
    var metricsPort :- IntEnv(env, "METRICS_PORT", 9090);
    var maxContentLength :- IntEnv(env, "MAX_CONTENT_LENGTH", 16 * 1024 * 1024);
    var maxUrls :- IntEnv(env, "MAX_URLS_PER_ANALYSIS", 10);
    var maxTestimonials :- IntEnv(env, "MAX_TESTIMONIALS_PER_URL", 100);
    var analysisTimeout :- IntEnv(env, "ANALYSIS_TIMEOUT", 300);
    var cacheTimeout :- IntEnv(env, "CACHE_DEFAULT_TIMEOUT", 300);
    var maxExportSize :- IntEnv(env, "MAX_EXPORT_SIZE", 50 * 1024 * 1024);
    Success((jwtExpires, metricsPort, maxContentLength, maxUrls, maxTestimonials, analysisTimeout,
      cacheTimeout, maxExportSize))
  }

  /** `Config()`: the settings in the order `__init__` assigns them. The first `int()` or `urlparse`
      that raises ends construction with its error. */
  function Load(env: Env, urlparse: UrlParser): (r: Result<Config, string>)
    ensures r.Success? ==> r.value.flaskDebug == (r.value.flaskEnv == "development")
    ensures r.Success? && Truthy(r.value.redisUrl) ==> r.value.celeryBrokerUrl == r.value.redisUrl.value
    ensures r.Success? && !Truthy(r.value.redisUrl) ==> r.value.celeryBrokerUrl == RedisUrl(r.value)
    ensures r.Success? ==> r.value.celeryResultBackend == r.value.celeryBrokerUrl
    ensures r.Success? ==> r.value.ratelimitStorageUrl == r.value.celeryBrokerUrl
  {
    var flaskEnv := GetEnv(env, "FLASK_ENV", "development");
    var secretKey := GetEnv(env, "SECRET_KEY", "dev-secret-key");
    var port :- IntEnv(env, "PORT", 5000);
    var redisUrl := GetEnvOpt(env, "REDIS_URL");
    var redis :- if Truthy(redisUrl) then RedisFromUrl(redisUrl.value, urlparse) else RedisFromEnv(env);
    var mongodbUri := GetEnvOpt(env, "MONGODB_URI");
    var mongo :- if Truthy(mongodbUri) then MongoFromUri(mongodbUri.value, urlparse) else MongoFromEnv(env);
    var broker := if Truthy(redisUrl) then redisUrl.value else RedisUrlOf(redis.0, redis.1, redis.2, redis.3);
    var n :- Limits(env);
    var (jwtExpires, metricsPort, maxContentLength, maxUrls, maxTestimonials, analysisTimeout,
      cacheTimeout, maxExportSize) := n;
    Success(Config(
      flaskEnv, flaskEnv == "development", secretKey, GetEnv(env, "HOST", "0.0.0.0"), port,
      redisUrl, redis.0, redis.1, redis.2, redis.3,
      mongodbUri, mongo.0, mongo.1, mongo.2, mongo.3, mongo.4,
      broker, broker, "json", "json", ["json"], "UTC", true,
      true, broker, "fixed-window", "100 per minute",
      GetEnv(env, "JWT_SECRET_KEY", secretKey), jwtExpires,
      metricsPort, GetEnvOpt(env, "SENTRY_DSN"),
      GetEnv(env, "UPLOAD_FOLDER", "uploads"), maxContentLength,
      maxUrls, maxTestimonials, analysisTimeout,
      GetEnv(env, "CACHE_TYPE", "redis"), cacheTimeout, GetEnv(env, "CACHE_KEY_PREFIX", "icp_analyzer"),
      ["pdf", "pptx", "docx", "xlsx"], maxExportSize,
      GetEnv(env, "SALESFORCE_USERNAME", ""), GetEnv(env, "SALESFORCE_PASSWORD", ""),
      GetEnv(env, "SALESFORCE_SECURITY_TOKEN", ""), GetEnv(env, "HUBSPOT_API_KEY", ""),
      GetEnv(env, "ZENDESK_EMAIL", ""), GetEnv(env, "ZENDESK_API_TOKEN", ""), GetEnv(env, "ZENDESK_SUBDOMAIN", "")))
  }

  /** The required settings with their values, in the order `validate` checks them. */
  function Required(c: Config): seq<(string, string)> {
    [("SECRET_KEY", c.secretKey), ("JWT_SECRET_KEY", c.jwtSecretKey), ("MONGODB_DB", c.mongodbDb)]
  }

  /** The names whose value is empty, in order. */
  function Empty(vars: seq<(string, string)>): seq<string> {
    if vars == [] then []
    else Empty(vars[..|vars| - 1]) + if vars[|vars| - 1].1 == "" then [vars[|vars| - 1].0] else []
  }

  /** `missing_vars` in `validate`. */
  function MissingVars(c: Config): seq<string> {
    Empty(Required(c))
  }

  /** `validate()`: true when no required setting is missing (the log line is not modelled). */
  predicate Validate(c: Config) {
    MissingVars(c) == []
  }

  /** A required name is reported missing exactly when its value is empty, and `validate` fails
      exactly when one of the three is empty. */
  lemma MissingVarsSpec(c: Config)
    ensures "SECRET_KEY" in MissingVars(c) <==> c.secretKey == ""
    ensures "JWT_SECRET_KEY" in MissingVars(c) <==> c.jwtSecretKey == ""
    ensures "MONGODB_DB" in MissingVars(c) <==> c.mongodbDb == ""
    ensures forall v :: v in MissingVars(c) ==> v in ["SECRET_KEY", "JWT_SECRET_KEY", "MONGODB_DB"]
    ensures Validate(c) <==> c.secretKey != "" && c.jwtSecretKey != "" && c.mongodbDb != ""
  {
    var vars := Required(c);
    assert vars[..1][..0] == [] && vars[..2][..1] == vars[..1] && vars[..2] == vars[..|vars| - 1];
    assert Empty(vars[..1]) == if c.secretKey == "" then ["SECRET_KEY"] else [];
    assert Empty(vars[..2]) == Empty(vars[..1]) + if c.jwtSecretKey == "" then ["JWT_SECRET_KEY"] else [];
    var m := (if c.secretKey == "" then ["SECRET_KEY"] else [])
      + (if c.jwtSecretKey == "" then ["JWT_SECRET_KEY"] else [])
      + (if c.mongodbDb == "" then ["MONGODB_DB"] else []);
    assert MissingVars(c) == m;
  }

  /** What each environment-derived setting is after a successful construction. */
  lemma LoadFields(env: Env, urlparse: UrlParser)
    requires Load(env, urlparse).Success?
    ensures Load(env, urlparse).value.flaskEnv == GetEnv(env, "FLASK_ENV", "development")
    ensures Load(env, urlparse).value.secretKey == GetEnv(env, "SECRET_KEY", "dev-secret-key")
    ensures Load(env, urlparse).value.jwtSecretKey ==
      GetEnv(env, "JWT_SECRET_KEY", GetEnv(env, "SECRET_KEY", "dev-secret-key"))
    ensures Load(env, urlparse).value.redisUrl == GetEnvOpt(env, "REDIS_URL")
    ensures Load(env, urlparse).value.mongodbUri == GetEnvOpt(env, "MONGODB_URI")
    ensures Truthy(GetEnvOpt(env, "MONGODB_URI")) ==> Load(env, urlparse).value.mongodbDb != ""
    ensures !Truthy(GetEnvOpt(env, "MONGODB_URI")) ==>
      Load(env, urlparse).value.mongodbDb == GetEnv(env, "MONGODB_DB", "icp_analyzer")
  {
  }

  /** `FLASK_DEBUG` is on exactly when `FLASK_ENV` is unset or `development`. */
  lemma FlaskDebugEnv(env: Env, urlparse: UrlParser)
    requires Load(env, urlparse).Success?
    ensures Load(env, urlparse).value.flaskDebug <==> "FLASK_ENV" !in env || env["FLASK_ENV"] == "development"
  {
    LoadFields(env, urlparse);
  }

  /** The Celery broker is `REDIS_URL` verbatim when that is set and non-empty, else the URL assembled
      from the Redis parts. */
  lemma BrokerEnv(env: Env, urlparse: UrlParser)
    requires Load(env, urlparse).Success?
    ensures "REDIS_URL" in env && env["REDIS_URL"] != "" ==>
      Load(env, urlparse).value.celeryBrokerUrl == env["REDIS_URL"]
    ensures !("REDIS_URL" in env && env["REDIS_URL"] != "") ==>
      Load(env, urlparse).value.celeryBrokerUrl == RedisUrl(Load(env, urlparse).value)
  {
    LoadFields(env, urlparse);
  }

  /** `validate()` fails exactly when `SECRET_KEY` or `JWT_SECRET_KEY` is set to the empty string, or
      when `MONGODB_DB` is, that last one only while no `MONGODB_URI` is in use. */
  lemma ValidateEnv(env: Env, urlparse: UrlParser)
    requires Load(env, urlparse).Success?
    ensures !Validate(Load(env, urlparse).value) <==>
      || ("SECRET_KEY" in env && env["SECRET_KEY"] == "")
      || ("JWT_SECRET_KEY" in env && env["JWT_SECRET_KEY"] == "")
      || (!Truthy(GetEnvOpt(env, "MONGODB_URI")) && "MONGODB_DB" in env && env["MONGODB_DB"] == "")
  {
    LoadFields(env, urlparse);
    MissingVarsSpec(Load(env, urlparse).value);
  }

  /** A `PORT` that is not a numeral makes construction raise, before anything else can. */
  lemma BadPort(env: Env, urlparse: UrlParser)
    requires "PORT" in env && ParseInt(env["PORT"]).None?
    ensures Load(env, urlparse) == Failure("ValueError: invalid literal for int() with base 10: '" + env["PORT"] + "'")
  {
  }

  /** With an empty environment every default applies. */
  lemma Defaults(urlparse: UrlParser)
    ensures Load(map[], urlparse).Success?
    ensures var c := Load(map[], urlparse).value;
      && c.redisUrl == None && c.redisHost == Some("localhost") && c.redisPort == 6379
      && c.redisPassword == None && c.redisDb == 0
      && c.mongodbUri == None && c.mongodbHost == Some("localhost") && c.mongodbPort == 27017
      && c.mongodbDb == "icp_analyzer" && c.mongodbUser == Some("") && c.mongodbPassword == Some("")
      && c.secretKey == "dev-secret-key" && c.jwtSecretKey == "dev-secret-key" && c.flaskDebug
  {
    var env: Env := map[];
    assert IntEnv(env, "PORT", 5000).Success?;
    assert GetEnvOpt(env, "REDIS_URL") == None && GetEnvOpt(env, "MONGODB_URI") == None;
    assert RedisFromEnv(env) == Success((Some("localhost"), 6379, None, 0));
    assert MongoFromEnv(env) == Success((Some("localhost"), 27017, "icp_analyzer", Some(""), Some("")));
    assert Limits(env).Success?;
  }

  lemma RedisPortText()
    ensures IntStr(6379) == "6379" && IntStr(0) == "0"
  {
    assert NatStr(63) == NatStr(6) + "3" == "63";
    assert NatStr(637) == NatStr(63) + "7" == "637";
    assert NatStr(6379) == NatStr(637) + "9";
  }

  lemma MongodbPortText()
    ensures IntStr(27017) == "27017"
  {
    assert NatStr(27) == NatStr(2) + "7" == "27";
    assert NatStr(270) == NatStr(27) + "0" == "270";
    assert NatStr(2701) == NatStr(270) + "1" == "2701";
    assert NatStr(27017) == NatStr(2701) + "7";
  }

  lemma LocalRedisUrl()
    ensures RedisUrlOf(Some("localhost"), 6379, None, 0) == "redis://localhost:6379/0"
  {
    RedisPortText();
  }

  lemma LocalMongodbUrl(c: Config)
    requires c.mongodbUri == None && c.mongodbHost == Some("localhost") && c.mongodbPort == 27017
    requires c.mongodbDb == "icp_analyzer" && c.mongodbUser == Some("")
    ensures MongodbUrl(c) == "mongodb://localhost:27017/icp_analyzer"
  {
    assert !Truthy(c.mongodbUri) && !Truthy(c.mongodbUser);
    assert Render(c.mongodbHost) == "localhost";
    assert MongodbUrl(c) == "mongodb://" + "localhost" + ":" + IntStr(27017) + "/" + "icp_analyzer";
    LocalMongodbText();
  }

  lemma LocalMongodbText()
    ensures "mongodb://" + "localhost" + ":" + IntStr(27017) + "/" + "icp_analyzer" == "mongodb://localhost:27017/icp_analyzer"
  {
    MongodbPortText();
  }

  /** The default settings give the local Redis and MongoDB URLs and pass `validate()`. */
  lemma DefaultUrls(urlparse: UrlParser)
    ensures Load(map[], urlparse).Success?
    ensures RedisUrl(Load(map[], urlparse).value) == "redis://localhost:6379/0"
    ensures Load(map[], urlparse).value.celeryBrokerUrl == "redis://localhost:6379/0"
    ensures MongodbUrl(Load(map[], urlparse).value) == "mongodb://localhost:27017/icp_analyzer"
    ensures Validate(Load(map[], urlparse).value)
  {
    Defaults(urlparse);
    var c := Load(map[], urlparse).value;
    LocalRedisUrl();
    LocalMongodbUrl(c);
    MissingVarsSpec(c);
  }

  /** A string starts with each of its prefixes. */
  lemma PrefixOfConcat(a: string, b: string)
    ensures StartsWith(a + b, a)
  {
    assert (a + b)[..|a|] == a;
  }

  /** A concatenation holds an `@` exactly when one of its parts does. */
  lemma AtInConcat(a: string, b: string)
    ensures '@' in a + b <==> '@' in a || '@' in b
  {
    if '@' in a + b {
      var k :| 0 <= k < |a + b| && (a + b)[k] == '@';
      if k < |a| { assert a[k] == '@'; } else { assert b[k - |a|] == '@'; }
    }
  }

  /** `get_redis_url()` starts with the scheme, and carries `:password@` right after it when a
      password is set. */
  lemma RedisUrlAuth(c: Config)
    ensures StartsWith(RedisUrl(c), "redis://")
    ensures Truthy(c.redisPassword) ==> StartsWith(RedisUrl(c), "redis://:" + c.redisPassword.value + "@")
  {
    var auth := if Truthy(c.redisPassword) then ":" + c.redisPassword.value + "@" else "";
    var rest := Render(c.redisHost) + ":" + IntStr(c.redisPort) + "/" + IntStr(c.redisDb);
    assert RedisUrl(c) == ("redis://" + auth) + rest;
    PrefixOfConcat("redis://" + auth, rest);
    PrefixOfConcat("redis://", auth);
    assert Truthy(c.redisPassword) ==> "redis://:" + c.redisPassword.value + "@" == "redis://" + auth;
  }

  /** When neither the host nor the password holds an `@`, the Redis URL holds one exactly when
      a password is set. */
  lemma RedisUrlAt(c: Config)
    requires '@' !in Render(c.redisHost) && '@' !in Render(c.redisPassword)
    ensures '@' in RedisUrl(c) <==> Truthy(c.redisPassword)
  {
    var auth := if Truthy(c.redisPassword) then ":" + c.redisPassword.value + "@" else "";
    var rest := Render(c.redisHost) + ":" + IntStr(c.redisPort) + "/" + IntStr(c.redisDb);
    assert RedisUrl(c) == "redis://" + auth + rest;
    AddressNoAt(Render(c.redisHost), c.redisPort, c.redisDb);
    AtOnlyInAuth("redis://", auth, rest);
    if Truthy(c.redisPassword) {
      assert auth[|auth| - 1] == '@';
    }
  }



  /** `host:port/db` holds no `@` when the host holds none. */
  lemma AddressNoAt(host: string, port: int, db: int)
    requires '@' !in host
    ensures '@' !in host + ":" + IntStr(port) + "/" + IntStr(db)
  {
    IntStrNoAt(port);
    IntStrNoAt(db);
    AtInConcat(host + ":" + IntStr(port) + "/", IntStr(db));
    AtInConcat(host + ":", IntStr(port));
  }

  /** In `scheme + auth + rest` with no `@` in the scheme or the rest, an `@` can only come from
      the credentials. */
  lemma AtOnlyInAuth(scheme: string, auth: string, rest: string)
    requires '@' !in scheme && '@' !in rest
    ensures '@' in scheme + auth + rest <==> '@' in auth
  {
    AtInConcat(scheme + auth, rest);
    AtInConcat(scheme, auth);
  }





  /** `get_mongodb_url()` gives a set URI verbatim. Otherwise the URL starts with the scheme, and
      with `user:password@` when both are non-empty. */
  lemma MongodbUrlAuth(c: Config)
    ensures Truthy(c.mongodbUri) ==> MongodbUrl(c) == c.mongodbUri.value
    ensures !Truthy(c.mongodbUri) ==> StartsWith(MongodbUrl(c), "mongodb://")
    ensures !Truthy(c.mongodbUri) && Truthy(c.mongodbUser) && Truthy(c.mongodbPassword) ==>
      StartsWith(MongodbUrl(c), "mongodb://" + c.mongodbUser.value + ":" + c.mongodbPassword.value + "@")
  {
    if !Truthy(c.mongodbUri) {
      var creds := Truthy(c.mongodbUser) && Truthy(c.mongodbPassword);
      var auth := if creds then c.mongodbUser.value + ":" + c.mongodbPassword.value + "@" else "";
      var rest := Render(c.mongodbHost) + ":" + IntStr(c.mongodbPort) + "/" + c.mongodbDb;
      assert MongodbUrl(c) == "mongodb://" + auth + rest;
      PrefixOfConcat("mongodb://" + auth, rest);
      PrefixOfConcat("mongodb://", auth);
    }
  }

  /** Without a URI, and when no setting holds an `@`, the MongoDB URL holds one exactly when both
      a user and a password are set. */
  lemma MongodbUrlAt(c: Config)
    requires !Truthy(c.mongodbUri)
    requires '@' !in Render(c.mongodbHost) && '@' !in c.mongodbDb
    requires '@' !in Render(c.mongodbUser) && '@' !in Render(c.mongodbPassword)
    ensures '@' in MongodbUrl(c) <==> Truthy(c.mongodbUser) && Truthy(c.mongodbPassword)
  {
    var creds := Truthy(c.mongodbUser) && Truthy(c.mongodbPassword);
    var auth := if creds then c.mongodbUser.value + ":" + c.mongodbPassword.value + "@" else "";
    var rest := Render(c.mongodbHost) + ":" + IntStr(c.mongodbPort) + "/" + c.mongodbDb;
    assert MongodbUrl(c) == "mongodb://" + auth + rest;
    assert '@' !in rest by {
      IntStrNoAt(c.mongodbPort);
      AtInConcat(Render(c.mongodbHost) + ":" + IntStr(c.mongodbPort) + "/", c.mongodbDb);
      AtInConcat(Render(c.mongodbHost) + ":", IntStr(c.mongodbPort));
    }
    AtOnlyInAuth("mongodb://", auth, rest);
    if creds {
      assert auth[|auth| - 1] == '@';
    }
  }



  /** The Redis URL ends with `/` and the database number, which reads back as the same number. */
  lemma RedisUrlDb(c: Config) returns (k: nat)
    ensures k < |RedisUrl(c)| && RedisUrl(c)[k] == '/'
    ensures forall i :: k < i < |RedisUrl(c)| ==> RedisUrl(c)[i] != '/'
    ensures ParseInt(RedisUrl(c)[k + 1..]) == Some(c.redisDb)
  {
    var auth := if Truthy(c.redisPassword) then ":" + c.redisPassword.value + "@" else "";
    var head := "redis://" + auth + Render(c.redisHost) + ":" + IntStr(c.redisPort);
    var db := IntStr(c.redisDb);
    assert RedisUrl(c) == head + "/" + db;
    IntStrNoSlash(c.redisDb);
    k := LastSlash(head, db);
    ParseIntStr(c.redisDb);
  }

  /** The `/` put before a text free of slashes is the last one. */
  lemma LastSlash(head: string, tail: string) returns (k: nat)
    requires forall i :: 0 <= i < |tail| ==> tail[i] != '/'
    ensures k < |head + "/" + tail| && (head + "/" + tail)[k] == '/'
    ensures forall i :: k < i < |head + "/" + tail| ==> (head + "/" + tail)[i] != '/'
    ensures (head + "/" + tail)[k + 1..] == tail
  {
    k := |head|;
    var u := head + "/" + tail;
    forall i | k < i < |u| ensures u[i] != '/' {
      assert u[i] == tail[i - k - 1];
    }
  }

  /** An attribute value as `to_dict` returns it: strings, integers, booleans, `None` and the two
      lists of strings. None of them is callable, so the `callable` filter never removes one. */
  datatype Value = Str(s: string) | Int(i: int) | Bool(b: bool) | StrList(items: seq<string>) | NoneValue

  function OptValue(o: Option<string>): Value {
    match o
    case Some(s) => Str(s)
    case None => NoneValue
  }

  /** `self.__dict__.items()`: the attributes in the order `__init__` first assigns them, one block
      per commented group of the constructor. */
  function Attributes(c: Config): Dict<string, Value> {
    FlaskItems(c) + RedisItems(c) + MongoItems(c) + CeleryItems(c) + RateLimitItems(c)
    + ServiceItems(c) + AnalysisItems(c) + IntegrationItems(c)
  }

  function FlaskItems(c: Config): (d: Dict<string, Value>)
    ensures UpperNames(d)
  {
    [("FLASK_ENV", Str(c.flaskEnv)), ("FLASK_DEBUG", Bool(c.flaskDebug)), ("SECRET_KEY", Str(c.secretKey)),
     ("HOST", Str(c.host)), ("PORT", Int(c.port))]
  }

  /** The two Redis branches assign password and database in opposite orders. */
  function RedisItems(c: Config): (d: Dict<string, Value>)
    ensures UpperNames(d)
  {
    [("REDIS_URL", OptValue(c.redisUrl))]
    + if Truthy(c.redisUrl)
      then [("REDIS_HOST", OptValue(c.redisHost)), ("REDIS_PORT", Int(c.redisPort)),
            ("REDIS_PASSWORD", OptValue(c.redisPassword)), ("REDIS_DB", Int(c.redisDb))]
      else [("REDIS_HOST", OptValue(c.redisHost)), ("REDIS_PORT", Int(c.redisPort)),
            ("REDIS_DB", Int(c.redisDb)), ("REDIS_PASSWORD", OptValue(c.redisPassword))]
  }

  function MongoItems(c: Config): (d: Dict<string, Value>)
    ensures UpperNames(d)
  {
    [("MONGODB_URI", OptValue(c.mongodbUri)), ("MONGODB_HOST", OptValue(c.mongodbHost)),
     ("MONGODB_PORT", Int(c.mongodbPort)), ("MONGODB_DB", Str(c.mongodbDb)),
     ("MONGODB_USER", OptValue(c.mongodbUser)), ("MONGODB_PASSWORD", OptValue(c.mongodbPassword))]
  }

  function CeleryItems(c: Config): (d: Dict<string, Value>)
    ensures UpperNames(d)
  {
    [("CELERY_BROKER_URL", Str(c.celeryBrokerUrl)), ("CELERY_RESULT_BACKEND", Str(c.celeryResultBackend)),
     ("CELERY_TASK_SERIALIZER", Str(c.celeryTaskSerializer)),
     ("CELERY_RESULT_SERIALIZER", Str(c.celeryResultSerializer)),
     ("CELERY_ACCEPT_CONTENT", StrList(c.celeryAcceptContent)), ("CELERY_TIMEZONE", Str(c.celeryTimezone)),
     ("CELERY_ENABLE_UTC", Bool(c.celeryEnableUtc))]
  }

  function RateLimitItems(c: Config): (d: Dict<string, Value>)
    ensures UpperNames(d)
  {
    [("RATELIMIT_ENABLED", Bool(c.ratelimitEnabled)), ("RATELIMIT_STORAGE_URL", Str(c.ratelimitStorageUrl)),
     ("RATELIMIT_STRATEGY", Str(c.ratelimitStrategy)), ("RATELIMIT_DEFAULT", Str(c.ratelimitDefault))]
  }

  /** JWT, monitoring and file storage. */
  function ServiceItems(c: Config): (d: Dict<string, Value>)
    ensures UpperNames(d)
  {
    [("JWT_SECRET_KEY", Str(c.jwtSecretKey)), ("JWT_ACCESS_TOKEN_EXPIRES", Int(c.jwtAccessTokenExpires)),
     ("METRICS_PORT", Int(c.metricsPort)), ("SENTRY_DSN", OptValue(c.sentryDsn)),
     ("UPLOAD_FOLDER", Str(c.uploadFolder)), ("MAX_CONTENT_LENGTH", Int(c.maxContentLength))]
  }

  /** Analysis, cache and export. */
  function AnalysisItems(c: Config): (d: Dict<string, Value>)
    ensures UpperNames(d)
  {
    [("MAX_URLS_PER_ANALYSIS", Int(c.maxUrlsPerAnalysis)),
     ("MAX_TESTIMONIALS_PER_URL", Int(c.maxTestimonialsPerUrl)), ("ANALYSIS_TIMEOUT", Int(c.analysisTimeout)),
     ("CACHE_TYPE", Str(c.cacheType)), ("CACHE_DEFAULT_TIMEOUT", Int(c.cacheDefaultTimeout)),
     ("CACHE_KEY_PREFIX", Str(c.cacheKeyPrefix)), ("EXPORT_FORMATS", StrList(c.exportFormats)),
     ("MAX_EXPORT_SIZE", Int(c.maxExportSize))]
  }

  function IntegrationItems(c: Config): (d: Dict<string, Value>)
    ensures UpperNames(d)
  {
    [("SALESFORCE_USERNAME", Str(c.salesforceUsername)), ("SALESFORCE_PASSWORD", Str(c.salesforcePassword)),
     ("SALESFORCE_SECURITY_TOKEN", Str(c.salesforceSecurityToken)), ("HUBSPOT_API_KEY", Str(c.hubspotApiKey)),
     ("ZENDESK_EMAIL", Str(c.zendeskEmail)), ("ZENDESK_API_TOKEN", Str(c.zendeskApiToken)),
     ("ZENDESK_SUBDOMAIN", Str(c.zendeskSubdomain))]
  }

  /** Every key is a non-empty name starting with a capital letter. */
  predicate UpperNames(d: Dict<string, Value>) {
    forall item :: item in d ==> item.0 != [] && 'A' <= item.0[0] <= 'Z'
  }

  lemma UpperNamesAppend(a: Dict<string, Value>, b: Dict<string, Value>)
    requires UpperNames(a) && UpperNames(b)
    ensures UpperNames(a + b)
  {
  }

  /** The items whose key does not start with `_`, in order. */
  function Public(d: Dict<string, Value>): Dict<string, Value> {
    if d == [] then []
    else Public(d[..|d| - 1]) + if StartsWith(d[|d| - 1].0, "_") then [] else [d[|d| - 1]]
  }

  /** `to_dict()`. */
  function ToDict(c: Config): Dict<string, Value> {
    Public(Attributes(c))
  }

  /** An item is kept exactly when it is an attribute whose name does not start with `_`. */
  lemma {:induction false} PublicMembers(d: Dict<string, Value>, item: (string, Value))
    ensures item in Public(d) <==> item in d && !StartsWith(item.0, "_")
  {
    if d != [] {
      PublicMembers(d[..|d| - 1], item);
      assert d == d[..|d| - 1] + [d[|d| - 1]];
    }
  }

  /** Filtering a dict none of whose keys starts with `_` leaves it as it is. */
  lemma {:induction false} PublicUnchanged(d: Dict<string, Value>)
    requires forall item :: item in d ==> item.0 != [] && item.0[0] != '_'
    ensures Public(d) == d
  {
    if d != [] {
      var init, last := d[..|d| - 1], d[|d| - 1];
      assert forall item :: item in init ==> item in d;
      PublicUnchanged(init);
      assert last.0[..1] != "_";
      InitLast(d);
    }
  }

  lemma InitLast<T>(xs: seq<T>)
    requires xs != []
    ensures xs[..|xs| - 1] + [xs[|xs| - 1]] == xs
  {
  }

  /** No attribute name starts with `_`, so `to_dict()` returns all 48 attributes in assignment order. */
  lemma ToDictAttributes(c: Config)
    ensures ToDict(c) == Attributes(c)
    ensures |ToDict(c)| == 48
  {
    var d := Attributes(c);
    UpperNamesAppend(FlaskItems(c), RedisItems(c));
    UpperNamesAppend(FlaskItems(c) + RedisItems(c), MongoItems(c));
    UpperNamesAppend(FlaskItems(c) + RedisItems(c) + MongoItems(c), CeleryItems(c));
    UpperNamesAppend(FlaskItems(c) + RedisItems(c) + MongoItems(c) + CeleryItems(c), RateLimitItems(c));
    UpperNamesAppend(FlaskItems(c) + RedisItems(c) + MongoItems(c) + CeleryItems(c) + RateLimitItems(c),
      ServiceItems(c));
    UpperNamesAppend(FlaskItems(c) + RedisItems(c) + MongoItems(c) + CeleryItems(c) + RateLimitItems(c)
      + ServiceItems(c), AnalysisItems(c));
    UpperNamesAppend(FlaskItems(c) + RedisItems(c) + MongoItems(c) + CeleryItems(c) + RateLimitItems(c)
      + ServiceItems(c) + AnalysisItems(c), IntegrationItems(c));
    PublicUnchanged(d);
  }
}
