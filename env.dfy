/** The environment validator: the configuration schema with its defaults, the credentials
    transform and the production rule, as a pure function from the raw variables to either a
    configuration or the list of validation issues. Issues follow zod 3: every field is checked,
    in schema order; a wrong type, an unknown enum value or a NaN number aborts the object, a
    failed `min(1)` or `positive()` only marks it dirty, and the object-level `refine` runs only on
    an object that did not abort. */
module Env {
  import opened Wrappers
  import JsText

  /** The process environment: variable name to value. */
  type RawEnv = map<string, string>

  datatype NodeEnv = Development | Production | Test

  /** The validated configuration. */
  datatype Config = Config(
    databaseUrl: string,
    databaseAuthToken: Option<string>,
    port: int,
    host: string,
    nodeEnv: NodeEnv,
    corsOrigin: string,
    corsCredentials: bool,
    jwtSecret: Option<string>,
    bcryptRounds: int)

  datatype IssueCode = InvalidType | InvalidEnumValue | TooSmall | Custom

  datatype Issue = Issue(path: string, code: IssueCode, message: string)

  /** One field's outcome: a value, a value with a non-aborting issue, or an aborting issue. */
  datatype Field<T> = Clean(value: T) | Dirty(value: T, issue: Issue) | Aborted(issue: Issue)

  function IssuesOf<T>(f: Field<T>): (r: seq<Issue>)
    ensures |r| <= 1 && (r == [] <==> f.Clean?)
  {
    if f.Clean? then [] else [f.issue]
  }

  const DefaultPort := 6969
  const DefaultHost := "localhost"
  const DefaultCorsOrigin := "*"
  const DefaultBcryptRounds := 12
  const ProductionSecretMessage := "JWT_SECRET is required when NODE_ENV is production"

  /** `z.string().min(1, message)` on a required variable. */
  function RequiredString(env: RawEnv, key: string, message: string): (f: Field<string>)
    ensures f.Aborted? <==> key !in env
    ensures f.Dirty? <==> key in env && env[key] == ""
    ensures !f.Aborted? ==> f.value == env[key]
  {
    if key !in env then Aborted(Issue(key, InvalidType, "Required"))
    else if env[key] == "" then Dirty("", Issue(key, TooSmall, message))
    else Clean(env[key])
  }

  /** `z.string().optional()`. */
  function OptionalString(env: RawEnv, key: string): Option<string>
  {
    if key in env then Some(env[key]) else None
  }

  /** `z.string().default(fallback)`. */
  function StringOr(env: RawEnv, key: string, fallback: string): string
  {
    if key in env then env[key] else fallback
  }

  /** `z.coerce.number().positive().default(fallback)`: an absent variable takes the default;
      otherwise `Number(value)`, where NaN aborts and a value that is not above 0 is dirty. */
  function PositiveNumber(env: RawEnv, key: string, fallback: int): (f: Field<int>)
    requires fallback > 0
    ensures f.Clean? <==> key !in env || (JsText.ToNumber(env[key]).Num? && JsText.ToNumber(env[key]).value > 0)
    ensures f.Aborted? <==> key in env && JsText.ToNumber(env[key]).NotANumber?
    ensures !f.Aborted? ==> f.value == if key in env then JsText.ToNumber(env[key]).value else fallback
  {
    if key !in env then Clean(fallback)
    else match JsText.ToNumber(env[key])
      case NotANumber => Aborted(Issue(key, InvalidType, "Expected number, received nan"))
      case Num(v) => if v > 0 then Clean(v) else Dirty(v, Issue(key, TooSmall, "Number must be greater than 0"))
  }

  /** `z.enum(['development', 'production', 'test']).default('development')`. */
  function NodeEnvField(env: RawEnv): (f: Field<NodeEnv>)
    ensures !f.Dirty?
    ensures f.Aborted? <==> "NODE_ENV" in env && env["NODE_ENV"] !in {"development", "production", "test"}
    ensures f.Clean? && f.value == Development <==> "NODE_ENV" !in env || env["NODE_ENV"] == "development"
    ensures f.Clean? && f.value == Production <==> "NODE_ENV" in env && env["NODE_ENV"] == "production"
    ensures f.Clean? && f.value == Test <==> "NODE_ENV" in env && env["NODE_ENV"] == "test"
  {
    if "NODE_ENV" !in env then Clean(Development)
    else if env["NODE_ENV"] == "development" then Clean(Development)
    else if env["NODE_ENV"] == "production" then Clean(Production)
    else if env["NODE_ENV"] == "test" then Clean(Test)
    else Aborted(Issue("NODE_ENV", InvalidEnumValue,
      "Invalid enum value. Expected 'development' | 'production' | 'test', received '" + env["NODE_ENV"] + "'"))
  }

  /** `z.string().min(1, message).optional()`: absent is fine, empty is dirty. */
  function JwtSecretField(env: RawEnv): (f: Field<Option<string>>)
    ensures !f.Aborted?
    ensures f.Dirty? <==> "JWT_SECRET" in env && env["JWT_SECRET"] == ""
    ensures f.value == OptionalString(env, "JWT_SECRET")
  {
    if "JWT_SECRET" !in env then Clean(None)
    else if env["JWT_SECRET"] == "" then Dirty(Some(""), Issue("JWT_SECRET", TooSmall, "JWT_SECRET is required for production"))
    else Clean(Some(env["JWT_SECRET"]))
  }

  /** `z.string().optional().transform(val => val === 'true')`. */
  function CorsCredentials(env: RawEnv): bool
  {
    "CORS_CREDENTIALS" in env && env["CORS_CREDENTIALS"] == "true"
  }

  /** Credentials are on only for the exact string 'true': absent, 'TRUE', '1' and 'false' all
      give false. */
  lemma CorsCredentialsExact(env: RawEnv)
    ensures "CORS_CREDENTIALS" !in env ==> !CorsCredentials(env)
    ensures "CORS_CREDENTIALS" in env && env["CORS_CREDENTIALS"] in {"TRUE", "True", "1", "false", "", " true"} ==> !CorsCredentials(env)
    ensures CorsCredentials(env["CORS_CREDENTIALS" := "true"])
  {
  }

  /** The production rule: production needs a truthy (present, non-empty) JWT secret. */
  predicate ProductionRuleHolds(nodeEnv: NodeEnv, jwtSecret: Option<string>)
  {
    nodeEnv == Production ==> jwtSecret.Some? && jwtSecret.value != ""
  }

  /** Validate the raw environment: the configuration, or every issue found. */
  function Validate(env: RawEnv): (r: Result<Config, seq<Issue>>)
    ensures r.Failure? ==> |r.error| > 0
  {
    var url := RequiredString(env, "DATABASE_URL", "DATABASE_URL is required");
    var port := PositiveNumber(env, "PORT", DefaultPort);
    var nodeEnv := NodeEnvField(env);
    var jwt := JwtSecretField(env);
    var rounds := PositiveNumber(env, "BCRYPT_ROUNDS", DefaultBcryptRounds);
    var issues := IssuesOf(url) + IssuesOf(port) + IssuesOf(nodeEnv) + IssuesOf(jwt) + IssuesOf(rounds);
    if url.Aborted? || port.Aborted? || nodeEnv.Aborted? || rounds.Aborted? then
      Failure(issues)
    else
      var refined := if ProductionRuleHolds(nodeEnv.value, jwt.value) then []
                     else [Issue("JWT_SECRET", Custom, ProductionSecretMessage)];
      if issues + refined != [] then Failure(issues + refined)
      else Success(Config(url.value, OptionalString(env, "DATABASE_AUTH_TOKEN"), port.value,
                          StringOr(env, "HOST", DefaultHost), nodeEnv.value,
                          StringOr(env, "CORS_ORIGIN", DefaultCorsOrigin), CorsCredentials(env),
                          jwt.value, rounds.value))
  }

  /** A variable that, when present, reads as a number above 0. */
  predicate PositiveOrAbsent(env: RawEnv, key: string)
  {
    key !in env || (JsText.ToNumber(env[key]).Num? && JsText.ToNumber(env[key]).value > 0)
  }

  /** What the schema accepts, rule by rule. */
  predicate Acceptable(env: RawEnv)
  {
    && "DATABASE_URL" in env && env["DATABASE_URL"] != ""
    && PositiveOrAbsent(env, "PORT")
    && ("NODE_ENV" in env ==> env["NODE_ENV"] in {"development", "production", "test"})
    && ("JWT_SECRET" in env ==> env["JWT_SECRET"] != "")
    && PositiveOrAbsent(env, "BCRYPT_ROUNDS")
    && ("NODE_ENV" in env && env["NODE_ENV"] == "production" ==> "JWT_SECRET" in env)
  }

  /** Validation succeeds exactly on the environments every rule accepts. */
  lemma ValidateSucceedsIff(env: RawEnv)
    ensures Validate(env).Success? <==> Acceptable(env)
  {
  }

  /** An accepted environment yields its values, with the defaults for absent variables: port
      6969, host 'localhost', development, origin '*', 12 bcrypt rounds; credentials are on
      exactly for the value 'true'. */
  lemma AcceptedValues(env: RawEnv)
    requires Validate(env).Success?
    ensures var c := Validate(env).value;
      && c.databaseUrl == env["DATABASE_URL"]
      && c.databaseAuthToken == OptionalString(env, "DATABASE_AUTH_TOKEN")
      && c.port == (if "PORT" in env then JsText.ToNumber(env["PORT"]).value else 6969) && c.port > 0
      && c.host == (if "HOST" in env then env["HOST"] else "localhost")
      && (c.nodeEnv == Development <==> "NODE_ENV" !in env || env["NODE_ENV"] == "development")
      && (c.nodeEnv == Production <==> "NODE_ENV" in env && env["NODE_ENV"] == "production")
      && c.corsOrigin == (if "CORS_ORIGIN" in env then env["CORS_ORIGIN"] else "*")
      && (c.corsCredentials <==> "CORS_CREDENTIALS" in env && env["CORS_CREDENTIALS"] == "true")
      && c.jwtSecret == OptionalString(env, "JWT_SECRET")
      && c.bcryptRounds == (if "BCRYPT_ROUNDS" in env then JsText.ToNumber(env["BCRYPT_ROUNDS"]).value else 12) && c.bcryptRounds > 0
      && ProductionRuleHolds(c.nodeEnv, c.jwtSecret)
  {
  }

  /** A missing or empty database URL fails, and its issue comes first. */
  lemma DatabaseUrlRequired(env: RawEnv)
    requires "DATABASE_URL" !in env || env["DATABASE_URL"] == ""
    ensures Validate(env).Failure?
    ensures Validate(env).error[0].path == "DATABASE_URL"
    ensures Validate(env).error[0].code == if "DATABASE_URL" in env then TooSmall else InvalidType
  {
  }

  /** Production without a non-empty secret fails. The production issue is reported exactly when
      no field aborted the object (the rule is not consulted otherwise). */
  lemma ProductionNeedsSecret(env: RawEnv)
    requires "NODE_ENV" in env && env["NODE_ENV"] == "production"
    requires "JWT_SECRET" !in env || env["JWT_SECRET"] == ""
    ensures Validate(env).Failure?
    ensures Issue("JWT_SECRET", Custom, ProductionSecretMessage) in Validate(env).error <==>
      && "DATABASE_URL" in env
      && !PositiveNumber(env, "PORT", DefaultPort).Aborted?
      && !PositiveNumber(env, "BCRYPT_ROUNDS", DefaultBcryptRounds).Aborted?
  {
    var url := RequiredString(env, "DATABASE_URL", "DATABASE_URL is required");
    var port := PositiveNumber(env, "PORT", DefaultPort);
    var nodeEnv := NodeEnvField(env);
    var jwt := JwtSecretField(env);
    var rounds := PositiveNumber(env, "BCRYPT_ROUNDS", DefaultBcryptRounds);
    var issues := IssuesOf(url) + IssuesOf(port) + IssuesOf(nodeEnv) + IssuesOf(jwt) + IssuesOf(rounds);
    assert nodeEnv == Clean(Production);
    assert !ProductionRuleHolds(nodeEnv.value, jwt.value);
    assert Issue("JWT_SECRET", Custom, ProductionSecretMessage) !in issues;
    if url.Aborted? || port.Aborted? || rounds.Aborted? {
      assert Validate(env) == Failure(issues);
    } else {
      var refined := [Issue("JWT_SECRET", Custom, ProductionSecretMessage)];
      assert Validate(env) == Failure(issues + refined);
      assert (issues + refined)[|issues|] == refined[0];
    }
  }

  /** The minimal environment: only a database URL, every other value defaulted. */
  lemma MinimalEnvironment(url: string)
    requires url != ""
    ensures Validate(map["DATABASE_URL" := url]) ==
      Success(Config(url, None, 6969, "localhost", Development, "*", false, None, 12))
  {
  }

  /** Production with a secret is accepted. */
  lemma ProductionWithSecret(url: string, secret: string)
    requires url != "" && secret != ""
    ensures Validate(map["DATABASE_URL" := url, "NODE_ENV" := "production", "JWT_SECRET" := secret]).Success?
  {
  }
}
