/**
 * config.py: the settings read from the environment and the start-up check
 * that credentials and at least one language-model key are present.
 */
module Config {
  import opened Wrappers
  import opened Strings
  import opened Oracles

  const DefaultModel := "llama-3.3-70b-versatile"
  const MaxTokens := 4000

  /** The class attributes of Config; None stands for an unset variable. */
  datatype Settings = Settings(
    studentEmail: Option<string>,
    secretKey: Option<string>,
    groqApiKey: Option<string>,
    ai21ApiKey: Option<string>,
    openaiApiKey: string,
    debug: bool,
    timeoutSeconds: Result<int, Error>)

  /** os.getenv(name). */
  function GetEnv(env: map<string, string>, name: string): Option<string> {
    if name in env then Some(env[name]) else None
  }

  /** os.getenv(name, default). */
  function GetEnvOr(env: map<string, string>, name: string, default: string): string {
    if name in env then env[name] else default
  }

  /** int(s) as Python evaluates it while the class body runs. */
  function IntOrError(s: string): Result<int, Error> {
    match ParseInt(s)
    case Some(v) => Success(v)
    case None => Failure(ValueError("invalid literal for int() with base 10: '" + s + "'"))
  }

  /** The Config class body evaluated against an environment. */
  function Load(env: map<string, string>): Settings {
    Settings(
      GetEnv(env, "STUDENT_EMAIL"),
      GetEnv(env, "SECRET_KEY"),
      GetEnv(env, "GROQ_API_KEY"),
      GetEnv(env, "AI21_API_KEY"),
      GetEnvOr(env, "OPENAI_API_KEY", ""),
      Lower(GetEnvOr(env, "DEBUG", "false")) == "true",
      IntOrError(GetEnvOr(env, "TIMEOUT_SECONDS", "180")))
  }

  /** Python truthiness of an optional string attribute. */
  predicate Present(v: Option<string>) {
    v.Some? && v.value != ""
  }

  /** The names of the required credentials that are unset or empty, in declaration order. */
  function Missing(c: Settings): (missing: seq<string>)
    ensures "STUDENT_EMAIL" in missing <==> !Present(c.studentEmail)
    ensures "SECRET_KEY" in missing <==> !Present(c.secretKey)
    ensures forall i, j :: 0 <= i < j < |missing| ==> missing[i] == "STUDENT_EMAIL" && missing[j] == "SECRET_KEY"
  {
    (if Present(c.studentEmail) then [] else ["STUDENT_EMAIL"])
      + (if Present(c.secretKey) then [] else ["SECRET_KEY"])
  }

  /** Config.validate(): True, or the ValueError that names what is missing. */
  function Validate(c: Settings): (r: Result<bool, Error>)
    ensures r.Success? <==>
      Present(c.studentEmail) && Present(c.secretKey)
      && (Present(c.groqApiKey) || Present(c.ai21ApiKey) || c.openaiApiKey != "")
    ensures r.Success? ==> r.value
    ensures !Present(c.studentEmail) || !Present(c.secretKey) ==>
      r == Failure(ValueError("Missing required config: " + Join(Missing(c), ", ")))
  {
    var missing := Missing(c);
    if missing != [] then
      Failure(ValueError("Missing required config: " + Join(missing, ", ")))
    else if !(Present(c.groqApiKey) || Present(c.ai21ApiKey) || c.openaiApiKey != "") then
      Failure(ValueError("At least one LLM API key is required"))
    else
      Success(true)
  }

  /** With both credentials present and no model key, validate names the missing key. */
  lemma {:induction false} ValidateNeedsAKey(c: Settings)
    requires Present(c.studentEmail) && Present(c.secretKey)
    requires !Present(c.groqApiKey) && !Present(c.ai21ApiKey) && c.openaiApiKey == ""
    ensures Validate(c) == Failure(ValueError("At least one LLM API key is required"))
  {
  }

  /** Both credentials missing: they are named in declaration order. */
  lemma {:induction false} ValidateNamesBoth(c: Settings)
    requires !Present(c.studentEmail) && !Present(c.secretKey)
    ensures Validate(c) == Failure(ValueError("Missing required config: " + "STUDENT_EMAIL, SECRET_KEY"))
  {
    assert Missing(c) == ["STUDENT_EMAIL", "SECRET_KEY"];
    JoinBothNames();
  }

  lemma {:induction false} JoinBothNames()
    ensures Join(["STUDENT_EMAIL", "SECRET_KEY"], ", ") == "STUDENT_EMAIL, SECRET_KEY"
  {
    var both := ["STUDENT_EMAIL", "SECRET_KEY"];
    assert both[1..] == ["SECRET_KEY"];
  }

  /** DEBUG is on exactly when the variable lower-cases to "true"; unset means off. */
  lemma {:induction false} DebugDefault(env: map<string, string>)
    ensures Load(env).debug <==> "DEBUG" in env && Lower(env["DEBUG"]) == "true"
  {
    if "DEBUG" !in env {
      assert Lower("false")[0] == 'f';
    }
  }

  /** TIMEOUT_SECONDS defaults to 180. */
  lemma {:induction false} TimeoutDefault(env: map<string, string>)
    requires "TIMEOUT_SECONDS" !in env
    ensures Load(env).timeoutSeconds == Success(180)
  {
    assert NatToString(180) == "180";
    ParseIntOfNatToString(180);
  }

  /** An explicit setting that is a decimal numeral is read as that number. */
  lemma {:induction false} TimeoutFromEnv(env: map<string, string>, n: nat)
    requires "TIMEOUT_SECONDS" in env && env["TIMEOUT_SECONDS"] == NatToString(n)
    ensures Load(env).timeoutSeconds == Success(n)
  {
    ParseIntOfNatToString(n);
  }
}
