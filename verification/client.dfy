/** The module-level settings of lib/airwallex_ruby/client.rb and the URLs
    built from them with the server table of lib/airwallex_ruby/servers.rb.
    The settings are global mutable class variables in the program; here
    they are one immutable record that each setter replaces. */
module Client {
  import opened Ruby

  const Https := "https://"

  /** The five class variables, each with its reader and writer. */
  datatype Setting = Environment | ClientId | ApiKey | AccessToken | ApiVersion

  datatype Settings = Settings(environment: Value, clientId: Value, apiKey: Value,
                               accessToken: Value, apiVersion: Value)

  /** The values the module starts with. */
  const Defaults := Settings(Sym("sandbox"), Nil, Nil, Nil, Str("v1"))

  /** `API_VERSION`. */
  const DefaultApiVersion := "v1"

  /** The reader of a setting. */
  function Get(s: Settings, k: Setting): Value {
    match k
    case Environment => s.environment
    case ClientId => s.clientId
    case ApiKey => s.apiKey
    case AccessToken => s.accessToken
    case ApiVersion => s.apiVersion
  }

  /** The writer of a setting: the value is stored as given, with no check,
      and no other setting changes. */
  function Assign(s: Settings, k: Setting, v: Value): (r: Settings)
    ensures Get(r, k) == v
    ensures forall o: Setting :: o != k ==> Get(r, o) == Get(s, o)
  {
    match k
    case Environment => s.(environment := v)
    case ClientId => s.(clientId := v)
    case ApiKey => s.(apiKey := v)
    case AccessToken => s.(accessToken := v)
    case ApiVersion => s.(apiVersion := v)
  }

  /** Writing a setting twice keeps the second value; writing two different
      settings can be done in either order. */
  lemma AssignOverwrites(s: Settings, k: Setting, v: Value, w: Value)
    ensures Assign(Assign(s, k, v), k, w) == Assign(s, k, w)
  {
    var a := Assign(Assign(s, k, v), k, w);
    var b := Assign(s, k, w);
    assert forall o: Setting :: Get(a, o) == Get(b, o);
    assert Get(a, Environment) == Get(b, Environment) && Get(a, ClientId) == Get(b, ClientId);
    assert Get(a, ApiKey) == Get(b, ApiKey) && Get(a, AccessToken) == Get(b, AccessToken);
    assert Get(a, ApiVersion) == Get(b, ApiVersion);
  }

  lemma AssignCommutes(s: Settings, k: Setting, v: Value, o: Setting, w: Value)
    requires k != o
    ensures Assign(Assign(s, k, v), o, w) == Assign(Assign(s, o, w), k, v)
  {
    var a := Assign(Assign(s, k, v), o, w);
    var b := Assign(Assign(s, o, w), k, v);
    assert Get(a, Environment) == Get(b, Environment) && Get(a, ClientId) == Get(b, ClientId);
    assert Get(a, ApiKey) == Get(b, ApiKey) && Get(a, AccessToken) == Get(b, AccessToken);
    assert Get(a, ApiVersion) == Get(b, ApiVersion);
  }

  /** One row of the server table. */
  datatype Server = Server(apiUrl: string, fileUrl: string)

  const Production := Server(Https + "api.airwallex.com/api", Https + "files.airwallex.com")
  const Sandbox := Server(Https + "api-demo.airwallex.com/api", Https + "files-demo.airwallex.com")

  /** `SERVER[environment]`: the table is keyed by the two Symbols, so any
      other value, a String spelling of them included, finds nothing. */
  function ServerFor(environment: Value): (r: Option<Server>)
    ensures r.Some? <==> environment == Sym("production") || environment == Sym("sandbox")
    ensures r.Some? ==> |r.value.apiUrl| >= |Https| && r.value.apiUrl[..|Https|] == Https
    ensures r.Some? ==> |r.value.fileUrl| >= |Https| && r.value.fileUrl[..|Https|] == Https
  {
    if environment == Sym("production") then Some(Production)
    else if environment == Sym("sandbox") then Some(Sandbox)
    else None
  }

  /** `api_server_url`: `SERVER[environment][:api_url]`, which raises
      `NoMethodError` on the `nil` an unknown environment finds. */
  function ApiServerUrl(s: Settings): (r: Result<string>)
    ensures r.Ok? <==> ServerFor(s.environment).Some?
    ensures r.Ok? ==> r.value == ServerFor(s.environment).value.apiUrl
    ensures r.Raised? ==> r.fault == NoMethodError("[]")
  {
    match ServerFor(s.environment)
    case None => Raised(NoMethodError("[]"))
    case Some(server) => Ok(server.apiUrl)
  }

  /** `file_server_url`: the same lookup for `:file_url`. */
  function FileServerUrl(s: Settings): (r: Result<string>)
    ensures r.Ok? <==> ServerFor(s.environment).Some?
    ensures r.Ok? ==> r.value == ServerFor(s.environment).value.fileUrl
    ensures r.Raised? ==> r.fault == NoMethodError("[]")
  {
    match ServerFor(s.environment)
    case None => Raised(NoMethodError("[]"))
    case Some(server) => Ok(server.fileUrl)
  }

  /** `"#{base}/#{version}"`, with interpolation calling `to_s`. */
  function Versioned(base: Result<string>, version: Value): (r: Result<string>)
    ensures r.Ok? <==> base.Ok?
    ensures r.Raised? ==> r == base
    ensures r.Ok? ==> |r.value| == |base.value| + 1 + |ToS(version)|
    ensures r.Ok? ==> r.value[..|base.value|] == base.value && r.value[|base.value|] == '/'
    ensures r.Ok? ==> r.value[|base.value| + 1..] == ToS(version)
  {
    match base
    case Raised(e) => Raised(e)
    case Ok(b) => Ok(b + "/" + ToS(version))
  }

  /** `api_url`. */
  function ApiUrl(s: Settings): Result<string> {
    Versioned(ApiServerUrl(s), s.apiVersion)
  }

  /** `simulation_api_url`. */
  function SimulationApiUrl(s: Settings): (r: Result<string>)
    ensures r.Ok? <==> ApiUrl(s).Ok?
    ensures r.Ok? ==> r.value == ApiUrl(s).value + "/simulation"
  {
    match ApiServerUrl(s)
    case Raised(e) => Raised(e)
    case Ok(b) => Ok(b + "/" + ToS(s.apiVersion) + "/simulation")
  }

  /** `file_url`. */
  function FileUrl(s: Settings): Result<string> {
    Versioned(FileServerUrl(s), s.apiVersion)
  }

  /** The three URLs are built exactly when the environment is one of the
      two Symbols, they use HTTPS, and the API and file URLs end in the same
      version. */
  lemma UrlsAgree(s: Settings)
    ensures ApiUrl(s).Ok? <==> s.environment == Sym("production") || s.environment == Sym("sandbox")
    ensures FileUrl(s).Ok? <==> ApiUrl(s).Ok?
    ensures ApiUrl(s).Ok? ==>
      var a := ApiUrl(s).value; var f := FileUrl(s).value; var v := ToS(s.apiVersion);
      a[..|Https|] == Https && f[..|Https|] == Https &&
      a[|a| - |v|..] == v && f[|f| - |v|..] == v
  {
  }

  /** The environment can be read back from any URL the client builds: the
      production and sandbox URLs differ whatever the versions are. */
  lemma {:induction false} ApiUrlDeterminesEnvironment(s: Settings, t: Settings)
    requires ApiUrl(s).Ok? && ApiUrl(s) == ApiUrl(t)
    ensures s.environment == t.environment
  {
    var a := ApiUrl(s).value;
    assert a[11] == ApiServerUrl(s).value[11] == ApiServerUrl(t).value[11];
  }

  lemma {:induction false} FileUrlDeterminesEnvironment(s: Settings, t: Settings)
    requires FileUrl(s).Ok? && FileUrl(s) == FileUrl(t)
    ensures s.environment == t.environment
  {
    var a := FileUrl(s).value;
    assert a[13] == FileServerUrl(s).value[13] == FileServerUrl(t).value[13];
  }

  /** The credentials play no part in the URLs. */
  lemma CredentialsDoNotMove(s: Settings, k: Setting, v: Value)
    requires k == ClientId || k == ApiKey || k == AccessToken
    ensures ApiUrl(Assign(s, k, v)) == ApiUrl(s)
    ensures SimulationApiUrl(Assign(s, k, v)) == SimulationApiUrl(s)
    ensures FileUrl(Assign(s, k, v)) == FileUrl(s)
  {
    assert Get(Assign(s, k, v), Environment) == s.environment;
    assert Get(Assign(s, k, v), ApiVersion) == s.apiVersion;
  }

  /** Out of the box the client talks to the sandbox, version `API_VERSION`. */
  lemma DefaultUrls()
    ensures ApiUrl(Defaults) == Ok(Sandbox.apiUrl + "/" + DefaultApiVersion)
    ensures FileUrl(Defaults) == Ok(Sandbox.fileUrl + "/" + DefaultApiVersion)
    ensures SimulationApiUrl(Defaults) == Ok(Sandbox.apiUrl + "/" + DefaultApiVersion + "/simulation")
  {
  }

  /** A String environment, even `"production"`, finds no server. */
  lemma StringEnvironmentFails(s: Settings, name: string)
    ensures ApiUrl(Assign(s, Environment, Str(name))) == Raised(NoMethodError("[]"))
    ensures FileUrl(Assign(s, Environment, Str(name))) == Raised(NoMethodError("[]"))
  {
  }
}
