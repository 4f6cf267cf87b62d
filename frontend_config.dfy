/**
 * The frontend's environment configuration: the two parsers for
 * environment variables, the configuration record built from them, the
 * API URL builders and the mode and logging helpers.
 *
 * The build-time environment is a map from variable name to text; a name
 * that is absent is `undefined`. Vite's own `DEV` flag is a parameter.
 */
module FrontendConfig {
  import opened Wrappers
  import opened Strings

  type Env = map<string, string>

  /** `import.meta.env[name]`, `None` when undefined. */
  function Lookup(env: Env, name: string): Option<string> {
    if name in env then Some(env[name]) else None
  }

  /** JavaScript's `!value` on an optional string: undefined and "" are falsy. */
  predicate Falsy(v: Option<string>) {
    v.None? || v.value == ""
  }

  /** `value || fallback`. */
  function OrElse(v: Option<string>, fallback: string): (r: string)
    ensures Falsy(v) ==> r == fallback
    ensures !Falsy(v) ==> r == v.value
  {
    if Falsy(v) then fallback else v.value
  }

  /**
   * `parseBoolean`: the default for an undefined or empty variable;
   * otherwise true only for a four-letter text, so that any other length is
   * false whatever the default.
   */
  function ParseBoolean(v: Option<string>, default: bool): (b: bool)
    ensures Falsy(v) ==> b == default
    ensures !Falsy(v) && |v.value| != 4 ==> !b
    ensures !Falsy(v) && b ==> forall i :: 0 <= i < 4 ==> LowerChar(v.value[i]) == "true"[i]
  {
    if Falsy(v) then default else ToLower(v.value) == "true"
  }

  /**
   * An undefined or empty variable gives the default; any other text gives
   * true exactly when it spells `true` in some mix of cases, so a
   * non-empty text other than that is false whatever the default.
   */
  lemma ParseBooleanMeaning(v: Option<string>, default: bool)
    ensures Falsy(v) ==> ParseBoolean(v, default) == default
    ensures !Falsy(v) ==> (ParseBoolean(v, default) <==> ToLower(v.value) == "true")
    ensures !Falsy(v) && ToLower(v.value) != "true" ==> !ParseBoolean(v, default)
  {
  }

  /** `TRUE` and `True` are true, `yes` and `1` are false even with a true default. */
  lemma ParseBooleanExamples()
    ensures ParseBoolean(Some("TRUE"), false) && ParseBoolean(Some("True"), false)
    ensures !ParseBoolean(Some("yes"), true) && !ParseBoolean(Some("1"), true)
    ensures ParseBoolean(Some(""), true) && ParseBoolean(None, true)
  {
    assert ToLower("TRUE") == "true";
    assert ToLower("True") == "true";
    assert ToLower("yes") != "true" by { assert |ToLower("yes")| == 3; }
    assert ToLower("1") != "true" by { assert |ToLower("1")| == 1; }
  }

  /** `parseNumber`: `parseInt(value, 10)`, with the default for undefined, empty or NaN. */
  function ParseNumber(v: Option<string>, default: int): (n: int)
    ensures Falsy(v) ==> n == default
    ensures !Falsy(v) && ParseInt(v.value).None? ==> n == default
    ensures !Falsy(v) && ParseInt(v.value).Some? ==> n == ParseInt(v.value).value
  {
    if Falsy(v) then default
    else
      match ParseInt(v.value)
      case None => default
      case Some(n) => n
  }

  /** A number written out in decimal is read back, whatever the default. */
  lemma ParseNumberRoundTrip(n: int, default: int)
    ensures ParseNumber(Some(IntToString(n)), default) == n
  {
    ParseIntToString(n);
  }

  /** Text that does not start with a number gives the default. */
  lemma ParseNumberFallsBack(default: int)
    ensures ParseNumber(Some("abc"), default) == default
    ensures ParseNumber(Some("-"), default) == default
  {
    assert WhitespaceRun("abc") == 0 && "abc"[0..] == "abc" && DigitRun("abc") == 0;
    assert WhitespaceRun("-") == 0 && "-"[0..] == "-" && "-"[1..] == [];
  }

  // ---------------------------------------------------------------------
  // the configuration record
  // ---------------------------------------------------------------------

  datatype Config = Config(
    apiBaseUrl: string,
    apiTimeout: int,
    backendUrl: string,
    employeesEndpoint: string,
    demoEndpoint: string,
    appName: string,
    appVersion: string,
    appDescription: string,
    devMode: bool,
    debugMode: bool,
    enableLogging: bool,
    enableDemoData: bool,
    enableStatistics: bool,
    enableSearch: bool,
    enableExport: bool,
    defaultPageSize: int,
    maxPageSize: int,
    theme: string,
    enableLazyLoading: bool,
    cacheDuration: int,
    enableErrorBoundary: bool,
    errorReporting: bool)

  /**
   * `config`: every setting read from its `VITE_` variable, with its
   * default. A text setting whose variable is set to non-empty text is that
   * text verbatim; an unset variable gives the default.
   */
  function Load(env: Env, viteDev: bool): (c: Config)
    ensures "VITE_API_BASE_URL" in env && env["VITE_API_BASE_URL"] != "" ==> c.apiBaseUrl == env["VITE_API_BASE_URL"]
    ensures "VITE_BACKEND_URL" in env && env["VITE_BACKEND_URL"] != "" ==> c.backendUrl == env["VITE_BACKEND_URL"]
    ensures "VITE_API_EMPLOYEES_ENDPOINT" in env && env["VITE_API_EMPLOYEES_ENDPOINT"] != "" ==>
      c.employeesEndpoint == env["VITE_API_EMPLOYEES_ENDPOINT"]
    ensures "VITE_API_DEMO_ENDPOINT" in env && env["VITE_API_DEMO_ENDPOINT"] != "" ==>
      c.demoEndpoint == env["VITE_API_DEMO_ENDPOINT"]
    ensures "VITE_THEME" in env && env["VITE_THEME"] != "" ==> c.theme == env["VITE_THEME"]
    ensures "VITE_DEV_MODE" !in env ==> c.devMode == viteDev
    ensures "VITE_API_TIMEOUT" !in env ==> c.apiTimeout == 10000
  {
    Config(
      OrElse(Lookup(env, "VITE_API_BASE_URL"), "http://localhost:8080"),
      ParseNumber(Lookup(env, "VITE_API_TIMEOUT"), 10000),
      OrElse(Lookup(env, "VITE_BACKEND_URL"), "http://localhost:8080"),
      OrElse(Lookup(env, "VITE_API_EMPLOYEES_ENDPOINT"), "/api/employees"),
      OrElse(Lookup(env, "VITE_API_DEMO_ENDPOINT"), "/api/demo"),
      OrElse(Lookup(env, "VITE_APP_NAME"), "Employee Management System"),
      OrElse(Lookup(env, "VITE_APP_VERSION"), "1.0.0"),
      OrElse(Lookup(env, "VITE_APP_DESCRIPTION"), "Full-stack Employee Management System"),
      ParseBoolean(Lookup(env, "VITE_DEV_MODE"), viteDev),
      ParseBoolean(Lookup(env, "VITE_DEBUG_MODE"), false),
      ParseBoolean(Lookup(env, "VITE_ENABLE_LOGGING"), true),
      ParseBoolean(Lookup(env, "VITE_ENABLE_DEMO_DATA"), true),
      ParseBoolean(Lookup(env, "VITE_ENABLE_STATISTICS"), true),
      ParseBoolean(Lookup(env, "VITE_ENABLE_SEARCH"), true),
      ParseBoolean(Lookup(env, "VITE_ENABLE_EXPORT"), false),
      ParseNumber(Lookup(env, "VITE_DEFAULT_PAGE_SIZE"), 10),
      ParseNumber(Lookup(env, "VITE_MAX_PAGE_SIZE"), 100),
      OrElse(Lookup(env, "VITE_THEME"), "light"),
      ParseBoolean(Lookup(env, "VITE_ENABLE_LAZY_LOADING"), true),
      ParseNumber(Lookup(env, "VITE_CACHE_DURATION"), 300000),
      ParseBoolean(Lookup(env, "VITE_ENABLE_ERROR_BOUNDARY"), true),
      ParseBoolean(Lookup(env, "VITE_ERROR_REPORTING"), false))
  }

  /** With no variable set, every setting is its default and the dev flag is Vite's. */
  lemma EmptyEnvironmentDefaults(viteDev: bool)
    ensures (var c := Load(map[], viteDev);
             c.apiBaseUrl == "http://localhost:8080" && c.backendUrl == "http://localhost:8080" &&
             c.apiTimeout == 10000 && c.employeesEndpoint == "/api/employees" && c.demoEndpoint == "/api/demo" &&
             c.devMode == viteDev && !c.debugMode && c.enableLogging && c.enableDemoData && c.enableStatistics &&
             c.enableSearch && !c.enableExport && c.defaultPageSize == 10 && c.maxPageSize == 100 &&
             c.theme == "light" && c.enableLazyLoading && c.cacheDuration == 300000 && c.enableErrorBoundary &&
             !c.errorReporting)
  {
  }

  /** An empty variable counts as unset. */
  lemma EmptyVariableIsUnset(env: Env, viteDev: bool)
    requires "VITE_API_BASE_URL" in env && env["VITE_API_BASE_URL"] == ""
    ensures Load(env, viteDev).apiBaseUrl == "http://localhost:8080"
  {
  }

  // ---------------------------------------------------------------------
  // URLs
  // ---------------------------------------------------------------------

  /** `getApiUrl(endpoint)`: the base URL followed by the endpoint. */
  function ApiUrl(c: Config, endpoint: string): (u: string)
    ensures |u| == |c.apiBaseUrl| + |endpoint|
    ensures u[..|c.apiBaseUrl|] == c.apiBaseUrl && u[|c.apiBaseUrl|..] == endpoint
  {
    c.apiBaseUrl + endpoint
  }

  function Employees(c: Config): string {
    c.apiBaseUrl + c.employeesEndpoint
  }

  /** `employeeById(id)`: the collection URL, a slash, and the id in decimal. */
  function EmployeeById(c: Config, id: int): (u: string)
    ensures |u| > |Employees(c)| + 1
    ensures u[..|Employees(c)|] == Employees(c) && u[|Employees(c)|] == '/'
    ensures u[|Employees(c)| + 1..] == IntToString(id)
  {
    Employees(c) + "/" + IntToString(id)
  }

  function EmployeeSearch(c: Config): string {
    Employees(c) + "/search"
  }

  function EmployeeStatistics(c: Config): string {
    Employees(c) + "/statistics"
  }

  function EmployeeDepartments(c: Config): string {
    Employees(c) + "/departments"
  }

  function EmployeeHealth(c: Config): string {
    Employees(c) + "/health"
  }

  function Demo(c: Config): string {
    c.apiBaseUrl + c.demoEndpoint
  }

  function DemoEmployees(c: Config): string {
    Demo(c) + "/employees"
  }

  function DemoStatistics(c: Config): string {
    Demo(c) + "/statistics"
  }

  function DemoHealth(c: Config): string {
    Demo(c) + "/health"
  }

  /** The id can be read back from the end of its URL, so distinct ids get distinct URLs. */
  lemma EmployeeByIdRoundTrip(c: Config, id: int)
    ensures |EmployeeById(c, id)| > |Employees(c)|
    ensures EmployeeById(c, id)[..|Employees(c)| + 1] == Employees(c) + "/"
    ensures ParseInt(EmployeeById(c, id)[|Employees(c)| + 1..]) == Some(id)
  {
    var u := EmployeeById(c, id);
    assert u[|Employees(c)| + 1..] == IntToString(id);
    ParseIntToString(id);
  }

  lemma EmployeeByIdInjective(c: Config, i: int, j: int)
    requires EmployeeById(c, i) == EmployeeById(c, j)
    ensures i == j
  {
    EmployeeByIdRoundTrip(c, i);
    EmployeeByIdRoundTrip(c, j);
  }

  /** Every employee URL is `getApiUrl` of the employees endpoint followed by its fixed suffix. */
  lemma EmployeeUrlsAreApiUrls(c: Config, id: int)
    ensures Employees(c) == ApiUrl(c, c.employeesEndpoint)
    ensures EmployeeById(c, id) == ApiUrl(c, c.employeesEndpoint + "/" + IntToString(id))
    ensures EmployeeSearch(c) == ApiUrl(c, c.employeesEndpoint + "/search")
    ensures EmployeeStatistics(c) == ApiUrl(c, c.employeesEndpoint + "/statistics")
    ensures EmployeeDepartments(c) == ApiUrl(c, c.employeesEndpoint + "/departments")
    ensures EmployeeHealth(c) == ApiUrl(c, c.employeesEndpoint + "/health")
  {
    var b, e := c.apiBaseUrl, c.employeesEndpoint;
    var t := IntToString(id);
    Regroup(b, e, "/" + t);
    assert e + "/" + t == e + ("/" + t);
    assert Employees(c) + "/" + t == (b + e) + ("/" + t);
    Regroup(b, e, "/search");
    Regroup(b, e, "/statistics");
    Regroup(b, e, "/departments");
    Regroup(b, e, "/health");
  }

  /** Every demo URL is `getApiUrl` of the demo endpoint followed by its fixed suffix. */
  lemma DemoUrlsAreApiUrls(c: Config)
    ensures Demo(c) == ApiUrl(c, c.demoEndpoint)
    ensures DemoEmployees(c) == ApiUrl(c, c.demoEndpoint + "/employees")
    ensures DemoStatistics(c) == ApiUrl(c, c.demoEndpoint + "/statistics")
    ensures DemoHealth(c) == ApiUrl(c, c.demoEndpoint + "/health")
  {
    var b, d := c.apiBaseUrl, c.demoEndpoint;
    Regroup(b, d, "/employees");
    Regroup(b, d, "/statistics");
    Regroup(b, d, "/health");
  }

  lemma Regroup(a: string, b: string, c: string)
    ensures a + b + c == a + (b + c)
  {
  }

  // ---------------------------------------------------------------------
  // mode and logging
  // ---------------------------------------------------------------------

  /** `isDevelopment`: the development flag, the exact opposite of `isProduction`. */
  function IsDevelopment(c: Config): (b: bool)
    ensures b <==> !IsProduction(c)
  {
    c.devMode
  }

  predicate IsProduction(c: Config) {
    !c.devMode
  }

  /** Exactly one of the two modes holds. */
  lemma ModesAreComplementary(c: Config)
    ensures IsProduction(c) <==> !IsDevelopment(c)
  {
  }

  /** The line `utils.log` writes, if any: only when logging is on. */
  function LogLine(c: Config, text: string): (line: Option<string>)
    ensures line.Some? <==> c.enableLogging
    ensures line.Some? ==> |line.value| == 6 + |text| && line.value[..6] == "[EMS] " && line.value[6..] == text
  {
    if c.enableLogging then Some("[EMS] " + text) else None
  }

  /** The line `utils.debug` writes, if any: only in debug mode. */
  function DebugLine(c: Config, text: string): (line: Option<string>)
    ensures line.Some? <==> c.debugMode
    ensures line.Some? ==>
      |line.value| == 12 + |text| && line.value[..12] == "[EMS DEBUG] " && line.value[12..] == text
  {
    if c.debugMode then Some("[EMS DEBUG] " + text) else None
  }

  /** The line `utils.error` writes: always. */
  function ErrorLine(text: string): (line: string)
    ensures |line| == 12 + |text| && line[..12] == "[EMS ERROR] " && line[12..] == text
  {
    "[EMS ERROR] " + text
  }

  /** The configuration is logged at start-up only in development mode with logging on. */
  predicate LogsConfiguration(c: Config) {
    c.devMode && c.enableLogging
  }
}
