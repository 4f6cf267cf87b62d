/**
 * The Spring service's environment configuration: the settings injected
 * from `${NAME:default}` placeholders, the JDBC URL built from them, the
 * comma-separated CORS settings as arrays, the profile predicates, the
 * configuration check and the printed form, which leaves the secrets out.
 */
module EnvironmentConfig {
  import opened Wrappers

  /** The properties Spring resolves placeholders against. */
  type Properties = map<string, string>

  /**
   * `${name:default}`: the property when it is set, even to the empty
   * string, and the default otherwise.
   */
  function Resolve(props: Properties, name: string, default: string): (v: string)
    ensures name in props ==> v == props[name]
    ensures name !in props ==> v == default
  {
    if name in props then props[name] else default
  }

  datatype Config = Config(
    dbHost: string,
    dbPort: string,
    dbName: string,
    dbUsername: string,
    dbPassword: string,
    serverPort: string,
    contextPath: string,
    applicationName: string,
    activeProfile: string,
    corsAllowedOrigins: string,
    corsAllowedMethods: string,
    corsAllowedHeaders: string,
    corsAllowCredentials: bool,
    securityEnabled: bool,
    jwtSecret: string,
    jwtExpiration: int,
    loggingLevel: string,
    cacheTtl: int,
    maxPoolSize: int,
    minIdle: int)

  /**
   * The configuration with every text setting resolved from the properties;
   * the boolean and numeric settings arrive already converted and are kept
   * as given. Without a password property the configuration is not valid;
   * without a profile property it is in development mode.
   */
  function Load(props: Properties, corsAllowCredentials: bool, securityEnabled: bool, jwtExpiration: int,
                cacheTtl: int, maxPoolSize: int, minIdle: int): (c: Config)
    ensures c.corsAllowCredentials == corsAllowCredentials && c.securityEnabled == securityEnabled
    ensures c.jwtExpiration == jwtExpiration && c.cacheTtl == cacheTtl && c.maxPoolSize == maxPoolSize
    ensures c.minIdle == minIdle
    ensures "DB_HOST" in props ==> c.dbHost == props["DB_HOST"]
    ensures "DB_PASSWORD" in props ==> c.dbPassword == props["DB_PASSWORD"]
    ensures "DB_PASSWORD" !in props ==> !IsConfigurationValid(c)
    ensures "SPRING_PROFILES_ACTIVE" !in props ==> IsDevelopmentMode(c)
  {
    Config(
      Resolve(props, "DB_HOST", "localhost"),
      Resolve(props, "DB_PORT", "3306"),
      Resolve(props, "DB_NAME", "ems"),
      Resolve(props, "DB_USERNAME", "root"),
      Resolve(props, "DB_PASSWORD", ""),
      Resolve(props, "SERVER_PORT", "8080"),
      Resolve(props, "SERVER_SERVLET_CONTEXT_PATH", "/"),
      Resolve(props, "SPRING_APPLICATION_NAME", "Employee Management System"),
      Resolve(props, "SPRING_PROFILES_ACTIVE", "dev"),
      Resolve(props, "CORS_ALLOWED_ORIGINS", "http://localhost:3000,http://localhost:5173"),
      Resolve(props, "CORS_ALLOWED_METHODS", "GET,POST,PUT,DELETE,OPTIONS"),
      Resolve(props, "CORS_ALLOWED_HEADERS", "*"),
      corsAllowCredentials,
      securityEnabled,
      Resolve(props, "JWT_SECRET", "default-secret-key"),
      jwtExpiration,
      Resolve(props, "LOGGING_LEVEL_COM_EMPLOYEEMS", "DEBUG"),
      cacheTtl,
      maxPoolSize,
      minIdle)
  }

  // ---------------------------------------------------------------------
  // the JDBC URL
  // ---------------------------------------------------------------------

  const UrlPrefix := "jdbc:mysql://"
  const UrlQuery := "useSSL=false&serverTimezone=UTC&allowPublicKeyRetrieval=true&zeroDateTimeBehavior=convertToNull"

  /**
   * `getDatabaseUrl`: the MySQL scheme, the host, a colon, and, at the end,
   * the fixed query after a question mark.
   */
  function DatabaseUrl(c: Config): (u: string)
    ensures |u| > |UrlPrefix| + |c.dbHost| + |UrlQuery|
    ensures u[..|UrlPrefix|] == UrlPrefix && u[|UrlPrefix|..|UrlPrefix| + |c.dbHost|] == c.dbHost
    ensures u[|UrlPrefix| + |c.dbHost|] == ':'
    ensures u[|u| - |UrlQuery| - 1..] == "?" + UrlQuery
  {
    UrlPrefix + c.dbHost + ":" + c.dbPort + "/" + c.dbName + "?" + UrlQuery
  }

  /** `s` cut at the first `sep`, if it holds one. */
  function CutAt(s: string, sep: char): (r: Option<(string, string)>)
    ensures r.None? <==> sep !in s
    ensures r.Some? ==> sep !in r.value.0 && s == r.value.0 + [sep] + r.value.1
  {
    if s == [] then None
    else if s[0] == sep then Some(([], s[1..]))
    else
      match CutAt(s[1..], sep)
      case None => None
      case Some((a, b)) => Some(([s[0]] + a, b))
  }

  /** Cutting `a + [sep] + b` at the first `sep` gives back `a` and `b` when `a` holds none. */
  lemma {:induction false} CutAtJoin(a: string, sep: char, b: string)
    requires sep !in a
    ensures CutAt(a + [sep] + b, sep) == Some((a, b))
  {
    if a == [] {
      assert a + [sep] + b == [sep] + b;
    } else {
      assert a[0] != sep && sep !in a[1..] by {
        assert a[0] in a;
        forall x | x in a[1..] ensures x != sep {
          var i :| 0 <= i < |a[1..]| && a[1..][i] == x;
          assert a[i + 1] == x;
        }
      }
      var s := a + [sep] + b;
      assert s[0] == a[0] && s[1..] == a[1..] + [sep] + b;
      CutAtJoin(a[1..], sep, b);
      assert [a[0]] + a[1..] == a;
    }
  }

  /** Reads host, port and database name back out of a JDBC URL of this shape. */
  function ParseDatabaseUrl(u: string): Option<(string, string, string)> {
    if |u| < |UrlPrefix| || u[..|UrlPrefix|] != UrlPrefix then None
    else
      match CutAt(u[|UrlPrefix|..], ':')
      case None => None
      case Some((host, rest)) =>
        match CutAt(rest, '/')
        case None => None
        case Some((port, rest')) =>
          match CutAt(rest', '?')
          case None => None
          case Some((name, options)) => if options == UrlQuery then Some((host, port, name)) else None
  }

  /**
   * The URL names exactly the configured host, port and database, provided
   * the host holds no `:`, the port no `/` and the name no `?`.
   */
  lemma DatabaseUrlRoundTrip(c: Config)
    requires ':' !in c.dbHost && '/' !in c.dbPort && '?' !in c.dbName
    ensures ParseDatabaseUrl(DatabaseUrl(c)) == Some((c.dbHost, c.dbPort, c.dbName))
  {
    var u := DatabaseUrl(c);
    var options := UrlQuery;
    var r3 := c.dbName + ['?'] + options;
    var r2 := c.dbPort + ['/'] + r3;
    var r1 := c.dbHost + [':'] + r2;
    assert u == UrlPrefix + r1;
    assert u[..|UrlPrefix|] == UrlPrefix && u[|UrlPrefix|..] == r1;
    CutAtJoin(c.dbHost, ':', r2);
    CutAtJoin(c.dbPort, '/', r3);
    CutAtJoin(c.dbName, '?', options);
  }

  // ---------------------------------------------------------------------
  // comma-separated settings
  // ---------------------------------------------------------------------

  /** The pieces between the commas of `s`, empty ones included. */
  function Pieces(s: string): (r: seq<string>)
    ensures |r| >= 1
    ensures forall i :: 0 <= i < |r| ==> ',' !in r[i]
  {
    if s == [] then [[]]
    else
      var rest := Pieces(s[1..]);
      if s[0] == ',' then [[]] + rest else [[s[0]] + rest[0]] + rest[1..]
  }

  /** The pieces joined with commas. */
  function Join(parts: seq<string>): string
    requires |parts| >= 1
  {
    if |parts| == 1 then parts[0] else parts[0] + "," + Join(parts[1..])
  }

  /** Joining the pieces gives back the text. */
  lemma {:induction false} JoinPieces(s: string)
    ensures Join(Pieces(s)) == s
  {
    if s != [] {
      var rest := Pieces(s[1..]);
      JoinPieces(s[1..]);
      if s[0] == ',' {
        assert Pieces(s) == [[]] + rest;
        assert s == [] + "," + s[1..];
      } else {
        var r := Pieces(s);
        assert r == [[s[0]] + rest[0]] + rest[1..];
        if |rest| == 1 {
          assert r[1..] == [];
        } else {
          assert r[1..] == rest[1..];
          assert Join(rest) == rest[0] + "," + Join(rest[1..]);
        }
      }
    }
  }

  /** Parts without commas are exactly the pieces of their join. */
  lemma {:induction false} PiecesJoin(parts: seq<string>)
    requires |parts| >= 1
    requires forall i :: 0 <= i < |parts| ==> ',' !in parts[i]
    ensures Pieces(Join(parts)) == parts
  {
    if |parts| == 1 {
      PiecesOfPlain(parts[0]);
    } else {
      PiecesJoin(parts[1..]);
      PiecesPrefix(parts[0], Join(parts[1..]));
      assert parts == [parts[0]] + parts[1..];
    }
  }

  /** A text without commas is one piece. */
  lemma {:induction false} PiecesOfPlain(s: string)
    requires ',' !in s
    ensures Pieces(s) == [s]
  {
    if s != [] {
      assert ',' !in s[1..] by {
        forall i | 0 <= i < |s[1..]| ensures s[1..][i] != ',' {
          assert s[1..][i] == s[i + 1];
        }
      }
      PiecesOfPlain(s[1..]);
      assert [s[0]] + s[1..] == s;
    }
  }

  /** A comma-free head and a comma in front of the rest make one more piece. */
  lemma {:induction false} PiecesPrefix(a: string, b: string)
    requires ',' !in a
    ensures Pieces(a + "," + b) == [a] + Pieces(b)
  {
    if a == [] {
      assert a + "," + b == [','] + b;
      assert ([','] + b)[1..] == b;
    } else {
      assert ',' !in a[1..] by {
        forall i | 0 <= i < |a[1..]| ensures a[1..][i] != ',' {
          assert a[1..][i] == a[i + 1];
        }
      }
      PiecesPrefix(a[1..], b);
      var s := a + "," + b;
      assert s[0] == a[0] && s[1..] == a[1..] + "," + b;
      assert [a[0]] + a[1..] == a;
    }
  }

  /** The pieces with the empty ones at the end removed. */
  function DropTrailingEmpty(ps: seq<string>): (r: seq<string>)
    ensures |r| <= |ps| && r == ps[..|r|]
    ensures r == [] || r[|r| - 1] != []
    ensures forall i :: |r| <= i < |ps| ==> ps[i] == []
  {
    if ps == [] || ps[|ps| - 1] != [] then ps else DropTrailingEmpty(ps[..|ps| - 1])
  }

  /**
   * Java's `s.split(",")`: the pieces between the commas, with the empty
   * pieces at the end removed; a text without any comma is its own only
   * piece, even when empty.
   */
  function Split(s: string): (r: seq<string>)
    ensures forall i :: 0 <= i < |r| ==> ',' !in r[i]
    ensures ',' !in s ==> r == [s]
  {
    PiecesOfPlainIf(s);
    if s == [] then [[]] else DropTrailingEmpty(Pieces(s))
  }

  lemma PiecesOfPlainIf(s: string)
    ensures ',' !in s ==> Pieces(s) == [s]
  {
    if ',' !in s {
      PiecesOfPlain(s);
    }
  }

  /** Comma-free parts whose last is not empty are what `split` finds in their join. */
  lemma SplitJoin(parts: seq<string>)
    requires |parts| >= 1 && parts[|parts| - 1] != []
    requires forall i :: 0 <= i < |parts| ==> ',' !in parts[i]
    ensures Split(Join(parts)) == parts
  {
    PiecesJoin(parts);
    if Join(parts) == [] {
      JoinPieces([]);
    }
  }

  /** Trailing commas are dropped, so a list of commas splits into nothing. */
  lemma SplitDropsTrailingCommas()
    ensures Split("a,") == ["a"]
    ensures Split(",") == []
  {
    PiecesPrefix("a", "");
    PiecesPrefix("", "");
    assert "a" + "," + "" == "a,";
    assert "" + "," + "" == ",";
    assert Pieces("a,") == ["a", ""];
    assert Pieces(",") == ["", ""];
    assert DropTrailingEmpty(["a", ""]) == DropTrailingEmpty(["a"]) by { assert ["a", ""][..1] == ["a"]; }
    assert DropTrailingEmpty(["", ""]) == DropTrailingEmpty([""]) by { assert ["", ""][..1] == [""]; }
    assert DropTrailingEmpty([""]) == DropTrailingEmpty([]) by { assert [""][..0] == []; }
  }

  /** `getCorsAllowedOriginsArray`: comma-free origins; a setting without a comma is the one origin. */
  function OriginsArray(c: Config): (r: seq<string>)
    ensures forall i :: 0 <= i < |r| ==> ',' !in r[i]
    ensures ',' !in c.corsAllowedOrigins ==> r == [c.corsAllowedOrigins]
  {
    Split(c.corsAllowedOrigins)
  }

  /** `getCorsAllowedMethodsArray`: comma-free methods; a setting without a comma is the one method. */
  function MethodsArray(c: Config): (r: seq<string>)
    ensures forall i :: 0 <= i < |r| ==> ',' !in r[i]
    ensures ',' !in c.corsAllowedMethods ==> r == [c.corsAllowedMethods]
  {
    Split(c.corsAllowedMethods)
  }

  /**
   * `getCorsAllowedHeadersArray`: the wildcard on its own, or the split
   * setting; the wildcard case agrees with splitting, so the array is
   * always the split setting.
   */
  function HeadersArray(c: Config): (r: seq<string>)
    ensures r == Split(c.corsAllowedHeaders)
    ensures forall i :: 0 <= i < |r| ==> ',' !in r[i]
  {
    if c.corsAllowedHeaders == "*" then ["*"] else Split(c.corsAllowedHeaders)
  }

  /**
   * The wildcard case agrees with splitting, so the headers array is
   * always the split setting; `*,` gives the same single wildcard.
   */
  lemma HeadersArrayIsSplit(c: Config)
    ensures HeadersArray(c) == Split(c.corsAllowedHeaders)
    ensures c.corsAllowedHeaders == "*" ==> HeadersArray(c) == ["*"]
  {
    if c.corsAllowedHeaders == "*" {
      SplitJoin(["*"]);
    }
  }

  /** The single wildcard is not only the answer for `*`: a trailing comma after it gives the same array. */
  lemma WildcardWithTrailingComma(c: Config)
    requires c.corsAllowedHeaders == "*,"
    ensures HeadersArray(c) == ["*"]
  {
    PiecesPrefix("*", "");
    assert "*" + "," + "" == "*,";
    assert Pieces("*,") == ["*", ""];
    assert DropTrailingEmpty(["*", ""]) == DropTrailingEmpty(["*"]) by { assert ["*", ""][..1] == ["*"]; }
  }

  /** Joining a list with a given first element puts a comma after it. */
  lemma JoinCons(x: string, rest: seq<string>)
    requires |rest| >= 1
    ensures Join([x] + rest) == x + "," + Join(rest)
  {
    assert ([x] + rest)[1..] == rest;
  }

  /** The default origins split into the two local development servers. */
  lemma DefaultOriginsArray(c: Config)
    requires c.corsAllowedOrigins == "http://localhost:3000,http://localhost:5173"
    ensures OriginsArray(c) == ["http://localhost:3000", "http://localhost:5173"]
  {
    var o1, o2 := "http://localhost:3000", "http://localhost:5173";
    JoinCons(o1, [o2]);
    assert [o1] + [o2] == [o1, o2];
    assert o1 + "," + o2 == c.corsAllowedOrigins;
    SplitJoin([o1, o2]);
  }

  lemma MethodsJoin()
    ensures Join(["GET", "POST", "PUT", "DELETE", "OPTIONS"]) == "GET,POST,PUT,DELETE,OPTIONS"
  {
    JoinFive("GET", "POST", "PUT", "DELETE", "OPTIONS");
    MethodsText();
  }

  lemma MethodsText()
    ensures "GET" + "," + ("POST" + "," + ("PUT" + "," + ("DELETE" + "," + "OPTIONS"))) == "GET,POST,PUT,DELETE,OPTIONS"
  {
  }

  /** A list of five joins to the five texts with a comma after each but the last. */
  lemma JoinFive(a: string, b: string, c: string, d: string, e: string)
    ensures Join([a, b, c, d, e]) == a + "," + (b + "," + (c + "," + (d + "," + e)))
  {
    JoinCons(d, [e]);
    assert [d] + [e] == [d, e];
    JoinCons(c, [d, e]);
    assert [c] + [d, e] == [c, d, e];
    JoinCons(b, [c, d, e]);
    assert [b] + [c, d, e] == [b, c, d, e];
    JoinCons(a, [b, c, d, e]);
    assert [a] + [b, c, d, e] == [a, b, c, d, e];
  }

  lemma MethodsCommaFree(ms: seq<string>)
    requires ms == ["GET", "POST", "PUT", "DELETE", "OPTIONS"]
    ensures |ms| >= 1 && ms[|ms| - 1] != []
    ensures forall i :: 0 <= i < |ms| ==> ',' !in ms[i]
  {
  }

  /** The default methods split into the five listed verbs. */
  lemma DefaultMethodsArray(c: Config)
    requires c.corsAllowedMethods == "GET,POST,PUT,DELETE,OPTIONS"
    ensures MethodsArray(c) == ["GET", "POST", "PUT", "DELETE", "OPTIONS"]
  {
    var ms := ["GET", "POST", "PUT", "DELETE", "OPTIONS"];
    MethodsJoin();
    MethodsCommaFree(ms);
    SplitJoin(ms);
  }

  // ---------------------------------------------------------------------
  // profile, validity and the printed form
  // ---------------------------------------------------------------------

  /** `isDevelopmentMode`. */
  predicate IsDevelopmentMode(c: Config) {
    c.activeProfile == "dev" || c.activeProfile == "development"
  }

  /** `isProductionMode`. */
  predicate IsProductionMode(c: Config) {
    c.activeProfile == "prod" || c.activeProfile == "production"
  }

  /**
   * The two modes never hold together, and neither holds for any other
   * profile name (such as `test`); the default profile is development.
   */
  lemma ModesExclusive(c: Config)
    ensures !(IsDevelopmentMode(c) && IsProductionMode(c))
    ensures c.activeProfile == "test" ==> !IsDevelopmentMode(c) && !IsProductionMode(c)
  {
  }

  /** `isConfigurationValid`: a password, a database name and a user name are set; host and port are not looked at. */
  function IsConfigurationValid(c: Config): (ok: bool)
    ensures ok <==> "" !in [c.dbPassword, c.dbName, c.dbUsername]
  {
    c.dbPassword != "" && c.dbName != "" && c.dbUsername != ""
  }

  /** Host and port play no part in validity; blanking any one of the three checked settings makes it fail. */
  lemma ValidityIgnoresHostAndPort(c: Config, host: string, port: string)
    ensures IsConfigurationValid(c.(dbHost := host, dbPort := port)) == IsConfigurationValid(c)
    ensures !IsConfigurationValid(c.(dbPassword := "")) && !IsConfigurationValid(c.(dbName := ""))
    ensures !IsConfigurationValid(c.(dbUsername := ""))
  {
  }

  /** With the placeholder defaults the configuration is not valid: the password is empty. */
  lemma DefaultsAreNotValid(props: Properties, credentials: bool, security: bool, expiration: int, ttl: int,
                            pool: int, idle: int)
    requires "DB_PASSWORD" !in props
    ensures !IsConfigurationValid(Load(props, credentials, security, expiration, ttl, pool, idle))
    ensures "SPRING_PROFILES_ACTIVE" !in props ==>
      IsDevelopmentMode(Load(props, credentials, security, expiration, ttl, pool, idle))
  {
  }

  /** Java's `String.valueOf(boolean)`. */
  function BoolText(b: bool): string {
    if b then "true" else "false"
  }

  /** The settings `toString` lists: names, host, port, profile, the security flag and the origins. */
  function PrintedSettings(c: Config): string {
    "dbHost='" + c.dbHost + "'" +
    ", dbPort='" + c.dbPort + "'" +
    ", dbName='" + c.dbName + "'" +
    ", dbUsername='" + c.dbUsername + "'" +
    ", serverPort='" + c.serverPort + "'" +
    ", applicationName='" + c.applicationName + "'" +
    ", activeProfile='" + c.activeProfile + "'" +
    ", securityEnabled=" + BoolText(c.securityEnabled) +
    ", corsAllowedOrigins='" + c.corsAllowedOrigins + "'"
  }

  /**
   * `toString`: the class name and an opening brace, the listed settings,
   * and a closing brace; no secret.
   */
  function ToString(c: Config): (t: string)
    ensures |t| == |PrintedSettings(c)| + 19
    ensures t[..18] == "EnvironmentConfig{" && t[18..|t| - 1] == PrintedSettings(c) && t[|t| - 1] == '}'
  {
    "EnvironmentConfig{" + PrintedSettings(c) + "}"
  }

  /** The printed form does not depend on the password or the JWT secret, so it cannot reveal them. */
  lemma ToStringHidesSecrets(c: Config, password: string, secret: string)
    ensures ToString(c.(dbPassword := password, jwtSecret := secret)) == ToString(c)
  {
  }
}
