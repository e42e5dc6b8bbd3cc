/** The server configuration of `config/config.go`: every setting is read
    from the process environment with a default, the two RSA keys come from
    the environment (with escaped newlines restored) or from a PEM file
    under `keypairs/`, and the printable summary redacts secrets. The
    environment is a map; the `.env.<name>` file is assumed to be merged
    into it already. */
module Config {
  import opened Wrappers
  import opened Text
  import Numbers
  import ChatStream
  import Projects

  type Env = map<string, string>

  /** `os.Getenv`: an unset variable reads as the empty string. */
  function Getenv(env: Env, key: string): (r: string)
    ensures key !in env ==> r == ""
    ensures key in env ==> r == env[key]
  {
    if key in env then env[key] else ""
  }

  // ----- typed lookups with defaults ----------------------------------------

  /** `getEnv`: a variable set to the empty string counts as unset. */
  function GetEnv(env: Env, key: string, default: string): (r: string)
    ensures r == Getenv(env, key) || r == default
    ensures r == "" ==> default == ""
  {
    var v := Getenv(env, key);
    if v != "" then v else default
  }

  /** `getEnvAsInt`: a value `strconv.Atoi` refuses falls back to the
      default. */
  function GetEnvAsInt(env: Env, key: string, default: int): (r: int)
    ensures Numbers.Atoi(Getenv(env, key)).None? ==> r == default
  {
    var v := Getenv(env, key);
    if v != "" then
      match Numbers.Atoi(v)
      case Some(n) => n
      case None => default
    else default
  }

  /** `getEnvAsBool`: a value `strconv.ParseBool` refuses falls back to the
      default. */
  function GetEnvAsBool(env: Env, key: string, default: bool): (r: bool)
    ensures Numbers.ParseBool(Getenv(env, key)).None? ==> r == default
  {
    var v := Getenv(env, key);
    if v != "" then
      match Numbers.ParseBool(v)
      case Some(b) => b
      case None => default
    else default
  }

  /** A non-empty value overrides the default; unsetting the variable or
      setting it to the empty string restores it. */
  lemma GetEnvOverride(env: Env, key: string, value: string, default: string)
    ensures value != "" ==> GetEnv(env[key := value], key, default) == value
    ensures GetEnv(env[key := ""], key, default) == default
    ensures GetEnv(env - {key}, key, default) == default
  {
  }

  /** Every 64-bit integer survives being written to the environment in
      decimal and read back; text that is not a number leaves the default. */
  lemma GetEnvAsIntRoundTrip(env: Env, key: string, i: int, default: int)
    requires Numbers.MinInt <= i <= Numbers.MaxInt
    ensures GetEnvAsInt(env[key := Numbers.IntToString(i)], key, default) == i
    ensures GetEnvAsInt(env[key := "six"], key, default) == default
    ensures GetEnvAsInt(env - {key}, key, default) == default
  {
    Numbers.AtoiOfIntToString(i);
    assert Getenv(env[key := "six"], key) == "six";
    assert !Numbers.IsDigit('s');
  }

  /** A boolean written by `strconv.FormatBool` reads back; "yes" is not a
      spelling `strconv.ParseBool` knows, so it leaves the default. */
  lemma GetEnvAsBoolRoundTrip(env: Env, key: string, b: bool, default: bool)
    ensures GetEnvAsBool(env[key := Numbers.FormatBool(b)], key, default) == b
    ensures GetEnvAsBool(env[key := "yes"], key, default) == default
    ensures GetEnvAsBool(env - {key}, key, default) == default
  {
    Numbers.ParseBoolSpellings(b);
  }

  // ----- redaction ----------------------------------------------------------

  /** The `redact` helper of `Config.String`: empty stays empty, a short
      secret becomes four stars, a longer one four stars and its last four
      characters. */
  function Redact(s: string): (r: string)
    ensures r == "" <==> s == ""
    ensures r != "" ==> |r| <= 8 && HasPrefix(r, "****")
    ensures 0 < |s| <= 4 ==> r == "****"
    ensures |s| > 4 ==> |r| == 8 && r[4..] == s[|s| - 4..]
  {
    if s == "" then ""
    else if |s| <= 4 then "****"
    else "****" + s[|s| - 4..]
  }

  /** The redacted form depends on nothing but whether the secret is empty,
      whether it is longer than four characters and its last four: two
      secrets that agree on those print alike. */
  lemma RedactHides(s: string, t: string)
    requires (s == "") == (t == "") && (|s| <= 4) == (|t| <= 4)
    requires |s| > 4 ==> s[|s| - 4..] == t[|t| - 4..]
    ensures Redact(s) == Redact(t)
  {
  }

  // ----- the RSA keys -------------------------------------------------------

  const EscapedCrLf: string := ['\\', 'r', '\\', 'n']
  const EscapedLf: string := ['\\', 'n']

  /** `normalizePEM`: a key given on one line with escaped line breaks gets
      real ones back. Escaped CR LF pairs become a bare line feed, then
      every remaining escaped line feed does. */
  function NormalizePem(s: string): (r: string)
    ensures s == "" ==> r == ""
    ensures |r| <= |s|
    ensures !ContainsSub(r, EscapedLf) && !ContainsSub(r, EscapedCrLf)
  {
    if s == "" then s
    else
      var u := ReplaceAll(s, EscapedCrLf, "\n");
      ReplaceAllShrinks(s, EscapedCrLf, "\n");
      ReplaceAllShrinks(u, EscapedLf, "\n");
      EscapesGone(u);
      EscapedCrLfHasLf(ReplaceAll(u, EscapedLf, "\n"));
      ReplaceAll(u, EscapedLf, "\n")
  }

  /** Normalising twice changes nothing more. */
  lemma NormalizePemIdempotent(s: string)
    ensures NormalizePem(NormalizePem(s)) == NormalizePem(s)
  {
    var r := NormalizePem(s);
    if r != "" {
      ReplaceAllAbsent(r, EscapedCrLf, "\n");
      ReplaceAllAbsent(r, EscapedLf, "\n");
    }
  }

  /** A one-line key: each escaped CR LF pair and each escaped line feed
      becomes a single line feed; the carriage return is dropped. */
  lemma NormalizePemExample()
    ensures NormalizePem(['K', '\\', 'r', '\\', 'n', 'E', '\\', 'n', 'Y']) == "K\nE\nY"
  {
    var s := ['K', '\\', 'r', '\\', 'n', 'E', '\\', 'n', 'Y'];
    var tail := ['\\', 'n', 'Y'];
    var et := ['E'] + tail;
    assert s[1..][4..] == et && s[1..] == EscapedCrLf + et;
    assert ReplaceAll(tail, EscapedCrLf, "\n") == tail;
    assert et[..4] != EscapedCrLf && et[1..] == tail;
    assert ReplaceAll(et, EscapedCrLf, "\n") == et;
    assert ReplaceAll(s[1..], EscapedCrLf, "\n") == "\n" + et;
    assert s[..4] != EscapedCrLf;
    var u := ReplaceAll(s, EscapedCrLf, "\n");
    assert u == ['K'] + ("\n" + et);
    assert tail[..2] == EscapedLf && tail[2..] == ['Y'];
    assert ReplaceAll(tail, EscapedLf, "\n") == "\nY";
    assert et[..2] != EscapedLf;
    assert ReplaceAll(et, EscapedLf, "\n") == "E\nY";
    var nt := "\n" + et;
    assert nt[..2] != EscapedLf && nt[1..] == et;
    assert ReplaceAll(nt, EscapedLf, "\n") == "\nE\nY";
    assert u[..2] != EscapedLf && u[1..] == nt;
  }

  /** Text without a backslash, such as a PEM block that already has line
      breaks, passes through unchanged. */
  lemma NormalizePemPlain(s: string)
    requires '\\' !in s
    ensures NormalizePem(s) == s
  {
    if s != "" {
      EscapeNeedsBackslash(s, EscapedCrLf);
      ReplaceAllAbsent(s, EscapedCrLf, "\n");
      EscapeNeedsBackslash(s, EscapedLf);
      ReplaceAllAbsent(s, EscapedLf, "\n");
    }
  }

  /** Pieces of a key without any backslash. */
  predicate Unescaped(ls: seq<string>) {
    forall i :: 0 <= i < |ls| ==> '\\' !in ls[i]
  }

  /** A key whose lines were joined with escaped line feeds gets its line
      breaks back. */
  lemma NormalizePemJoinedLf(ls: seq<string>)
    requires Unescaped(ls)
    ensures NormalizePem(Join(ls, EscapedLf)) == Join(ls, "\n")
  {
    var s := Join(ls, EscapedLf);
    if s != "" {
      CrLfAbsentInLfJoin(ls);
      ReplaceAllJoin(ls, EscapedLf, "\n");
    }
  }

  /** A key whose lines were joined with escaped CR LF pairs gets bare line
      feeds back. */
  lemma NormalizePemJoinedCrLf(ls: seq<string>)
    requires Unescaped(ls)
    ensures NormalizePem(Join(ls, EscapedCrLf)) == Join(ls, "\n")
  {
    var s := Join(ls, EscapedCrLf);
    if s != "" {
      ReplaceAllJoin(ls, EscapedCrLf, "\n");
      var u := Join(ls, "\n");
      JoinUnescaped(ls, "\n");
      PlainPrefix(u, "", EscapedLf, "\n");
      assert u + "" == u;
    }
  }

  /** Text without a backslash is copied through a replacement of an
      escape sequence. */
  lemma {:induction false} PlainPrefix(x: string, t: string, pat: string, rep: string)
    requires |pat| > 0 && pat[0] == '\\' && '\\' !in x
    ensures ReplaceAll(x + t, pat, rep) == x + ReplaceAll(t, pat, rep)
    decreases |x|
  {
    if x == "" {
      assert x + t == t;
    } else {
      var s := x + t;
      if |s| < |pat| {
        assert ReplaceAll(t, pat, rep) == t;
      } else {
        assert s[..|pat|][0] == x[0] != '\\';
        assert s[1..] == x[1..] + t;
        PlainPrefix(x[1..], t, pat, rep);
        assert [x[0]] + x[1..] == x;
      }
    }
  }

  /** Replacing the separator of backslash-free pieces swaps separators. */
  lemma {:induction false} ReplaceAllJoin(ls: seq<string>, pat: string, rep: string)
    requires |pat| > 0 && pat[0] == '\\' && Unescaped(ls)
    ensures ReplaceAll(Join(ls, pat), pat, rep) == Join(ls, rep)
    decreases |ls|
  {
    if |ls| == 1 {
      PlainPrefix(ls[0], "", pat, rep);
      assert ls[0] + "" == ls[0];
    } else if |ls| > 1 {
      var j := Join(ls[1..], pat);
      assert Join(ls, pat) == ls[0] + (pat + j);
      PlainPrefix(ls[0], pat + j, pat, rep);
      assert (pat + j)[..|pat|] == pat && (pat + j)[|pat|..] == j;
      ReplaceAllJoin(ls[1..], pat, rep);
    }
  }

  /** Pieces joined with escaped line feeds hold no escaped CR LF pair. */
  lemma {:induction false} CrLfAbsentInLfJoin(ls: seq<string>)
    requires Unescaped(ls)
    ensures ReplaceAll(Join(ls, EscapedLf), EscapedCrLf, "\n") == Join(ls, EscapedLf)
    decreases |ls|
  {
    if |ls| == 1 {
      PlainPrefix(ls[0], "", EscapedCrLf, "\n");
      assert ls[0] + "" == ls[0];
    } else if |ls| > 1 {
      var j := Join(ls[1..], EscapedLf);
      var e := EscapedLf + j;
      assert Join(ls, EscapedLf) == ls[0] + e;
      PlainPrefix(ls[0], e, EscapedCrLf, "\n");
      CrLfAbsentInLfJoin(ls[1..]);
      if |e| < 4 {
        assert ReplaceAll(e, EscapedCrLf, "\n") == e;
      } else {
        assert e[..4][1] == 'n';
        assert e[1..] == ['n'] + j;
        PlainPrefix(['n'], j, EscapedCrLf, "\n");
        assert [e[0]] + e[1..] == e;
      }
    }
  }

  /** Joining backslash-free pieces with a backslash-free separator adds no
      backslash. */
  lemma {:induction false} JoinUnescaped(ls: seq<string>, sep: string)
    requires Unescaped(ls) && '\\' !in sep
    ensures '\\' !in Join(ls, sep)
    decreases |ls|
  {
    if |ls| > 1 {
      JoinUnescaped(ls[1..], sep);
      assert Join(ls, sep) == ls[0] + sep + Join(ls[1..], sep);
    }
  }

  lemma EscapeNeedsBackslash(s: string, pat: string)
    requires |pat| > 0 && pat[0] == '\\'
    ensures ContainsSub(s, pat) ==> '\\' in s
  {
    if ContainsSub(s, pat) {
      var i := ContainsSubWitness(s, pat);
      assert s[i] == s[i..i + |pat|][0];
    }
  }

  lemma EscapedCrLfHasLf(r: string)
    ensures ContainsSub(r, EscapedCrLf) ==> ContainsSub(r, EscapedLf)
  {
    if ContainsSub(r, EscapedCrLf) {
      var i := ContainsSubWitness(r, EscapedCrLf);
      assert r[i + 2..i + 4] == r[i..i + 4][2..4];
      ContainsSubAt(r, EscapedLf, i + 2);
    }
  }

  lemma {:induction false} ShortHasNoSub(s: string, p: string)
    requires |s| < |p|
    ensures !ContainsSub(s, p)
    decreases |s|
  {
    if |s| > 0 {
      ShortHasNoSub(s[1..], p);
    }
  }

  /** The first character of a replacement: the line feed when the text
      opens with an escape, its own first character otherwise. */
  lemma FirstOfReplace(t: string)
    ensures |t| > 0 ==>
      (|ReplaceAll(t, EscapedLf, "\n")| > 0 &&
       ReplaceAll(t, EscapedLf, "\n")[0] == (if HasPrefix(t, EscapedLf) then '\n' else t[0]))
  {
  }

  /** Replacing every escaped line feed leaves none behind: a backslash
      kept in the output is never followed by an `n`. */
  lemma {:induction false} EscapesGone(t: string)
    ensures !ContainsSub(ReplaceAll(t, EscapedLf, "\n"), EscapedLf)
    decreases |t|
  {
    var r := ReplaceAll(t, EscapedLf, "\n");
    if |t| < 2 {
      ShortHasNoSub(r, EscapedLf);
    } else if t[..2] == EscapedLf {
      EscapesGone(t[2..]);
      assert r == "\n" + ReplaceAll(t[2..], EscapedLf, "\n");
      assert r[0] == '\n' && r[1..] == ReplaceAll(t[2..], EscapedLf, "\n");
    } else {
      EscapesGone(t[1..]);
      FirstOfReplace(t[1..]);
      assert r[1..] == ReplaceAll(t[1..], EscapedLf, "\n");
      assert t[..2] == [t[0], t[1]];
    }
  }

  /** Where `loadPublicKey` / `loadPrivateKey` may look: whether the working
      directory could be determined, and the PEM file's content when it
      could be read. */
  datatype KeySources = KeySources(cwdOk: bool, publicPem: Option<string>, privatePem: Option<string>)

  /** One key: nothing at all without a working directory (even when the
      variable is set), the normalised variable when it is set, the file
      otherwise, and the empty string when neither exists. */
  function LoadKey(env: Env, key: string, cwdOk: bool, file: Option<string>): (r: string)
    ensures !cwdOk ==> r == ""
    ensures cwdOk && Getenv(env, key) != "" ==> !ContainsSub(r, EscapedLf)
    ensures cwdOk && Getenv(env, key) == "" ==> r == file.GetOr("")
  {
    if !cwdOk then ""
    else
      var v := Getenv(env, key);
      if v != "" then NormalizePem(v) else file.GetOr("")
  }

  // ----- the configuration --------------------------------------------------

  datatype Config = Config(
    port: string,
    ginMode: string,
    dbHost: string,
    dbPort: string,
    dbUser: string,
    dbPassword: string,
    dbName: string,
    dbSslMode: string,
    redisHost: string,
    redisPort: string,
    redisPassword: string,
    redisDb: int,
    minioEndpoint: string,
    minioAccessKey: string,
    minioSecretKey: string,
    minioUseSsl: bool,
    minioBucketName: string,
    jwtSecret: string,
    jwtExpiration: string,
    googleClientId: string,
    googleClientSecret: string,
    googleRedirectUrl: string,
    claudeCliPath: string,
    passwordEncPublicKey: string,
    passwordEncPrivateKey: string,
    localStoragePath: string,
    projectTemplateZip: string)

  /** `LoadConfig` over the merged environment. */
  function LoadConfig(env: Env, keys: KeySources): (c: Config)
    ensures c.claudeCliPath != "" && c.projectTemplateZip != "" && c.localStoragePath != ""
    ensures c.minioBucketName != "" && c.jwtSecret != ""
  {
    Config(
      port := GetEnv(env, "PORT", "8080"),
      ginMode := GetEnv(env, "GIN_MODE", "debug"),
      dbHost := GetEnv(env, "DB_HOST", "localhost"),
      dbPort := GetEnv(env, "DB_PORT", "5432"),
      dbUser := GetEnv(env, "DB_USER", "postgres"),
      dbPassword := GetEnv(env, "DB_PASSWORD", "password"),
      dbName := GetEnv(env, "DB_NAME", "borderless_coding"),
      dbSslMode := GetEnv(env, "DB_SSLMODE", "disable"),
      redisHost := GetEnv(env, "REDIS_HOST", "localhost"),
      redisPort := GetEnv(env, "REDIS_PORT", "6379"),
      redisPassword := GetEnv(env, "REDIS_PASSWORD", ""),
      redisDb := GetEnvAsInt(env, "REDIS_DB", 0),
      minioEndpoint := GetEnv(env, "MINIO_ENDPOINT", "localhost:9000"),
      minioAccessKey := GetEnv(env, "MINIO_ACCESS_KEY", "minioadmin"),
      minioSecretKey := GetEnv(env, "MINIO_SECRET_KEY", "minioadmin"),
      minioUseSsl := GetEnvAsBool(env, "MINIO_USE_SSL", false),
      minioBucketName := GetEnv(env, "MINIO_BUCKET_NAME", "borderless-coding"),
      jwtSecret := GetEnv(env, "JWT_SECRET", "your-secret-key-here"),
      jwtExpiration := GetEnv(env, "JWT_EXPIRATION", "24h"),
      googleClientId := GetEnv(env, "GOOGLE_CLIENT_ID", ""),
      googleClientSecret := GetEnv(env, "GOOGLE_CLIENT_SECRET", ""),
      googleRedirectUrl := GetEnv(env, "GOOGLE_REDIRECT_URL", "http://localhost:8080/auth/google/callback"),
      claudeCliPath := GetEnv(env, "CLAUDE_CLI_PATH", "claude"),
      passwordEncPublicKey := LoadKey(env, "PASSWORD_ENC_PUBLIC_KEY", keys.cwdOk, keys.publicPem),
      passwordEncPrivateKey := LoadKey(env, "PASSWORD_ENC_PRIVATE_KEY", keys.cwdOk, keys.privatePem),
      localStoragePath := GetEnv(env, "LOCAL_STORAGE_PATH", "workspaces"),
      projectTemplateZip := GetEnv(env, "PROJECT_TEMPLATE_ZIP", "project_template.zip"))
  }

  /** With an empty environment and no key files every setting has its
      documented default. */
  lemma Defaults()
    ensures LoadConfig(map[], KeySources(true, None, None)) ==
      Config("8080", "debug", "localhost", "5432", "postgres", "password",
             "borderless_coding", "disable", "localhost", "6379", "", 0,
             "localhost:9000", "minioadmin", "minioadmin", false, "borderless-coding",
             "your-secret-key-here", "24h", "", "", "http://localhost:8080/auth/google/callback",
             "claude", "", "", "workspaces", "project_template.zip")
  {
  }

  /** The defaults agree with the fallbacks of the handlers: the bucket is
      the project service's default bucket, and since the configured CLI
      path and template path are never empty, the chat handler's own
      fallbacks to "claude" and "project_template.zip" never apply. */
  lemma HandlerFallbacksAgree(env: Env, keys: KeySources)
    ensures ChatStream.ClaudePath(LoadConfig(env, keys).claudeCliPath) == LoadConfig(env, keys).claudeCliPath
    ensures ChatStream.TemplatePath(LoadConfig(env, keys).projectTemplateZip) == LoadConfig(env, keys).projectTemplateZip
    ensures "MINIO_BUCKET_NAME" !in env ==> LoadConfig(env, keys).minioBucketName == Projects.DefaultBucket
  {
  }
}
