/** Server configuration: built-in defaults, overlaid by the JSON config
    file, overlaid by environment variables, then a check on the fallback
    file name. The file and the environment are inputs. */
module Configuration {
  import opened Outcomes
  import opened Text
  import opened Os

  /** The `Config` record: exactly the five fields the Go struct declares. */
  datatype Config = Config(
    staticDir: string,
    spaFallbackFile: string,
    port: Int64,
    cspHeader: string,
    hstsMaxAge: Int64)

  const DefaultFallbackFile := "index.html"
  const DefaultPort: Int64 := 8081

  /** `&Config{SpaFallbackFile: "index.html", Port: 8081}`; other fields zero. */
  const Defaults := Config("", DefaultFallbackFile, DefaultPort, "", 0)

  /** The keys `json.Unmarshal` found in `.go-spa-server-config.json`
      (`static_dir`, `spa_fallback_file`, `port`, `csp_header`,
      `hsts_max_age`); a missing (or null) key is None. */
  datatype JsonConfig = JsonConfig(
    staticDir: Option<string>,
    spaFallbackFile: Option<string>,
    port: Option<Int64>,
    cspHeader: Option<string>,
    hstsMaxAge: Option<Int64>)

  /** The config file as the loader meets it: stat fails (treated as absent),
      stat succeeds but the read fails, the bytes are not valid JSON for the
      record, or it decodes. */
  datatype ConfigFile = NoFile | Unreadable | Malformed | Parsed(json: JsonConfig)

  /** Why `LoadConfig` returned a nil config. */
  datatype ConfigError =
    | ReadFailed
    | InvalidJson
    | InvalidPort(portValue: string)
    | InvalidHstsMaxAge(hstsValue: string)
    | InvalidFallback(fallbackValue: string)

  function OrElse<T>(o: Option<T>, current: T): T {
    if o.Some? then o.value else current
  }

  /** `json.Unmarshal(data, config)`: each key present in the file
      overwrites its field; absent keys leave the field as it was. */
  function Unmarshal(json: JsonConfig, into: Config): Config {
    Config(
      OrElse(json.staticDir, into.staticDir),
      OrElse(json.spaFallbackFile, into.spaFallbackFile),
      OrElse(json.port, into.port),
      OrElse(json.cspHeader, into.cspHeader),
      OrElse(json.hstsMaxAge, into.hstsMaxAge))
  }

  /** Defaults overlaid by the file, when the file could be used. */
  function FileLayer(file: ConfigFile): Result<Config, ConfigError> {
    match file
    case NoFile => Success(Defaults)
    case Unreadable => Failure(ReadFailed)
    case Malformed => Failure(InvalidJson)
    case Parsed(json) => Success(Unmarshal(json, Defaults))
  }

  /** A non-empty variable replaces the current value; an empty one does not. */
  function EnvOr(env: map<string, string>, key: string, current: string): string {
    if Getenv(env, key) != "" then Getenv(env, key) else current
  }

  /** A non-empty variable that is not a decimal integer. */
  predicate BadIntEnv(env: map<string, string>, key: string) {
    Getenv(env, key) != "" && Atoi(Getenv(env, key)).None?
  }

  function IntEnvOr(env: map<string, string>, key: string, current: Int64): Int64 {
    if Getenv(env, key) != "" && Atoi(Getenv(env, key)).Some? then Atoi(Getenv(env, key)).value else current
  }

  /** The environment layer: PORT is checked before HSTS_MAX_AGE. */
  function EnvLayer(base: Config, env: map<string, string>): Result<Config, ConfigError> {
    if BadIntEnv(env, "PORT") then Failure(InvalidPort(Getenv(env, "PORT")))
    else if BadIntEnv(env, "HSTS_MAX_AGE") then Failure(InvalidHstsMaxAge(Getenv(env, "HSTS_MAX_AGE")))
    else Success(Config(
      EnvOr(env, "STATIC_DIR", base.staticDir),
      EnvOr(env, "SPA_FALLBACK_FILE", base.spaFallbackFile),
      IntEnvOr(env, "PORT", base.port),
      EnvOr(env, "CSP_HEADER", base.cspHeader),
      IntEnvOr(env, "HSTS_MAX_AGE", base.hstsMaxAge)))
  }

  /** The fallback must be a bare, non-empty file name. */
  predicate ValidFallback(name: string) {
    name != "" && '/' !in name
  }

  /** What loading yields: the three layers, then the fallback check. */
  function LoadSpec(file: ConfigFile, env: map<string, string>): Result<Config, ConfigError> {
    match FileLayer(file)
    case Failure(e) => Failure(e)
    case Success(base) =>
      match EnvLayer(base, env)
      case Failure(e) => Failure(e)
      case Success(config) =>
        if ValidFallback(config.spaFallbackFile) then Success(config)
        else Failure(InvalidFallback(config.spaFallbackFile))
  }

  /** `LoadConfig`: a config built from the defaults and overwritten field
      by field, with an early error return at each failing step. */
  method LoadConfig(file: ConfigFile, env: map<string, string>) returns (r: Result<Config, ConfigError>)
    ensures r == LoadSpec(file, env)
  {
    var config := Defaults;

    match file {
      case NoFile =>
      case Unreadable => return Failure(ReadFailed);
      case Malformed => return Failure(InvalidJson);
      case Parsed(json) => config := Unmarshal(json, config);
    }

    var staticDirEnv := Getenv(env, "STATIC_DIR");
    if staticDirEnv != "" {
      config := config.(staticDir := staticDirEnv);
    }
    var spaFallbackFileEnv := Getenv(env, "SPA_FALLBACK_FILE");
    if spaFallbackFileEnv != "" {
      config := config.(spaFallbackFile := spaFallbackFileEnv);
    }
    var portEnv := Getenv(env, "PORT");
    if portEnv != "" {
      var p := Atoi(portEnv);
      if p.None? {
        return Failure(InvalidPort(portEnv));
      }
      config := config.(port := p.value);
    }
    var cspHeaderEnv := Getenv(env, "CSP_HEADER");
    if cspHeaderEnv != "" {
      config := config.(cspHeader := cspHeaderEnv);
    }
    var hstsMaxAgeEnv := Getenv(env, "HSTS_MAX_AGE");
    if hstsMaxAgeEnv != "" {
      var h := Atoi(hstsMaxAgeEnv);
      if h.None? {
        return Failure(InvalidHstsMaxAge(hstsMaxAgeEnv));
      }
      config := config.(hstsMaxAge := h.value);
    }

    if config.spaFallbackFile == "" || '/' in config.spaFallbackFile {
      return Failure(InvalidFallback(config.spaFallbackFile));
    }
    return Success(config);
  }

  // ------------------------------------------------------------ properties

  /** None of the five variables is set to a non-empty value. */
  predicate NoEnvOverrides(env: map<string, string>) {
    Getenv(env, "STATIC_DIR") == "" && Getenv(env, "SPA_FALLBACK_FILE") == "" &&
    Getenv(env, "PORT") == "" && Getenv(env, "CSP_HEADER") == "" && Getenv(env, "HSTS_MAX_AGE") == ""
  }

  /** With no file and no variables: fallback "index.html", port 8081, empty
      static directory, no CSP, HSTS off. */
  lemma DefaultsWithoutFileOrEnv(env: map<string, string>)
    requires NoEnvOverrides(env)
    ensures LoadSpec(NoFile, env) == Success(Config("", "index.html", 8081, "", 0))
  {
  }

  /** An unreadable or undecodable file fails the load, whatever the
      environment says. */
  lemma FileErrorsFail(env: map<string, string>)
    ensures LoadSpec(Unreadable, env) == Failure(ReadFailed)
    ensures LoadSpec(Malformed, env) == Failure(InvalidJson)
  {
  }

  /** Empty variables change nothing: the result is the file layer over the
      defaults, validated. */
  lemma EmptyEnvKeepsFileValues(json: JsonConfig, env: map<string, string>)
    requires NoEnvOverrides(env)
    ensures ValidFallback(OrElse(json.spaFallbackFile, "index.html")) ==>
      LoadSpec(Parsed(json), env) == Success(Unmarshal(json, Defaults))
    ensures !ValidFallback(OrElse(json.spaFallbackFile, "index.html")) ==>
      LoadSpec(Parsed(json), env) == Failure(InvalidFallback(OrElse(json.spaFallbackFile, "index.html")))
  {
  }

  /** On success every field is the non-empty variable if there is one,
      else the file's value if the file has the key, else the default. */
  lemma EnvOverridesFileOverridesDefaults(json: JsonConfig, env: map<string, string>)
    requires LoadSpec(Parsed(json), env).Success?
    ensures var c := LoadSpec(Parsed(json), env).value;
      && c.staticDir == (if Getenv(env, "STATIC_DIR") != "" then Getenv(env, "STATIC_DIR") else OrElse(json.staticDir, ""))
      && c.spaFallbackFile == (if Getenv(env, "SPA_FALLBACK_FILE") != "" then Getenv(env, "SPA_FALLBACK_FILE")
                               else OrElse(json.spaFallbackFile, "index.html"))
      && c.cspHeader == (if Getenv(env, "CSP_HEADER") != "" then Getenv(env, "CSP_HEADER") else OrElse(json.cspHeader, ""))
      && c.port == (if Getenv(env, "PORT") != "" then Atoi(Getenv(env, "PORT")).value else OrElse(json.port, 8081))
      && c.hstsMaxAge == (if Getenv(env, "HSTS_MAX_AGE") != "" then Atoi(Getenv(env, "HSTS_MAX_AGE")).value
                          else OrElse(json.hstsMaxAge, 0))
  {
  }

  /** A non-empty PORT that does not parse fails the load (after the file
      errors, before anything else); likewise HSTS_MAX_AGE after PORT. */
  lemma BadNumbersFail(file: ConfigFile, env: map<string, string>)
    requires file.NoFile? || file.Parsed?
    ensures BadIntEnv(env, "PORT") ==> LoadSpec(file, env) == Failure(InvalidPort(Getenv(env, "PORT")))
    ensures !BadIntEnv(env, "PORT") && BadIntEnv(env, "HSTS_MAX_AGE") ==>
      LoadSpec(file, env) == Failure(InvalidHstsMaxAge(Getenv(env, "HSTS_MAX_AGE")))
  {
  }

  /** Loading succeeds exactly when the file is usable, both numeric
      variables are empty or parse, and the final fallback name (after all
      overlays) is non-empty and has no '/'. */
  lemma LoadSucceedsIff(file: ConfigFile, env: map<string, string>)
    ensures LoadSpec(file, env).Success? <==>
      && (file.NoFile? || file.Parsed?)
      && !BadIntEnv(env, "PORT") && !BadIntEnv(env, "HSTS_MAX_AGE")
      && ValidFallback(EnvOr(env, "SPA_FALLBACK_FILE",
                             if file.Parsed? then OrElse(file.json.spaFallbackFile, "index.html") else "index.html"))
    ensures LoadSpec(file, env).Success? ==> ValidFallback(LoadSpec(file, env).value.spaFallbackFile)
  {
  }
}
