/** The earlier, self-contained server in main.go: no configuration file and
    no preload cache, the static directory from the environment, a
    hardcoded "index.html" fallback, unquoted entity tags, and a fixed
    listen address. */
module Legacy {
  import opened Outcomes
  import opened Text
  import opened Os
  import opened Http
  import opened Compression
  import opened Writers
  import opened Configuration
  import opened Handlers
  import opened Middleware
  import opened Server

  /** `getStaticDir`: STATIC_DIR when it is non-empty, else the default. */
  function GetStaticDir(env: map<string, string>): (dir: string)
    ensures dir != ""
    ensures Getenv(env, "STATIC_DIR") != "" ==> dir == Getenv(env, "STATIC_DIR")
    ensures Getenv(env, "STATIC_DIR") == "" ==> dir == "./client/dist"
  {
    var staticDir := Getenv(env, "STATIC_DIR");
    if staticDir == "" then DefaultStaticDir else staticDir
  }

  /** `runApp` listens on a fixed address. */
  const LegacyListenAddress := ":8080"

  /** The headers main.go's `cacheControlMiddleware` sets: the same three
      tiers, with "/index.html" as the entry page and the directory from
      `getStaticDir`. */
  function LegacyCacheControlHeaders(env: map<string, string>, disk: Disk, req: Request, h: map<string, string>): map<string, string> {
    PolicyHeaders(Classify(req.path, "index.html", GetStaticDir(env), disk), h)
  }

  method LegacyCacheControl(env: map<string, string>, disk: Disk, req: Request, s: Sink)
    requires Valid(s)
    modifies Objects(s)
    ensures Valid(s) && NoBody(s) == old(NoBody(s))
    ensures Out(s) == old(Out(s)).(header := LegacyCacheControlHeaders(env, disk, req, old(Out(s)).header))
  {
    SetCachePolicy(req.path, "index.html", GetStaticDir(env), disk, s);
  }

  /** What the earlier server sends: gzip adds Vary, Cache-Control headers
      are set, the disk handler runs with unquoted tags, and gzip compresses
      the result when its policy applies. */
  function LegacyResponse(env: map<string, string>, disk: Disk, codec: DateCodec, gz: GzipPolicy,
                          req: Request, h0: map<string, string>): Resp {
    var h1 := LegacyCacheControlHeaders(env, disk, req, AddedHeader(h0, "Vary", "Accept-Encoding"));
    GzipResponse(gz, req, DiskResponse(Unquoted, GetStaticDir(env), "index.html", disk, codec, req, h1))
  }

  /** `setupHandlers()` run on one request, on a fresh writer. */
  method LegacyServeRequest(env: map<string, string>, disk: Disk, codec: DateCodec, gz: GzipPolicy,
                            req: Request, w: ResponseRecorder)
    requires w.code == 0 && w.body == [] && w.served == None
    modifies w
    ensures w.Snapshot() == LegacyResponse(env, disk, codec, gz, req, old(w.header))
  {
    w.AddHeader("Vary", "Accept-Encoding");
    var s := Plain(w);
    LegacyCacheControl(env, disk, req, s);
    ServeFromDisk(Unquoted, GetStaticDir(env), "index.html", disk, codec, req, s);
    GzipClose(gz, req, w);
  }

  // ------------------------------------------------------- comparisons

  /** Without a config file, the directory the configured server settles on
      is the one `getStaticDir` picks. */
  lemma StaticDirAgrees(env: map<string, string>)
    requires LoadSpec(NoFile, env).Success?
    ensures var loaded := LoadSpec(NoFile, env).value;
      (if loaded.staticDir == "" then DefaultStaticDir else loaded.staticDir) == GetStaticDir(env)
  {
  }

  /** The quoted tag is the unquoted one between double quotes. */
  lemma QuotedWrapsUnquoted(modTime: int, size: int)
    ensures ETag(Quoted, modTime, size) == "\"" + ETag(Unquoted, modTime, size) + "\""
    ensures ETag(Quoted, modTime, size) != ETag(Unquoted, modTime, size)
  {
    assert |ETag(Quoted, modTime, size)| == |ETag(Unquoted, modTime, size)| + 2;
  }

  /** Removing the ETag, the validator headers of both styles agree. */
  lemma ValidatorsButTheTag(h0: map<string, string>, codec: DateCodec, modTime: int, size: int)
    ensures WithValidators(h0, Quoted, codec, modTime, size) - {"ETag"}
         == WithValidators(h0, Unquoted, codec, modTime, size) - {"ETag"}
  {
    var lm := LastModified(codec, modTime);
    assert WithValidators(h0, Quoted, codec, modTime, size) - {"ETag"} == (h0 - {"ETag"})["Last-Modified" := lm];
    assert WithValidators(h0, Unquoted, codec, modTime, size) - {"ETag"} == (h0 - {"ETag"})["Last-Modified" := lm];
  }

  /** Without conditional headers the two tag styles give the same status,
      body and headers, apart from the ETag value itself. */
  lemma SameResponseButTheTag(staticDir: string, fallback: string, disk: Disk, codec: DateCodec,
                              req: Request, h0: map<string, string>)
    requires GetHeader(req, "If-None-Match") == "" && GetHeader(req, "If-Modified-Since") == ""
    ensures var q := DiskResponse(Quoted, staticDir, fallback, disk, codec, req, h0);
      var u := DiskResponse(Unquoted, staticDir, fallback, disk, codec, req, h0);
      q.status == u.status && q.body == u.body && q.header - {"ETag"} == u.header - {"ETag"}
  {
    var res := Resolve(disk, staticDir, fallback, req.path);
    if res.Some? {
      var t := res.value;
      ResolvedResponse(Quoted, staticDir, fallback, disk, codec, req, h0, t);
      ResolvedResponse(Unquoted, staticDir, fallback, disk, codec, req, h0, t);
      ValidatorsButTheTag(h0, codec, t.info.modTime, t.info.size);
    }
  }

  /** The configured server's default address is ":8081", not the ":8080"
      the earlier server listened on. */
  lemma DefaultAddressMoved()
    ensures ListenAddress(Defaults) == ":8081"
    ensures ListenAddress(Defaults) != LegacyListenAddress
  {
    assert FormatNat(8081) == FormatNat(808) + [DigitChar(1)];
    assert FormatNat(808) == FormatNat(80) + [DigitChar(8)];
    assert FormatNat(80) == FormatNat(8) + [DigitChar(0)];
  }
}
