/** Composition: loading the configuration, the static-directory default,
    the chain of stages the server runs (SPA handler, Cache-Control,
    Brotli, gzip, from innermost to outermost) and the listen address. */
module Server {
  import opened Outcomes
  import opened Text
  import opened Os
  import opened Http
  import opened Compression
  import opened Writers
  import opened Cache
  import opened Configuration
  import opened Handlers
  import opened Middleware

  const DefaultStaticDir := "./client/dist"

  /** `fmt.Sprintf(":%d", config.Port)` */
  function ListenAddress(cfg: Config): string {
    ":" + FormatInt(cfg.port)
  }

  /** The address is a colon followed by the port in decimal, which reads
      back as the configured port. */
  lemma ListenAddressNamesPort(cfg: Config)
    ensures var addr := ListenAddress(cfg);
      |addr| >= 2 && addr[0] == ':' && Atoi(addr[1..]) == Some(cfg.port)
  {
    var addr := ListenAddress(cfg);
    assert addr[1..] == FormatInt(cfg.port);
    AtoiFormatInt(cfg.port);
  }

  /** The SPA handler built from the loaded configuration, with the
      configured fallback file. */
  function CreateConfiguredSpaHandler(cfg: Config): SpaHandler {
    SpaHandler(cfg.staticDir, cfg.spaFallbackFile)
  }

  // ------------------------------------------------------- stages

  /** A handler, as the response it gives a request on a writer whose header
      map is `h0`. */
  type Handler = (Request, map<string, string>) -> Resp

  /** The middlewares of the chain. */
  datatype Wrapper = CacheControlStage(cfg: Config) | BrotliStage | GzipStage

  /** A handler and the middlewares around it, innermost first. */
  datatype Chain = Chain(spa: SpaHandler, wrappers: seq<Wrapper>)

  /** What a Brotli-wrapped response looks like once the encoder is closed:
      the encoding headers and the encoded body. */
  function Encoded(r: Resp): Resp {
    Resp(EncodingHeaders(r.header), r.status, Compressed(Brotli, r.body))
  }

  /** The gzip stage first adds `Vary: Accept-Encoding`, then closes its
      writer over what the inner handler produced. */
  function Wrap(m: Wrapper, disk: Disk, gz: GzipPolicy, next: Handler): Handler {
    match m
    case CacheControlStage(cfg) => (req: Request, h0: map<string, string>) => next(req, CacheControlHeaders(cfg, disk, req, h0))
    case BrotliStage => (req: Request, h0: map<string, string>) => if AcceptsBrotli(req) then Encoded(next(req, h0)) else next(req, h0)
    case GzipStage => (req: Request, h0: map<string, string>) => GzipResponse(gz, req, next(req, AddedHeader(h0, "Vary", "Accept-Encoding")))
  }

  function WrapAll(ms: seq<Wrapper>, disk: Disk, gz: GzipPolicy, inner: Handler): Handler
    decreases |ms|
  {
    if |ms| == 0 then inner else WrapAll(ms[1..], disk, gz, Wrap(ms[0], disk, gz, inner))
  }

  function Run(c: Chain, entries: map<string, CachedAsset>, disk: Disk, codec: DateCodec, gz: GzipPolicy): Handler {
    WrapAll(c.wrappers, disk, gz, (req: Request, h0: map<string, string>) => SpaResponse(c.spa, entries, disk, codec, req, h0))
  }

  /** The chain `SetupHandlers` builds from a configuration. */
  function ChainFor(cfg: Config): Chain {
    Chain(CreateConfiguredSpaHandler(cfg), [CacheControlStage(cfg), BrotliStage, GzipStage])
  }

  /** What the configured server sends: gzip adds `Vary: Accept-Encoding`,
      the Cache-Control headers are set, the SPA handler runs on them, Brotli
      (when accepted) encodes its response, and gzip finally compresses what
      Brotli left unencoded when its policy applies. */
  lemma ChainResponse(cfg: Config, entries: map<string, CachedAsset>, disk: Disk, codec: DateCodec,
                      gz: GzipPolicy, req: Request, h0: map<string, string>)
    ensures var h1 := CacheControlHeaders(cfg, disk, req, AddedHeader(h0, "Vary", "Accept-Encoding"));
      var r := SpaResponse(CreateConfiguredSpaHandler(cfg), entries, disk, codec, req, h1);
      Run(ChainFor(cfg), entries, disk, codec, gz)(req, h0) == GzipResponse(gz, req, if AcceptsBrotli(req) then Encoded(r) else r)
  {
    var c := ChainFor(cfg);
    var spa: Handler := (req: Request, h0: map<string, string>) => SpaResponse(c.spa, entries, disk, codec, req, h0);
    var h1 := Wrap(CacheControlStage(cfg), disk, gz, spa);
    var h2 := Wrap(BrotliStage, disk, gz, h1);
    var h3 := Wrap(GzipStage, disk, gz, h2);
    assert c.wrappers[1..][1..][1..] == [];
    calc {
      Run(c, entries, disk, codec, gz);
      WrapAll(c.wrappers, disk, gz, spa);
      WrapAll(c.wrappers[1..], disk, gz, h1);
      WrapAll(c.wrappers[1..][1..], disk, gz, h2);
      WrapAll(c.wrappers[1..][1..][1..], disk, gz, h3);
      h3;
    }
  }

  /** Every response of the configured server carries a Vary header, and it
      is "Accept-Encoding" unless the writer already had one. */
  lemma VaryAlwaysSent(cfg: Config, entries: map<string, CachedAsset>, disk: Disk, codec: DateCodec,
                       gz: GzipPolicy, req: Request, h0: map<string, string>)
    ensures var r := Run(ChainFor(cfg), entries, disk, codec, gz)(req, h0);
      && "Vary" in r.header
      && ("Vary" !in h0 ==> r.header["Vary"] == "Accept-Encoding")
  {
    ChainResponse(cfg, entries, disk, codec, gz, req, h0);
    var h1 := CacheControlHeaders(cfg, disk, req, AddedHeader(h0, "Vary", "Accept-Encoding"));
    VaryKeptByCacheControl(cfg, disk, req, AddedHeader(h0, "Vary", "Accept-Encoding"));
    var spa := CreateConfiguredSpaHandler(cfg);
    var r := SpaResponse(spa, entries, disk, codec, req, h1);
    SpaKeepsOtherHeaders(spa, entries, disk, codec, req, h1, "Vary");
    var e := if AcceptsBrotli(req) then Encoded(r) else r;
    assert "Vary" in e.header && ("Vary" !in h0 ==> e.header["Vary"] == "Accept-Encoding");
    GzipKeepsTheRest(gz, req, e, "Vary");
  }

  lemma VaryKeptByCacheControl(cfg: Config, disk: Disk, req: Request, h: map<string, string>)
    ensures var h1 := CacheControlHeaders(cfg, disk, req, h);
      ("Vary" in h1 <==> "Vary" in h) && ("Vary" in h ==> h1["Vary"] == h["Vary"])
  {
    assert "Vary"[0] != "Cache-Control"[0] && "Vary"[0] != "Pragma"[0] && "Vary"[0] != "Expires"[0];
  }


  /** Every status the SPA handler sends is a committed one. */
  lemma SpaStatusCommitted(h: SpaHandler, entries: map<string, CachedAsset>, disk: Disk, codec: DateCodec,
                           req: Request, h0: map<string, string>)
    ensures SpaResponse(h, entries, disk, codec, req, h0).status in {StatusOK, StatusNotModified, StatusNotFound}
  {
  }

  /** One request through the configured server, on a fresh writer: gzip
      adds Vary and buffers, Brotli wraps the writer when the client asked
      for it, Cache-Control sets its headers, then the SPA handler runs once
      on the same writer; the Brotli encoder is closed, then the gzip one. */
  method ServeRequest(cfg: Config, cache: AssetCache, disk: Disk, codec: DateCodec, gz: GzipPolicy,
                      req: Request, w: ResponseRecorder)
    requires w.code == 0 && w.body == [] && w.served == None
    modifies w
    ensures w.Snapshot() == Run(ChainFor(cfg), cache.entries, disk, codec, gz)(req, old(w.header))
  {
    ChainResponse(cfg, cache.entries, disk, codec, gz, req, w.header);
    w.AddHeader("Vary", "Accept-Encoding");
    if AcceptsBrotli(req) {
      ServeEncoded(cfg, cache, disk, codec, req, w);
    } else {
      ServeUnencoded(cfg, cache, disk, codec, req, w);
    }
    GzipClose(gz, req, w);
  }

  /** The Cache-Control stage and the SPA handler on the server's writer. */
  method ServeUnencoded(cfg: Config, cache: AssetCache, disk: Disk, codec: DateCodec, req: Request, w: ResponseRecorder)
    requires w.code == 0 && w.body == [] && w.served == None
    modifies w
    ensures w.Snapshot() == SpaResponse(CreateConfiguredSpaHandler(cfg), cache.entries, disk, codec, req,
                                        CacheControlHeaders(cfg, disk, req, old(w.header)))
  {
    var s := Plain(w);
    CacheControl(cfg, disk, req, s);
    ServeSpa(CreateConfiguredSpaHandler(cfg), cache, disk, codec, req, s);
  }

  /** The same through a Brotli writer, closed at the end. */
  method ServeEncoded(cfg: Config, cache: AssetCache, disk: Disk, codec: DateCodec, req: Request, w: ResponseRecorder)
    requires w.code == 0 && w.body == [] && w.served == None
    modifies w
    ensures w.Snapshot() == Encoded(SpaResponse(CreateConfiguredSpaHandler(cfg), cache.entries, disk, codec, req,
                                                CacheControlHeaders(cfg, disk, req, old(w.header))))
  {
    var h1 := CacheControlHeaders(cfg, disk, req, w.header);
    SpaStatusCommitted(CreateConfiguredSpaHandler(cfg), cache.entries, disk, codec, req, h1);
    var brw := new BrotliResponseWriter(w);
    var s := Br(brw);
    CacheControl(cfg, disk, req, s);
    ServeSpa(CreateConfiguredSpaHandler(cfg), cache, disk, codec, req, s);
    brw.Close();
  }



  // ------------------------------------------------------- setup

  /** `SetupHandlers`: load the configuration (an error ends the process
      instead of returning), default the static directory, and build the
      chain from that same configuration. */
  method SetupHandlers(file: ConfigFile, env: map<string, string>) returns (r: Result<(Chain, Config), ConfigError>)
    ensures LoadSpec(file, env).Failure? ==> r == Failure(LoadSpec(file, env).error)
    ensures LoadSpec(file, env).Success? ==> r.Success?
    ensures r.Success? ==>
      var loaded := LoadSpec(file, env).value;
      && r.value.1 == loaded.(staticDir := if loaded.staticDir == "" then "./client/dist" else loaded.staticDir)
      && r.value.0 == ChainFor(r.value.1)
  {
    var loaded := LoadConfig(file, env);
    if loaded.Failure? {
      return Failure(loaded.error);
    }
    var config := loaded.value;
    if config.staticDir == "" {
      config := config.(staticDir := DefaultStaticDir);
    }
    return Success((ChainFor(config), config));
  }

  // ------------------------------------------------------- end to end

  lemma JoinBareName(dir: string, name: string)
    requires name != "" && '/' !in name
    ensures Join(dir, name) == if dir == "" then name else dir + "/" + name
  {
    assert name[0] != '/';
  }

  /** Two different bare file names never join to the same path. */
  lemma JoinInjective(dir: string, a: string, b: string)
    requires a != "" && '/' !in a && b != "" && '/' !in b
    requires a != b
    ensures Join(dir, a) != Join(dir, b)
  {
    JoinBareName(dir, a);
    JoinBareName(dir, b);
    if dir != "" {
      var x, y := dir + "/" + a, dir + "/" + b;
      assert x[|dir| + 1..] == a;
      assert y[|dir| + 1..] == b;
    }
  }

  /** A client-side route answered from disk: no Cache-Control, no cache
      entry, nothing at the joined path, the fallback present, no conditional
      headers, no Brotli. */
  predicate ClientRoute(cfg: Config, entries: map<string, CachedAsset>, disk: Disk, req: Request) {
    && !IsHashedAsset(req.path) && req.path != "/" && req.path != "/" + cfg.spaFallbackFile
    && CacheKey(req.path) !in entries
    && Stat(disk, Join(cfg.staticDir, req.path)).NotExist?
    && Exists(disk, Join(cfg.staticDir, cfg.spaFallbackFile))
    && GetHeader(req, "If-None-Match") == "" && GetHeader(req, "If-Modified-Since") == ""
    && !AcceptsBrotli(req)
  }

  /** The handler as written in handlers.go serves "index.html" for a client
      route even when another fallback file is configured and present. */
  lemma HardcodedFallbackIgnoresConfig(cfg: Config, entries: map<string, CachedAsset>, disk: Disk,
                                       codec: DateCodec, req: Request, h0: map<string, string>)
    requires ValidFallback(cfg.spaFallbackFile) && cfg.spaFallbackFile != "index.html"
    requires CacheKey(req.path) !in entries
    requires Stat(disk, Join(cfg.staticDir, req.path)).NotExist?
    requires Exists(disk, Join(cfg.staticDir, "index.html"))
    requires GetHeader(req, "If-None-Match") == "" && GetHeader(req, "If-Modified-Since") == ""
    ensures var r := SpaResponse(CreateSpaHandler(cfg.staticDir), entries, disk, codec, req, h0);
      && r.status == StatusOK
      && r.body == File(ServeFile, Join(cfg.staticDir, "index.html"))
      && r.body != File(ServeFile, Join(cfg.staticDir, cfg.spaFallbackFile))
  {
    var h := CreateSpaHandler(cfg.staticDir);
    var index := Join(cfg.staticDir, h.fallbackFile);
    SpaMissServesFallback(h, entries, disk, codec, req, h0);
    assert SpaResponse(h, entries, disk, codec, req, h0).body == File(ServeFile, index);
    IndexIsBareName();
    JoinInjective(cfg.staticDir, h.fallbackFile, cfg.spaFallbackFile);
  }

  lemma IndexIsBareName()
    ensures ValidFallback("index.html")
  {
    assert forall i :: 0 <= i < |"index.html"| ==> "index.html"[i] != '/';
  }

  /** The configured server answers a client route with the configured
      fallback file, through `http.ServeFile`, status 200, carrying that
      file's validators and Vary; gzip compresses it when its policy
      applies. */
  lemma ClientRouteServesConfiguredFallback(cfg: Config, entries: map<string, CachedAsset>, disk: Disk,
                                            codec: DateCodec, gz: GzipPolicy, req: Request, h0: map<string, string>)
    requires ClientRoute(cfg, entries, disk, req)
    ensures var path := Join(cfg.staticDir, cfg.spaFallbackFile);
      var info := Stat(disk, path).info;
      var header := WithValidators(AddedHeader(h0, "Vary", "Accept-Encoding"), Quoted, codec, info.modTime, info.size);
      var r := Run(ChainFor(cfg), entries, disk, codec, gz)(req, h0);
      && r == GzipResponse(gz, req, Resp(header, StatusOK, File(ServeFile, path)))
      && r.status == StatusOK
      && (r.body == File(ServeFile, path) || r.body == Compressed(Gzip, File(ServeFile, path)))
  {
    var h1 := AddedHeader(h0, "Vary", "Accept-Encoding");
    var path := Join(cfg.staticDir, cfg.spaFallbackFile);
    var info := Stat(disk, path).info;
    var resp := Resp(WithValidators(h1, Quoted, codec, info.modTime, info.size), StatusOK, File(ServeFile, path));
    ChainResponse(cfg, entries, disk, codec, gz, req, h0);
    ClientRouteBeforeGzip(cfg, entries, disk, codec, req, h1);
    GzipKeepsTheRest(gz, req, resp, "Vary");
  }

  /** Below the gzip stage a client route gets no Cache-Control header, and
      the SPA handler answers it with the configured fallback file. */
  lemma ClientRouteBeforeGzip(cfg: Config, entries: map<string, CachedAsset>, disk: Disk,
                              codec: DateCodec, req: Request, h1: map<string, string>)
    requires ClientRoute(cfg, entries, disk, req)
    ensures var path := Join(cfg.staticDir, cfg.spaFallbackFile);
      var info := Stat(disk, path).info;
      SpaResponse(CreateConfiguredSpaHandler(cfg), entries, disk, codec, req, CacheControlHeaders(cfg, disk, req, h1))
        == Resp(WithValidators(h1, Quoted, codec, info.modTime, info.size), StatusOK, File(ServeFile, path))
  {
    assert CacheControlHeaders(cfg, disk, req, h1) == h1;
    SpaMissServesFallback(CreateConfiguredSpaHandler(cfg), entries, disk, codec, req, h1);
  }


  /** The SPA handler sets only Content-Type, ETag, Last-Modified and (for
      404) X-Content-Type-Options: any other header set before it survives. */
  lemma SpaKeepsOtherHeaders(h: SpaHandler, entries: map<string, CachedAsset>, disk: Disk, codec: DateCodec,
                             req: Request, h0: map<string, string>, key: string)
    requires key != "Content-Type" && key != "ETag" && key != "Last-Modified" && key != "X-Content-Type-Options"
    ensures var r := SpaResponse(h, entries, disk, codec, req, h0);
      (key in r.header <==> key in h0) && (key in h0 ==> r.header[key] == h0[key])
  {
    var r := SpaResponse(h, entries, disk, codec, req, h0);
    var k := CacheKey(req.path);
    if k in entries {
      var a := entries[k];
      var c := CachedResponse(a, codec, req, h0);
      assert r == c;
      assert c.header == h0["Content-Type" := a.mimeType]["ETag" := ETag(Quoted, a.modTime, a.size)]
                           ["Last-Modified" := LastModified(codec, a.modTime)];
    } else {
      var d := DiskResponse(Quoted, h.staticDir, h.fallbackFile, disk, codec, req, h0);
      assert r == d;
      var res := Resolve(disk, h.staticDir, h.fallbackFile, req.path);
      if res.Some? {
        var t := res.value;
        assert d.header == h0["ETag" := ETag(Quoted, t.info.modTime, t.info.size)]
                             ["Last-Modified" := LastModified(codec, t.info.modTime)];
      } else {
        assert d.header == h0 + NotFoundHeader;
      }
    }
  }

  /** The entry page of a configured server ("/" + fallback) is sent with
      the no-cache directives, whatever the SPA handler and the encoders do. */
  lemma FallbackPageNotCached(cfg: Config, entries: map<string, CachedAsset>, disk: Disk,
                              codec: DateCodec, gz: GzipPolicy, req: Request, h0: map<string, string>)
    requires req.path == "/" + cfg.spaFallbackFile && !IsHashedAsset(req.path)
    ensures var r := Run(ChainFor(cfg), entries, disk, codec, gz)(req, h0);
      && "Cache-Control" in r.header && "Pragma" in r.header && "Expires" in r.header
      && r.header["Cache-Control"] == "no-cache, no-store, must-revalidate"
      && r.header["Pragma"] == "no-cache" && r.header["Expires"] == "0"
  {
    ChainResponse(cfg, entries, disk, codec, gz, req, h0);
    var h0' := AddedHeader(h0, "Vary", "Accept-Encoding");
    assert Classify(req.path, cfg.spaFallbackFile, cfg.staticDir, disk) == NoCache;
    var h1 := CacheControlHeaders(cfg, disk, req, h0');
    assert h1 == h0'["Cache-Control" := NoCacheControl]["Pragma" := "no-cache"]["Expires" := "0"];
    var spa := CreateConfiguredSpaHandler(cfg);
    var r := SpaResponse(spa, entries, disk, codec, req, h1);
    var e := if AcceptsBrotli(req) then Encoded(r) else r;
    NoCacheSurvives(spa, entries, disk, codec, req, h1, "Cache-Control", e);
    NoCacheSurvives(spa, entries, disk, codec, req, h1, "Pragma", e);
    NoCacheSurvives(spa, entries, disk, codec, req, h1, "Expires", e);
    GzipKeepsTheRest(gz, req, e, "Cache-Control");
    GzipKeepsTheRest(gz, req, e, "Pragma");
    GzipKeepsTheRest(gz, req, e, "Expires");
  }

  /** A header the SPA handler does not touch survives it and Brotli. */
  lemma NoCacheSurvives(spa: SpaHandler, entries: map<string, CachedAsset>, disk: Disk, codec: DateCodec,
                        req: Request, h1: map<string, string>, key: string, e: Resp)
    requires key == "Cache-Control" || key == "Pragma" || key == "Expires"
    requires var r := SpaResponse(spa, entries, disk, codec, req, h1);
      e == r || e == Encoded(r)
    ensures (key in e.header <==> key in h1) && (key in h1 ==> e.header[key] == h1[key])
  {
    var r := SpaResponse(spa, entries, disk, codec, req, h1);
    SpaKeepsOtherHeaders(spa, entries, disk, codec, req, h1, key);
    EncodingKeepsOtherHeaders(r.header, key);
  }


  /** The five security header names differ from every name the chain sets. */
  lemma SecurityHeaderNamesAreOthers(key: string)
    requires || key == "Content-Security-Policy" || key == "Strict-Transport-Security"
             || key == "X-Frame-Options" || key == "Referrer-Policy" || key == "Permissions-Policy"
    ensures key != "Vary" && key != "Cache-Control" && key != "Pragma" && key != "Expires"
    ensures key != "Content-Type" && key != "ETag" && key != "Last-Modified" && key != "X-Content-Type-Options"
    ensures key != "Content-Encoding" && key != "Content-Length"
  {
    // The names are told apart by length (all have 15 or more letters) and
    // by their letters: the first one, then "Co…S" for
    // Content-Security-Policy against Content-Type/-Encoding/-Length, and
    // the third for X-Frame-Options against X-Content-Type-Options.
    assert |key| >= 15 && key[0] in "CSXRP";
    assert key[0] == 'C' ==> key[1] == 'o' && key[8] == 'S';
    assert key[0] == 'X' ==> key[2] == 'F';
  }

  /** The CSP, HSTS and security-header stages are not in the chain: the
      configured server never adds those headers itself. */
  lemma NoSecurityHeadersServed(cfg: Config, entries: map<string, CachedAsset>, disk: Disk,
                                codec: DateCodec, gz: GzipPolicy, req: Request, h0: map<string, string>, key: string)
    requires || key == "Content-Security-Policy" || key == "Strict-Transport-Security"
             || key == "X-Frame-Options" || key == "Referrer-Policy" || key == "Permissions-Policy"
    requires key !in h0
    ensures key !in Run(ChainFor(cfg), entries, disk, codec, gz)(req, h0).header
  {
    ChainResponse(cfg, entries, disk, codec, gz, req, h0);
    SecurityHeaderNamesAreOthers(key);
    StagesAddNoOtherHeader(cfg, entries, disk, codec, gz, req, h0, key);
  }

  /** X-Content-Type-Options, the one security header the configured server
      can send, comes only from `http.NotFound`: it is present exactly on a
      404, and there it is "nosniff". */
  lemma NosniffOnlyOnNotFound(cfg: Config, entries: map<string, CachedAsset>, disk: Disk,
                              codec: DateCodec, gz: GzipPolicy, req: Request, h0: map<string, string>)
    requires "X-Content-Type-Options" !in h0
    ensures var r := Run(ChainFor(cfg), entries, disk, codec, gz)(req, h0);
      && ("X-Content-Type-Options" in r.header <==> r.status == StatusNotFound)
      && (r.status == StatusNotFound ==> r.header["X-Content-Type-Options"] == "nosniff")
  {
    ChainResponse(cfg, entries, disk, codec, gz, req, h0);
    var h1 := CacheControlHeaders(cfg, disk, req, AddedHeader(h0, "Vary", "Accept-Encoding"));
    NosniffNotSetBeforeHandler(cfg, disk, req, h0);
    var spa := CreateConfiguredSpaHandler(cfg);
    SpaNosniffOnlyOnNotFound(spa, entries, disk, codec, req, h1);
    NosniffThroughEncoders(gz, req, SpaResponse(spa, entries, disk, codec, req, h1));
  }

  /** Neither the gzip stage's Vary nor the Cache-Control stage sets
      X-Content-Type-Options. */
  lemma NosniffNotSetBeforeHandler(cfg: Config, disk: Disk, req: Request, h0: map<string, string>)
    requires "X-Content-Type-Options" !in h0
    ensures "X-Content-Type-Options" !in CacheControlHeaders(cfg, disk, req, AddedHeader(h0, "Vary", "Accept-Encoding"))
  {
    var key := "X-Content-Type-Options";
    assert key[0] != "Vary"[0] && key[0] != "Cache-Control"[0] && key[0] != "Pragma"[0] && key[0] != "Expires"[0];
  }

  /** Brotli and gzip keep the status and X-Content-Type-Options. */
  lemma NosniffThroughEncoders(gz: GzipPolicy, req: Request, r: Resp)
    requires "X-Content-Type-Options" in r.header <==> r.status == StatusNotFound
    requires r.status == StatusNotFound ==> r.header["X-Content-Type-Options"] == "nosniff"
    ensures var g := GzipResponse(gz, req, if AcceptsBrotli(req) then Encoded(r) else r);
      && ("X-Content-Type-Options" in g.header <==> g.status == StatusNotFound)
      && (g.status == StatusNotFound ==> g.header["X-Content-Type-Options"] == "nosniff")
  {
    var key := "X-Content-Type-Options";
    EncodingKeepsOtherHeaders(r.header, key);
    GzipKeepsTheRest(gz, req, if AcceptsBrotli(req) then Encoded(r) else r, key);
  }

  /** The SPA handler adds X-Content-Type-Options exactly when it answers
      404, through `http.NotFound`; the cache and the file paths never do. */
  lemma SpaNosniffOnlyOnNotFound(h: SpaHandler, entries: map<string, CachedAsset>, disk: Disk, codec: DateCodec,
                                 req: Request, h0: map<string, string>)
    requires "X-Content-Type-Options" !in h0
    ensures var r := SpaResponse(h, entries, disk, codec, req, h0);
      && ("X-Content-Type-Options" in r.header <==> r.status == StatusNotFound)
      && (r.status == StatusNotFound ==> r.header["X-Content-Type-Options"] == "nosniff")
  {
    var k := CacheKey(req.path);
    if k in entries {
      CachedNoNosniff(entries[k], codec, req, h0);
    } else {
      DiskNosniffOnlyOnNotFound(h.staticDir, h.fallbackFile, disk, codec, req, h0);
    }
  }

  /** A cache hit answers 200 or 304 and sets no X-Content-Type-Options. */
  lemma CachedNoNosniff(a: CachedAsset, codec: DateCodec, req: Request, h0: map<string, string>)
    requires "X-Content-Type-Options" !in h0
    ensures var c := CachedResponse(a, codec, req, h0);
      "X-Content-Type-Options" !in c.header && c.status != StatusNotFound
  {
    var c := CachedResponse(a, codec, req, h0);
    assert c.header == h0["Content-Type" := a.mimeType]["ETag" := ETag(Quoted, a.modTime, a.size)]
                         ["Last-Modified" := LastModified(codec, a.modTime)];
  }

  /** The disk branch sets X-Content-Type-Options ("nosniff") exactly when
      nothing resolves and it answers 404. */
  lemma DiskNosniffOnlyOnNotFound(staticDir: string, fallback: string, disk: Disk, codec: DateCodec,
                                  req: Request, h0: map<string, string>)
    requires "X-Content-Type-Options" !in h0
    ensures var d := DiskResponse(Quoted, staticDir, fallback, disk, codec, req, h0);
      && ("X-Content-Type-Options" in d.header <==> d.status == StatusNotFound)
      && (d.status == StatusNotFound ==> d.header["X-Content-Type-Options"] == "nosniff")
  {
    var d := DiskResponse(Quoted, staticDir, fallback, disk, codec, req, h0);
    var res := Resolve(disk, staticDir, fallback, req.path);
    if res.Some? {
      var t := res.value;
      ResolvedResponse(Quoted, staticDir, fallback, disk, codec, req, h0, t);
      assert d.header == h0["ETag" := ETag(Quoted, t.info.modTime, t.info.size)]
                           ["Last-Modified" := LastModified(codec, t.info.modTime)];
    } else {
      UnresolvedIsNotFound(Quoted, staticDir, fallback, disk, codec, req, h0);
      NotFoundHeaderSet(h0);
    }
  }

  /** A header name none of the stages sets is absent afterwards if it was
      absent before. */
  lemma StagesAddNoOtherHeader(cfg: Config, entries: map<string, CachedAsset>, disk: Disk,
                               codec: DateCodec, gz: GzipPolicy, req: Request, h0: map<string, string>, key: string)
    requires key != "Vary" && key != "Cache-Control" && key != "Pragma" && key != "Expires"
    requires key != "Content-Type" && key != "ETag" && key != "Last-Modified" && key != "X-Content-Type-Options"
    requires key != "Content-Encoding" && key != "Content-Length"
    requires key !in h0
    ensures var h1 := CacheControlHeaders(cfg, disk, req, AddedHeader(h0, "Vary", "Accept-Encoding"));
      var r := SpaResponse(CreateConfiguredSpaHandler(cfg), entries, disk, codec, req, h1);
      key !in GzipResponse(gz, req, if AcceptsBrotli(req) then Encoded(r) else r).header
  {
    var h0' := AddedHeader(h0, "Vary", "Accept-Encoding");
    assert key !in h0';
    var h1 := CacheControlHeaders(cfg, disk, req, h0');
    assert key !in h1;
    var spa := CreateConfiguredSpaHandler(cfg);
    var r := SpaResponse(spa, entries, disk, codec, req, h1);
    SpaKeepsOtherHeaders(spa, entries, disk, codec, req, h1, key);
    EncodingKeepsOtherHeaders(r.header, key);
    var e := if AcceptsBrotli(req) then Encoded(r) else r;
    GzipKeepsTheRest(gz, req, e, key);
  }


}
