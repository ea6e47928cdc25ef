/** The header-setting middlewares: Cache-Control classification (the one
    in the server's chain), and the CSP, HSTS and security-header stages. */
module Middleware {
  import opened Outcomes
  import opened Text
  import opened Os
  import opened Http
  import opened Writers
  import opened Configuration

  // ------------------------------------------------------- Cache-Control

  const ImmutableCacheControl := "public, max-age=31536000, immutable"
  const NoCacheControl := "no-cache, no-store, must-revalidate"
  const ShortCacheControl := "public, max-age=3600"

  /** Paths taken to carry a content hash: under "/assets/" or ending in one
      of the listed static extensions. */
  predicate IsHashedAsset(path: string) {
    || HasPrefix(path, "/assets/")
    || HasSuffix(path, ".js")
    || HasSuffix(path, ".css")
    || HasSuffix(path, ".png")
    || HasSuffix(path, ".jpg")
    || HasSuffix(path, ".jpeg")
    || HasSuffix(path, ".gif")
    || HasSuffix(path, ".svg")
    || HasSuffix(path, ".webp")
  }

  /** The caching policies of section 5.2 of RFC 7234 the server applies. */
  datatype Policy = Immutable | NoCache | ShortCache | Unmarked

  /** First match wins: hashed asset, then the SPA entry ("/" or "/" + the
      fallback file), then "a file exists at the joined path". */
  function Classify(path: string, fallbackFile: string, staticDir: string, disk: Disk): Policy {
    if IsHashedAsset(path) then Immutable
    else if path == "/" || path == "/" + fallbackFile then NoCache
    else if Exists(disk, Join(staticDir, path)) then ShortCache
    else Unmarked
  }

  /** The headers a policy adds. */
  function PolicyHeaders(p: Policy, h: map<string, string>): map<string, string> {
    match p
    case Immutable => h["Cache-Control" := ImmutableCacheControl]
    case NoCache => h["Cache-Control" := NoCacheControl]["Pragma" := "no-cache"]["Expires" := "0"]
    case ShortCache => h["Cache-Control" := ShortCacheControl]
    case Unmarked => h
  }

  /** The headers `CacheControlMiddleware(config)` sets before calling the
      next handler. */
  function CacheControlHeaders(cfg: Config, disk: Disk, req: Request, h: map<string, string>): map<string, string> {
    PolicyHeaders(Classify(req.path, cfg.spaFallbackFile, cfg.staticDir, disk), h)
  }

  /** The if-chain that sets the policy headers on the writer. */
  method SetCachePolicy(path: string, fallbackFile: string, staticDir: string, disk: Disk, s: Sink)
    requires Valid(s)
    modifies Objects(s)
    ensures Valid(s) && NoBody(s) == old(NoBody(s))
    ensures Out(s) == old(Out(s)).(header := PolicyHeaders(Classify(path, fallbackFile, staticDir, disk), old(Out(s)).header))
  {
    ghost var policy := Classify(path, fallbackFile, staticDir, disk);
    if IsHashedAsset(path) {
      assert policy == Immutable;
      SetHeader(s, "Cache-Control", ImmutableCacheControl);
    } else if path == "/" || path == "/" + fallbackFile {
      assert policy == NoCache;
      SetHeader(s, "Cache-Control", NoCacheControl);
      SetHeader(s, "Pragma", "no-cache");
      SetHeader(s, "Expires", "0");
    } else {
      var filePath := Join(staticDir, path);
      if Exists(disk, filePath) {
        assert policy == ShortCache;
        SetHeader(s, "Cache-Control", ShortCacheControl);
      } else {
        assert policy == Unmarked;
      }
    }
  }

  /** The header-setting part of `CacheControlMiddleware(config)`; the server
      then runs the wrapped handler on the same writer. */
  method CacheControl(cfg: Config, disk: Disk, req: Request, s: Sink)
    requires Valid(s)
    modifies Objects(s)
    ensures Valid(s) && NoBody(s) == old(NoBody(s))
    ensures Out(s) == old(Out(s)).(header := CacheControlHeaders(cfg, disk, req, old(Out(s)).header))
  {
    SetCachePolicy(req.path, cfg.spaFallbackFile, cfg.staticDir, disk, s);
  }

  /** A hashed-asset path is immutable whatever the fallback file and the
      disk say: the first tier wins over the other two. */
  lemma HashedAssetWins(path: string, fallbackFile: string, staticDir: string, disk: Disk, h: map<string, string>)
    requires IsHashedAsset(path)
    ensures Classify(path, fallbackFile, staticDir, disk) == Immutable
    ensures PolicyHeaders(Classify(path, fallbackFile, staticDir, disk), h)
         == h["Cache-Control" := "public, max-age=31536000, immutable"]
  {
  }

  /** A fallback file named like an asset is still cached as immutable. */
  lemma ScriptFallbackIsImmutable(staticDir: string, disk: Disk)
    ensures Classify("/app.js", "app.js", staticDir, disk) == Immutable
  {
    assert HasSuffix("/app.js", ".js") by {
      assert "/app.js"[|"/app.js"| - |".js"|..] == ".js";
    }
  }

  /** Pragma and Expires are added by the no-cache policy and by no other. */
  lemma PragmaOnlyWhenNoCache(p: Policy, h: map<string, string>)
    ensures p == NoCache ==>
      && PolicyHeaders(p, h)["Cache-Control"] == "no-cache, no-store, must-revalidate"
      && PolicyHeaders(p, h)["Pragma"] == "no-cache" && PolicyHeaders(p, h)["Expires"] == "0"
    ensures p != NoCache ==>
      && ("Pragma" in PolicyHeaders(p, h) <==> "Pragma" in h)
      && ("Expires" in PolicyHeaders(p, h) <==> "Expires" in h)
  {
    assert "Pragma"[0] != "Cache-Control"[0] && "Expires"[0] != "Cache-Control"[0];
  }

  /** The third tier: an unhashed path other than the entry points is cached
      for an hour exactly when a file exists at the joined path, and left
      unmarked otherwise. */
  lemma ShortCacheIff(path: string, fallbackFile: string, staticDir: string, disk: Disk, h: map<string, string>)
    requires !IsHashedAsset(path) && path != "/" && path != "/" + fallbackFile
    ensures Exists(disk, Join(staticDir, path)) ==>
      PolicyHeaders(Classify(path, fallbackFile, staticDir, disk), h) == h["Cache-Control" := "public, max-age=3600"]
    ensures !Exists(disk, Join(staticDir, path)) ==> PolicyHeaders(Classify(path, fallbackFile, staticDir, disk), h) == h
  {
  }

  /** Only the classification decides: the headers set are a function of the
      policy, and every policy but `Unmarked` sets Cache-Control. */
  lemma CacheControlSetIff(p: Policy, h: map<string, string>)
    ensures ("Cache-Control" in PolicyHeaders(p, h)) <==> (p != Unmarked || "Cache-Control" in h)
  {
  }

  // ------------------------------------------------------- CSP and HSTS

  /** `CSPMiddleware`: the configured policy, when there is one. */
  function CspHeaders(cspHeader: string, h: map<string, string>): map<string, string> {
    if cspHeader != "" then h["Content-Security-Policy" := cspHeader] else h
  }

  /** `fmt.Sprintf("max-age=%d; includeSubDomains", n)` */
  function HstsValue(maxAge: int): string {
    "max-age=" + FormatInt(maxAge) + "; includeSubDomains"
  }

  /** `HSTSMiddleware`: only with a positive max-age and over TLS. */
  function HstsHeaders(maxAge: int, tls: bool, h: map<string, string>): map<string, string> {
    if maxAge > 0 && tls then h["Strict-Transport-Security" := HstsValue(maxAge)] else h
  }

  method CspMiddleware(cfg: Config, s: Sink)
    requires Valid(s)
    modifies Objects(s)
    ensures Valid(s) && NoBody(s) == old(NoBody(s))
    ensures Out(s) == old(Out(s)).(header := CspHeaders(cfg.cspHeader, old(Out(s)).header))
  {
    if cfg.cspHeader != "" {
      SetHeader(s, "Content-Security-Policy", cfg.cspHeader);
    }
  }

  method HstsMiddleware(cfg: Config, req: Request, s: Sink)
    requires Valid(s)
    modifies Objects(s)
    ensures Valid(s) && NoBody(s) == old(NoBody(s))
    ensures Out(s) == old(Out(s)).(header := HstsHeaders(cfg.hstsMaxAge, req.tls, old(Out(s)).header))
  {
    if cfg.hstsMaxAge > 0 && req.tls {
      SetHeader(s, "Strict-Transport-Security", HstsValue(cfg.hstsMaxAge));
    }
  }

  /** Content-Security-Policy is set exactly when a policy is configured,
      and then to that policy. */
  lemma CspSetIff(cspHeader: string, h: map<string, string>)
    requires "Content-Security-Policy" !in h
    ensures ("Content-Security-Policy" in CspHeaders(cspHeader, h)) <==> cspHeader != ""
    ensures cspHeader != "" ==> CspHeaders(cspHeader, h)["Content-Security-Policy"] == cspHeader
  {
  }

  /** Strict-Transport-Security is set exactly for a positive max-age on a
      TLS connection, and its max-age reads back as the configured number. */
  lemma HstsSetIff(maxAge: Int64, tls: bool, h: map<string, string>)
    requires "Strict-Transport-Security" !in h
    ensures ("Strict-Transport-Security" in HstsHeaders(maxAge, tls, h)) <==> maxAge > 0 && tls
    ensures maxAge > 0 && tls ==>
      var v := HstsHeaders(maxAge, tls, h)["Strict-Transport-Security"];
      && HasPrefix(v, "max-age=") && HasSuffix(v, "; includeSubDomains")
      && |v| >= 27 && Atoi(v[8..|v| - 19]) == Some(maxAge)
  {
    if maxAge > 0 && tls {
      var v := HstsValue(maxAge);
      assert v[8..|v| - 19] == FormatInt(maxAge);
      AtoiFormatInt(maxAge);
      assert v[..8] == "max-age=";
      assert v[|v| - 19..] == "; includeSubDomains";
    }
  }

  // ------------------------------------------------------- security headers

  /** The four settings `SecurityHeadersMiddleware` reads. The `Config`
      record does not declare them, so they are given separately here. */
  datatype SecurityPolicy = SecurityPolicy(
    xContentTypeOptions: string,
    xFrameOptions: string,
    referrerPolicy: string,
    permissionsPolicy: string)

  function ValueOr(configured: string, default: string): string {
    if configured != "" then configured else default
  }

  /** `SecurityHeadersMiddleware`: each header is the configured value, or
      its fixed default when that is empty. */
  function SecurityHeaders(p: SecurityPolicy, h: map<string, string>): map<string, string> {
    h["X-Content-Type-Options" := ValueOr(p.xContentTypeOptions, "nosniff")]
     ["X-Frame-Options" := ValueOr(p.xFrameOptions, "DENY")]
     ["Referrer-Policy" := ValueOr(p.referrerPolicy, "no-referrer-when-downgrade")]
     ["Permissions-Policy" := ValueOr(p.permissionsPolicy, "geolocation=(), microphone=(), camera=()")]
  }

  method SecurityHeadersMiddleware(p: SecurityPolicy, s: Sink)
    requires Valid(s)
    modifies Objects(s)
    ensures Valid(s) && NoBody(s) == old(NoBody(s))
    ensures Out(s) == old(Out(s)).(header := SecurityHeaders(p, old(Out(s)).header))
  {
    SetConfiguredOr(s, "X-Content-Type-Options", p.xContentTypeOptions, "nosniff");
    SetConfiguredOr(s, "X-Frame-Options", p.xFrameOptions, "DENY");
    SetConfiguredOr(s, "Referrer-Policy", p.referrerPolicy, "no-referrer-when-downgrade");
    SetConfiguredOr(s, "Permissions-Policy", p.permissionsPolicy, "geolocation=(), microphone=(), camera=()");
  }

  /** One header of `SecurityHeadersMiddleware`: the configured value when it
      is non-empty, else the default. */
  method SetConfiguredOr(s: Sink, key: string, configured: string, default: string)
    requires Valid(s)
    modifies Objects(s)
    ensures Valid(s) && NoBody(s) == old(NoBody(s))
    ensures Out(s) == old(Out(s)).(header := old(Out(s)).header[key := ValueOr(configured, default)])
  {
    if configured != "" {
      SetHeader(s, key, configured);
    } else {
      SetHeader(s, key, default);
    }
  }


  /** All four headers are present afterwards, each non-empty, each the
      configured value exactly when one is configured. */
  lemma SecurityHeadersChosen(p: SecurityPolicy, h: map<string, string>)
    ensures var r := SecurityHeaders(p, h);
      && r["X-Content-Type-Options"] == (if p.xContentTypeOptions != "" then p.xContentTypeOptions else "nosniff")
      && r["X-Frame-Options"] == (if p.xFrameOptions != "" then p.xFrameOptions else "DENY")
      && r["Referrer-Policy"] == (if p.referrerPolicy != "" then p.referrerPolicy else "no-referrer-when-downgrade")
      && r["Permissions-Policy"] == (if p.permissionsPolicy != "" then p.permissionsPolicy
                                     else "geolocation=(), microphone=(), camera=()")
      && r["X-Content-Type-Options"] != "" && r["X-Frame-Options"] != ""
      && r["Referrer-Policy"] != "" && r["Permissions-Policy"] != ""
  {
    assert "X-Content-Type-Options"[2] != "X-Frame-Options"[2];
    assert "Referrer-Policy"[0] != "Permissions-Policy"[0];
  }
}
