/** The SPA handler: look the request up in the preload cache, else resolve
    it on disk (falling back to the SPA entry file), attach the validators
    ETag and Last-Modified, answer conditional requests with 304, and
    otherwise send the body. */
module Handlers {
  import opened Outcomes
  import opened Text
  import opened Os
  import opened Http
  import opened Cache
  import opened Writers

  // ------------------------------------------------------------ validators

  /** handlers.go quotes the ETag; the earlier handler in main.go does not. */
  datatype ETagStyle = Quoted | Unquoted

  /** `fmt.Sprintf("\"%x-%x\"", modTime.Unix(), size)` (or without the
      quotes): the entity tag depends on the whole second and the size. */
  function ETag(style: ETagStyle, modTime: int, size: int): string {
    var core := FormatHex(Unix(modTime)) + "-" + FormatHex(size);
    if style == Quoted then "\"" + core + "\"" else core
  }

  /** Index of the first '-' at or after `k` (|s| when there is none). */
  function FirstDash(s: string, k: nat): (i: nat)
    requires k <= |s|
    ensures k <= i <= |s|
    ensures i < |s| ==> s[i] == '-'
    ensures forall j :: k <= j < i ==> s[j] != '-'
    decreases |s| - k
  {
    if k == |s| || s[k] == '-' then k else FirstDash(s, k + 1)
  }

  /** Reads an unquoted tag `<hex>-<hex>` back; the separator is the first
      '-' after the first character (the first may be a minus sign). */
  function ParseTagCore(s: string): Option<(int, int)> {
    if |s| == 0 then None
    else
      var i := FirstDash(s, 1);
      if i == |s| then None
      else
        match (ParseHex(s[..i]), ParseHex(s[i + 1..]))
        case (Some(sec), Some(size)) => Some((sec, size))
        case _ => None
  }

  /** The inverse of `ETag`: the (second, size) pair a tag was made from. */
  function ParseETag(style: ETagStyle, s: string): Option<(int, int)> {
    if style == Unquoted then ParseTagCore(s)
    else if |s| >= 2 && s[0] == '"' && s[|s| - 1] == '"' then ParseTagCore(s[1..|s| - 1])
    else None
  }

  lemma CoreSplits(sec: int, size: int)
    ensures var a := FormatHex(sec); var s := a + "-" + FormatHex(size);
      |a| >= 1 && FirstDash(s, 1) == |a| && s[..|a|] == a && s[|a| + 1..] == FormatHex(size)
  {
    var a := FormatHex(sec);
    var s := a + "-" + FormatHex(size);
    FormatHexDashFree(sec);
    assert s[|a|] == '-';
    assert forall k :: 1 <= k < |a| ==> s[k] == a[k];
  }

  /** An ETag reads back to the whole second and size it was made from. */
  lemma ETagRoundTrip(style: ETagStyle, modTime: int, size: int)
    ensures ParseETag(style, ETag(style, modTime, size)) == Some((Unix(modTime), size))
  {
    var core := FormatHex(Unix(modTime)) + "-" + FormatHex(size);
    CoreSplits(Unix(modTime), size);
    ParseFormatHex(Unix(modTime));
    ParseFormatHex(size);
    if style == Quoted {
      var t := ETag(style, modTime, size);
      assert t[1..|t| - 1] == core;
    }
  }

  /** Two resources get the same ETag exactly when their modification times
      fall in the same second and their sizes agree. */
  lemma ETagIdentifiesSecondAndSize(style: ETagStyle, m1: int, s1: int, m2: int, s2: int)
    ensures ETag(style, m1, s1) == ETag(style, m2, s2) <==> Unix(m1) == Unix(m2) && s1 == s2
  {
    ETagRoundTrip(style, m1, s1);
    ETagRoundTrip(style, m2, s2);
  }

  /** `Last-Modified`: the modification time, in UTC, rendered to whole
      seconds. */
  function LastModified(codec: DateCodec, modTime: int): string {
    codec.format(Unix(modTime))
  }

  /** `ModTime().Format(http.TimeFormat)` on a host whose local zone is
      `offset` seconds east of UTC: `os.Stat` reports the time in the local
      zone, and the layout prints that wall clock followed by "GMT", so the
      header names the second `Unix(modTime) + offset`. */
  function LocalLastModified(codec: DateCodec, offset: int, modTime: int): string {
    codec.format(Unix(modTime) + offset)
  }

  /** The header map after `ETag` and then `Last-Modified` are set. */
  function WithValidators(h: map<string, string>, style: ETagStyle, codec: DateCodec, modTime: int, size: int): map<string, string> {
    h["ETag" := ETag(style, modTime, size)]["Last-Modified" := LastModified(codec, modTime)]
  }

  // ------------------------------------------------------- conditional GET

  /** A non-empty If-None-Match byte-for-byte equal to the tag (no weak
      comparison, no lists, no "*"). */
  predicate IfNoneMatchHit(req: Request, etag: string) {
    GetHeader(req, "If-None-Match") != "" && GetHeader(req, "If-None-Match") == etag
  }

  /** A non-empty If-Modified-Since that parses to second `t` with
      `modTime.Before(t + 1s)`. */
  predicate IfModifiedSinceHit(req: Request, codec: DateCodec, modTime: int) {
    var ims := GetHeader(req, "If-Modified-Since");
    ims != "" && codec.parse(ims).Some? && modTime < (codec.parse(ims).value + 1) * NanosPerSecond
  }

  /** 304 is sent when either test holds; If-Modified-Since is consulted even
      when a non-matching If-None-Match is present. */
  predicate NotModified(req: Request, codec: DateCodec, etag: string, modTime: int) {
    IfNoneMatchHit(req, etag) || IfModifiedSinceHit(req, codec, modTime)
  }

  // ------------------------------------------------------- the response

  /** The SPA handler as configured: where files live and which file stands
      in for client-side routes. */
  datatype SpaHandler = SpaHandler(staticDir: string, fallbackFile: string)

  /** `CreateSpaHandler(staticDir)` as written: the fallback is always
      "index.html", whatever the configuration says. */
  function CreateSpaHandler(staticDir: string): SpaHandler {
    SpaHandler(staticDir, "index.html")
  }

  /** The cache key: the URL path, with "/" looked up as "/index.html". */
  function CacheKey(urlPath: string): string {
    if urlPath == "/" then "/index.html" else urlPath
  }

  /** The response for a cache hit: Content-Type from the entry, validators
      from its time and size, then 304 or the cached bytes. */
  function CachedResponse(a: CachedAsset, codec: DateCodec, req: Request, h0: map<string, string>): Resp {
    var header := WithValidators(h0["Content-Type" := a.mimeType], Quoted, codec, a.modTime, a.size);
    if NotModified(req, codec, ETag(Quoted, a.modTime, a.size), a.modTime) then Resp(header, StatusNotModified, Bytes([]))
    else Resp(header, StatusOK, Bytes(a.content))
  }

  /** The file a cache miss is answered from, with its stat result and the
      routine that serves it. */
  datatype Target = Target(path: string, info: FileInfo, via: Serving)

  /** The requested path if its stat does not report "not exist", else the
      fallback; the chosen path must then stat successfully. */
  function Resolve(disk: Disk, staticDir: string, fallback: string, urlPath: string): Option<Target> {
    var requested := Join(staticDir, urlPath);
    var chosen := if Stat(disk, requested).NotExist? then Join(staticDir, fallback) else requested;
    match Stat(disk, chosen)
    case Found(info) => Some(Target(chosen, info, if chosen == requested then FileServer else ServeFile))
    case _ => None
  }

  /** The response for a cache miss. */
  function DiskResponse(style: ETagStyle, staticDir: string, fallback: string, disk: Disk, codec: DateCodec,
                        req: Request, h0: map<string, string>): Resp {
    match Resolve(disk, staticDir, fallback, req.path)
    case None => Resp(h0 + NotFoundHeader, StatusNotFound, Bytes(NotFoundBody))
    case Some(t) =>
      var header := WithValidators(h0, style, codec, t.info.modTime, t.info.size);
      if NotModified(req, codec, ETag(style, t.info.modTime, t.info.size), t.info.modTime) then
        Resp(header, StatusNotModified, Bytes([]))
      else Resp(header, StatusOK, File(t.via, t.path))
  }

  /** What the SPA handler sends, given the cache contents, the disk and the
      headers set before it ran. */
  function SpaResponse(h: SpaHandler, entries: map<string, CachedAsset>, disk: Disk, codec: DateCodec,
                       req: Request, h0: map<string, string>): Resp {
    var key := CacheKey(req.path);
    if key in entries then CachedResponse(entries[key], codec, req, h0)
    else DiskResponse(Quoted, h.staticDir, h.fallbackFile, disk, codec, req, h0)
  }

  // ------------------------------------------------------- the handler

  /** The two conditional tests, in order; on a hit the writer commits 304. */
  method AnswerConditional(req: Request, codec: DateCodec, etag: string, modTime: int, s: Sink)
    returns (notModified: bool)
    requires Fresh(s)
    modifies Objects(s)
    ensures notModified == NotModified(req, codec, etag, modTime)
    ensures notModified ==> Valid(s) && Out(s) == Stamped(s, Resp(old(Out(s)).header, StatusNotModified, Bytes([])))
    ensures !notModified ==> Fresh(s) && Out(s) == old(Out(s))
  {
    var ifNoneMatch := GetHeader(req, "If-None-Match");
    if ifNoneMatch != "" && ifNoneMatch == etag {
      WriteHeader(s, StatusNotModified);
      return true;
    }
    var ifModifiedSince := GetHeader(req, "If-Modified-Since");
    if ifModifiedSince != "" {
      var t := codec.parse(ifModifiedSince);
      if t.Some? && modTime < (t.value + 1) * NanosPerSecond {
        WriteHeader(s, StatusNotModified);
        return true;
      }
    }
    return false;
  }

  /** The disk branch of the handler (also the whole handler of the earlier
      server in main.go, with unquoted tags). */
  method ServeFromDisk(style: ETagStyle, staticDir: string, fallback: string, disk: Disk, codec: DateCodec,
                       req: Request, s: Sink)
    requires Fresh(s)
    modifies Objects(s)
    ensures Valid(s)
    ensures Out(s) == Stamped(s, DiskResponse(style, staticDir, fallback, disk, codec, req, old(Out(s)).header))
  {
    var requestedPath := Join(staticDir, req.path);
    var serveFilePath := requestedPath;
    if Stat(disk, requestedPath).NotExist? {
      serveFilePath := Join(staticDir, fallback);
    }
    var st := Stat(disk, serveFilePath);
    if !st.Found? {
      assert Resolve(disk, staticDir, fallback, req.path) == None;
      NotFound(s);
      return;
    }
    var info := st.info;
    assert Resolve(disk, staticDir, fallback, req.path)
      == Some(Target(serveFilePath, info, if serveFilePath == requestedPath then FileServer else ServeFile));
    var etag := ETag(style, info.modTime, info.size);
    SetHeader(s, "ETag", etag);
    SetHeader(s, "Last-Modified", LastModified(codec, info.modTime));
    var notModified := AnswerConditional(req, codec, etag, info.modTime, s);
    if notModified {
      return;
    }
    if serveFilePath == requestedPath {
      ServeFileAt(s, FileServer, requestedPath);
    } else {
      ServeFileAt(s, ServeFile, serveFilePath);
    }
  }

  /** The handler returned by `CreateSpaHandler`, run on one request. */
  method ServeSpa(h: SpaHandler, cache: AssetCache, disk: Disk, codec: DateCodec, req: Request, s: Sink)
    requires Fresh(s)
    modifies Objects(s)
    ensures Valid(s)
    ensures Out(s) == Stamped(s, SpaResponse(h, cache.entries, disk, codec, req, old(Out(s)).header))
  {
    var cachePath := req.path;
    if cachePath == "/" {
      cachePath := "/index.html";
    }
    var (asset, ok) := cache.Get(cachePath);
    if ok {
      SetHeader(s, "Content-Type", asset.mimeType);
      var etag := ETag(Quoted, asset.modTime, asset.size);
      SetHeader(s, "ETag", etag);
      SetHeader(s, "Last-Modified", LastModified(codec, asset.modTime));
      var notModified := AnswerConditional(req, codec, etag, asset.modTime, s);
      if notModified {
        return;
      }
      Write(s, asset.content);
      return;
    }
    ServeFromDisk(Quoted, h.staticDir, h.fallbackFile, disk, codec, req, s);
  }

  // ------------------------------------------------------- properties

  /** A cache hit (with "/" looked up as "/index.html") is answered from the
      entry alone: the disk is not consulted, Content-Type is the entry's,
      and a 200 carries exactly the cached bytes. */
  lemma CacheHitIgnoresDisk(h: SpaHandler, entries: map<string, CachedAsset>, disk1: Disk, disk2: Disk,
                            codec: DateCodec, req: Request, h0: map<string, string>)
    requires (if req.path == "/" then "/index.html" else req.path) in entries
    ensures var a := entries[if req.path == "/" then "/index.html" else req.path];
      var r := SpaResponse(h, entries, disk1, codec, req, h0);
      && r == SpaResponse(h, entries, disk2, codec, req, h0)
      && r.header["Content-Type"] == a.mimeType
      && (r.status == StatusOK || r.status == StatusNotModified)
      && (r.status == StatusOK ==> r.body == Bytes(a.content))
      && (r.status == StatusNotModified ==> r.body == Bytes([]))
  {
  }

  /** An If-None-Match equal to the tag yields 304 with no body, and the
      validators are still sent (cache hit). */
  lemma CachedMatchingETagNotModified(a: CachedAsset, codec: DateCodec, req: Request, h0: map<string, string>)
    requires GetHeader(req, "If-None-Match") == ETag(Quoted, a.modTime, a.size)
    ensures var r := CachedResponse(a, codec, req, h0);
      && r.status == StatusNotModified && r.body == Bytes([])
      && r.header["ETag"] == GetHeader(req, "If-None-Match")
      && r.header["Last-Modified"] == codec.format(Unix(a.modTime))
  {
  }

  /** The same on a cache miss, for whatever file the request resolved to. */
  lemma DiskMatchingETagNotModified(style: ETagStyle, staticDir: string, fallback: string, disk: Disk,
                                    codec: DateCodec, req: Request, h0: map<string, string>)
    requires Resolve(disk, staticDir, fallback, req.path).Some?
    requires var t := Resolve(disk, staticDir, fallback, req.path).value;
      GetHeader(req, "If-None-Match") == ETag(style, t.info.modTime, t.info.size)
    ensures var t := Resolve(disk, staticDir, fallback, req.path).value;
      var r := DiskResponse(style, staticDir, fallback, disk, codec, req, h0);
      && r.status == StatusNotModified && r.body == Bytes([])
      && r.header["ETag"] == GetHeader(req, "If-None-Match")
      && r.header["Last-Modified"] == codec.format(Unix(t.info.modTime))
  {
    var t := Resolve(disk, staticDir, fallback, req.path).value;
    ResolvedResponse(style, staticDir, fallback, disk, codec, req, h0, t);
    assert IfNoneMatchHit(req, ETag(style, t.info.modTime, t.info.size));
  }

  /** A quoted tag never equals "invalid-etag", so such a request with no
      If-Modified-Since gets 200 and the full body. */
  lemma InvalidETagServesFullBody(a: CachedAsset, codec: DateCodec, req: Request, h0: map<string, string>)
    requires GetHeader(req, "If-None-Match") == "invalid-etag"
    requires GetHeader(req, "If-Modified-Since") == ""
    ensures CachedResponse(a, codec, req, h0).status == StatusOK
    ensures CachedResponse(a, codec, req, h0).body == Bytes(a.content)
  {
    assert ETag(Quoted, a.modTime, a.size)[0] == '"';
    assert "invalid-etag"[0] == 'i';
  }

  /** Once If-None-Match has not matched: 304 exactly when If-Modified-Since
      parses to a second `t` with the modification time before `t` + 1s. */
  lemma IfModifiedSinceRule(a: CachedAsset, codec: DateCodec, req: Request, h0: map<string, string>)
    requires !IfNoneMatchHit(req, ETag(Quoted, a.modTime, a.size))
    ensures var ims := GetHeader(req, "If-Modified-Since");
      CachedResponse(a, codec, req, h0).status == StatusNotModified <==>
        ims != "" && codec.parse(ims).Some? && a.modTime < codec.parse(ims).value * NanosPerSecond + NanosPerSecond
  {
  }

  /** An If-Modified-Since that does not parse is ignored: the response is
      the one for the same request without that header. */
  lemma UnparseableDateIgnored(h: SpaHandler, entries: map<string, CachedAsset>, disk: Disk,
                               codec: DateCodec, req: Request, h0: map<string, string>)
    requires codec.parse(GetHeader(req, "If-Modified-Since")) == None
    ensures SpaResponse(h, entries, disk, codec, req, h0)
         == SpaResponse(h, entries, disk, codec, req.(header := req.header - {"If-Modified-Since"}), h0)
  {
    var req' := req.(header := req.header - {"If-Modified-Since"});
    assert GetHeader(req', "If-None-Match") == GetHeader(req, "If-None-Match");
    assert GetHeader(req', "If-Modified-Since") == "";
  }

  /** Sending back the Last-Modified value a response carried always yields
      304: it names the second the file changed in, and that second plus
      one lies after the modification time. */
  lemma LastModifiedRoundTrip(a: CachedAsset, codec: DateCodec, req: Request, h0: map<string, string>)
    requires RoundTripsAt(codec, Unix(a.modTime))
    requires GetHeader(req, "If-Modified-Since") == CachedResponse(a, codec, req, h0).header["Last-Modified"]
    ensures CachedResponse(a, codec, req, h0).status == StatusNotModified
  {
    UnixBounds(a.modTime);
    assert CachedResponse(a, codec, req, h0).header["Last-Modified"] == codec.format(Unix(a.modTime));
    assert codec.parse(GetHeader(req, "If-Modified-Since")) == Some(Unix(a.modTime));
    assert IfModifiedSinceHit(req, codec, a.modTime);
  }

  /** On a host west of UTC, a client sending back the Last-Modified value
      the handler wrote (the local wall clock labelled GMT) is not answered
      with 304 but with 200 and the full body. */
  lemma LocalZoneDateNotRecognised(a: CachedAsset, codec: DateCodec, offset: int, req: Request, h0: map<string, string>)
    requires offset < 0
    requires RoundTripsAt(codec, Unix(a.modTime) + offset)
    requires GetHeader(req, "If-None-Match") == ""
    requires GetHeader(req, "If-Modified-Since") == LocalLastModified(codec, offset, a.modTime)
    ensures !IfModifiedSinceHit(req, codec, a.modTime)
    ensures CachedResponse(a, codec, req, h0).status == StatusOK
    ensures CachedResponse(a, codec, req, h0).body == Bytes(a.content)
  {
    UnixBounds(a.modTime);
    var sec := Unix(a.modTime) + offset;
    assert codec.parse(GetHeader(req, "If-Modified-Since")) == Some(sec);
    assert (sec + 1) * NanosPerSecond <= Unix(a.modTime) * NanosPerSecond;
  }

  /** A date a day or more before the modification second is answered with
      200 and the full body (when If-None-Match did not match). */
  lemma OlderDateServesFullBody(a: CachedAsset, codec: DateCodec, req: Request, h0: map<string, string>)
    requires !IfNoneMatchHit(req, ETag(Quoted, a.modTime, a.size))
    requires codec.parse(GetHeader(req, "If-Modified-Since")) == Some(Unix(a.modTime) - 86400)
    ensures CachedResponse(a, codec, req, h0).status == StatusOK
    ensures CachedResponse(a, codec, req, h0).body == Bytes(a.content)
  {
    UnixBounds(a.modTime);
  }

  /** A miss that resolves to a file is answered with that file's
      validators, then 304 or the file itself. */
  lemma ResolvedResponse(style: ETagStyle, staticDir: string, fallback: string, disk: Disk,
                         codec: DateCodec, req: Request, h0: map<string, string>, t: Target)
    requires Resolve(disk, staticDir, fallback, req.path) == Some(t)
    ensures var r := DiskResponse(style, staticDir, fallback, disk, codec, req, h0);
      && r.header == WithValidators(h0, style, codec, t.info.modTime, t.info.size)
      && (r.status == StatusOK || r.status == StatusNotModified)
      && (r.status == StatusNotModified <==> NotModified(req, codec, ETag(style, t.info.modTime, t.info.size), t.info.modTime))
      && (r.status == StatusOK ==> r.body == File(t.via, t.path))
      && (r.status == StatusNotModified ==> r.body == Bytes([]))
  {
  }

  /** The requested path is kept unless its stat says "not exist"; then the
      fallback is tried, and it is served by `http.ServeFile`. */
  lemma ResolveSpec(disk: Disk, staticDir: string, fallback: string, urlPath: string)
    ensures Exists(disk, Join(staticDir, urlPath)) ==>
      Resolve(disk, staticDir, fallback, urlPath)
        == Some(Target(Join(staticDir, urlPath), Stat(disk, Join(staticDir, urlPath)).info, FileServer))
    ensures Stat(disk, Join(staticDir, urlPath)).NotExist? && Exists(disk, Join(staticDir, fallback)) ==>
      Resolve(disk, staticDir, fallback, urlPath)
        == Some(Target(Join(staticDir, fallback), Stat(disk, Join(staticDir, fallback)).info, ServeFile))
    ensures Stat(disk, Join(staticDir, urlPath)).StatFailed? ==> Resolve(disk, staticDir, fallback, urlPath) == None
    ensures Stat(disk, Join(staticDir, urlPath)).NotExist? && !Exists(disk, Join(staticDir, fallback)) ==>
      Resolve(disk, staticDir, fallback, urlPath) == None
  {
  }

  /** A path whose stat says "not exist" is answered from the fallback file:
      its validators, and its contents through `http.ServeFile`. */
  lemma MissingPathFallsBack(style: ETagStyle, staticDir: string, fallback: string, disk: Disk,
                             codec: DateCodec, req: Request, h0: map<string, string>)
    requires Stat(disk, Join(staticDir, req.path)).NotExist?
    requires Exists(disk, Join(staticDir, fallback))
    ensures var info := Stat(disk, Join(staticDir, fallback)).info;
      var r := DiskResponse(style, staticDir, fallback, disk, codec, req, h0);
      && r.header == WithValidators(h0, style, codec, info.modTime, info.size)
      && (r.status == StatusOK ==> r.body == File(ServeFile, Join(staticDir, fallback)))
      && (r.status == StatusOK || r.status == StatusNotModified)
  {
    var path := Join(staticDir, fallback);
    ResolveSpec(disk, staticDir, fallback, req.path);
    ResolvedResponse(style, staticDir, fallback, disk, codec, req, h0, Target(path, Stat(disk, path).info, ServeFile));
  }

  /** A path that exists is served by the file server from that path. */
  lemma ExistingPathServed(style: ETagStyle, staticDir: string, fallback: string, disk: Disk,
                           codec: DateCodec, req: Request, h0: map<string, string>)
    requires Exists(disk, Join(staticDir, req.path))
    ensures var info := Stat(disk, Join(staticDir, req.path)).info;
      var r := DiskResponse(style, staticDir, fallback, disk, codec, req, h0);
      && r.header == WithValidators(h0, style, codec, info.modTime, info.size)
      && (r.status == StatusOK ==> r.body == File(FileServer, Join(staticDir, req.path)))
  {
    var path := Join(staticDir, req.path);
    ResolveSpec(disk, staticDir, fallback, req.path);
    ResolvedResponse(style, staticDir, fallback, disk, codec, req, h0, Target(path, Stat(disk, path).info, FileServer));
  }

  /** A cache miss on a path that does not exist, with no conditional
      headers, is answered 200 with the handler's fallback file. */
  lemma SpaMissServesFallback(h: SpaHandler, entries: map<string, CachedAsset>, disk: Disk,
                              codec: DateCodec, req: Request, h0: map<string, string>)
    requires CacheKey(req.path) !in entries
    requires Stat(disk, Join(h.staticDir, req.path)).NotExist?
    requires Exists(disk, Join(h.staticDir, h.fallbackFile))
    requires GetHeader(req, "If-None-Match") == "" && GetHeader(req, "If-Modified-Since") == ""
    ensures var path := Join(h.staticDir, h.fallbackFile);
      var info := Stat(disk, path).info;
      SpaResponse(h, entries, disk, codec, req, h0)
        == Resp(WithValidators(h0, Quoted, codec, info.modTime, info.size), StatusOK, File(ServeFile, path))
  {
    var path := Join(h.staticDir, h.fallbackFile);
    var t := Target(path, Stat(disk, path).info, ServeFile);
    assert SpaResponse(h, entries, disk, codec, req, h0)
        == DiskResponse(Quoted, h.staticDir, h.fallbackFile, disk, codec, req, h0);
    ResolveSpec(disk, h.staticDir, h.fallbackFile, req.path);
    ResolvedResponse(Quoted, h.staticDir, h.fallbackFile, disk, codec, req, h0, t);
  }

  /** When neither the path nor (after "not exist") the fallback can be
      stat'd, the answer is `http.NotFound`, and no validator is added. */
  lemma UnresolvedIsNotFound(style: ETagStyle, staticDir: string, fallback: string, disk: Disk,
                             codec: DateCodec, req: Request, h0: map<string, string>)
    requires Resolve(disk, staticDir, fallback, req.path).None?
    ensures var r := DiskResponse(style, staticDir, fallback, disk, codec, req, h0);
      && r.status == StatusNotFound && r.body == Bytes(NotFoundBody)
      && ("ETag" in r.header <==> "ETag" in h0)
      && ("Last-Modified" in r.header <==> "Last-Modified" in h0)
  {
    var r := DiskResponse(style, staticDir, fallback, disk, codec, req, h0);
    assert r.header == h0 + NotFoundHeader;
    NotFoundAddsNoValidator(h0);
  }

  lemma NotFoundAddsNoValidator(h0: map<string, string>)
    ensures "ETag" in h0 + NotFoundHeader <==> "ETag" in h0
    ensures "Last-Modified" in h0 + NotFoundHeader <==> "Last-Modified" in h0
  {
    assert "ETag"[0] != "Content-Type"[0] && "ETag"[0] != "X-Content-Type-Options"[0];
    assert "Last-Modified"[0] != "Content-Type"[0] && "Last-Modified"[0] != "X-Content-Type-Options"[0];
  }

  /** A stat failure other than "not exist" (a permission error, say) does
      not fall back: it is a 404. */
  lemma StatFailureIsNotFound(style: ETagStyle, staticDir: string, fallback: string, disk: Disk,
                              codec: DateCodec, req: Request, h0: map<string, string>)
    requires Stat(disk, Join(staticDir, req.path)).StatFailed?
    ensures DiskResponse(style, staticDir, fallback, disk, codec, req, h0).status == StatusNotFound
  {
  }

  /** Departure from section 3.2 of RFC 7232: a weak tag for the same
      representation does not match. */
  lemma WeakETagNotMatched(style: ETagStyle, modTime: int, size: int, req: Request)
    requires GetHeader(req, "If-None-Match") == "W/" + ETag(style, modTime, size)
    ensures !IfNoneMatchHit(req, ETag(style, modTime, size))
  {
    assert |GetHeader(req, "If-None-Match")| > |ETag(style, modTime, size)|;
  }

  /** Departure from section 6 of RFC 7232: If-Modified-Since still decides
      when an If-None-Match is present but does not match. */
  lemma IfModifiedSinceDespiteETagMismatch(a: CachedAsset, codec: DateCodec, req: Request, h0: map<string, string>)
    requires GetHeader(req, "If-None-Match") != "" && GetHeader(req, "If-None-Match") != ETag(Quoted, a.modTime, a.size)
    requires codec.parse(GetHeader(req, "If-Modified-Since")) == Some(Unix(a.modTime))
    requires GetHeader(req, "If-Modified-Since") != ""
    ensures CachedResponse(a, codec, req, h0).status == StatusNotModified
  {
    UnixBounds(a.modTime);
  }
}
