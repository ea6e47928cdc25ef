/** Response compression: the Brotli middleware (the choice to compress,
    and the wrapping writer that adds the encoding headers when the status is
    committed and routes every body byte to the encoder) and the gzip
    middleware from `gziphandler` that encloses the whole chain. Encoders'
    bytes are left abstract: a body that went through one is
    `Compressed(encoding, body)`. */
module Compression {
  import opened Outcomes
  import opened Text
  import opened Os
  import opened Http

  /** `strings.Contains(r.Header.Get("Accept-Encoding"), "br")`: a plain
      substring test, with no parsing of codings or q-values. */
  predicate AcceptsBrotli(req: Request) {
    Contains(GetHeader(req, "Accept-Encoding"), "br")
  }

  /** The test is a substring match: a client that refuses Brotli with
      `br;q=0` still gets Brotli. */
  lemma RefusedBrotliStillSelected(req: Request)
    requires GetHeader(req, "Accept-Encoding") == "gzip, br;q=0"
    ensures AcceptsBrotli(req)
  {
    var s := "gzip, br;q=0";
    assert OccursAt(s, "br", 6);
    ContainsSpec(s, "br");
  }

  /** Without the letters "br" anywhere the request passes through. */
  lemma GzipOnlyPassesThrough(req: Request)
    requires GetHeader(req, "Accept-Encoding") == "gzip, deflate"
    ensures !AcceptsBrotli(req)
  {
    var s := "gzip, deflate";
    assert 'b' !in s;
    forall i
      ensures !OccursAt(s, "br", i)
    {
      FirstLetterAbsent(s, "br", i);
    }
    ContainsSpec(s, "br");
  }

  lemma FirstLetterAbsent(s: string, sub: string, i: int)
    requires |sub| > 0 && sub[0] !in s
    ensures !OccursAt(s, sub, i)
  {
  }

  /** The two headers the wrapper sets when it commits a status. */
  function EncodingHeaders(h: map<string, string>): map<string, string> {
    h["Content-Encoding" := "br"]["Vary" := "Accept-Encoding"]
  }

  /** Committing through the wrapper changes no other header. */
  lemma EncodingKeepsOtherHeaders(h: map<string, string>, key: string)
    requires key != "Content-Encoding" && key != "Vary"
    ensures (key in EncodingHeaders(h) <==> key in h) && (key in h ==> EncodingHeaders(h)[key] == h[key])
  {
  }

  /** `brotliResponseWriter`: shares the header map of the writer it wraps,
      forwards the first status once, and sends body bytes to the encoder. */
  class BrotliResponseWriter {
    const inner: ResponseRecorder
    var compressed: seq<byte>     // bytes handed to the encoder
    var served: Option<Body>      // a file handed to the encoder by the file-serving layer
    var wroteHeader: bool

    /** `&brotliResponseWriter{ResponseWriter: w, brotliWriter: brotli.NewWriter(w)}` */
    constructor (w: ResponseRecorder)
      ensures inner == w && compressed == [] && served == None && !wroteHeader
    {
      inner := w;
      compressed, served, wroteHeader := [], None, false;
    }

    /** `WriteHeader`: the first call sets Content-Encoding and Vary, forwards
        the status and records it; every later call changes nothing. */
    method WriteHeader(status: int)
      modifies this, inner
      ensures old(wroteHeader) ==> inner.header == old(inner.header) && inner.code == old(inner.code)
      ensures !old(wroteHeader) ==> inner.header == EncodingHeaders(old(inner.header))
      ensures !old(wroteHeader) ==> inner.code == (if old(inner.code) == 0 then status else old(inner.code))
      ensures wroteHeader
      ensures inner.body == old(inner.body) && inner.served == old(inner.served)
      ensures compressed == old(compressed) && served == old(served)
    {
      if wroteHeader {
        return;
      }
      inner.SetHeader("Content-Encoding", "br");
      inner.SetHeader("Vary", "Accept-Encoding");
      inner.WriteHeader(status);
      wroteHeader := true;
    }

    /** `Write`: commits 200 first if nothing was committed through this
        writer, then hands the bytes to the encoder only. */
    method Write(data: seq<byte>)
      modifies this, inner
      ensures old(wroteHeader) ==> inner.header == old(inner.header) && inner.code == old(inner.code)
      ensures !old(wroteHeader) ==> inner.header == EncodingHeaders(old(inner.header))
      ensures !old(wroteHeader) ==> inner.code == (if old(inner.code) == 0 then StatusOK else old(inner.code))
      ensures wroteHeader
      ensures compressed == old(compressed) + data && served == old(served)
      ensures inner.body == old(inner.body) && inner.served == old(inner.served)
    {
      if !wroteHeader {
        WriteHeader(StatusOK);
      }
      compressed := compressed + data;
    }

    /** The file-serving layer writing a file through this writer: status
        200 (through `WriteHeader`), then the file's bytes to the encoder. */
    method ServeFileAt(via: Serving, path: string)
      modifies this, inner
      ensures old(wroteHeader) ==> inner.header == old(inner.header) && inner.code == old(inner.code)
      ensures !old(wroteHeader) ==> inner.header == EncodingHeaders(old(inner.header))
      ensures !old(wroteHeader) ==> inner.code == (if old(inner.code) == 0 then StatusOK else old(inner.code))
      ensures wroteHeader
      ensures compressed == old(compressed) && served == Some(File(via, path))
      ensures inner.body == old(inner.body) && inner.served == old(inner.served)
    {
      WriteHeader(StatusOK);
      served := Some(File(via, path));
    }

    /** What the encoder has been given. */
    function Pending(): Body
      reads this
    {
      if served.Some? then served.value else Bytes(compressed)
    }

    /** `brWriter.Close()` (deferred in `BrotliHandler`): the encoded stream is
        written to the wrapped writer, which commits 200 if nothing was
        committed (without the encoding headers). */
    method Close()
      modifies inner
      ensures inner.served == Some(Compressed(Brotli, Pending()))
      ensures inner.code == (if old(inner.code) == 0 then StatusOK else old(inner.code))
      ensures inner.header == old(inner.header) && inner.body == old(inner.body)
    {
      inner.WriteHeader(StatusOK);
      inner.served := Some(Compressed(Brotli, Pending()));
    }
  }

  // ------------------------------------------------------------ gzip

  /** The decisions `gziphandler.GzipHandler` takes inside that library, kept
      abstract: whether the request's Accept-Encoding admits gzip (it parses
      codings and q-values), and whether a response qualifies by its
      Content-Length, Content-Type and size (its 1400-byte minimum). */
  datatype GzipPolicy = GzipPolicy(acceptsGzip: Request -> bool, compressible: Resp -> bool)

  /** Gzip is applied when the client admits it, no inner stage has chosen a
      Content-Encoding, some body was written, and the response qualifies. */
  predicate GzipApplies(gz: GzipPolicy, req: Request, r: Resp) {
    && gz.acceptsGzip(req)
    && ("Content-Encoding" !in r.header || r.header["Content-Encoding"] == "")
    && r.body != Bytes([])
    && gz.compressible(r)
  }

  /** The headers `startGzip` leaves: Content-Encoding "gzip", no
      Content-Length. */
  function GzipHeaders(h: map<string, string>): map<string, string> {
    h["Content-Encoding" := "gzip"] - {"Content-Length"}
  }

  /** The response once the gzip writer has closed. */
  function GzipResponse(gz: GzipPolicy, req: Request, r: Resp): Resp {
    if GzipApplies(gz, req, r) then Resp(GzipHeaders(r.header), r.status, Compressed(Gzip, r.body)) else r
  }

  /** `gw.Close()` (deferred in `GzipHandler`): the buffered response goes
      out compressed when gzip applies, and unchanged otherwise. */
  method GzipClose(gz: GzipPolicy, req: Request, w: ResponseRecorder)
    modifies w
    ensures w.Snapshot() == GzipResponse(gz, req, old(w.Snapshot()))
  {
    var r := w.Snapshot();
    if GzipApplies(gz, req, r) {
      w.SetHeader("Content-Encoding", "gzip");
      w.DelHeader("Content-Length");
      w.served := Some(Compressed(Gzip, r.body));
    }
  }

  /** A response Brotli has encoded is never gzipped on top. */
  lemma BrotliExcludesGzip(gz: GzipPolicy, req: Request, r: Resp)
    requires "Content-Encoding" in r.header && r.header["Content-Encoding"] == "br"
    ensures GzipResponse(gz, req, r) == r
  {
  }

  /** Gzip changes the status never, the body only by compressing it, and no
      header but Content-Encoding and Content-Length. */
  lemma GzipKeepsTheRest(gz: GzipPolicy, req: Request, r: Resp, key: string)
    requires key != "Content-Encoding" && key != "Content-Length"
    ensures var g := GzipResponse(gz, req, r);
      && g.status == r.status
      && (g.body == r.body || g.body == Compressed(Gzip, r.body))
      && (key in g.header <==> key in r.header)
      && (key in g.header ==> g.header[key] == r.header[key])
  {
  }

  /** A compressed body is sent exactly when the client admits gzip and the
      response qualifies; an empty body (a 304, say) is never compressed. */
  lemma GzipIff(gz: GzipPolicy, req: Request, r: Resp)
    requires "Content-Encoding" !in r.header
    ensures GzipResponse(gz, req, r).body == Compressed(Gzip, r.body) <==>
      gz.acceptsGzip(req) && r.body != Bytes([]) && gz.compressible(r)
    ensures r.body == Bytes([]) ==> GzipResponse(gz, req, r) == r
  {
    assert r.body < Compressed(Gzip, r.body);
  }
}
