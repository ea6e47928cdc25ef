/** The writer a handler is given: the server's own writer, or the Brotli
    wrapper around it. Both share one header map; they differ in what
    committing a status adds and in where body bytes go. */
module Writers {
  import opened Outcomes
  import opened Os
  import opened Http
  import opened Compression

  datatype Sink = Plain(w: ResponseRecorder) | Br(b: BrotliResponseWriter)

  /** The objects a write through the sink may change. */
  function Objects(s: Sink): set<object> {
    match s
    case Plain(w) => {w}
    case Br(b) => {b, b.inner}
  }

  /** For the wrapper: nothing has reached the wrapped writer but headers
      and (once `wroteHeader`) the status. */
  predicate Valid(s: Sink)
    reads Objects(s)
  {
    match s
    case Plain(_) => true
    case Br(b) => b.inner.body == [] && b.inner.served == None && (b.wroteHeader <==> b.inner.code != 0)
  }

  /** The response as the handler has produced it so far: headers, status,
      and the body before any encoding. */
  function Out(s: Sink): Resp
    reads Objects(s)
  {
    match s
    case Plain(w) => w.Snapshot()
    case Br(b) => Resp(b.inner.header, b.inner.code, b.Pending())
  }

  /** No body has been written yet. */
  predicate NoBody(s: Sink)
    reads Objects(s)
  {
    match s
    case Plain(w) => w.body == [] && w.served == None
    case Br(b) => b.compressed == [] && b.served == None
  }

  /** A sink a handler can start on: valid, nothing committed, no body. */
  predicate Fresh(s: Sink)
    reads Objects(s)
  {
    Valid(s) && Out(s).status == 0 && NoBody(s)
  }

  /** The header map as it is sent when a status is committed through `s`. */
  function Stamp(s: Sink, h: map<string, string>): map<string, string> {
    if s.Br? then EncodingHeaders(h) else h
  }

  /** A complete response as it leaves through `s`. */
  function Stamped(s: Sink, r: Resp): Resp {
    r.(header := Stamp(s, r.header))
  }

  /** `w.Header().Set(key, value)` */
  method SetHeader(s: Sink, key: string, value: string)
    requires Valid(s)
    modifies Objects(s)
    ensures Valid(s)
    ensures Out(s) == old(Out(s)).(header := old(Out(s)).header[key := value])
    ensures NoBody(s) == old(NoBody(s))
  {
    match s
    case Plain(w) => w.SetHeader(key, value);
    case Br(b) => b.inner.SetHeader(key, value);
  }

  /** `w.WriteHeader(status)` on an uncommitted writer. */
  method WriteHeader(s: Sink, status: int)
    requires Valid(s) && Out(s).status == 0 && status != 0
    modifies Objects(s)
    ensures Valid(s)
    ensures Out(s) == old(Out(s)).(header := Stamp(s, old(Out(s)).header), status := status)
    ensures NoBody(s) == old(NoBody(s))
  {
    match s
    case Plain(w) => w.WriteHeader(status);
    case Br(b) => b.WriteHeader(status);
  }

  /** `w.Write(data)` as the first thing written: commits 200. */
  method Write(s: Sink, data: seq<byte>)
    requires Fresh(s)
    modifies Objects(s)
    ensures Valid(s)
    ensures Out(s) == Resp(Stamp(s, old(Out(s)).header), StatusOK, Bytes(data))
  {
    match s
    case Plain(w) => w.Write(data); assert w.body == data;
    case Br(b) => b.Write(data); assert b.compressed == data;
  }

  /** `fs.ServeHTTP(w, r)` / `http.ServeFile(w, r, path)` as the first thing
      written: the file, with status 200. */
  method ServeFileAt(s: Sink, via: Serving, path: string)
    requires Fresh(s)
    modifies Objects(s)
    ensures Valid(s)
    ensures Out(s) == Resp(Stamp(s, old(Out(s)).header), StatusOK, File(via, path))
  {
    match s
    case Plain(w) => w.ServeFileAt(via, path);
    case Br(b) => b.ServeFileAt(via, path);
  }

  /** `http.NotFound(w, r)` as the first thing written: two plain-text
      headers, status 404, the fixed body. */
  method NotFound(s: Sink)
    requires Fresh(s)
    modifies Objects(s)
    ensures Valid(s)
    ensures Out(s) == Resp(Stamp(s, old(Out(s)).header + NotFoundHeader), StatusNotFound, Bytes(NotFoundBody))
  {
    NotFoundHeaderSet(Out(s).header);
    match s
    case Plain(w) =>
      w.SetHeader("Content-Type", "text/plain; charset=utf-8");
      w.SetHeader("X-Content-Type-Options", "nosniff");
      w.WriteHeader(StatusNotFound);
      w.Write(NotFoundBody);
      assert w.body == NotFoundBody;
    case Br(b) =>
      b.inner.SetHeader("Content-Type", "text/plain; charset=utf-8");
      b.inner.SetHeader("X-Content-Type-Options", "nosniff");
      b.WriteHeader(StatusNotFound);
      b.Write(NotFoundBody);
      assert b.compressed == NotFoundBody;
  }
}
