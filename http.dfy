/** The slice of `net/http` the server touches: requests as values, the
    HTTP-date codec, the response a handler leaves behind, and a response
    writer whose header map, status and body are updated call by call. */
module Http {
  import opened Outcomes
  import opened Os

  /** An inbound request: URL path, request headers (canonical names, first
      value of each), and whether it arrived over TLS (`r.TLS != nil`). */
  datatype Request = Request(path: string, header: map<string, string>, tls: bool)

  /** `r.Header.Get(name)`: a missing header reads as the empty string. */
  function GetHeader(req: Request, name: string): string {
    if name in req.header then req.header[name] else ""
  }

  /** `time.Format(http.TimeFormat)` and `http.ParseTime`, kept abstract:
      `format` renders whole seconds since the epoch as an IMF-fixdate,
      `parse` reads a date header back to whole seconds, or fails. */
  datatype DateCodec = DateCodec(format: int -> string, parse: string -> Option<int>)

  /** `format` writes a non-empty date for second `sec` and `parse` reads
      it back. */
  ghost predicate RoundTripsAt(codec: DateCodec, sec: int) {
    codec.format(sec) != "" && codec.parse(codec.format(sec)) == Some(sec)
  }

  /** Which file-serving routine of `net/http` produced a body. */
  datatype Serving = FileServer | ServeFile

  datatype Encoding = Brotli | Gzip

  /** `Header().Add(key, value)`: a header map keeps the first value of each
      name (what `Header().Get` returns), so adding to a name already present
      leaves that value as it is. */
  function AddedHeader(h: map<string, string>, key: string, value: string): map<string, string> {
    if key in h then h else h[key := value]
  }

  /** A response body: bytes written by the handler, a file handed to the
      file-serving layer (its bytes are that file's contents), or a body
      that went through a compressor. */
  datatype Body = Bytes(data: seq<byte>) | File(via: Serving, path: string) | Compressed(encoding: Encoding, inner: Body)

  /** A response as the client sees it. `status` 0 means no status was
      committed. */
  datatype Resp = Resp(header: map<string, string>, status: int, body: Body)

  const StatusOK := 200
  const StatusNotModified := 304
  const StatusNotFound := 404

  /** The body `http.NotFound` writes: "404 page not found" and a newline. */
  const NotFoundBody: seq<byte> := [52, 48, 52, 32, 112, 97, 103, 101, 32, 110, 111, 116, 32, 102, 111, 117, 110, 100, 10]

  /** The headers `http.NotFound` sets before committing 404. */
  const NotFoundHeader: map<string, string> :=
    map["Content-Type" := "text/plain; charset=utf-8", "X-Content-Type-Options" := "nosniff"]

  /** Setting the two headers of `http.NotFound` one after the other. */
  lemma NotFoundHeaderSet(h: map<string, string>)
    ensures h + NotFoundHeader
         == h["Content-Type" := "text/plain; charset=utf-8"]["X-Content-Type-Options" := "nosniff"]
  {
  }

  /** A response writer (the server's, or `httptest.ResponseRecorder` in the
      tests): headers may be set until the status is committed; the first
      `WriteHeader` or `Write` commits it; later `WriteHeader` calls are
      ignored. */
  class ResponseRecorder {
    var header: map<string, string>
    var code: int                 // 0 until a status is committed
    var body: seq<byte>
    var served: Option<Body>      // a file handed to the file-serving layer

    constructor ()
      ensures header == map[] && code == 0 && body == [] && served == None
    {
      header, code, body, served := map[], 0, [], None;
    }

    /** What the client receives. */
    function Snapshot(): Resp
      reads this
    {
      Resp(header, code, if served.Some? then served.value else Bytes(body))
    }

    /** `w.Header().Set(key, value)` */
    method SetHeader(key: string, value: string)
      modifies this
      ensures header == old(header)[key := value]
      ensures code == old(code) && body == old(body) && served == old(served)
    {
      header := header[key := value];
    }

    /** `w.Header().Add(key, value)` */
    method AddHeader(key: string, value: string)
      modifies this
      ensures header == AddedHeader(old(header), key, value)
      ensures code == old(code) && body == old(body) && served == old(served)
    {
      if key !in header {
        header := header[key := value];
      }
    }

    /** `w.Header().Del(key)` */
    method DelHeader(key: string)
      modifies this
      ensures header == old(header) - {key}
      ensures code == old(code) && body == old(body) && served == old(served)
    {
      header := header - {key};
    }

    /** `w.WriteHeader(status)`: only the first commit counts. */
    method WriteHeader(status: int)
      modifies this
      ensures code == (if old(code) == 0 then status else old(code))
      ensures header == old(header) && body == old(body) && served == old(served)
    {
      if code == 0 {
        code := status;
      }
    }

    /** `w.Write(data)`: commits 200 if nothing was committed, then appends. */
    method Write(data: seq<byte>)
      modifies this
      ensures code == (if old(code) == 0 then StatusOK else old(code))
      ensures body == old(body) + data
      ensures header == old(header) && served == old(served)
    {
      WriteHeader(StatusOK);
      body := body + data;
    }

    /** `fs.ServeHTTP(w, r)` or `http.ServeFile(w, r, path)`, abstracted to
        "the file at `path` is served with status 200". */
    method ServeFileAt(via: Serving, path: string)
      modifies this
      ensures code == (if old(code) == 0 then StatusOK else old(code))
      ensures served == Some(File(via, path))
      ensures header == old(header) && body == old(body)
    {
      WriteHeader(StatusOK);
      served := Some(File(via, path));
    }
  }
}
