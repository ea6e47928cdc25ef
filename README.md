# go-react-spa-server, modelled in Dafny

A model of the Go server that serves a React single-page application (SPA)
from a static directory. The model covers:

- **Configuration.** Defaults are overlaid by the JSON file `.go-spa-server-config.json`,
  then by environment variables. The resulting fallback file name is then checked.
- **Preload cache.** `LoadCriticalAssetsIntoCache` reads `index.html` and `vite.svg` into an
  in-memory map. Neither server calls it, so the request chain is stated for
  whatever the cache holds.
- **SPA handler.** A request is answered from the cache or from disk. A path
  that does not exist falls back to the entry page. The handler attaches the
  `ETag` and `Last-Modified` validators and answers `If-None-Match` and
  `If-Modified-Since` with 304.
- **Middlewares.** This covers the Cache-Control classifier, the Brotli
  compressor and its wrapping response writer, the gzip stage around them
  (with its decision abstract), and the CSP, HSTS and security-header stages.
- **Wiring.** `SetupHandlers` and the listen address.
- **The earlier server in `main.go`.** It has no configuration and no cache,
  uses unquoted entity tags, and listens on `:8080`.

Modules, one per concern:

| file | module | models |
|---|---|---|
| `outcomes.dfy` | `Outcomes` | `Option`, `Result` |
| `text.dfy` | `Text` | `strings.HasPrefix/HasSuffix/Contains`, `%d`, `%x`, `strconv.Atoi` (64-bit range) |
| `os.dfy` | `Os` | the disk as a value (`os.Stat`, `os.ReadFile`), `os.Getenv`, `filepath.Join`, `Time.Unix()` |
| `http.dfy` | `Http` | requests, the HTTP-date codec, response values, a response writer class |
| `compression.dfy` | `Compression` | `BrotliHandler`'s test, the `brotliResponseWriter` class, and the gzip stage's headers and decision |
| `writers.dfy` | `Writers` | the writer a handler is given: the plain one or the Brotli wrapper |
| `cache.dfy` | `Cache` | `server/cache.go` |
| `config.dfy` | `Configuration` | `server/config.go` |
| `handlers.dfy` | `Handlers` | `server/handlers.go` |
| `middleware.dfy` | `Middleware` | `server/middleware.go`, except Brotli |
| `server.dfy` | `Server` | `server/server.go` and the whole request chain |
| `legacy.dfy` | `Legacy` | `main.go` |

There are two styles of model.

Where the Go code changes state step by step, the model is imperative:
- `LoadConfig` overwrites one field at a time.
- `LoadCriticalAssets` runs a loop over the asset list.
- Handlers and middlewares call `Header().Set`, `WriteHeader` and `Write` on
  a writer object.

Each such method is proved against a pure specification function. Examples:
- `LoadSpec`, `Loaded`/`Preloaded`.
- `SpaResponse`, `DiskResponse`.
- `CacheControlHeaders`.
- `Run(ChainFor(cfg), …)` for the whole chain.

The lemmas state the properties of those functions.

Time is an integer count of nanoseconds. `http.TimeFormat` formatting and
`http.ParseTime` are an abstract `DateCodec` passed in as a parameter. The
file system is a `Disk` value, and the environment is a `map`.

## Model

| member | source | states |
|---|---|---|
| `Configuration.LoadConfig` | server/config.go:22-76 | the imperative loader returns exactly `LoadSpec`: defaults, then the file (read or JSON errors fail), then the five variables in source order (bad PORT, then bad HSTS_MAX_AGE fail), then the fallback check |
| `Configuration.DefaultsWithoutFileOrEnv` | server/config.go:23-26 | with no file and no variables the result is fallback "index.html", port 8081, empty directory, no CSP, HSTS 0 |
| `Configuration.FileErrorsFail` | server/config.go:29-38 | an unreadable file fails with a read error and an undecodable one with a JSON error, whatever the environment |
| `Configuration.EmptyEnvKeepsFileValues` | server/config.go:33-46 | empty variables change nothing: the result is the file over the defaults, or the fallback error for the file's fallback name |
| `Configuration.EnvOverridesFileOverridesDefaults` | server/config.go:41-68 | on success each field is the non-empty variable, else the file's key, else the default |
| `Configuration.BadNumbersFail` | server/config.go:48-68 | a non-empty PORT that `Atoi` rejects fails with that value; HSTS_MAX_AGE likewise, checked after PORT |
| `Configuration.LoadSucceedsIff` | server/config.go:22-75 | loading succeeds iff the file is usable, both numbers parse or are empty, and the final fallback name is non-empty without '/'; success implies a valid fallback |
| `Text.AtoiFormatInt` | server/config.go:49-53 | every 64-bit integer printed in decimal is read back by `Atoi` as itself |
| `Text.AtoiCanonical` | server/config.go:49-53 | whatever `Atoi` accepts prints back as its digits without leading zeros and with a '-' exactly when the value is negative: '+' and leading zeros are the only spellings it forgets |
| `Cache.AssetCache.constructor` | server/cache.go:17-19 | the package cache starts empty |
| `Cache.AssetCache.LoadCriticalAssets` | server/cache.go:22-55 | the loop leaves `entries == Preloaded(disk, dir)` (old contents discarded) and the error is always nil |
| `Cache.Fetch` | server/cache.go:35-51 | an asset is stored iff its file both reads and stats; the entry holds the bytes, stat's time and size, and the listed MIME type |
| `Cache.PreloadedSpec` | server/cache.go:22-55 | after a load the keys are a subset of {"/index.html", "/vite.svg"}, each present iff its fetch succeeded and holding that fetch |
| `Cache.AssetCache.Get` | server/cache.go:58-61 | found iff the key is in the map, with that entry; otherwise the zero record |
| `Handlers.ETagRoundTrip` | server/handlers.go:27 | the quoted `%x-%x` tag parses back to (whole second, size) |
| `Handlers.ETagIdentifiesSecondAndSize` | server/handlers.go:27 | two tags are equal iff the modification seconds and the sizes are equal |
| `Handlers.AnswerConditional` | server/handlers.go:34-48 | returns true iff If-None-Match equals the tag, or If-Modified-Since parses to t with modTime before t+1s; then 304 is committed and nothing else changes |
| `Handlers.ServeFromDisk` | server/handlers.go:56-101 | the writer ends holding `DiskResponse` (stamped with the encoding headers when it is the Brotli writer) |
| `Handlers.ServeSpa` | server/handlers.go:13-103 | the writer ends holding `SpaResponse`: a cache hit (with "/" looked up as "/index.html") or else the disk branch |
| `Handlers.CacheHitIgnoresDisk` | server/handlers.go:18-53 | a hit does not depend on the disk, sets the entry's Content-Type, and gives 200 with the cached bytes or 304 with none |
| `Handlers.CachedMatchingETagNotModified` | server/handlers.go:27-38 | an If-None-Match equal to the tag gives 304, no body, and both validators |
| `Handlers.DiskMatchingETagNotModified` | server/handlers.go:73-84 | the same for a file resolved on disk |
| `Handlers.InvalidETagServesFullBody` | server/handlers.go:34-51 | If-None-Match "invalid-etag" without If-Modified-Since gives 200 and the cached bytes |
| `Handlers.IfModifiedSinceRule` | server/handlers.go:41-48 | once the tag did not match: 304 iff the date parses to t and modTime < t·10⁹ + 10⁹ ns |
| `Handlers.UnparseableDateIgnored` | server/handlers.go:41-48 | an If-Modified-Since that does not parse leaves the response as if it were absent |
| `Handlers.LastModifiedRoundTrip` | server/handlers.go:31-48 | corrected: with Last-Modified rendered in UTC, sending it back always gets 304 (for a codec that round-trips that second) |
| `Handlers.LocalZoneDateNotRecognised` | server/handlers.go:31-48 | as written: on a host west of UTC, the local wall clock labelled GMT parses to a time before the modification second, so sending it back gets 200 and the full body, not 304 |
| `Handlers.OlderDateServesFullBody` | server/handlers.go:41-51 | a date one day before the modification second gives 200 and the full body |
| `Handlers.IfModifiedSinceDespiteETagMismatch` | server/handlers.go:34-48 | a present but non-matching If-None-Match does not stop If-Modified-Since from giving 304 |
| `Handlers.WeakETagNotMatched` | server/handlers.go:34-38 | a weak `W/` form of the tag is not a match |
| `Handlers.ResolvedResponse` | server/handlers.go:73-101 | a resolved file gets its validators, then 304 iff the conditional test holds, else 200 with that file |
| `Handlers.ResolveSpec` | server/handlers.go:56-70 | an existing path is served by the file server; "not exist" falls back, through `ServeFile`; any other stat error, or a missing fallback, resolves to nothing |
| `Handlers.MissingPathFallsBack` | server/handlers.go:59-63 | a non-existent path is answered with the fallback file's validators and contents |
| `Handlers.ExistingPathServed` | server/handlers.go:56-57 | an existing path is answered from that path by the file server |
| `Handlers.SpaMissServesFallback` | server/handlers.go:56-101 | a cache miss on a non-existent path without conditional headers is exactly 200 with the handler's fallback file and its validators |
| `Handlers.UnresolvedIsNotFound` | server/handlers.go:66-70 | when nothing can be stat'd the answer is 404 with the `http.NotFound` body and no validator is added |
| `Handlers.StatFailureIsNotFound` | server/handlers.go:60-70 | a stat error other than "not exist" does not fall back: 404 |
| `Writers.SetHeader` | server/handlers.go:24 | setting a header through either writer changes that header and nothing else |
| `Writers.WriteHeader` | server/handlers.go:36 | committing a status through either writer; the Brotli writer adds its encoding headers |
| `Writers.Write` | server/handlers.go:51 | the first write commits 200 and the body is exactly the data |
| `Writers.ServeFileAt` | server/handlers.go:97-101 | the file-serving layer commits 200 with the file as the body |
| `Writers.NotFound` | server/handlers.go:66-70 | `http.NotFound` adds its two headers, commits 404 and writes its fixed body |
| `Compression.RefusedBrotliStillSelected` | server/middleware.go:74 | "gzip, br;q=0" still selects Brotli: the test is a substring match |
| `Compression.GzipOnlyPassesThrough` | server/middleware.go:74-77 | "gzip, deflate" is not Brotli-encoded: the stage hands the request on unchanged |
| `Compression.EncodingKeepsOtherHeaders` | server/middleware.go:65-66 | committing through the wrapper changes no header but Content-Encoding and Vary |
| `Compression.BrotliResponseWriter.constructor` | server/middleware.go:79-82 | the wrapper shares the given writer, has no pending bytes and has not written a header |
| `Compression.BrotliResponseWriter.WriteHeader` | server/middleware.go:61-69 | the first call sets Content-Encoding "br" and Vary, forwards the status (the inner writer's first commit wins) and records it; later calls change nothing |
| `Compression.BrotliResponseWriter.Write` | server/middleware.go:54-59 | commits 200 first if needed, then appends the data to the encoder only |
| `Compression.BrotliResponseWriter.ServeFileAt` | server/middleware.go:54-59 | a file served through the wrapper commits 200 and goes to the encoder |
| `Compression.BrotliResponseWriter.Close` | server/middleware.go:80 | closing writes the encoded stream to the wrapped writer, which commits 200 if nothing was committed |
| `Compression.GzipClose` | server/server.go:45-46 | closing the gzip writer leaves exactly `GzipResponse`: Content-Encoding "gzip", no Content-Length and a gzip body when the policy applies, otherwise the response unchanged |
| `Compression.BrotliExcludesGzip` | server/server.go:42-46 | a response Brotli has encoded (Content-Encoding "br") is never gzipped on top |
| `Compression.GzipKeepsTheRest` | server/server.go:45-46 | gzip never changes the status, changes the body only by compressing it, and changes no header but Content-Encoding and Content-Length |
| `Compression.GzipIff` | server/server.go:45-46 | with no Content-Encoding chosen, the body is gzipped iff the client admits gzip, the body is non-empty and the response qualifies; an empty body (a 304) is untouched |
| `Middleware.SetCachePolicy` | server/middleware.go:19-41 | the if-chain sets exactly the headers of `Classify`'s policy and nothing else |
| `Middleware.CacheControl` | server/middleware.go:14-45 | `CacheControlMiddleware(config)` sets `CacheControlHeaders` with the configured fallback and directory |
| `Middleware.HashedAssetWins` | server/middleware.go:19-28 | a hashed-asset path is immutable whatever the fallback and the disk |
| `Middleware.ScriptFallbackIsImmutable` | server/middleware.go:19-33 | a fallback named `app.js` is served as immutable, not no-cache: the first tier wins |
| `Middleware.PragmaOnlyWhenNoCache` | server/middleware.go:29-33 | Pragma and Expires are set by the no-cache tier and by no other |
| `Middleware.ShortCacheIff` | server/middleware.go:34-41 | for other paths, max-age=3600 iff a file exists at the joined path, else no header |
| `Middleware.CacheControlSetIff` | server/middleware.go:19-41 | Cache-Control is set iff the policy is not "unmarked" (or it was already present) |
| `Middleware.CspMiddleware` | server/middleware.go:88-97 | sets `CspHeaders` on the writer |
| `Middleware.CspSetIff` | server/middleware.go:91-93 | Content-Security-Policy is set iff a policy is configured, and to that policy |
| `Middleware.HstsMiddleware` | server/middleware.go:100-110 | sets `HstsHeaders` on the writer |
| `Middleware.HstsSetIff` | server/middleware.go:104-105 | Strict-Transport-Security is set iff max-age > 0 over TLS; its number reads back as the configured max-age |
| `Middleware.SecurityHeadersMiddleware` | server/middleware.go:113-147 | sets `SecurityHeaders` on the writer |
| `Middleware.SecurityHeadersChosen` | server/middleware.go:116-143 | all four headers are set, non-empty, each the configured value iff one is configured, else its default |
| `Server.ListenAddressNamesPort` | server/server.go:15 | the address is ':' followed by a decimal that reads back as the configured port |
| `Server.SetupHandlers` | server/server.go:20-49 | a load error is returned (the process exits); otherwise the directory defaults to "./client/dist" and the chain is built from that same configuration |
| `Server.ChainResponse` | server/server.go:37-46 | the chain adds Vary, sets the Cache-Control headers, runs the SPA handler on them, Brotli-encodes when accepted, and then gzips what Brotli left unencoded when the gzip policy applies |
| `Server.VaryAlwaysSent` | server/server.go:46 | every response carries Vary, and it is "Accept-Encoding" unless one was already set |
| `Server.SpaStatusCommitted` | server/handlers.go:13-103 | the SPA handler always commits 200, 304 or 404 |
| `Server.ServeRequest` | server/server.go:37-46 | one request through the wired writers (Vary added, plain or Brotli with its Close, then the gzip Close) leaves exactly `Run(ChainFor(cfg))`'s response |
| `Server.JoinInjective` | server/handlers.go:62 | under the model's `Join`, two different bare file names never join to the same path |
| `Server.HardcodedFallbackIgnoresConfig` | server/handlers.go:56-63 | as written: with another valid fallback configured, a client route is still answered with index.html, and not with the configured file |
| `Server.ClientRouteServesConfiguredFallback` | server/server.go:37-46 | corrected: a client route through the configured chain is exactly the gzip stage over 200 with Vary, the configured fallback file and its validators; the status is 200 and the body that file, gzipped or not |
| `Server.SpaKeepsOtherHeaders` | server/handlers.go:24-77 | the handler touches only Content-Type, ETag, Last-Modified and (for 404) X-Content-Type-Options |
| `Server.FallbackPageNotCached` | server/middleware.go:29-33 | "/" + fallback reaches the client with the no-cache directives, after the handler, Brotli and gzip |
| `Server.NoSecurityHeadersServed` | server/server.go:37-46 | the CSP, HSTS and security-header stages are not in the chain: Content-Security-Policy, Strict-Transport-Security, X-Frame-Options, Referrer-Policy and Permissions-Policy are never added, whatever the compression stages do |
| `Server.NosniffOnlyOnNotFound` | server/handlers.go:66-70 | X-Content-Type-Options is in a response of the configured server exactly when it is a 404, where `http.NotFound` set it to "nosniff" |
| `Legacy.GetStaticDir` | main.go:48-54 | STATIC_DIR when it is non-empty, otherwise "./client/dist" |
| `Legacy.LegacyCacheControl` | main.go:16-46 | the same three tiers, with "/index.html" as the entry page and the directory from `getStaticDir` |
| `Legacy.LegacyServeRequest` | main.go:120-132 | one request leaves exactly `LegacyResponse`: Vary, Cache-Control, the disk handler with unquoted tags, then the gzip Close |
| `Legacy.StaticDirAgrees` | main.go:48-54 | without a config file both servers settle on the same static directory |
| `Legacy.QuotedWrapsUnquoted` | main.go:88 | the quoted tag is the unquoted one in double quotes, and so never equals it |
| `Legacy.ValidatorsButTheTag` | main.go:88-92 | the two tag styles give the same headers apart from ETag |
| `Legacy.SameResponseButTheTag` | main.go:65-118 | without conditional headers both handlers give the same status, body and headers, apart from ETag |
| `Legacy.DefaultAddressMoved` | main.go:137 | the configured default address is ":8081", not ":8080" |

## Left out

- The bytes of compression. Brotli and gzip output are `Compressed(Brotli, body)` and `Compressed(Gzip, body)` markers.
- The decision inside `gziphandler.GzipHandler`, a foreign library. Whether the request's Accept-Encoding admits gzip (codings and q-values) and whether a response qualifies (its 1400-byte minimum, Content-Length and Content-Type checks) are the abstract functions of a `GzipPolicy`. `http.DetectContentType` sniffing is not modelled.
- The gzip writer's buffering and the moment it commits headers. Its choice is taken once, at Close, over the whole buffered response.
- The internals of `http.FileServer` and `http.ServeFile`. These are MIME sniffing, Range requests, directory listings, redirects, and their own conditional-request handling. A served file is `File(via, path)` with status 200.
- The calendar behind `http.TimeFormat` and `http.ParseTime`. It is an abstract codec; properties that need a round trip require it for the second concerned.
- `filepath.Join`'s cleaning. `Os.Join` drops leading slashes of the name and joins with one separator. Go's `filepath.Join` also collapses repeated separators, strips trailing ones and resolves `.` and `..`, so a static directory ending in '/' or a request path with `..` stats a different key in Go.
- `Server.JoinInjective`: it holds for the model's `Join` but not for Go's. With directory "/", the names "." and ".." both clean to "/", and `ValidFallback` admits both, as server/config.go:71-73 does.
- `Handlers.LastModified`: the model renders the modification time in UTC, the corrected behaviour. The source renders the host's local wall clock labelled GMT (see Findings); `Handlers.LocalLastModified` is that rendering.
- Logging, `http.ListenAndServe`, `log.Fatalf` and process exit. `SetupHandlers` returns the load error instead of exiting.
- Concurrency on the package-level cache map. The cache is an object passed to the handler.
- `json.Unmarshal` type errors that leave some fields written. Every decoding failure is `Malformed`.
- The four settings `SecurityHeadersMiddleware` reads (server/middleware.go:117-142). `Config` does not declare them, so they are given as a separate `SecurityPolicy` record.
- The type mismatch at server/server.go:37. There `CreateSpaHandler` is passed the `*Config`, while server/handlers.go:13 takes a directory. The server is modelled with the handler built from the configuration (`CreateConfiguredSpaHandler`); the as-written one-argument handler is `Handlers.CreateSpaHandler`.
- The cache key for "/". It stays "/index.html" even with another fallback configured, as in server/handlers.go:19-21.
- The default port. It is 8081 as in server/config.go:25, although server/config_test.go:153 expects 8080.
- `Compression.BrotliResponseWriter.Close`: the encoder's trailing bytes are not modelled. Neither is whether a 304 gains an encoded empty body; the body is the marker over what was written.
- `Server.ServeRequest`, `Legacy.LegacyServeRequest`, `Handlers.ServeSpa`, `Handlers.ServeFromDisk`: they require a fresh writer (nothing committed, no body). The chain always hands the handler one.
- `Writers.NotFound`: `http.NotFound` also deletes Content-Length and similar headers on error paths. This is not modelled.
- `Handlers.IfModifiedSinceRule`, `Handlers.InvalidETagServesFullBody`, `Handlers.LastModifiedRoundTrip`, `Handlers.OlderDateServesFullBody`, `Handlers.IfModifiedSinceDespiteETagMismatch`: they are stated for a cache hit. The disk branch has the same test through `Handlers.ResolvedResponse`.
- Ports and max-ages outside the 64-bit range. `Atoi` rejects them as Go's `strconv.Atoi` does, and values are `Int64`.

## Findings

| source | as written | input that shows it | evidently intended | confidence | as-written member | corrected member |
|---|---|---|---|---|---|---|
| server/handlers.go:31 | `ModTime().Format(http.TimeFormat)` on a time in the host's zone writes the local wall clock and labels it GMT (the same at server/handlers.go:77 and main.go:92) | a host at UTC−5 (offset −18000 s); a client sends back the Last-Modified it was served as If-Modified-Since, without If-None-Match: the date parses 5 hours early and the answer is 200 with the full body, where server/handlers_test.go:174-196 expects 304 | `ModTime().UTC().Format(http.TimeFormat)` | not executed | `Handlers.LocalZoneDateNotRecognised` | `Handlers.LastModifiedRoundTrip` |
| server/handlers.go:62 | the disk fallback is `filepath.Join(staticDir, "index.html")` whatever `SpaFallbackFile` says | `SPA_FALLBACK_FILE=custom.html`, `custom.html` and `index.html` both in the static directory, `GET /another-non-existent-route`: `index.html` is served | serve the configured fallback file (server/server_test.go:90-110 expects `custom.html`) | not executed | `Server.HardcodedFallbackIgnoresConfig` | `Server.ClientRouteServesConfiguredFallback` |
