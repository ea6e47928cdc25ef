/** The operating-system services the server consults, as plain values: an
    abstract disk that answers `os.Stat` and `os.ReadFile`, the environment
    that answers `os.Getenv`, `filepath.Join`, and `time.Time` as nanoseconds
    since the Unix epoch. */
module Os {
  import opened Outcomes
  import opened Text

  type byte = b: int | 0 <= b < 256

  const NanosPerSecond: int := 1_000_000_000

  /** What `os.Stat` reports: modification time (ns since the epoch) and size. */
  datatype FileInfo = FileInfo(modTime: int, size: Int64)

  /** `os.Stat` either succeeds, fails with a not-exist error (the only error
      `os.IsNotExist` recognises), or fails some other way (permissions, I/O). */
  datatype StatResult = Found(info: FileInfo) | NotExist | StatFailed

  /** A snapshot of the file system: the paths that stat successfully, the
      paths whose stat fails with an error other than not-exist, and the
      paths whose contents can be read. Stat and read are separate calls, so
      one can succeed while the other fails. */
  datatype Disk = Disk(stats: map<string, FileInfo>, broken: set<string>, data: map<string, seq<byte>>)

  function Stat(disk: Disk, path: string): StatResult {
    if path in disk.stats then Found(disk.stats[path])
    else if path in disk.broken then StatFailed
    else NotExist
  }

  function ReadFile(disk: Disk, path: string): Option<seq<byte>> {
    if path in disk.data then Some(disk.data[path]) else None
  }

  /** `_, err := os.Stat(p); err == nil` */
  predicate Exists(disk: Disk, path: string) {
    Stat(disk, path).Found?
  }

  /** `os.Getenv`: an unset variable reads as the empty string. */
  function Getenv(env: map<string, string>, key: string): string {
    if key in env then env[key] else ""
  }

  function TrimLeadingSlashes(p: string): (r: string)
    ensures |r| <= |p| && r == p[|p| - |r|..]
    ensures r == [] || r[0] != '/'
  {
    if |p| > 0 && p[0] == '/' then TrimLeadingSlashes(p[1..]) else p
  }

  /** `filepath.Join(dir, name)` for a URL path `name`: leading slashes of
      `name` are dropped, an empty element is ignored, the two are joined by
      one separator. (Go also cleans `.` and `..` elements; see README.) */
  function Join(dir: string, name: string): string {
    var rest := TrimLeadingSlashes(name);
    if rest == [] then dir
    else if dir == [] then rest
    else dir + "/" + rest
  }

  /** `Time.Unix()`: whole seconds since the epoch, rounded toward negative
      infinity (Dafny's division by a positive constant floors). */
  function Unix(t: int): int {
    t / NanosPerSecond
  }

  /** A time lies in the second that `Unix` names. */
  lemma UnixBounds(t: int)
    ensures Unix(t) * NanosPerSecond <= t < (Unix(t) + 1) * NanosPerSecond
  {
  }
}
