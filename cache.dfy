/** The preload cache: a small map from URL path to an in-memory copy of a
    critical asset, rebuilt wholesale from a fixed list of file names. */
module Cache {
  import opened Outcomes
  import opened Text
  import opened Os

  /** One cached file: its bytes, stat's modification time and size, and the
      MIME type taken from the fixed list. */
  datatype CachedAsset = CachedAsset(content: seq<byte>, modTime: int, size: Int64, mimeType: string)

  /** The zero `time.Time` (January 1 of year 1, UTC) in nanoseconds since the epoch. */
  const ZeroTime: int := -62_135_596_800 * NanosPerSecond

  /** Go's zero value of the record, returned on a cache miss. */
  const ZeroAsset := CachedAsset([], ZeroTime, 0, "")

  datatype CriticalAsset = CriticalAsset(name: string, mimeType: string)

  /** The fixed list of files preloaded from the static directory. */
  const CriticalAssets: seq<CriticalAsset> := [
    CriticalAsset("index.html", "text/html; charset=utf-8"),
    CriticalAsset("vite.svg", "image/svg+xml")
  ]

  /** One iteration of the load loop: read the file, then stat it; the entry
      exists only if both succeed. */
  function Fetch(disk: Disk, staticDir: string, a: CriticalAsset): (r: Option<CachedAsset>)
    ensures r.Some? <==> ReadFile(disk, Join(staticDir, a.name)).Some? && Exists(disk, Join(staticDir, a.name))
    ensures r.Some? ==> r.value.content == ReadFile(disk, Join(staticDir, a.name)).value
    ensures r.Some? ==> r.value.mimeType == a.mimeType
    ensures r.Some? ==> FileInfo(r.value.modTime, r.value.size) == Stat(disk, Join(staticDir, a.name)).info
  {
    var path := Join(staticDir, a.name);
    match ReadFile(disk, path)
    case None => None
    case Some(content) =>
      match Stat(disk, path)
      case Found(info) => Some(CachedAsset(content, info.modTime, info.size, a.mimeType))
      case _ => None
  }

  /** The map the load loop has built after processing `assets`, starting
      from an empty map; an asset that cannot be fetched is skipped. */
  function Loaded(disk: Disk, staticDir: string, assets: seq<CriticalAsset>): map<string, CachedAsset>
    decreases |assets|
  {
    if assets == [] then map[]
    else
      var last := assets[|assets| - 1];
      Store(Loaded(disk, staticDir, assets[..|assets| - 1]), last.name, Fetch(disk, staticDir, last))
  }

  /** Stores a fetched asset under its key; a failed fetch changes nothing. */
  function Store(m: map<string, CachedAsset>, name: string, fetched: Option<CachedAsset>): map<string, CachedAsset> {
    if fetched.Some? then m[Key(name) := fetched.value] else m
  }

  /** The cache key of an asset file: its URL path. */
  function Key(name: string): string {
    "/" + name
  }

  /** The cache after a load from `staticDir`. */
  function Preloaded(disk: Disk, staticDir: string): map<string, CachedAsset> {
    Loaded(disk, staticDir, CriticalAssets)
  }

  /** One more iteration of the load loop extends the map by one fetch. */
  lemma LoadedStep(disk: Disk, staticDir: string, assets: seq<CriticalAsset>, i: int)
    requires 0 <= i < |assets|
    ensures Loaded(disk, staticDir, assets[..i + 1]) ==
      Store(Loaded(disk, staticDir, assets[..i]), assets[i].name, Fetch(disk, staticDir, assets[i]))
  {
    assert assets[..i + 1][..i] == assets[..i];
  }

  /** The load loop unrolled over the two listed assets. */
  lemma PreloadedUnrolled(disk: Disk, staticDir: string)
    ensures Preloaded(disk, staticDir) ==
      Store(Store(map[], "index.html", Fetch(disk, staticDir, CriticalAssets[0])),
            "vite.svg", Fetch(disk, staticDir, CriticalAssets[1]))
  {
    LoadedStep(disk, staticDir, CriticalAssets, 0);
    LoadedStep(disk, staticDir, CriticalAssets, 1);
    assert CriticalAssets[..0] == [];
    assert CriticalAssets[..2] == CriticalAssets;
  }

  /** What a load leaves in the cache, whatever it held before: at most the
      two critical keys, each present iff its file could be both read and
      stat'd, holding the file's bytes, stat's time and size, and the listed
      MIME type. */
  lemma PreloadedSpec(disk: Disk, staticDir: string)
    ensures Preloaded(disk, staticDir).Keys <= {"/index.html", "/vite.svg"}
    ensures |Preloaded(disk, staticDir)| <= 2
    ensures "/index.html" in Preloaded(disk, staticDir) <==> Fetch(disk, staticDir, CriticalAssets[0]).Some?
    ensures "/vite.svg" in Preloaded(disk, staticDir) <==> Fetch(disk, staticDir, CriticalAssets[1]).Some?
    ensures Fetch(disk, staticDir, CriticalAssets[0]).Some? ==>
      Preloaded(disk, staticDir)["/index.html"] == Fetch(disk, staticDir, CriticalAssets[0]).value
    ensures Fetch(disk, staticDir, CriticalAssets[1]).Some? ==>
      Preloaded(disk, staticDir)["/vite.svg"] == Fetch(disk, staticDir, CriticalAssets[1]).value
  {
    PreloadedUnrolled(disk, staticDir);
    StoreBoth(Fetch(disk, staticDir, CriticalAssets[0]), Fetch(disk, staticDir, CriticalAssets[1]));
  }

  /** Two stores into an empty map, whatever was fetched. */
  lemma StoreBoth(f0: Option<CachedAsset>, f1: Option<CachedAsset>)
    ensures var m := Store(Store(map[], "index.html", f0), "vite.svg", f1);
      && m.Keys <= {"/index.html", "/vite.svg"}
      && |m| <= 2
      && ("/index.html" in m <==> f0.Some?) && ("/vite.svg" in m <==> f1.Some?)
      && (f0.Some? ==> m["/index.html"] == f0.value)
      && (f1.Some? ==> m["/vite.svg"] == f1.value)
  {
    var m := Store(Store(map[], "index.html", f0), "vite.svg", f1);
    assert Key("index.html") == "/index.html" && Key("vite.svg") == "/vite.svg";
    SubsetCardinality(m.Keys, {"/index.html", "/vite.svg"});
  }

  lemma SubsetCardinality<T>(a: set<T>, b: set<T>)
    requires a <= b
    ensures |a| <= |b|
  {
    assert b == a + (b - a);
  }

  /** The process-wide cache (`inMemoryCache`), as an object the handler is
      given. */
  class AssetCache {
    var entries: map<string, CachedAsset>

    /** `make(map[string]cachedAsset)` at package initialisation. */
    constructor ()
      ensures entries == map[]
    {
      entries := map[];
    }

    /** `LoadCriticalAssetsIntoCache`: start from a fresh empty map, then for
        each listed asset read and stat the file and store it under "/" +
        name; a failure only skips that asset. Never reports an error. */
    method LoadCriticalAssets(disk: Disk, staticDir: string) returns (err: Option<string>)
      modifies this
      ensures entries == Preloaded(disk, staticDir)
      ensures err == None
    {
      entries := map[];
      for i := 0 to |CriticalAssets|
        invariant entries == Loaded(disk, staticDir, CriticalAssets[..i])
      {
        LoadedStep(disk, staticDir, CriticalAssets, i);
        var asset := CriticalAssets[i];
        var filePath := Join(staticDir, asset.name);
        var content := ReadFile(disk, filePath);
        if content.None? {
          continue;       // warning logged, asset skipped
        }
        var info := Stat(disk, filePath);
        if !info.Found? {
          continue;       // warning logged, asset skipped
        }
        entries := entries[Key(asset.name) := CachedAsset(content.value, info.info.modTime, info.info.size, asset.mimeType)];
      }
      assert CriticalAssets[..|CriticalAssets|] == CriticalAssets;
      err := None;
    }

    /** `GetCachedAsset`: the stored entry and true when the key is present,
        the zero record and false otherwise; the map is only read. */
    function Get(urlPath: string): (r: (CachedAsset, bool))
      reads this
      ensures r.1 <==> urlPath in entries
      ensures r.1 ==> r.0 == entries[urlPath]
      ensures !r.1 ==> r.0 == ZeroAsset
    {
      if urlPath in entries then (entries[urlPath], true) else (ZeroAsset, false)
    }
  }
}
