/**
  `arbsmapdo/cache.py`: the detail-record cache of the packaged variant.  It
  differs from the script variant in three places: the constructor loads the
  bulk snapshot before scanning, the snapshot index uses each record's `hash`
  field as it stands, and hash lookups go to the `by-hash` route.  An archive
  that is not a valid zip file aborts the refresh with an exception.
 */
module PackageCache {
  import opened Common
  import opened Snapshot
  import opened Levelhash

  const MapsApi: string := "https://beatsaver.com/api/maps/"
  const ByHashRoute: string := MapsApi + "by-hash/"
  const DetailRoute: string := MapsApi + "detail/"

  /** `_get_beatsaver_info_by_api`: a 40-character id is treated as a SHA-1
      hash, anything else as a level key. */
  function Endpoint(levelId: string): (url: string)
    ensures |url| >= |levelId| && url[|url| - |levelId|..] == levelId
    ensures url[..|url| - |levelId|] == (if |levelId| == 40 then ByHashRoute else DetailRoute)
  {
    (if |levelId| == 40 then ByHashRoute else DetailRoute) + levelId
  }

  /** Different ids are requested from different URLs. */
  lemma EndpointInjective(a: string, b: string)
    requires Endpoint(a) == Endpoint(b)
    ensures a == b
  {
    var u := Endpoint(a);
    assert u[31] == (if |a| == 40 then 'b' else 'd');
    assert u[31] == (if |b| == 40 then 'b' else 'd');
    var route := if |a| == 40 then ByHashRoute else DetailRoute;
    assert a == u[|route|..] == b;
  }

  ghost predicate IndexesSnapshot(index: map<string, DetailRecord>, records: seq<DetailRecord>)
  {
    LastWinsIndex(index, HashKeys(records), records, |records|)
  }

  /** A snapshot record whose hash holds an upper-case letter sits under a key
      that no lookup reaches, since lookups lower-case the id first. */
  lemma UppercaseSnapshotHashUnreachable(index: map<string, DetailRecord>, records: seq<DetailRecord>, i: nat,
                                         levelId: string)
    requires IndexesSnapshot(index, records) && i < |records| && HasUpper(records[i].hash)
    ensures records[i].hash in index
    ensures Lower(levelId) != records[i].hash
  {
    assert HashKeys(records)[i] == records[i].hash;
    LowerHasNoUpper(levelId);
  }

  datatype SnapshotError =
    | BadArchive  // `zipfile.BadZipFile` escapes the refresh

  datatype LoadedSnapshot = LoadedSnapshot(index: map<string, DetailRecord>, lastModified: real)

  /** `load_beatsaver_cache_from_andruzzzhka_scrapes`.  `file` is the local
      snapshot, `now` the clock at the staleness check, `download` the
      extracted archive (None when it is not a valid zip file) and
      `clockAfter` the clock after the refresh. */
  method LoadBeatsaverCacheFromScrapes(file: Option<CacheFile>, now: real,
                                       download: Option<seq<DetailRecord>>, clockAfter: real)
    returns (refreshed: bool, r: Result<LoadedSnapshot, SnapshotError>)
    ensures refreshed <==> Stale(file, now)
    ensures !refreshed ==> r.Ok? && r.value.lastModified == file.value.mtime
                           && IndexesSnapshot(r.value.index, file.value.records)
    ensures refreshed ==> (r.Ok? <==> download.Some?)
    ensures refreshed && r.Ok? ==> r.value.lastModified == clockAfter
                                   && IndexesSnapshot(r.value.index, download.value)
  {
    var records: seq<DetailRecord>;
    var lastModified: real;
    refreshed := file.None? || now - file.value.mtime > MaxAge;
    if refreshed {
      if download.None? {
        return refreshed, Err(BadArchive);
      }
      records, lastModified := download.value, clockAfter;
    } else {
      records, lastModified := file.value.records, file.value.mtime;
    }
    var index := IndexBy(HashKeys(records), records);
    r := Ok(LoadedSnapshot(index, lastModified));
  }

  class Cache {
    var beatsaverCache: map<string, DetailRecord>
    var cacheUpdated: bool
    var localCacheLastDownloaded: real
    var levelhashCache: LevelhashMap

    /** The constructor after a successful snapshot load: the detail cache is
        the snapshot index, then the saved level-hash cache is loaded and the
        download directory scanned. */
    constructor(snapshot: LoadedSnapshot, levelhashFile: Option<LevelhashMap>, rescan: bool,
                downloadDir: seq<DirEntry>, hashDir: string -> Option<string>, hashZip: string -> Option<string>)
      ensures beatsaverCache == snapshot.index && !cacheUpdated
      ensures localCacheLastDownloaded == snapshot.lastModified
      ensures levelhashCache == Scan(LoadLevelhashCache(levelhashFile, rescan), downloadDir, hashDir, hashZip)
    {
      beatsaverCache := snapshot.index;
      cacheUpdated := false;
      localCacheLastDownloaded := snapshot.lastModified;
      levelhashCache := LoadLevelhashCache(levelhashFile, rescan);
      new;
      UpdateLevelhashCache(downloadDir, hashDir, hashZip);
    }

    /** `Cache(config)` as a whole: the snapshot load, which may raise, and
        then the constructor. */
    static method Open(file: Option<CacheFile>, now: real, download: Option<seq<DetailRecord>>, clockAfter: real,
                       levelhashFile: Option<LevelhashMap>, rescan: bool, downloadDir: seq<DirEntry>,
                       hashDir: string -> Option<string>, hashZip: string -> Option<string>)
      returns (r: Result<Cache, SnapshotError>)
      ensures r.Err? <==> Stale(file, now) && download.None?
      ensures r.Ok? ==> fresh(r.value) && !r.value.cacheUpdated
      ensures r.Ok? && !Stale(file, now) ==> IndexesSnapshot(r.value.beatsaverCache, file.value.records)
      ensures r.Ok? && Stale(file, now) ==> IndexesSnapshot(r.value.beatsaverCache, download.value)
      ensures r.Ok? ==> r.value.levelhashCache == Scan(LoadLevelhashCache(levelhashFile, rescan), downloadDir, hashDir, hashZip)
    {
      var refreshed, loaded := LoadBeatsaverCacheFromScrapes(file, now, download, clockAfter);
      if loaded.Err? {
        return Err(loaded.error);
      }
      var c := new Cache(loaded.value, levelhashFile, rescan, downloadDir, hashDir, hashZip);
      r := Ok(c);
    }

    /** `get_beatsaver_info`. */
    method GetBeatsaverInfo(levelId: string, fetch: string -> Option<DetailRecord>) returns (info: Option<DetailRecord>)
      modifies this
      ensures levelhashCache == old(levelhashCache) && localCacheLastDownloaded == old(localCacheLastDownloaded)
      ensures Lower(levelId) in old(beatsaverCache) ==>
        info == Some(old(beatsaverCache)[Lower(levelId)])
        && beatsaverCache == old(beatsaverCache) && cacheUpdated == old(cacheUpdated)
      ensures Lower(levelId) !in old(beatsaverCache) ==> info == fetch(Endpoint(levelId))
      ensures Lower(levelId) !in old(beatsaverCache) && info.Some? && |levelId| == 40 ==>
        beatsaverCache == old(beatsaverCache)[levelId := info.value] && cacheUpdated
      ensures Lower(levelId) !in old(beatsaverCache) && (info.None? || |levelId| != 40) ==>
        beatsaverCache == old(beatsaverCache) && cacheUpdated == old(cacheUpdated)
    {
      var levelHash := Lower(levelId);
      if levelHash in beatsaverCache {
        return Some(beatsaverCache[levelHash]);
      }
      info := fetch(Endpoint(levelId));
      if info.Some? && |levelId| == 40 {
        beatsaverCache := beatsaverCache[levelId := info.value];
        cacheUpdated := true;
      }
    }

    /** `update_levelhash_cache`. */
    method UpdateLevelhashCache(downloadDir: seq<DirEntry>, hashDir: string -> Option<string>,
                                hashZip: string -> Option<string>)
      modifies this
      ensures levelhashCache == Scan(old(levelhashCache), downloadDir, hashDir, hashZip)
      ensures beatsaverCache == old(beatsaverCache) && cacheUpdated == old(cacheUpdated)
      ensures localCacheLastDownloaded == old(localCacheLastDownloaded)
    {
      for i := 0 to |downloadDir|
        invariant levelhashCache == Scan(old(levelhashCache), downloadDir[..i], hashDir, hashZip)
        invariant beatsaverCache == old(beatsaverCache) && cacheUpdated == old(cacheUpdated)
        invariant localCacheLastDownloaded == old(localCacheLastDownloaded)
      {
        assert downloadDir[..i + 1][..i] == downloadDir[..i];
        var entry := downloadDir[i];
        if entry.name !in levelhashCache {
          if entry.kind == Directory {
            levelhashCache := levelhashCache[entry.name := hashDir(entry.name)];
          }
          if entry.kind == RegularFile && Suffix(entry.name) == ".zip" {
            levelhashCache := levelhashCache[entry.name := hashZip(entry.name)];
          }
        }
      }
      assert downloadDir[..|downloadDir|] == downloadDir;
    }

    /** `save_levelhash_cache`: the mapping written to the level-hash file. */
    method SaveLevelhashCache() returns (written: LevelhashMap)
      ensures written == levelhashCache
    {
      written := levelhashCache;
    }
  }
}
