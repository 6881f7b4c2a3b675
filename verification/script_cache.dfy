/**
  `cache.py`: the detail-record cache of the script variant.  Its constructor
  leaves the snapshot unloaded (the call is commented out), so every lookup
  starts as a miss; lookups lower-case the id, insertions keep the id as
  given.

  The remote lookup is the parameter `fetch`, from the request URL to the
  decoded JSON body (None when the body is not JSON).  Downloads, file
  contents and clock readings are parameters as well.
 */
module ScriptCache {
  import opened Common
  import opened Snapshot
  import opened Levelhash

  const MapsApi: string := "https://beatsaver.com/api/maps/"
  const HashRoute: string := MapsApi + "hash/"
  const DetailRoute: string := MapsApi + "detail/"

  /** `_get_beatsaver_info_by_api`: a 40-character id is treated as a SHA-1
      hash, anything else as a level key. */
  function Endpoint(levelId: string): (url: string)
    ensures |url| >= |levelId| && url[|url| - |levelId|..] == levelId
    ensures url[..|url| - |levelId|] == (if |levelId| == 40 then HashRoute else DetailRoute)
  {
    (if |levelId| == 40 then HashRoute else DetailRoute) + levelId
  }

  /** Different ids are requested from different URLs. */
  lemma EndpointInjective(a: string, b: string)
    requires Endpoint(a) == Endpoint(b)
    ensures a == b
  {
    var u := Endpoint(a);
    assert u[31] == (if |a| == 40 then 'h' else 'd');
    assert u[31] == (if |b| == 40 then 'h' else 'd');
    var route := if |a| == 40 then HashRoute else DetailRoute;
    assert a == u[|route|..] == b;
  }

  /** The snapshot keys: the lower-cased `Hash` field of each record. */
  function SnapshotKeys(records: seq<DetailRecord>): (keys: seq<string>)
    ensures |keys| == |records|
    ensures forall i :: 0 <= i < |records| ==> keys[i] == Lower(records[i].hash)
  {
    seq(|records|, i requires 0 <= i < |records| => Lower(records[i].hash))
  }

  ghost predicate IndexesSnapshot(index: map<string, DetailRecord>, records: seq<DetailRecord>)
  {
    LastWinsIndex(index, SnapshotKeys(records), records, |records|)
  }

  /** Every key of the snapshot index is in lower case, so any spelling of a
      hash in the snapshot finds its record. */
  lemma SnapshotKeysLower(index: map<string, DetailRecord>, records: seq<DetailRecord>, k: string)
    requires IndexesSnapshot(index, records) && k in index
    ensures Lower(k) == k && !HasUpper(k)
  {
    IndexedUnderOwnKey(index, SnapshotKeys(records), records, k);
    var i :| 0 <= i < |records| && SnapshotKeys(records)[i] == k && index[k] == records[i];
    LowerIdempotent(records[i].hash);
    LowerHasNoUpper(records[i].hash);
  }

  datatype SnapshotError =
    | SnapshotFileMissing  // the archive could not be extracted after the old file was deleted

  datatype LoadedSnapshot = LoadedSnapshot(index: map<string, DetailRecord>, lastModified: real)

  /** `load_beatsaver_cache_from_andruzzzhka_scrapes`.  `file` is the local
      snapshot, `now` the clock at the staleness check, `download` the
      extracted archive (None when it is not a valid zip file) and
      `clockAfter` the clock after the refresh.  A refresh deletes the local
      file first, so a bad archive leaves nothing to open. */
  method LoadBeatsaverCacheFromScrapes(file: Option<CacheFile>, now: real,
                                       download: Option<seq<DetailRecord>>, clockAfter: real)
    returns (refreshed: bool, r: Result<LoadedSnapshot, SnapshotError>)
    ensures refreshed <==> Stale(file, now)
    ensures !refreshed ==> r.Ok? && r.value.lastModified == file.value.mtime
                           && IndexesSnapshot(r.value.index, file.value.records)
    ensures refreshed ==> (r.Ok? <==> download.Some?)
    ensures refreshed && r.Ok? ==> r.value.lastModified == clockAfter
                                   && IndexesSnapshot(r.value.index, download.value)
  {
    var records: seq<DetailRecord>;
    var lastModified: real;
    refreshed := file.None? || now - file.value.mtime > MaxAge;
    if refreshed {
      if download.None? {
        return refreshed, Err(SnapshotFileMissing);
      }
      records, lastModified := download.value, clockAfter;
    } else {
      records, lastModified := file.value.records, file.value.mtime;
    }
    var index := IndexBy(SnapshotKeys(records), records);
    r := Ok(LoadedSnapshot(index, lastModified));
  }

  class Cache {
    var beatsaverCache: map<string, DetailRecord>
    var cacheUpdated: bool
    var levelhashCache: LevelhashMap

    /** The constructor: an empty detail cache, then the saved level-hash
        cache (`levelhashFile`), then a scan of the download directory. */
    constructor(levelhashFile: Option<LevelhashMap>, rescan: bool, downloadDir: seq<DirEntry>,
                hashDir: string -> Option<string>, hashZip: string -> Option<string>)
      ensures beatsaverCache == map[] && !cacheUpdated
      ensures levelhashCache == Scan(LoadLevelhashCache(levelhashFile, rescan), downloadDir, hashDir, hashZip)
    {
      beatsaverCache := map[];
      cacheUpdated := false;
      levelhashCache := LoadLevelhashCache(levelhashFile, rescan);
      new;
      UpdateLevelhashCache(downloadDir, hashDir, hashZip);
    }

    /** `get_beatsaver_info`. */
    method GetBeatsaverInfo(levelId: string, fetch: string -> Option<DetailRecord>) returns (info: Option<DetailRecord>)
      modifies this
      ensures levelhashCache == old(levelhashCache)
      ensures Lower(levelId) in old(beatsaverCache) ==>
        info == Some(old(beatsaverCache)[Lower(levelId)])
        && beatsaverCache == old(beatsaverCache) && cacheUpdated == old(cacheUpdated)
      ensures Lower(levelId) !in old(beatsaverCache) ==> info == fetch(Endpoint(levelId))
      ensures Lower(levelId) !in old(beatsaverCache) && info.Some? && |levelId| == 40 ==>
        beatsaverCache == old(beatsaverCache)[levelId := info.value] && cacheUpdated
      ensures Lower(levelId) !in old(beatsaverCache) && (info.None? || |levelId| != 40) ==>
        beatsaverCache == old(beatsaverCache) && cacheUpdated == old(cacheUpdated)
    {
      var levelHash := Lower(levelId);
      if levelHash in beatsaverCache {
        return Some(beatsaverCache[levelHash]);
      }
      info := fetch(Endpoint(levelId));
      if info.Some? && |levelId| == 40 {
        beatsaverCache := beatsaverCache[levelId := info.value];
        cacheUpdated := true;
      }
    }

    /** `update_levelhash_cache`. */
    method UpdateLevelhashCache(downloadDir: seq<DirEntry>, hashDir: string -> Option<string>,
                                hashZip: string -> Option<string>)
      modifies this
      ensures levelhashCache == Scan(old(levelhashCache), downloadDir, hashDir, hashZip)
      ensures beatsaverCache == old(beatsaverCache) && cacheUpdated == old(cacheUpdated)
    {
      for i := 0 to |downloadDir|
        invariant levelhashCache == Scan(old(levelhashCache), downloadDir[..i], hashDir, hashZip)
        invariant beatsaverCache == old(beatsaverCache) && cacheUpdated == old(cacheUpdated)
      {
        assert downloadDir[..i + 1][..i] == downloadDir[..i];
        var entry := downloadDir[i];
        if entry.name !in levelhashCache {
          if entry.kind == Directory {
            levelhashCache := levelhashCache[entry.name := hashDir(entry.name)];
          }
          if entry.kind == RegularFile && Suffix(entry.name) == ".zip" {
            levelhashCache := levelhashCache[entry.name := hashZip(entry.name)];
          }
        }
      }
      assert downloadDir[..|downloadDir|] == downloadDir;
    }

    /** `save_levelhash_cache`: the mapping written to the level-hash file. */
    method SaveLevelhashCache() returns (written: LevelhashMap)
      ensures written == levelhashCache
    {
      written := levelhashCache;
    }
  }

  /** A 40-character id holding an upper-case letter that misses is stored
      under a key that its own lower-cased lookup never finds: the next
      lookup of the same id misses again and asks the remote service again. */
  lemma UppercaseInsertStillMisses(cache: map<string, DetailRecord>, levelId: string, info: DetailRecord)
    requires Lower(levelId) !in cache && HasUpper(levelId)
    ensures levelId in cache[levelId := info]
    ensures Lower(levelId) !in cache[levelId := info]
  {
    LowerChangesIffUpper(levelId);
  }

  /** A lower-case id that misses is found by every later lookup, in any
      letter case. */
  lemma LowercaseInsertHits(cache: map<string, DetailRecord>, levelId: string, info: DetailRecord, other: string)
    requires !HasUpper(levelId) && Lower(other) == Lower(levelId)
    ensures Lower(other) in cache[levelId := info] && cache[levelId := info][Lower(other)] == info
  {
    LowerChangesIffUpper(levelId);
  }
}
