/**
  `beatsaver.py`: the oldest detail-record cache.  It is persisted as a JSON
  dictionary of its own, built from the bulk snapshot when that file is
  missing or unreadable, and it lower-cases the hash both for the lookup and
  for the insertion.
 */
module BeatSaverCache {
  import opened Common
  import opened Snapshot

  const ByHashRoute: string := "https://beatsaver.com/api/maps/by-hash/"

  /** `_get_beatsaver_info_by_api`: every id is requested as a hash. */
  function Endpoint(levelHash: string): (url: string)
    ensures |url| == |ByHashRoute| + |levelHash|
    ensures url[..|ByHashRoute|] == ByHashRoute && url[|ByHashRoute|..] == levelHash
  {
    ByHashRoute + levelHash
  }

  /** `load_cache_from_andruzzzhka_scrapes`, given the downloaded record list. */
  method LoadCacheFromScrapes(records: seq<DetailRecord>) returns (index: map<string, DetailRecord>)
    ensures LastWinsIndex(index, HashKeys(records), records, |records|)
  {
    index := IndexBy(HashKeys(records), records);
  }

  /** The snapshot index has exactly the hashes of the records as keys. */
  lemma ScrapesIndexKeys(index: map<string, DetailRecord>, records: seq<DetailRecord>)
    requires LastWinsIndex(index, HashKeys(records), records, |records|)
    ensures index.Keys == set i | 0 <= i < |records| :: records[i].hash
  {
    forall k | k in index ensures k in set i | 0 <= i < |records| :: records[i].hash {
      var i :| 0 <= i < |records| && HashKeys(records)[i] == k;
    }
    forall i | 0 <= i < |records| ensures records[i].hash in index {
      assert HashKeys(records)[i] == records[i].hash;
    }
  }

  class BeatSaver {
    var beatsaverCache: map<string, DetailRecord>
    var cacheUpdated: bool

    /** The constructor.  `localFile` is the saved dictionary, None when the
        file is missing or not JSON; `scrapes` is the downloaded snapshot
        used in that case. */
    constructor(localFile: Option<map<string, DetailRecord>>, scrapes: seq<DetailRecord>)
      ensures !cacheUpdated
      ensures localFile.Some? ==> beatsaverCache == localFile.value
      ensures localFile.None? ==> LastWinsIndex(beatsaverCache, HashKeys(scrapes), scrapes, |scrapes|)
    {
      var loaded: map<string, DetailRecord>;
      if localFile.Some? {
        loaded := localFile.value;
      } else {
        loaded := LoadCacheFromScrapes(scrapes);
      }
      beatsaverCache := loaded;
      cacheUpdated := false;
    }

    /** `get_beatsaver_info`. */
    method GetBeatsaverInfo(levelHash: string, fetch: string -> Option<DetailRecord>) returns (info: Option<DetailRecord>)
      modifies this
      ensures Lower(levelHash) in old(beatsaverCache) ==>
        info == Some(old(beatsaverCache)[Lower(levelHash)])
        && beatsaverCache == old(beatsaverCache) && cacheUpdated == old(cacheUpdated)
      ensures Lower(levelHash) !in old(beatsaverCache) ==> info == fetch(Endpoint(Lower(levelHash)))
      ensures Lower(levelHash) !in old(beatsaverCache) && info.Some? ==>
        beatsaverCache == old(beatsaverCache)[Lower(levelHash) := info.value] && cacheUpdated
      ensures Lower(levelHash) !in old(beatsaverCache) && info.None? ==>
        beatsaverCache == old(beatsaverCache) && cacheUpdated == old(cacheUpdated)
      ensures info.Some? ==> Lower(levelHash) in beatsaverCache && beatsaverCache[Lower(levelHash)] == info.value
    {
      var h := Lower(levelHash);
      info := if h in beatsaverCache then Some(beatsaverCache[h]) else None;
      if info.None? {
        info := fetch(Endpoint(h));
        if info.Some? {
          beatsaverCache := beatsaverCache[h := info.value];
          cacheUpdated := true;
        }
      }
    }

    /** Two lookups of the same hash, in any letter case: once the first one
        has a record, the second is answered from the cache with the same
        record and no remote call. */
    method LookupTwice(first: string, second: string, fetch: string -> Option<DetailRecord>)
      returns (a: Option<DetailRecord>, b: Option<DetailRecord>)
      requires Lower(first) == Lower(second)
      modifies this
      ensures a.Some? ==> b == a && Lower(second) in beatsaverCache && beatsaverCache[Lower(second)] == a.value
      ensures Lower(first) !in old(beatsaverCache) ==> a == fetch(Endpoint(Lower(first)))
    {
      a := GetBeatsaverInfo(first, fetch);
      ghost var between := beatsaverCache;
      b := GetBeatsaverInfo(second, fetch);
      assert a.Some? ==> Lower(second) in between;
    }
  }
}
