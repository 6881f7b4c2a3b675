/**
  The level-hash cache that both `Cache` classes keep: a dictionary from the
  name of an entry of the download directory to the content hash computed for
  it (or None when no hash could be computed), saved as a JSON file between
  runs.  The scan of the download directory only ever adds entries.

  The two hash functions the scan calls, `calculate_Level_hash_from_dir` and
  `calculate_Level_hash_from_zip`, are parameters here.
 */
module Levelhash {
  import opened Common

  type LevelhashMap = map<string, Option<string>>

  datatype EntryKind = Directory | RegularFile | OtherEntry

  /** One entry of `download_dir.iterdir()`. */
  datatype DirEntry = DirEntry(name: string, kind: EntryKind)

  /** The entries the scan computes a hash for: directories and `.zip` files. */
  predicate Hashable(e: DirEntry)
  {
    e.kind == Directory || (e.kind == RegularFile && Suffix(e.name) == ".zip")
  }

  /** `load_levelhash_cache`: `file` is the saved cache, None when there is no
      such file.  With `rescan` set an existing file is deleted and the cache
      starts empty. */
  function LoadLevelhashCache(file: Option<LevelhashMap>, rescan: bool): (m: LevelhashMap)
    ensures file.None? || rescan ==> m == map[]
    ensures file.Some? && !rescan ==> m == file.value
  {
    if file.Some? && !rescan then file.value else map[]
  }

  /** One iteration of the scan loop: an entry not yet in the cache that is
      a directory or a `.zip` file gets the hash computed for its kind;
      nothing else changes. */
  function ScanStep(cache: LevelhashMap, e: DirEntry, hashDir: string -> Option<string>,
                    hashZip: string -> Option<string>): (r: LevelhashMap)
    ensures forall k :: k in cache ==> k in r && r[k] == cache[k]
    ensures r.Keys == if e.name !in cache && Hashable(e) then cache.Keys + {e.name} else cache.Keys
    ensures e.name !in cache && Hashable(e) ==>
      r[e.name] == if e.kind == Directory then hashDir(e.name) else hashZip(e.name)
  {
    if e.name in cache then cache
    else if e.kind == Directory then cache[e.name := hashDir(e.name)]
    else if e.kind == RegularFile && Suffix(e.name) == ".zip" then cache[e.name := hashZip(e.name)]
    else cache
  }

  /** The cache after scanning `entries` in listing order; the scan never
      recomputes or removes an entry that was already there. */
  function Scan(cache: LevelhashMap, entries: seq<DirEntry>, hashDir: string -> Option<string>,
                hashZip: string -> Option<string>): (r: LevelhashMap)
    ensures forall k :: k in cache ==> k in r && r[k] == cache[k]
    decreases |entries|
  {
    if entries == [] then cache
    else ScanStep(Scan(cache, entries[..|entries| - 1], hashDir, hashZip), entries[|entries| - 1], hashDir, hashZip)
  }

  /** Afterwards every directory and every `.zip` file of the listing has an
      entry. */
  lemma {:induction false} ScanCovers(cache: LevelhashMap, entries: seq<DirEntry>,
                                      hashDir: string -> Option<string>, hashZip: string -> Option<string>)
    ensures forall i :: 0 <= i < |entries| && Hashable(entries[i]) ==>
      entries[i].name in Scan(cache, entries, hashDir, hashZip)
    decreases |entries|
  {
    if entries != [] {
      var init := entries[..|entries| - 1];
      ScanCovers(cache, init, hashDir, hashZip);
      var prev := Scan(cache, init, hashDir, hashZip);
      forall i | 0 <= i < |entries| && Hashable(entries[i])
        ensures entries[i].name in Scan(cache, entries, hashDir, hashZip)
      {
        if i < |init| {
          assert init[i] == entries[i];
        }
      }
    }
  }

  /** Every new key is the name of a directory or `.zip` file of the listing,
      bound to the hash computed for that kind of entry. */
  lemma {:induction false} ScanAddsOnlyHashable(cache: LevelhashMap, entries: seq<DirEntry>,
                                                hashDir: string -> Option<string>, hashZip: string -> Option<string>)
    ensures forall k :: k in Scan(cache, entries, hashDir, hashZip) && k !in cache ==>
      exists i :: 0 <= i < |entries| && entries[i].name == k && Hashable(entries[i])
        && Scan(cache, entries, hashDir, hashZip)[k] == (if entries[i].kind == Directory then hashDir(k) else hashZip(k))
    decreases |entries|
  {
    if entries != [] {
      var init := entries[..|entries| - 1];
      ScanAddsOnlyHashable(cache, init, hashDir, hashZip);
      var prev := Scan(cache, init, hashDir, hashZip);
      var last := entries[|entries| - 1];
      var r := ScanStep(prev, last, hashDir, hashZip);
      assert Scan(cache, entries, hashDir, hashZip) == r;
      forall k | k in r && k !in cache
        ensures exists i :: 0 <= i < |entries| && entries[i].name == k && Hashable(entries[i])
                   && r[k] == (if entries[i].kind == Directory then hashDir(k) else hashZip(k))
      {
        if k in prev {
          var i :| 0 <= i < |init| && init[i].name == k && Hashable(init[i])
            && prev[k] == (if init[i].kind == Directory then hashDir(k) else hashZip(k));
          assert entries[i] == init[i] && r[k] == prev[k];
        } else {
          assert k == last.name && Hashable(last);
          assert entries[|entries| - 1] == last;
        }
      }
    }
  }

  /** A cache that already covers the listing is left as it is. */
  lemma {:induction false} ScanCoveredNoop(cache: LevelhashMap, entries: seq<DirEntry>,
                                           hashDir: string -> Option<string>, hashZip: string -> Option<string>)
    requires forall i :: 0 <= i < |entries| && Hashable(entries[i]) ==> entries[i].name in cache
    ensures Scan(cache, entries, hashDir, hashZip) == cache
    decreases |entries|
  {
    if entries != [] {
      var init := entries[..|entries| - 1];
      forall i | 0 <= i < |init| && Hashable(init[i]) ensures init[i].name in cache {
        assert init[i] == entries[i];
      }
      ScanCoveredNoop(cache, init, hashDir, hashZip);
    }
  }

  /** Scanning an unchanged download directory a second time computes no hash. */
  lemma ScanIdempotent(cache: LevelhashMap, entries: seq<DirEntry>,
                       hashDir: string -> Option<string>, hashZip: string -> Option<string>)
    ensures Scan(Scan(cache, entries, hashDir, hashZip), entries, hashDir, hashZip) == Scan(cache, entries, hashDir, hashZip)
  {
    ScanCovers(cache, entries, hashDir, hashZip);
    ScanCoveredNoop(Scan(cache, entries, hashDir, hashZip), entries, hashDir, hashZip);
  }

  /** A run that saves its cache lets the next run (without `rescan`) over the
      same download directory start from exactly that cache and compute
      nothing new. */
  lemma ReloadAfterSave(cache: LevelhashMap, entries: seq<DirEntry>,
                        hashDir: string -> Option<string>, hashZip: string -> Option<string>)
    ensures var saved := Scan(cache, entries, hashDir, hashZip);
            Scan(LoadLevelhashCache(Some(saved), false), entries, hashDir, hashZip) == saved
  {
    ScanIdempotent(cache, entries, hashDir, hashZip);
  }
}
