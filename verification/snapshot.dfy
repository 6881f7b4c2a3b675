/**
  What the snapshot loaders of the two `Cache` classes have in common: the
  24-hour staleness rule for the local copy of the bulk BeatSaver snapshot,
  and the shape of the loop that turns the snapshot's record list into a
  dictionary.  The loops differ in their key (`cache.py` lower-cases the
  record's `Hash`, `arbsmapdo/cache.py` takes its `hash` as it is), so the
  keys are a parameter here.  Only `arbsmapdo/cache.py` calls its loader;
  the call in `cache.py` is commented out.  Times are seconds since the
  epoch, as `time.time()` and `st_mtime` report them.
 */
module Snapshot {
  import opened Common

  /** The snapshot is regenerated upstream once a day. */
  const MaxAge: real := 86400.0

  /** The local snapshot file: its modification time and its record list. */
  datatype CacheFile = CacheFile(mtime: real, records: seq<DetailRecord>)

  /** A refresh is needed when there is no snapshot file, or when it is more
      than a day old at time `now`. */
  predicate Stale(file: Option<CacheFile>, now: real)
  {
    file.None? || now - file.value.mtime > MaxAge
  }

  /** The dictionary-filling loop `for levelinfo in raw: d[key(levelinfo)] =
      levelinfo`, with the keys already computed. */
  method IndexBy(keys: seq<string>, records: seq<DetailRecord>) returns (index: map<string, DetailRecord>)
    requires |keys| == |records|
    ensures LastWinsIndex(index, keys, records, |records|)
  {
    index := map[];
    for n := 0 to |records|
      invariant LastWinsIndex(index, keys, records, n)
    {
      LastWinsStep(index, keys, records, n);
      index := index[keys[n] := records[n]];
    }
  }

  /** The keys of a snapshot indexed by the `hash` field of each record,
      unchanged. */
  function HashKeys(records: seq<DetailRecord>): (keys: seq<string>)
    ensures |keys| == |records|
    ensures forall i :: 0 <= i < |records| ==> keys[i] == records[i].hash
  {
    seq(|records|, i requires 0 <= i < |records| => records[i].hash)
  }

  /** In a last-wins index, every key is bound to a record carrying that key. */
  lemma IndexedUnderOwnKey(index: map<string, DetailRecord>, keys: seq<string>, records: seq<DetailRecord>, k: string)
    requires |keys| == |records|
    requires LastWinsIndex(index, keys, records, |records|)
    requires k in index
    ensures exists i :: 0 <= i < |records| && keys[i] == k && index[k] == records[i]
  {
    var i :| 0 <= i < |records| && keys[i] == k;
    while exists j :: i < j < |records| && keys[j] == k
      invariant 0 <= i < |records| && keys[i] == k
      decreases |records| - i
    {
      var j :| i < j < |records| && keys[j] == k;
      i := j;
    }
  }
}
