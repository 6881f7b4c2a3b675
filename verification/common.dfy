/**
  Definitions shared by the modules of the ARBSMapDo model: failure-carrying
  wrappers, bytes, the ASCII case mapping used on level hashes, the few pieces
  of Python's `str.split` and `pathlib` that the program relies on, the detail
  record served by the BeatSaver catalog, and the shape of a dictionary built
  from a list in which later entries overwrite earlier ones.
 */
module Common {

  datatype Option<+T> = None | Some(value: T)

  datatype Result<+T, +E> = Ok(value: T) | Err(error: E)

  newtype byte = x: int | 0 <= x < 256

  /** A BeatSaver detail record, reduced to the fields the program reads:
      `hash`, `key`, `directDownload`, `uploader.username`,
      `metadata.songAuthorName` and `metadata.songName`.  Bulk-snapshot
      records use the same shape; their hash field is spelled `Hash` in one
      snapshot format and `hash` in the other. */
  datatype DetailRecord = DetailRecord(
    hash: string,
    key: string,
    directDownload: string,
    uploader: string,
    songAuthorName: string,
    songName: string)

  // ---------------------------------------------------------------------------
  // Case mapping (`str.lower` restricted to ASCII letters)
  // ---------------------------------------------------------------------------

  function LowerChar(c: char): (d: char)
    ensures 'A' <= c <= 'Z' ==> 'a' <= d <= 'z' && d as int == c as int + 32
    ensures !('A' <= c <= 'Z') ==> d == c
  {
    if 'A' <= c <= 'Z' then (c as int + 32) as char else c
  }

  /** The lower-case form of `s`: every upper-case ASCII letter is mapped to
      its lower-case partner, every other character is kept in place. */
  function Lower(s: string): (r: string)
    ensures |r| == |s|
    ensures forall i :: 0 <= i < |s| ==> r[i] == LowerChar(s[i])
  {
    if s == [] then [] else [LowerChar(s[0])] + Lower(s[1..])
  }

  predicate HasUpper(s: string)
  {
    exists i :: 0 <= i < |s| && 'A' <= s[i] <= 'Z'
  }

  /** Lowering twice is lowering once. */
  lemma LowerIdempotent(s: string)
    ensures Lower(Lower(s)) == Lower(s)
  {
    var l := Lower(s);
    assert forall i :: 0 <= i < |s| ==> Lower(l)[i] == l[i];
  }

  /** A string changes under lowering exactly when it holds an upper-case letter. */
  lemma LowerChangesIffUpper(s: string)
    ensures Lower(s) != s <==> HasUpper(s)
  {
    if HasUpper(s) {
      var i :| 0 <= i < |s| && 'A' <= s[i] <= 'Z';
      assert Lower(s)[i] != s[i];
    } else {
      assert forall i :: 0 <= i < |s| ==> Lower(s)[i] == s[i];
    }
  }

  /** A lowered string holds no upper-case letter. */
  lemma LowerHasNoUpper(s: string)
    ensures !HasUpper(Lower(s))
  {
    var l := Lower(s);
    assert forall i :: 0 <= i < |l| ==> !('A' <= l[i] <= 'Z');
  }

  // ---------------------------------------------------------------------------
  // `str.split(sep)` and its inverse `sep.join(parts)`
  // ---------------------------------------------------------------------------

  /** Python's `s.split(sep)` for a one-character separator: never empty,
      and no part contains the separator. */
  function Split(s: string, sep: char): (parts: seq<string>)
    ensures |parts| >= 1
    ensures forall i :: 0 <= i < |parts| ==> sep !in parts[i]
    decreases |s|
  {
    if s == [] then [""]
    else if s[0] == sep then [""] + Split(s[1..], sep)
    else
      var rest := Split(s[1..], sep);
      [[s[0]] + rest[0]] + rest[1..]
  }

  function Join(parts: seq<string>, sep: char): string
    requires |parts| >= 1
  {
    if |parts| == 1 then parts[0] else parts[0] + [sep] + Join(parts[1..], sep)
  }

  /** Splitting loses nothing: joining the parts back gives the input. */
  lemma {:induction false} JoinSplit(s: string, sep: char)
    ensures Join(Split(s, sep), sep) == s
    decreases |s|
  {
    if s == [] {
    } else if s[0] == sep {
      JoinSplit(s[1..], sep);
      assert Split(s, sep)[1..] == Split(s[1..], sep);
    } else {
      var rest := Split(s[1..], sep);
      JoinSplit(s[1..], sep);
      var parts := Split(s, sep);
      assert parts[0] == [s[0]] + rest[0];
      assert parts[1..] == rest[1..];
      if |rest| == 1 {
        assert rest[0] == s[1..];
      } else {
        assert Join(rest, sep) == rest[0] + [sep] + Join(rest[1..], sep);
      }
    }
  }

  /** A trailing separator adds exactly one empty part at the end. */
  lemma {:induction false} SplitTrailingSep(s: string, sep: char)
    ensures Split(s + [sep], sep) == Split(s, sep) + [""]
    decreases |s|
  {
    if s == [] {
      assert [sep][1..] == [];
    } else {
      assert (s + [sep])[1..] == s[1..] + [sep];
      SplitTrailingSep(s[1..], sep);
    }
  }

  /** A string without the separator is a single part. */
  lemma {:induction false} SplitNoSep(s: string, sep: char)
    requires sep !in s
    ensures Split(s, sep) == [s]
    decreases |s|
  {
    if s != [] {
      SplitNoSep(s[1..], sep);
      assert [s[0]] + s[1..] == s;
    }
  }

  /** A separator-free head followed by a separator is the first part. */
  lemma {:induction false} SplitPrefixSegment(a: string, b: string, sep: char)
    requires sep !in a
    ensures Split(a + [sep] + b, sep) == [a] + Split(b, sep)
    decreases |a|
  {
    if a == [] {
      assert a + [sep] + b == [sep] + b;
      assert ([sep] + b)[1..] == b;
    } else {
      assert (a + [sep] + b)[0] == a[0];
      assert (a + [sep] + b)[1..] == a[1..] + [sep] + b;
      SplitPrefixSegment(a[1..], b, sep);
      assert [a[0]] + a[1..] == a;
    }
  }

  /** A separator followed by a separator-free tail adds that tail as one
      more part. */
  lemma {:induction false} SplitAppendSep(a: string, b: string, sep: char)
    requires sep !in b
    ensures Split(a + [sep] + b, sep) == Split(a, sep) + [b]
    decreases |a|
  {
    if a == [] {
      assert a + [sep] + b == [sep] + b;
      assert ([sep] + b)[1..] == b;
      SplitNoSep(b, sep);
    } else {
      assert (a + [sep] + b)[0] == a[0];
      assert (a + [sep] + b)[1..] == a[1..] + [sep] + b;
      SplitAppendSep(a[1..], b, sep);
    }
  }

  // ---------------------------------------------------------------------------
  // `pathlib.PurePath.name` and `.suffix` (POSIX separators)
  // ---------------------------------------------------------------------------

  /** Position of the last `c` in `s`, or -1 (Python's `str.rfind`). */
  function RFind(s: string, c: char): (i: int)
    ensures -1 <= i < |s|
    ensures i >= 0 ==> s[i] == c
    ensures forall j :: i < j < |s| ==> s[j] != c
  {
    if s == [] then -1
    else if s[|s| - 1] == c then |s| - 1
    else RFind(s[..|s| - 1], c)
  }

  /** `PurePath.suffix` of a final path component: from the last dot on, unless
      that dot is the first or the last character of the name. */
  function Suffix(name: string): (sfx: string)
    ensures sfx == "" <==> |name| == 0 || '.' !in name[1..] || name[|name| - 1] == '.'
    ensures sfx != "" ==> |sfx| >= 2 && sfx[0] == '.' && '.' !in sfx[1..]
    ensures sfx != "" ==> |sfx| < |name| && name[|name| - |sfx|..] == sfx
  {
    var i := RFind(name, '.');
    assert |name| > 0 && '.' in name[1..] ==> i >= 1 by {
      if |name| > 0 && '.' in name[1..] {
        var j :| 0 <= j < |name[1..]| && name[1..][j] == '.';
        assert name[j + 1] == '.';
      }
    }
    if 0 < i < |name| - 1 then
      assert name[i..][1..] == name[i + 1..];
      name[i..]
    else ""
  }

  /** A name made of a non-empty stem and an extension (a dot followed by a
      dot-free tail) has that extension as its suffix. */
  lemma SuffixOfExtension(stem: string, ext: string)
    requires stem != "" && |ext| >= 2 && ext[0] == '.' && '.' !in ext[1..]
    ensures Suffix(stem + ext) == ext
  {
    var name := stem + ext;
    assert name[|stem|] == '.';
    assert forall j :: |stem| < j < |name| ==> name[j] == ext[1..][j - |stem| - 1];
    assert RFind(name, '.') == |stem|;
    assert name[|stem|..] == ext;
  }

  /** `PurePath.name`: the last component that is neither empty nor `.`, or
      the empty string when there is none. */
  function FinalComponent(path: string): (name: string)
    ensures '/' !in name
    ensures name != "" <==> HasProper(Split(path, '/'))
    ensures name != "" ==> !Improper(name) && LastProperAt(Split(path, '/'), name)
  {
    var parts := Split(path, '/');
    LastProperSpec(parts);
    LastProper(parts)
  }

  /** An empty segment or `.`, which `PurePath` drops. */
  predicate Improper(part: string)
  {
    part == "" || part == "."
  }

  /** Some part is proper. */
  predicate HasProper(parts: seq<string>)
  {
    exists i :: 0 <= i < |parts| && !Improper(parts[i])
  }

  /** `name` is one of the parts, and every part after it is improper. */
  predicate LastProperAt(parts: seq<string>, name: string)
  {
    exists j :: 0 <= j < |parts| && parts[j] == name && forall k :: j < k < |parts| ==> Improper(parts[k])
  }

  function LastProper(parts: seq<string>): (name: string)
    requires forall i :: 0 <= i < |parts| ==> '/' !in parts[i]
    ensures '/' !in name
  {
    if parts == [] then ""
    else
      var last := parts[|parts| - 1];
      if !Improper(last) then last else LastProper(parts[..|parts| - 1])
  }

  /** The part `LastProper` picks is the last proper one. */
  lemma {:induction false} LastProperSpec(parts: seq<string>)
    requires forall i :: 0 <= i < |parts| ==> '/' !in parts[i]
    ensures LastProper(parts) != "" <==> HasProper(parts)
    ensures LastProper(parts) != "" ==> !Improper(LastProper(parts)) && LastProperAt(parts, LastProper(parts))
    decreases |parts|
  {
    if parts != [] {
      var init := parts[..|parts| - 1];
      var last := parts[|parts| - 1];
      if Improper(last) {
        LastProperSpec(init);
        var r := LastProper(init);
        assert forall i :: 0 <= i < |init| ==> init[i] == parts[i];
        if r != "" {
          var j :| 0 <= j < |init| && init[j] == r && forall k :: j < k < |init| ==> Improper(init[k]);
          assert parts[j] == r;
          assert forall k :: j < k < |parts| ==> Improper(parts[k]);
        }
      } else {
        assert parts[|parts| - 1] == last;
      }
    }
  }

  /** A path whose last segment is a proper name has that segment as its
      final component. */
  lemma FinalComponentOfSegment(dir: string, name: string)
    requires name != "" && name != "." && '/' !in name
    ensures FinalComponent(dir + "/" + name) == name
  {
    SplitAppendSep(dir, name, '/');
    var parts := Split(dir + "/" + name, '/');
    assert parts[|parts| - 1] == name;
  }

  /** A proper name without a separator is its own final component. */
  lemma FinalComponentOfName(name: string)
    requires name != "" && name != "." && '/' !in name
    ensures FinalComponent(name) == name
  {
    SplitNoSep(name, '/');
  }

  // ---------------------------------------------------------------------------
  // A dictionary filled from a list, later entries overwriting earlier ones
  // ---------------------------------------------------------------------------

  /** `idx` is what `for i in range(n): d[keys[i]] = rs[i]` leaves in an empty
      dict `d`: exactly the first `n` keys are present, and each key holds the
      record of its last occurrence among the first `n`. */
  ghost predicate LastWinsIndex<R>(idx: map<string, R>, keys: seq<string>, rs: seq<R>, n: nat)
    requires n <= |keys| == |rs|
  {
    && (forall k :: k in idx ==> exists i :: 0 <= i < n && keys[i] == k)
    && (forall i :: 0 <= i < n ==> keys[i] in idx)
    && (forall i :: 0 <= i < n && (forall j :: i < j < n ==> keys[j] != keys[i]) ==> idx[keys[i]] == rs[i])
  }

  /** Extending a last-wins index by one more entry. */
  lemma LastWinsStep<R>(idx: map<string, R>, keys: seq<string>, rs: seq<R>, n: nat)
    requires n < |keys| == |rs|
    requires LastWinsIndex(idx, keys, rs, n)
    ensures LastWinsIndex(idx[keys[n] := rs[n]], keys, rs, n + 1)
  {
    var idx' := idx[keys[n] := rs[n]];
    forall k | k in idx' ensures exists i :: 0 <= i < n + 1 && keys[i] == k {
      if k != keys[n] {
        var i :| 0 <= i < n && keys[i] == k;
      }
    }
  }
}
