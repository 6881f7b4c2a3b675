/**
  `utils.py`: the content hash of an installed level directory and the two
  classifiers that turn a command-line URI into a resource type and a level
  key.

  SHA-1 and JSON parsing are parameters: `sha1` maps the bytes fed to the
  hasher to a 20-byte digest, `parseInfo` maps the raw `info.dat` bytes to the
  `_beatmapFilename` entries of its `_difficultyBeatmapSets` (one sequence per
  set, in file order), or to None when the document is not JSON or lacks one
  of the keys the loop indexes.  `urlparse` is represented by its result.
 */
module Utils {
  import opened Common

  type Sha1Digest = d: seq<byte> | |d| == 20 witness seq(20, _ => 0)

  // ---------------------------------------------------------------------------
  // Upper-case hexadecimal (`hexdigest().upper()`)
  // ---------------------------------------------------------------------------

  const HexDigits: string := "0123456789ABCDEF"

  predicate IsHexDigit(c: char)
  {
    ('0' <= c <= '9') || ('A' <= c <= 'F')
  }

  function HexChar(v: nat): (c: char)
    requires v < 16
    ensures IsHexDigit(c) && HexValue(c) == v
  {
    HexDigits[v]
  }

  function HexValue(c: char): nat
    requires IsHexDigit(c)
  {
    if '0' <= c <= '9' then c as int - '0' as int else c as int - 'A' as int + 10
  }

  /** Two upper-case hex digits per byte, high nibble first. */
  function HexUpper(d: seq<byte>): (r: string)
    ensures |r| == 2 * |d|
    ensures forall i :: 0 <= i < |r| ==> IsHexDigit(r[i])
  {
    if d == [] then [] else [HexChar(d[0] as int / 16), HexChar(d[0] as int % 16)] + HexUpper(d[1..])
  }

  function HexDecode(s: string): seq<byte>
    requires |s| % 2 == 0 && forall i :: 0 <= i < |s| ==> IsHexDigit(s[i])
  {
    if s == [] then [] else [(16 * HexValue(s[0]) + HexValue(s[1])) as byte] + HexDecode(s[2..])
  }

  /** The hex form loses nothing: decoding it gives the digest back. */
  lemma {:induction false} HexRoundTrip(d: seq<byte>)
    ensures HexDecode(HexUpper(d)) == d
  {
    if d != [] {
      var h := HexUpper(d);
      assert h[2..] == HexUpper(d[1..]);
      HexRoundTrip(d[1..]);
    }
  }

  /** Different digests give different hash strings. */
  lemma HexUpperInjective(a: seq<byte>, b: seq<byte>)
    requires HexUpper(a) == HexUpper(b)
    ensures a == b
  {
    HexRoundTrip(a);
    HexRoundTrip(b);
  }

  // ---------------------------------------------------------------------------
  // Level hash (`calculate_Level_hash`)
  // ---------------------------------------------------------------------------

  /** The referenced beatmap files, set by set, beatmap by beatmap. */
  function BeatmapFiles(sets: seq<seq<string>>): seq<string>
  {
    if sets == [] then [] else BeatmapFiles(sets[..|sets| - 1]) + sets[|sets| - 1]
  }

  /** The contents of `names`, concatenated in order. */
  function Contents(names: seq<string>, files: map<string, seq<byte>>): seq<byte>
    requires forall n :: n in names ==> n in files
  {
    if names == [] then [] else Contents(names[..|names| - 1], files) + files[names[|names| - 1]]
  }

  /** Feeding one more file appends its bytes. */
  lemma ContentsSnoc(names: seq<string>, name: string, files: map<string, seq<byte>>)
    requires (forall n :: n in names ==> n in files) && name in files
    ensures Contents(names + [name], files) == Contents(names, files) + files[name]
  {
    assert (names + [name])[..|names|] == names;
  }

  /** The files of one more difficulty set follow those of the earlier sets. */
  lemma BeatmapFilesSnoc(sets: seq<seq<string>>, i: nat)
    requires i < |sets|
    ensures BeatmapFiles(sets[..i + 1]) == BeatmapFiles(sets[..i]) + sets[i]
  {
    assert sets[..i + 1][..i] == sets[..i];
  }

  lemma {:induction false} ContentsConcat(a: seq<string>, b: seq<string>, files: map<string, seq<byte>>)
    requires forall n :: n in a + b ==> n in files
    ensures Contents(a + b, files) == Contents(a, files) + Contents(b, files)
    decreases |b|
  {
    if b == [] {
      assert a + b == a;
    } else {
      var b' := b[..|b| - 1];
      assert (a + b)[..|a + b| - 1] == a + b';
      assert (a + b)[|a + b| - 1] == b[|b| - 1];
      ContentsConcat(a, b', files);
    }
  }

  /** The bytes fed to the hasher: `info.dat`, then every referenced file. */
  function HashedStream(info: seq<byte>, sets: seq<seq<string>>, files: map<string, seq<byte>>): (s: seq<byte>)
    requires forall n :: n in BeatmapFiles(sets) ==> n in files
    ensures |s| >= |info| && s[..|info|] == info
    ensures (forall i :: 0 <= i < |sets| ==> sets[i] == []) ==> s == info
  {
    EmptySetsNoFiles(sets);
    info + Contents(BeatmapFiles(sets), files)
  }

  datatype HashError = InfoNotParsable | BeatmapMissing(name: string)

  datatype LevelHashResult =
    | NoInfoFile                 // `info.dat` absent: a warning and None
    | HashFailed(error: HashError)  // an exception escapes the function
    | LevelHash(hex: string)

  predicate AllPresent(names: seq<string>, files: map<string, seq<byte>>)
  {
    forall n :: n in names ==> n in files
  }

  /** `calculate_Level_hash` over a level directory whose regular files are
      `files` (keyed by their name relative to the level directory). */
  method CalculateLevelHash(files: map<string, seq<byte>>, parseInfo: seq<byte> -> Option<seq<seq<string>>>,
                            sha1: seq<byte> -> Sha1Digest)
    returns (r: LevelHashResult)
    ensures r == NoInfoFile <==> "info.dat" !in files
    ensures r == HashFailed(InfoNotParsable) <==> "info.dat" in files && parseInfo(files["info.dat"]).None?
    ensures r.HashFailed? && r.error.BeatmapMissing? ==>
      "info.dat" in files && parseInfo(files["info.dat"]).Some?
      && r.error.name in BeatmapFiles(parseInfo(files["info.dat"]).value) && r.error.name !in files
    ensures r.LevelHash? <==>
      "info.dat" in files && parseInfo(files["info.dat"]).Some?
      && AllPresent(BeatmapFiles(parseInfo(files["info.dat"]).value), files)
    ensures r.LevelHash? ==>
      && |r.hex| == 40 && (forall i :: 0 <= i < 40 ==> IsHexDigit(r.hex[i]))
      && var sets := parseInfo(files["info.dat"]).value;
         AllPresent(BeatmapFiles(sets), files)
         && r.hex == HexUpper(sha1(HashedStream(files["info.dat"], sets, files)))
  {
    if "info.dat" !in files {
      return NoInfoFile;
    }
    var info := files["info.dat"];
    var parsed := parseInfo(info);
    if parsed.None? {
      return HashFailed(InfoNotParsable);
    }
    var sets := parsed.value;
    var fed := info;
    for i := 0 to |sets|
      invariant AllPresent(BeatmapFiles(sets[..i]), files)
      invariant fed == info + Contents(BeatmapFiles(sets[..i]), files)
    {
      var missing;
      fed, missing := FeedSet(fed, sets[i], files);
      if missing.Some? {
        MissingIsReferenced(sets, i, missing.value);
        return HashFailed(BeatmapMissing(missing.value));
      }
      BeatmapFilesSnoc(sets, i);
      ContentsConcat(BeatmapFiles(sets[..i]), sets[i], files);
    }
    assert sets[..|sets|] == sets;
    r := LevelHash(HexUpper(sha1(fed)));
  }

  /** The inner loop of `calculate_Level_hash`: feeds the files of one
      difficulty set to the hasher, in order, and stops at the first one
      that is not present. */
  method FeedSet(fed: seq<byte>, names: seq<string>, files: map<string, seq<byte>>)
    returns (fed': seq<byte>, missing: Option<string>)
    ensures missing.None? ==> AllPresent(names, files) && fed' == fed + Contents(names, files)
    ensures missing.Some? ==> missing.value in names && missing.value !in files
  {
    fed' := fed;
    for j := 0 to |names|
      invariant AllPresent(names[..j], files)
      invariant fed' == fed + Contents(names[..j], files)
    {
      var name := names[j];
      if name !in files {
        return fed', Some(name);
      }
      assert names[..j + 1] == names[..j] + [name];
      ContentsSnoc(names[..j], name, files);
      fed' := fed' + files[name];
    }
    assert names[..|names|] == names;
    missing := None;
  }

  /** A beatmap file named in set `i` is one of the referenced files of the
      whole document. */
  lemma MissingIsReferenced(sets: seq<seq<string>>, i: nat, name: string)
    requires i < |sets| && name in sets[i]
    ensures name in BeatmapFiles(sets)
  {
    BeatmapFilesContain(sets, i);
  }

  lemma {:induction false} BeatmapFilesContain(sets: seq<seq<string>>, i: nat)
    requires i < |sets|
    ensures forall n :: n in sets[i] ==> n in BeatmapFiles(sets)
    decreases |sets|
  {
    if i < |sets| - 1 {
      BeatmapFilesContain(sets[..|sets| - 1], i);
    }
  }

  /** The contents of a run of files depend only on the files it names. */
  lemma {:induction false} ContentsFrame(names: seq<string>, files1: map<string, seq<byte>>,
                                         files2: map<string, seq<byte>>)
    requires AllPresent(names, files1) && AllPresent(names, files2)
    requires forall n :: n in names ==> files1[n] == files2[n]
    ensures Contents(names, files1) == Contents(names, files2)
    decreases |names|
  {
    if names != [] {
      ContentsFrame(names[..|names| - 1], files1, files2);
    }
  }

  /** The hash reads `info.dat` and the referenced beatmap files and nothing
      else: two levels that agree on those files get the same hash, whatever
      other files their directories hold. */
  lemma HashReadsOnlyReferenced(files1: map<string, seq<byte>>, files2: map<string, seq<byte>>,
                                sets: seq<seq<string>>, sha1: seq<byte> -> Sha1Digest)
    requires "info.dat" in files1 && "info.dat" in files2 && files1["info.dat"] == files2["info.dat"]
    requires AllPresent(BeatmapFiles(sets), files1) && AllPresent(BeatmapFiles(sets), files2)
    requires forall n :: n in BeatmapFiles(sets) ==> files1[n] == files2[n]
    ensures HashedStream(files1["info.dat"], sets, files1) == HashedStream(files2["info.dat"], sets, files2)
    ensures HexUpper(sha1(HashedStream(files1["info.dat"], sets, files1)))
         == HexUpper(sha1(HashedStream(files2["info.dat"], sets, files2)))
  {
    ContentsFrame(BeatmapFiles(sets), files1, files2);
  }

  /** Difficulty sets that list no beatmap contribute no file. */
  lemma {:induction false} EmptySetsNoFiles(sets: seq<seq<string>>)
    ensures (forall i :: 0 <= i < |sets| ==> sets[i] == []) ==> BeatmapFiles(sets) == []
    decreases |sets|
  {
    if sets != [] {
      EmptySetsNoFiles(sets[..|sets| - 1]);
    }
  }

  /** The stream starts with the raw `info.dat` bytes and then holds the
      referenced files of the first set before those of the others. */
  lemma StreamLayout(info: seq<byte>, first: seq<string>, rest: seq<seq<string>>, files: map<string, seq<byte>>)
    requires AllPresent(BeatmapFiles([first] + rest), files)
    ensures BeatmapFiles([first] + rest) == first + BeatmapFiles(rest)
    ensures HashedStream(info, [first] + rest, files) == info + Contents(first, files) + Contents(BeatmapFiles(rest), files)
  {
    BeatmapFilesCons(first, rest);
    ContentsConcat(first, BeatmapFiles(rest), files);
  }

  lemma {:induction false} BeatmapFilesCons(first: seq<string>, rest: seq<seq<string>>)
    ensures BeatmapFiles([first] + rest) == first + BeatmapFiles(rest)
    decreases |rest|
  {
    if rest != [] {
      var s := [first] + rest;
      assert s[..|s| - 1] == [first] + rest[..|rest| - 1];
      BeatmapFilesCons(first, rest[..|rest| - 1]);
    } else {
      assert [first][..0] == [];
    }
  }

  // ---------------------------------------------------------------------------
  // URI classification (`get_map_or_playlist_resource_type`)
  // ---------------------------------------------------------------------------

  datatype UriType =
    | Unknown | MapFile | MapScoresaber | MapBeatsaver | MapBeatsaverOneclick
    | MapBeatsaverKey | MapBsaber | PlaylistFile | PlaylistBsaber

  /** The parts of `urlparse(input)` the classifiers read. */
  datatype ParsedUri = ParsedUri(scheme: string, hostname: Option<string>, path: string)

  /** `parsed.path.split("/")` indexed past its end. */
  datatype UriError = PathTooShort

  /** The local-file branch applies: the path exists and names a `.zip` or
      `.bplist` file. */
  predicate LocalSuffixHit(input: string, present: bool)
  {
    present && Suffix(FinalComponent(input)) in {".zip", ".bplist"}
  }

  /** The classifier as written.  `present` is `os.path.exists(input)`.  The
      guard `not uri_path.is_file` tests the method object, which is always
      true, so an existing directory is never reported as unknown. */
  function ResourceType(input: string, present: bool, url: ParsedUri): (r: Result<Option<UriType>, UriError>)
    ensures r == Ok(Some(MapFile)) <==> present && Suffix(FinalComponent(input)) == ".zip"
    ensures r == Ok(Some(PlaylistFile)) <==> present && Suffix(FinalComponent(input)) == ".bplist"
    ensures !LocalSuffixHit(input, present) ==> r == ClassifyUrl(url)
    ensures r.Err? <==>
      !LocalSuffixHit(input, present) && url.hostname == Some("bsaber.com") && |Split(url.path, '/')| < 2
    ensures r != Ok(Some(Unknown))
  {
    if present && Suffix(FinalComponent(input)) == ".zip" then Ok(Some(MapFile))
    else if present && Suffix(FinalComponent(input)) == ".bplist" then Ok(Some(PlaylistFile))
    else ClassifyUrl(url)
  }

  /** An existing file `<dir>/<stem>.zip` or `<dir>/<stem>.bplist` is
      classified by that extension, whatever URL it also parses as. */
  lemma LocalFileByExtension(dir: string, stem: string, url: ParsedUri)
    requires stem != "" && '/' !in stem
    ensures ResourceType(dir + "/" + stem + ".zip", true, url) == Ok(Some(MapFile))
    ensures ResourceType(dir + "/" + stem + ".bplist", true, url) == Ok(Some(PlaylistFile))
  {
    assert (stem + ".zip")[|stem|] == '.';
    assert (stem + ".bplist")[|stem|] == '.';
    assert dir + "/" + stem + ".zip" == dir + "/" + (stem + ".zip");
    assert dir + "/" + stem + ".bplist" == dir + "/" + (stem + ".bplist");
    FinalComponentOfSegment(dir, stem + ".zip");
    FinalComponentOfSegment(dir, stem + ".bplist");
    SuffixOfExtension(stem, ".zip");
    SuffixOfExtension(stem, ".bplist");
  }

  /** The URL part of the classifier: BeatSaver pages by scheme, BeatSaber
      pages by their first path segment, nothing for any other host. */
  function ClassifyUrl(url: ParsedUri): (r: Result<Option<UriType>, UriError>)
    ensures url.hostname == Some("beatsaver.com") ==>
      r == Ok(Some(if url.scheme == "beatsaver" then MapBeatsaverOneclick else MapBeatsaver))
    ensures url.hostname == Some("bsaber.com") && |Split(url.path, '/')| >= 2 ==>
      r == Ok(Some(if Split(url.path, '/')[1] == "songs" then MapBsaber else PlaylistBsaber))
    ensures url.hostname == Some("bsaber.com") && |Split(url.path, '/')| < 2 ==> r == Err(PathTooShort)
    ensures r == Ok(None) <==> url.hostname != Some("beatsaver.com") && url.hostname != Some("bsaber.com")
  {
    if url.hostname == Some("beatsaver.com") then
      Ok(Some(if url.scheme == "beatsaver" then MapBeatsaverOneclick else MapBeatsaver))
    else if url.hostname == Some("bsaber.com") then
      var parts := Split(url.path, '/');
      if |parts| < 2 then Err(PathTooShort)
      else Ok(Some(if parts[1] == "songs" then MapBsaber else PlaylistBsaber))
    else Ok(None)
  }

  /** A BeatSaber page `/songs/...` is a map page, any other page with a
      first segment a playlist page; a path without a first segment (only
      the empty path parses that way) is the `IndexError`. */
  lemma BsaberPages(rest: string, url: ParsedUri)
    requires url.hostname == Some("bsaber.com")
    ensures ClassifyUrl(url.(path := "/songs/" + rest)) == Ok(Some(MapBsaber))
    ensures ClassifyUrl(url.(path := "")) == Err(PathTooShort)
  {
    assert "/songs/" + rest == "" + ['/'] + ("songs" + ['/'] + rest);
    SplitPrefixSegment("", "songs" + ['/'] + rest, '/');
    SplitPrefixSegment("songs", rest, '/');
  }

  /** The classifier with the existence branch guarded by `is_file()`, as the
      comment-free early return evidently intends: `isFile` is
      `Path(input).is_file()`. */
  function IntendedResourceType(input: string, present: bool, isFile: bool, url: ParsedUri): (r: Result<Option<UriType>, UriError>)
    ensures present && !isFile ==> r == Ok(Some(Unknown))
    ensures r == Ok(Some(MapFile)) || r == Ok(Some(PlaylistFile)) ==> present && isFile
    ensures !present || isFile ==> r == ResourceType(input, present, url)
  {
    if present && !isFile then Ok(Some(Unknown))
    else ResourceType(input, present, url)
  }

  /** An existing directory named `maps.zip` is classified as a map file as
      written; the guarded classifier reports it as unknown. */
  lemma DirectoryMisclassified()
    ensures ResourceType("maps.zip", true, ParsedUri("", None, "maps.zip")) == Ok(Some(MapFile))
    ensures IntendedResourceType("maps.zip", true, false, ParsedUri("", None, "maps.zip")) == Ok(Some(Unknown))
  {
    ZipNameSuffix();
  }

  lemma ZipNameSuffix()
    ensures Suffix(FinalComponent("maps.zip")) == ".zip"
  {
    FinalComponentOfName("maps.zip");
    SuffixOfExtension("maps", ".zip");
    assert "maps" + ".zip" == "maps.zip";
  }

  // ---------------------------------------------------------------------------
  // Level key (`get_level_key_from_url`)
  // ---------------------------------------------------------------------------

  datatype LevelKey =
    | NoKey                  // the function falls off its end: None
    | Key(key: string)
    | NotImplementedMarker   // the `NotImplementedError` class, returned, not raised

  /** The key of a map page URL: the last path segment, or the one before it
      when the path ends in a slash. */
  function LevelKeyFromUrl(url: ParsedUri, t: UriType): (r: Result<LevelKey, UriError>)
    ensures t == MapScoresaber ==> r == Ok(NotImplementedMarker)
    ensures t !in {MapBeatsaver, MapBsaber, MapScoresaber} ==> r == Ok(NoKey)
    ensures t in {MapBeatsaver, MapBsaber} && r.Ok? ==> r.value.Key? && '/' !in r.value.key
    ensures t in {MapBeatsaver, MapBsaber} ==>
      (r.Err? <==> Split(url.path, '/') == [""])
    ensures t in {MapBeatsaver, MapBsaber} && r.Ok? ==>
      var parts := Split(url.path, '/');
      && (parts[|parts| - 1] != "" ==> r.value.key == parts[|parts| - 1])
      && (parts[|parts| - 1] == "" ==> |parts| >= 2 && r.value.key == parts[|parts| - 2])
  {
    if t == MapBeatsaver || t == MapBsaber then
      var parts := Split(url.path, '/');
      if parts[|parts| - 1] != "" then Ok(Key(parts[|parts| - 1]))
      else if |parts| < 2 then Err(PathTooShort)
      else Ok(Key(parts[|parts| - 2]))
    else if t == MapScoresaber then Ok(NotImplementedMarker)
    else Ok(NoKey)
  }

  /** A map page `<p>/<k>` or `<p>/<k>/` has the key `k`, for every prefix
      `p` and every non-empty segment `k`. */
  lemma {:induction false} KeyIsLastSegment(p: string, k: string, url: ParsedUri, t: UriType)
    requires t in {MapBeatsaver, MapBsaber} && k != "" && '/' !in k
    ensures LevelKeyFromUrl(url.(path := p + "/" + k), t) == Ok(Key(k))
    ensures LevelKeyFromUrl(url.(path := p + "/" + k + "/"), t) == Ok(Key(k))
  {
    SplitAppendSep(p, k, '/');
    SplitTrailingSep(p + "/" + k, '/');
    assert p + "/" + k + "/" == (p + "/" + k) + ['/'];
  }

  /** `…/133ee` and `…/133ee/` give the same key. */
  lemma {:induction false} TrailingSlashSameKey(url: ParsedUri, t: UriType)
    requires t in {MapBeatsaver, MapBsaber}
    requires Split(url.path, '/')[|Split(url.path, '/')| - 1] != ""
    ensures LevelKeyFromUrl(url.(path := url.path + "/"), t) == LevelKeyFromUrl(url, t)
    ensures LevelKeyFromUrl(url, t).Ok?
  {
    SplitTrailingSep(url.path, '/');
  }
}
