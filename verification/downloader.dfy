/**
  The search-and-download driver of `downloader.py` (class
  `advanced_downloader`): directory naming, the per-page Scoresaber filter, the
  pagination loop that fills the download list, the admission loop that
  starts at most `max_threads` downloads at a time, and the query flags sent
  to the leaderboard endpoint.

  The remote leaderboard, the remote detail lookup and the liveness of the
  download threads are parameters (oracles).  The downloader object never
  changes its own fields, so its operations are module-level members that
  take the configuration as a value.
 */
module Downloader {
  import opened Common

  /** One leaderboard entry of a Scoresaber page (one per ranked difficulty). */
  datatype CatalogEntry = CatalogEntry(id: string, stars: real, levelAuthorName: string, name: string)

  /** A download-list entry after its detail record has been attached
      (`level["beatsaver_info"]`). */
  datatype EnrichedLevel = EnrichedLevel(entry: CatalogEntry, info: DetailRecord)

  /** The configuration values the downloader reads in its constructor. */
  datatype DownloaderConfig = DownloaderConfig(
    rankedOnly: int,
    scoresaberSorting: int,
    levelsToDownload: int,
    scoresaberLimit: nat,
    maxThreads: int,
    starsMin: real,
    starsMax: real)

  function Max(a: int, b: int): int { if a < b then b else a }

  function Min(a: int, b: int): int { if a < b then a else b }

  // ---------------------------------------------------------------------------
  // Directory names (`_get_level_dirname`)
  // ---------------------------------------------------------------------------

  /** Membership in `"-_.() " + ascii_letters + digits`. */
  predicate Allowed(c: char)
  {
    c == '-' || c == '_' || c == '.' || c == '(' || c == ')' || c == ' '
    || ('a' <= c <= 'z') || ('A' <= c <= 'Z') || ('0' <= c <= '9')
  }

  /** A character that may appear in a sanitised name: allowed, and not a space. */
  predicate NameSafe(c: char)
  {
    Allowed(c) && c != ' '
  }

  /** The generator-expression filter: the allowed characters of `s`, in order. */
  function KeepAllowed(s: string): (r: string)
    ensures |r| <= |s|
    ensures forall i :: 0 <= i < |r| ==> Allowed(r[i])
    ensures (forall i :: 0 <= i < |s| ==> Allowed(s[i])) ==> r == s
  {
    if s == [] then []
    else if Allowed(s[0]) then [s[0]] + KeepAllowed(s[1..])
    else KeepAllowed(s[1..])
  }

  /** `.replace(" ", "-")`. */
  function SpacesToHyphens(s: string): (r: string)
    ensures |r| == |s|
    ensures forall i :: 0 <= i < |s| ==> r[i] == (if s[i] == ' ' then '-' else s[i])
  {
    if s == [] then [] else [if s[0] == ' ' then '-' else s[0]] + SpacesToHyphens(s[1..])
  }

  /** The sanitised form of an author or level name. */
  function Sanitise(s: string): (r: string)
    ensures |r| <= |s|
    ensures forall i :: 0 <= i < |r| ==> NameSafe(r[i])
  {
    SpacesToHyphens(KeepAllowed(s))
  }

  /** The directory a level is installed into: `{id}_{author}_{name}`. */
  function LevelDirname(e: CatalogEntry): (d: string)
    ensures |d| >= |e.id| + 2 && d[..|e.id| + 1] == e.id + "_"
    ensures forall i :: |e.id| <= i < |d| ==> NameSafe(d[i])
  {
    e.id + "_" + Sanitise(e.levelAuthorName) + "_" + Sanitise(e.name)
  }

  /** For ids without `_` (Scoresaber ids are hashes or numbers), the
      directory name determines the id: different levels are never installed
      into the same directory. */
  lemma LevelDirnameDeterminesId(e1: CatalogEntry, e2: CatalogEntry)
    requires '_' !in e1.id && '_' !in e2.id
    requires LevelDirname(e1) == LevelDirname(e2)
    ensures e1.id == e2.id
  {
    var d := LevelDirname(e1);
    assert d[|e1.id|] == '_' && d[|e2.id|] == '_';
    assert e1.id == d[..|e1.id|] == e2.id;
  }

  /** Sanitising works character by character: it distributes over
      concatenation, keeping each allowed character in place (a space as a
      hyphen) and dropping every other one. */
  lemma SanitiseConcat(a: string, b: string)
    ensures Sanitise(a + b) == Sanitise(a) + Sanitise(b)
  {
    KeepAllowedConcat(a, b);
    SpacesToHyphensConcat(KeepAllowed(a), KeepAllowed(b));
  }

  lemma {:induction false} KeepAllowedConcat(a: string, b: string)
    ensures KeepAllowed(a + b) == KeepAllowed(a) + KeepAllowed(b)
    decreases |a|
  {
    if a == [] {
      assert a + b == b;
    } else {
      assert (a + b)[0] == a[0] && (a + b)[1..] == a[1..] + b;
      KeepAllowedConcat(a[1..], b);
      if Allowed(a[0]) {
        calc {
          KeepAllowed(a + b);
          [a[0]] + KeepAllowed(a[1..] + b);
          [a[0]] + (KeepAllowed(a[1..]) + KeepAllowed(b));
          ([a[0]] + KeepAllowed(a[1..])) + KeepAllowed(b);
        }
      }
    }
  }

  lemma {:induction false} SpacesToHyphensConcat(a: string, b: string)
    ensures SpacesToHyphens(a + b) == SpacesToHyphens(a) + SpacesToHyphens(b)
  {
    var l, r := SpacesToHyphens(a + b), SpacesToHyphens(a) + SpacesToHyphens(b);
    assert |l| == |r|;
    forall i | 0 <= i < |l| ensures l[i] == r[i] {
      if i < |a| { assert (a + b)[i] == a[i]; } else { assert (a + b)[i] == b[i - |a|]; }
    }
  }

  /** The filter keeps a single character exactly when it is allowed; with
      KeepAllowedConcat this fixes the filter on every string. */
  lemma KeepAllowedChar(c: char)
    ensures KeepAllowed([c]) == if Allowed(c) then [c] else []
  {
    assert [c][1..] == [];
  }

  /** A single character is kept (a space becoming a hyphen) exactly when it
      is allowed. */
  lemma SanitiseChar(c: char)
    ensures Sanitise([c]) == if !Allowed(c) then [] else if c == ' ' then ['-'] else [c]
  {
    assert [c][1..] == [];
  }

  /** Sanitising an already sanitised name changes nothing. */
  lemma {:induction false} SanitiseIdempotent(s: string)
    ensures Sanitise(Sanitise(s)) == Sanitise(s)
  {
    SanitiseFixesSafe(Sanitise(s));
  }

  /** A name made of safe characters only is its own sanitised form. */
  lemma {:induction false} SanitiseFixesSafe(s: string)
    requires forall i :: 0 <= i < |s| ==> NameSafe(s[i])
    ensures Sanitise(s) == s
    decreases |s|
  {
    if s != [] {
      SanitiseFixesSafe(s[1..]);
      assert s == [s[0]] + s[1..];
      SanitiseConcat([s[0]], s[1..]);
      SanitiseChar(s[0]);
    }
  }

  // ---------------------------------------------------------------------------
  // The per-page filter (`_filter_levels_scoresaber_only`)
  // ---------------------------------------------------------------------------

  function IdsOf(es: seq<CatalogEntry>): (ids: seq<string>)
    ensures |ids| == |es| && forall i :: 0 <= i < |es| ==> ids[i] == es[i].id
  {
    seq(|es|, i requires 0 <= i < |es| => es[i].id)
  }

  /** An entry survives the filter: its directory is not installed, its stars
      are within the bounds, and its id has not been seen yet. */
  predicate Admissible(e: CatalogEntry, listing: seq<string>, seen: seq<string>, starsMin: real, starsMax: real)
  {
    && LevelDirname(e) !in listing
    && !(e.stars > starsMax || e.stars < starsMin)
    && e.id !in seen
  }

  /** Reference definition of the filter: the page is processed front to
      back, each admitted entry's id joining the seen ids. */
  function FilterSpec(page: seq<CatalogEntry>, listing: seq<string>, seen: seq<string>, starsMin: real, starsMax: real)
    : (f: seq<CatalogEntry>)
    ensures forall i :: 0 <= i < |f| ==> f[i].id !in seen
    ensures AllQualify(f, listing, starsMin, starsMax)
    decreases |page|
  {
    if page == [] then []
    else
      var prev := FilterSpec(page[..|page| - 1], listing, seen, starsMin, starsMax);
      var e := page[|page| - 1];
      if Admissible(e, listing, seen + IdsOf(prev), starsMin, starsMax) then prev + [e] else prev
  }

  /** `a` is `b` with some elements left out (order kept). */
  predicate IsSubsequence<T(==)>(a: seq<T>, b: seq<T>)
    decreases |b|
  {
    if a == [] then true
    else if b == [] then false
    else (a[|a| - 1] == b[|b| - 1] && IsSubsequence(a[..|a| - 1], b[..|b| - 1]))
         || IsSubsequence(a, b[..|b| - 1])
  }

  predicate DistinctIds(es: seq<CatalogEntry>)
  {
    forall i, j :: 0 <= i < j < |es| ==> es[i].id != es[j].id
  }

  /** Every entry within the star bounds and not installed yet. */
  predicate AllQualify(es: seq<CatalogEntry>, listing: seq<string>, starsMin: real, starsMax: real)
  {
    forall i :: 0 <= i < |es| ==> starsMin <= es[i].stars <= starsMax && LevelDirname(es[i]) !in listing
  }

  /** The reference filter keeps a subsequence of the page. */
  lemma {:induction false} FilterSpecSubsequence(page: seq<CatalogEntry>, listing: seq<string>, seen: seq<string>,
                                                 starsMin: real, starsMax: real)
    ensures IsSubsequence(FilterSpec(page, listing, seen, starsMin, starsMax), page)
    decreases |page|
  {
    if page != [] {
      var init := page[..|page| - 1];
      var prev := FilterSpec(init, listing, seen, starsMin, starsMax);
      var e := page[|page| - 1];
      FilterSpecSubsequence(init, listing, seen, starsMin, starsMax);
      if Admissible(e, listing, seen + IdsOf(prev), starsMin, starsMax) {
        var f := prev + [e];
        assert f[..|f| - 1] == prev;
      } else {
        SubsequenceExtend(prev, init, e);
        assert init + [e] == page;
      }
    }
  }

  /** Every entry the reference filter keeps qualifies, was not seen before,
      and no two kept entries share an id. */
  lemma {:induction false} FilterSpecAdmitted(page: seq<CatalogEntry>, listing: seq<string>, seen: seq<string>,
                                              starsMin: real, starsMax: real)
    ensures var f := FilterSpec(page, listing, seen, starsMin, starsMax);
      && AllQualify(f, listing, starsMin, starsMax)
      && (forall i :: 0 <= i < |f| ==> f[i].id !in seen)
      && DistinctIds(f)
    decreases |page|
  {
    if page != [] {
      var init := page[..|page| - 1];
      var prev := FilterSpec(init, listing, seen, starsMin, starsMax);
      var e := page[|page| - 1];
      FilterSpecAdmitted(init, listing, seen, starsMin, starsMax);
      if Admissible(e, listing, seen + IdsOf(prev), starsMin, starsMax) {
        forall i | 0 <= i < |prev| ensures prev[i].id != e.id {
          assert (seen + IdsOf(prev))[|seen| + i] == prev[i].id;
        }
        assert e.id !in seen;
      }
    }
  }

  /** One more entry of the page: the reference filter appends it exactly
      when it is admissible against the ids seen so far. */
  lemma FilterSpecStep(page: seq<CatalogEntry>, n: nat, listing: seq<string>, seen: seq<string>, starsMin: real, starsMax: real)
    requires n < |page|
    ensures var prev := FilterSpec(page[..n], listing, seen, starsMin, starsMax);
      FilterSpec(page[..n + 1], listing, seen, starsMin, starsMax)
      == if Admissible(page[n], listing, seen + IdsOf(prev), starsMin, starsMax) then prev + [page[n]] else prev
  {
    assert page[..n + 1][..n] == page[..n];
  }

  lemma {:induction false} SubsequenceLength<T>(a: seq<T>, b: seq<T>)
    requires IsSubsequence(a, b)
    ensures |a| <= |b|
    decreases |b|
  {
    if a != [] {
      if a[|a| - 1] == b[|b| - 1] && IsSubsequence(a[..|a| - 1], b[..|b| - 1]) {
        SubsequenceLength(a[..|a| - 1], b[..|b| - 1]);
      } else {
        SubsequenceLength(a, b[..|b| - 1]);
      }
    }
  }

  lemma SubsequenceExtend<T>(a: seq<T>, b: seq<T>, x: T)
    requires IsSubsequence(a, b)
    ensures IsSubsequence(a, b + [x])
  {
    assert (b + [x])[..|b|] == b;
  }

  /** Filters one leaderboard page.  `listing` is the download directory's
      listing (empty when the directory does not exist); `idsToFilter` are the
      ids admitted so far and comes back extended by the admitted ids. */
  method FilterLevelsScoresaberOnly(page: seq<CatalogEntry>, listing: seq<string>, idsToFilter: seq<string>,
                                    starsMin: real, starsMax: real)
    returns (filtered: seq<CatalogEntry>, ids: seq<string>)
    ensures filtered == FilterSpec(page, listing, idsToFilter, starsMin, starsMax)
    ensures ids == idsToFilter + IdsOf(filtered)
    ensures IsSubsequence(filtered, page) && |filtered| <= |page|
    ensures AllQualify(filtered, listing, starsMin, starsMax)
    ensures forall i :: 0 <= i < |filtered| ==> filtered[i].id !in idsToFilter
    ensures DistinctIds(filtered)
  {
    filtered, ids := [], idsToFilter;
    for n := 0 to |page|
      invariant filtered == FilterSpec(page[..n], listing, idsToFilter, starsMin, starsMax)
      invariant ids == idsToFilter + IdsOf(filtered)
    {
      var e := page[n];
      FilterSpecStep(page, n, listing, idsToFilter, starsMin, starsMax);
      if LevelDirname(e) in listing {
        continue;
      }
      if e.stars > starsMax || e.stars < starsMin {
        continue;
      }
      if e.id in ids {
        continue;
      }
      IdsOfSnoc(idsToFilter, filtered, e);
      filtered := filtered + [e];
      ids := ids + [e.id];
    }
    assert page[..|page|] == page;
    FilterSpecSubsequence(page, listing, idsToFilter, starsMin, starsMax);
    SubsequenceLength(filtered, page);
    FilterSpecAdmitted(page, listing, idsToFilter, starsMin, starsMax);
  }

  // ---------------------------------------------------------------------------
  // Leaderboard query (`_call_scoresaber_api`)
  // ---------------------------------------------------------------------------

  /** The query parameters of one leaderboard request. */
  datatype LeaderboardQuery = LeaderboardQuery(cat: int, page: int, limit: int, ranked: int)

  /** The parameters as the code sends them: `cat` and `ranked` are the
      truthiness of the configured sorting and ranked-only values. */
  function ScoresaberQuery(cfg: DownloaderConfig, page: int, limit: int): (q: LeaderboardQuery)
    ensures q.cat in {0, 1} && (q.cat == 1 <==> cfg.scoresaberSorting != 0)
    ensures q.ranked in {0, 1} && (q.ranked == 1 <==> cfg.rankedOnly != 0)
    ensures q.page == page && q.limit == limit
  {
    LeaderboardQuery(if cfg.scoresaberSorting != 0 then 1 else 0, page, limit, if cfg.rankedOnly != 0 then 1 else 0)
  }

  /** As written, the sort modes 1 ("Date Ranked"), 2 ("Scores Set") and
      3 ("Star Difficulty") all send the same query. */
  lemma SortModesCollapse(cfg: DownloaderConfig, page: int, limit: int)
    requires cfg.scoresaberSorting == 2
    ensures ScoresaberQuery(cfg, page, limit) == ScoresaberQuery(cfg.(scoresaberSorting := 1), page, limit)
    ensures ScoresaberQuery(cfg, page, limit) == ScoresaberQuery(cfg.(scoresaberSorting := 3), page, limit)
  {
  }

  /** The query with the sort mode passed through as `cat`, as the command
      line's list of sort choices describes it. */
  function IntendedScoresaberQuery(cfg: DownloaderConfig, page: int, limit: int): (q: LeaderboardQuery)
    ensures q.cat == cfg.scoresaberSorting
    ensures q.ranked in {0, 1} && (q.ranked == 1 <==> cfg.rankedOnly != 0)
    ensures q.page == page && q.limit == limit
  {
    LeaderboardQuery(cfg.scoresaberSorting, page, limit, if cfg.rankedOnly != 0 then 1 else 0)
  }

  /** With the intended query, different sort modes give different requests. */
  lemma IntendedSortModesDistinct(cfg: DownloaderConfig, other: int, page: int, limit: int)
    requires other != cfg.scoresaberSorting
    ensures IntendedScoresaberQuery(cfg, page, limit) != IntendedScoresaberQuery(cfg.(scoresaberSorting := other), page, limit)
  {
  }

  // ---------------------------------------------------------------------------
  // The pagination loop (`fetch_and_filter`)
  // ---------------------------------------------------------------------------

  /** One request of the pagination loop: the page size is the configured
      limit, cut down to what is still missing, and the page is the one that
      holds position `requestedUnfiltered` at that page size. */
  function PageRequest(requestedUnfiltered: nat, have: nat, levelsToDownload: int, scoresaberLimit: nat): (r: (nat, nat))
    requires have < levelsToDownload && scoresaberLimit > 0
    ensures var (page, limit) := r;
      && limit == Min(scoresaberLimit, levelsToDownload - have)
      && 0 < limit && have + limit <= levelsToDownload
      && 1 <= page && (page - 1) * limit <= requestedUnfiltered < page * limit
  {
    var limit := if levelsToDownload - have < scoresaberLimit then levelsToDownload - have else scoresaberLimit;
    var page := requestedUnfiltered / limit + 1;
    assert (page - 1) * limit <= requestedUnfiltered < page * limit by {
      assert requestedUnfiltered == (page - 1) * limit + requestedUnfiltered % limit;
    }
    (page, limit)
  }

  /** The page that holds position `position` at page size `limit` is the
      one the source's integer division names. */
  lemma PageOfPosition(position: nat, page: nat, limit: nat)
    requires 0 < limit && 1 <= page && (page - 1) * limit <= position < page * limit
    ensures page == position / limit + 1
  {
    var q := position / limit;
    assert position == q * limit + position % limit;
    assert (page - 1 - q) * limit == (page - 1) * limit - q * limit;
    assert (q - page + 1) * limit == q * limit - (page - 1) * limit;
    ProductBelow(page - 1 - q, limit);
    ProductBelow(q - page + 1, limit);
  }

  /** A multiple of a positive `limit` that is smaller than `limit` has a
      factor of at most zero. */
  lemma ProductBelow(d: int, limit: nat)
    requires 0 < limit && d * limit < limit
    ensures d <= 0
  {
  }

  function SumLimits(requests: seq<(nat, nat)>): nat
  {
    if requests == [] then 0 else SumLimits(requests[..|requests| - 1]) + requests[|requests| - 1].1
  }

  /** Every leaderboard page holds at most the requested number of entries. */
  ghost predicate PagesBounded(leaderboard: (nat, nat) -> Option<seq<CatalogEntry>>)
  {
    forall page, limit :: leaderboard(page, limit).Some? ==> |leaderboard(page, limit).value| <= limit
  }

  /** Reference definition of the download list: each requested page's
      response filtered against the ids gathered before it, concatenated in
      request order.  A page without a response contributes nothing. */
  function Gathered(requests: seq<(nat, nat)>, leaderboard: (nat, nat) -> Option<seq<CatalogEntry>>,
                    listing: seq<string>, starsMin: real, starsMax: real): seq<CatalogEntry>
    decreases |requests|
  {
    if requests == [] then []
    else
      var prev := Gathered(requests[..|requests| - 1], leaderboard, listing, starsMin, starsMax);
      var response := leaderboard(requests[|requests| - 1].0, requests[|requests| - 1].1);
      prev + FilterSpec(if response.Some? then response.value else [], listing, IdsOf(prev), starsMin, starsMax)
  }

  /** The request the loop issues after `before`: it is issued only while
      levels are missing; its page size is the configured one cut down to
      the number of levels still missing; its page number is the one holding
      the position reached by the page sizes requested before it. */
  predicate NextRequest(before: seq<(nat, nat)>, page: nat, limit: nat, cfg: DownloaderConfig,
                        leaderboard: (nat, nat) -> Option<seq<CatalogEntry>>, listing: seq<string>)
  {
    var have := |Gathered(before, leaderboard, listing, cfg.starsMin, cfg.starsMax)|;
    && have < cfg.levelsToDownload
    && limit == Min(cfg.scoresaberLimit, cfg.levelsToDownload - have)
    && 0 < limit
    && page == SumLimits(before) / limit + 1
  }

  /** The request sequence is the one the loop issues: every request is the
      `NextRequest` after those before it. */
  predicate RequestsIssued(requests: seq<(nat, nat)>, cfg: DownloaderConfig,
                           leaderboard: (nat, nat) -> Option<seq<CatalogEntry>>, listing: seq<string>)
    decreases |requests|
  {
    requests == [] ||
      var before := requests[..|requests| - 1];
      && RequestsIssued(before, cfg, leaderboard, listing)
      && NextRequest(before, requests[|requests| - 1].0, requests[|requests| - 1].1, cfg, leaderboard, listing)
  }

  /** Issuing the next request of the loop keeps the rule, and the running
      total of requested page sizes grows by exactly the new limit. */
  lemma RequestsIssuedExtend(requests: seq<(nat, nat)>, cfg: DownloaderConfig,
                             leaderboard: (nat, nat) -> Option<seq<CatalogEntry>>, listing: seq<string>, page: nat, limit: nat)
    requires RequestsIssued(requests, cfg, leaderboard, listing)
    requires |Gathered(requests, leaderboard, listing, cfg.starsMin, cfg.starsMax)| < cfg.levelsToDownload
    requires limit == Min(cfg.scoresaberLimit, cfg.levelsToDownload - |Gathered(requests, leaderboard, listing, cfg.starsMin, cfg.starsMax)|)
    requires 0 < limit && page == SumLimits(requests) / limit + 1
    ensures RequestsIssued(requests + [(page, limit)], cfg, leaderboard, listing)
    ensures SumLimits(requests + [(page, limit)]) == SumLimits(requests) + limit
  {
    assert NextRequest(requests, page, limit, cfg, leaderboard, listing);
    RequestsSnoc(requests, page, limit);
  }

  /** The request `PageRequest` computes is the one the rule allows next. */
  lemma RequestsIssuedNext(requests: seq<(nat, nat)>, cfg: DownloaderConfig,
                           leaderboard: (nat, nat) -> Option<seq<CatalogEntry>>, listing: seq<string>, page: nat, limit: nat)
    requires RequestsIssued(requests, cfg, leaderboard, listing)
    requires |Gathered(requests, leaderboard, listing, cfg.starsMin, cfg.starsMax)| < cfg.levelsToDownload
    requires cfg.scoresaberLimit > 0
    requires (page, limit) == PageRequest(SumLimits(requests), |Gathered(requests, leaderboard, listing, cfg.starsMin, cfg.starsMax)|,
                                          cfg.levelsToDownload, cfg.scoresaberLimit)
    ensures RequestsIssued(requests + [(page, limit)], cfg, leaderboard, listing)
    ensures SumLimits(requests + [(page, limit)]) == SumLimits(requests) + limit
  {
    PageOfPosition(SumLimits(requests), page, limit);
    RequestsIssuedExtend(requests, cfg, leaderboard, listing, page, limit);
  }

  /** The request sequence with one more request splits back into the old
      sequence and the new request. */
  lemma RequestsSnoc(requests: seq<(nat, nat)>, page: nat, limit: nat)
    ensures (requests + [(page, limit)])[..|requests|] == requests
    ensures (requests + [(page, limit)])[|requests|] == (page, limit)
  {
  }

  /** Every issued request asks for a page size between 1 and the
      configured limit. */
  lemma {:induction false} RequestsIssuedBounded(requests: seq<(nat, nat)>, cfg: DownloaderConfig,
                                                 leaderboard: (nat, nat) -> Option<seq<CatalogEntry>>, listing: seq<string>)
    requires RequestsIssued(requests, cfg, leaderboard, listing)
    ensures forall k :: 0 <= k < |requests| ==> 0 < requests[k].1 <= cfg.scoresaberLimit
    decreases |requests|
  {
    if requests != [] {
      var before := requests[..|requests| - 1];
      RequestsIssuedBounded(before, cfg, leaderboard, listing);
      assert forall k :: 0 <= k < |before| ==> before[k] == requests[k];
    }
  }

  /** Issuing the next request extends the reference list by its filtered
      response. */
  lemma GatheredExtend(requests: seq<(nat, nat)>, leaderboard: (nat, nat) -> Option<seq<CatalogEntry>>,
                       listing: seq<string>, starsMin: real, starsMax: real, page: nat, limit: nat)
    ensures var prev := Gathered(requests, leaderboard, listing, starsMin, starsMax);
      var response := leaderboard(page, limit);
      Gathered(requests + [(page, limit)], leaderboard, listing, starsMin, starsMax)
      == prev + FilterSpec(if response.Some? then response.value else [], listing, IdsOf(prev), starsMin, starsMax)
  {
    assert (requests + [(page, limit)])[..|requests|] == requests;
  }

  /** The reference list holds distinct ids, and every entry qualifies. */
  lemma {:induction false} GatheredAdmitted(requests: seq<(nat, nat)>, leaderboard: (nat, nat) -> Option<seq<CatalogEntry>>,
                                            listing: seq<string>, starsMin: real, starsMax: real)
    ensures var g := Gathered(requests, leaderboard, listing, starsMin, starsMax);
      DistinctIds(g) && AllQualify(g, listing, starsMin, starsMax)
    decreases |requests|
  {
    if requests != [] {
      var before := requests[..|requests| - 1];
      var prev := Gathered(before, leaderboard, listing, starsMin, starsMax);
      var response := leaderboard(requests[|requests| - 1].0, requests[|requests| - 1].1);
      var page := if response.Some? then response.value else [];
      GatheredAdmitted(before, leaderboard, listing, starsMin, starsMax);
      FilterSpecAdmitted(page, listing, IdsOf(prev), starsMin, starsMax);
      ExtendDownloadList(prev, FilterSpec(page, listing, IdsOf(prev), starsMin, starsMax), listing, starsMin, starsMax);
    }
  }

  /** Admitting one more entry appends its id to the seen ids. */
  lemma IdsOfSnoc(seen: seq<string>, es: seq<CatalogEntry>, e: CatalogEntry)
    ensures seen + IdsOf(es + [e]) == (seen + IdsOf(es)) + [e.id]
  {
    IdsOfConcat(es, [e]);
  }

  lemma IdsOfConcat(a: seq<CatalogEntry>, b: seq<CatalogEntry>)
    ensures IdsOf(a + b) == IdsOf(a) + IdsOf(b)
  {
    assert forall i :: 0 <= i < |a + b| ==> IdsOf(a + b)[i] == (IdsOf(a) + IdsOf(b))[i];
  }

  datatype FetchError =
    | ZeroPageLimit                             // division by a zero page size
    | LeaderboardUnavailable(page: nat, limit: nat)  // non-ok response: no JSON to index
    | DetailUndecodable(id: string)             // detail response is not JSON

  /** How the pagination loop ends. */
  datatype SearchResult =
    | ListFull(list: seq<CatalogEntry>)
    | SearchFailed(error: FetchError)
    | SearchOutOfFuel(partial: seq<CatalogEntry>)

  datatype FetchOutcome =
    | Fetched(levels: seq<EnrichedLevel>)
    | Failed(error: FetchError)
    | StillSearching(partial: seq<CatalogEntry>)  // the fuel ran out before the list was full

  /** The first loop of `fetch_and_filter`: requests leaderboard pages until
      the download list holds `levelsToDownload` entries.  The loop has no
      other exit, so `fuel` bounds the number of pages this model requests.
      `requests` lists the (page, limit) pairs requested. */
  method SearchLeaderboard(cfg: DownloaderConfig, listing: seq<string>,
                           leaderboard: (nat, nat) -> Option<seq<CatalogEntry>>, fuel: nat)
    returns (r: SearchResult, requests: seq<(nat, nat)>)
    ensures RequestsIssued(requests, cfg, leaderboard, listing)
    ensures |requests| <= fuel
    ensures r == SearchFailed(ZeroPageLimit) <==> (cfg.scoresaberLimit == 0 && cfg.levelsToDownload > 0 && fuel > 0)
    ensures r.SearchFailed? ==> r.error.ZeroPageLimit? || r.error.LeaderboardUnavailable?
    ensures r.SearchFailed? && r.error.LeaderboardUnavailable? ==>
      requests != [] && requests[|requests| - 1] == (r.error.page, r.error.limit)
      && leaderboard(r.error.page, r.error.limit).None?
    ensures forall k :: 0 <= k < |requests| ==>
      leaderboard(requests[k].0, requests[k].1).Some? || (r.SearchFailed? && r.error.LeaderboardUnavailable? && k == |requests| - 1)
    ensures r.SearchOutOfFuel? ==> |requests| == fuel && |r.partial| < cfg.levelsToDownload
    ensures r.SearchOutOfFuel? ==> r.partial == Gathered(requests, leaderboard, listing, cfg.starsMin, cfg.starsMax)
    ensures r.ListFull? ==>
      && r.list == Gathered(requests, leaderboard, listing, cfg.starsMin, cfg.starsMax)
      && |r.list| >= cfg.levelsToDownload
      && (PagesBounded(leaderboard) ==> |r.list| == Max(cfg.levelsToDownload, 0))
  {
    var requestedUnfiltered: nat := 0;
    var downloadList: seq<CatalogEntry> := [];
    var idsToFilter: seq<string> := [];
    requests := [];
    var budget: nat := fuel;
    while |downloadList| < cfg.levelsToDownload
      invariant budget + |requests| == fuel
      invariant requestedUnfiltered == SumLimits(requests)
      invariant idsToFilter == IdsOf(downloadList)
      invariant PagesBounded(leaderboard) ==> |downloadList| <= Max(cfg.levelsToDownload, 0)
      invariant requests == [] ==> downloadList == []
      invariant requests == [] || cfg.scoresaberLimit > 0
      invariant downloadList == Gathered(requests, leaderboard, listing, cfg.starsMin, cfg.starsMax)
      invariant RequestsIssued(requests, cfg, leaderboard, listing)
      invariant forall k :: 0 <= k < |requests| ==> leaderboard(requests[k].0, requests[k].1).Some?
      decreases budget
    {
      if budget == 0 {
        return SearchOutOfFuel(downloadList), requests;
      }
      if cfg.scoresaberLimit == 0 {
        return SearchFailed(ZeroPageLimit), requests;
      }
      var next := PageRequest(requestedUnfiltered, |downloadList|, cfg.levelsToDownload, cfg.scoresaberLimit);
      var (page, limit) := next;
      RequestsIssuedNext(requests, cfg, leaderboard, listing, page, limit);
      GatheredExtend(requests, leaderboard, listing, cfg.starsMin, cfg.starsMax, page, limit);
      requests := requests + [(page, limit)];
      budget := budget - 1;
      var response := leaderboard(page, limit);
      if response.None? {
        return SearchFailed(LeaderboardUnavailable(page, limit)), requests;
      }
      requestedUnfiltered := requestedUnfiltered + limit;
      var filtered;
      filtered, idsToFilter := FilterLevelsScoresaberOnly(response.value, listing, idsToFilter, cfg.starsMin, cfg.starsMax);
      assert PagesBounded(leaderboard) ==> |filtered| <= limit by {
        if PagesBounded(leaderboard) {
          assert |leaderboard(page, limit).value| <= limit;
        }
      }
      IdsOfConcat(downloadList, filtered);
      downloadList := downloadList + filtered;
    }
    r := ListFull(downloadList);
  }

  /** `fetch_and_filter`: the pagination loop, then a detail record attached
      to each listed level. */
  method FetchAndFilter(cfg: DownloaderConfig, listing: seq<string>,
                        leaderboard: (nat, nat) -> Option<seq<CatalogEntry>>,
                        detail: string -> Option<DetailRecord>, fuel: nat)
    returns (out: FetchOutcome, requests: seq<(nat, nat)>)
    ensures RequestsIssued(requests, cfg, leaderboard, listing)
    ensures |requests| <= fuel
    ensures out == Failed(ZeroPageLimit) <==> (cfg.scoresaberLimit == 0 && cfg.levelsToDownload > 0 && fuel > 0)
    ensures out.Failed? && out.error.LeaderboardUnavailable? ==>
      requests != [] && requests[|requests| - 1] == (out.error.page, out.error.limit)
      && leaderboard(out.error.page, out.error.limit).None?
    ensures forall k :: 0 <= k < |requests| ==>
      leaderboard(requests[k].0, requests[k].1).Some? || (out.Failed? && out.error.LeaderboardUnavailable? && k == |requests| - 1)
    ensures out.StillSearching? ==> |requests| == fuel && |out.partial| < cfg.levelsToDownload
    ensures out.StillSearching? ==> out.partial == Gathered(requests, leaderboard, listing, cfg.starsMin, cfg.starsMax)
    ensures out.Failed? && out.error.DetailUndecodable? ==>
      && |Gathered(requests, leaderboard, listing, cfg.starsMin, cfg.starsMax)| >= cfg.levelsToDownload
      && detail(out.error.id).None?
      && out.error.id in IdsOf(Gathered(requests, leaderboard, listing, cfg.starsMin, cfg.starsMax))
    ensures out.Fetched? ==>
      && Entries(out.levels) == Gathered(requests, leaderboard, listing, cfg.starsMin, cfg.starsMax)
      && |out.levels| >= cfg.levelsToDownload
      && (PagesBounded(leaderboard) ==> |out.levels| == Max(cfg.levelsToDownload, 0))
      && DistinctIds(Entries(out.levels))
      && AllQualify(Entries(out.levels), listing, cfg.starsMin, cfg.starsMax)
      && forall i :: 0 <= i < |out.levels| ==> detail(out.levels[i].entry.id) == Some(out.levels[i].info)
  {
    var search;
    search, requests := SearchLeaderboard(cfg, listing, leaderboard, fuel);
    match search {
      case SearchOutOfFuel(partial) =>
        out := StillSearching(partial);
      case SearchFailed(error) =>
        out := Failed(error);
      case ListFull(downloadList) =>
        GatheredAdmitted(requests, leaderboard, listing, cfg.starsMin, cfg.starsMax);
        var attached := AttachDetails(downloadList, detail);
        if attached.Err? {
          assert attached.error.id in IdsOf(downloadList) by {
            var n :| 0 <= n < |downloadList| && downloadList[n].id == attached.error.id
                     && forall i :: 0 <= i < n ==> detail(downloadList[i].id).Some?;
            assert IdsOf(downloadList)[n] == attached.error.id;
          }
          out := Failed(attached.error);
        } else {
          out := Fetched(attached.value);
        }
    }
  }

  /** The second loop of `fetch_and_filter`: looks up each listed level's
      detail record by its id, in list order; the first undecodable response
      aborts the whole search. */
  method AttachDetails(downloadList: seq<CatalogEntry>, detail: string -> Option<DetailRecord>)
    returns (r: Result<seq<EnrichedLevel>, FetchError>)
    ensures r.Ok? <==> forall i :: 0 <= i < |downloadList| ==> detail(downloadList[i].id).Some?
    ensures r.Ok? ==>
      && Entries(r.value) == downloadList
      && forall i :: 0 <= i < |r.value| ==> detail(r.value[i].entry.id) == Some(r.value[i].info)
    ensures r.Err? ==> r.error.DetailUndecodable? && detail(r.error.id).None?
    ensures r.Err? ==> exists n :: 0 <= n < |downloadList| && downloadList[n].id == r.error.id
                                 && forall i :: 0 <= i < n ==> detail(downloadList[i].id).Some?
  {
    var levels: seq<EnrichedLevel> := [];
    for n := 0 to |downloadList|
      invariant Entries(levels) == downloadList[..n]
      invariant forall i :: 0 <= i < n ==> detail(downloadList[i].id).Some?
      invariant forall i :: 0 <= i < n ==> detail(levels[i].entry.id) == Some(levels[i].info)
    {
      var info := detail(downloadList[n].id);
      if info.None? {
        return Err(DetailUndecodable(downloadList[n].id));
      }
      levels := levels + [EnrichedLevel(downloadList[n], info.value)];
      assert Entries(levels) == Entries(levels[..n]) + [downloadList[n]];
    }
    assert downloadList[..|downloadList|] == downloadList;
    r := Ok(levels);
  }

  function Entries(levels: seq<EnrichedLevel>): (es: seq<CatalogEntry>)
    ensures |es| == |levels| && forall i :: 0 <= i < |levels| ==> es[i] == levels[i].entry
  {
    seq(|levels|, i requires 0 <= i < |levels| => levels[i].entry)
  }

  /** Appending a filtered page to the download list keeps the list's ids
      distinct and every entry qualifying. */
  lemma ExtendDownloadList(list: seq<CatalogEntry>, more: seq<CatalogEntry>, listing: seq<string>, starsMin: real, starsMax: real)
    requires DistinctIds(list) && DistinctIds(more)
    requires AllQualify(list, listing, starsMin, starsMax) && AllQualify(more, listing, starsMin, starsMax)
    requires forall i :: 0 <= i < |more| ==> more[i].id !in IdsOf(list)
    ensures DistinctIds(list + more)
    ensures AllQualify(list + more, listing, starsMin, starsMax)
    ensures IdsOf(list + more) == IdsOf(list) + IdsOf(more)
  {
    AppendKeepsDistinct(list, more);
  }

  lemma AppendKeepsDistinct(list: seq<CatalogEntry>, more: seq<CatalogEntry>)
    requires DistinctIds(list) && DistinctIds(more)
    requires forall i :: 0 <= i < |more| ==> more[i].id !in IdsOf(list)
    ensures DistinctIds(list + more)
  {
    forall i, j | 0 <= i < j < |list + more| ensures (list + more)[i].id != (list + more)[j].id {
      if i < |list| <= j {
        assert IdsOf(list)[i] == list[i].id;
      }
    }
  }

  // ---------------------------------------------------------------------------
  // The admission loop (`download_levels`)
  // ---------------------------------------------------------------------------

  /** The arguments a download thread is started with. */
  datatype DownloadJob = DownloadJob(url: string, dirname: string)

  const DownloadHost: string := "https://beatsaver.com"

  /** The thread arguments for one level: the record's download path on the
      BeatSaver host, and the level's directory name. */
  function JobFor(level: EnrichedLevel): (job: DownloadJob)
    ensures |job.url| == |DownloadHost| + |level.info.directDownload|
    ensures job.url[..|DownloadHost|] == DownloadHost && job.url[|DownloadHost|..] == level.info.directDownload
    ensures job.dirname == LevelDirname(level.entry)
  {
    DownloadJob(DownloadHost + level.info.directDownload, LevelDirname(level.entry))
  }

  predicate StrictlyIncreasing(s: seq<nat>)
  {
    forall a, b :: 0 <= a < b < |s| ==> s[a] < s[b]
  }

  predicate NonDecreasing(s: seq<nat>)
  {
    forall a, b :: 0 <= a < b < |s| ==> s[a] <= s[b]
  }

  /** The threads of `running` still alive in round `round`, in order. */
  function Survivors(running: seq<nat>, round: nat, alive: (nat, nat) -> bool): seq<nat>
    decreases |running|
  {
    if running == [] then []
    else
      var prev := Survivors(running[..|running| - 1], round, alive);
      var last := running[|running| - 1];
      if alive(round, last) then prev + [last] else prev
  }

  /** The survivors are exactly the running threads alive in that round, and
      stay in increasing order. */
  lemma {:induction false} SurvivorsSpec(running: seq<nat>, round: nat, alive: (nat, nat) -> bool)
    requires StrictlyIncreasing(running)
    ensures forall n :: n in Survivors(running, round, alive) <==> n in running && alive(round, n)
    ensures StrictlyIncreasing(Survivors(running, round, alive))
    ensures |Survivors(running, round, alive)| <= |running|
    ensures |Survivors(running, round, alive)| == |running| <==> forall n :: n in running ==> alive(round, n)
    ensures forall k :: 0 <= k < |Survivors(running, round, alive)| && running != [] ==>
      Survivors(running, round, alive)[k] <= running[|running| - 1]
    decreases |running|
  {
    if running != [] {
      var init := running[..|running| - 1];
      var last := running[|running| - 1];
      assert forall n :: n in running <==> n in init || n == last;
      SurvivorsSpec(init, round, alive);
      var prev := Survivors(init, round, alive);
      if init != [] {
        assert init[|init| - 1] < last;
      }
      assert forall k :: 0 <= k < |prev| ==> prev[k] < last;
      if alive(round, last) {
        assert Survivors(running, round, alive) == prev + [last];
      } else {
        assert Survivors(running, round, alive) == prev;
      }
    }
  }

  /** Polling one more thread either keeps it (alive) or drops it. */
  lemma SurvivorsSnoc(running: seq<nat>, j: nat, round: nat, alive: (nat, nat) -> bool)
    requires j < |running|
    ensures Survivors(running[..j + 1], round, alive)
      == if alive(round, running[j]) then Survivors(running[..j], round, alive) + [running[j]]
         else Survivors(running[..j], round, alive)
  {
    assert running[..j + 1][..j] == running[..j];
  }

  /** Dropping the element at `i` leaves the prefix before it and shifts the
      rest down by one. */
  lemma DropAt(s: seq<nat>, i: nat)
    requires i < |s|
    ensures (s[..i] + s[i + 1..])[..i] == s[..i]
    ensures (s[..i] + s[i + 1..])[i..] == s[i + 1..]
  {
  }

  /** The polling pass of `download_levels`: walks the running threads in
      order, dropping each one that is no longer alive in round `round`.
      `ended` counts the threads dropped. */
  method PollRunning(running: seq<nat>, round: nat, alive: (nat, nat) -> bool) returns (still: seq<nat>, ended: nat)
    requires StrictlyIncreasing(running)
    ensures still == Survivors(running, round, alive)
    ensures forall n :: n in still <==> n in running && alive(round, n)
    ensures |still| + ended == |running|
    ensures ended == 0 <==> forall n :: n in running ==> alive(round, n)
    ensures StrictlyIncreasing(still)
  {
    still, ended := running, 0;
    var i := 0;
    ghost var j := 0;
    ghost var kept: seq<nat> := [];
    while i < |still|
      invariant 0 <= i <= |still| && i <= j <= |running|
      invariant kept == Survivors(running[..j], round, alive)
      invariant i == |kept| && still[..i] == kept && still[i..] == running[j..]
      invariant ended == j - i
    {
      SurvivorsSnoc(running, j, round, alive);
      assert still[i] == running[j];
      if !alive(round, still[i]) {
        DropAt(still, i);
        still := still[..i] + still[i + 1..];
        ended := ended + 1;
      } else {
        kept := kept + [running[j]];
        i := i + 1;
      }
      j := j + 1;
    }
    assert running[..j] == running;
    assert still == still[..i];
    SurvivorsSpec(running, round, alive);
  }

  /** Reporting a count no smaller than every earlier report keeps the
      progress reports in order. */
  lemma ProgressExtend(progress: seq<nat>, before: nat, after: nat)
    requires NonDecreasing(progress) && forall k :: 0 <= k < |progress| ==> progress[k] <= before
    requires before <= after
    ensures NonDecreasing(progress + [after])
    ensures forall k :: 0 <= k < |progress + [after]| ==> (progress + [after])[k] <= after
  {
  }

  /** Appending a position above every running one keeps the list increasing. */
  lemma AppendIncreasing(s: seq<nat>, x: nat)
    requires StrictlyIncreasing(s) && forall n :: n in s ==> n < x
    ensures StrictlyIncreasing(s + [x]) && forall n :: n in s + [x] ==> n < x + 1
  {
    forall a, b | 0 <= a < b < |s + [x]|
      ensures (s + [x])[a] < (s + [x])[b]
    {
      assert s[a] in s;
    }
  }

  /** The schedule recorded by `DownloadLevels` agrees with the liveness
      oracle: a thread is running exactly while it has no end round; it ended
      in a polling round after its start, found dead then; and in every
      polling round after its start and before its end it was alive. */
  ghost predicate Schedule(running: seq<nat>, started: seq<nat>, endedAt: seq<Option<nat>>, polls: seq<nat>,
                           alive: (nat, nat) -> bool)
  {
    && |started| == |endedAt|
    && (forall n :: 0 <= n < |endedAt| ==> (n in running <==> endedAt[n].None?))
    && (forall n :: 0 <= n < |endedAt| && endedAt[n].Some? ==>
          started[n] < endedAt[n].value && endedAt[n].value in polls && !alive(endedAt[n].value, n))
    && (forall n, r :: 0 <= n < |endedAt| && r in polls && started[n] < r && (endedAt[n].None? || r < endedAt[n].value)
                     ==> alive(r, n))
  }

  /** The end rounds after polling round `round` dropped the dead threads of `running`. */
  ghost function EndRounds(endedAt: seq<Option<nat>>, running: seq<nat>, round: nat, alive: (nat, nat) -> bool): (e: seq<Option<nat>>)
    ensures |e| == |endedAt|
  {
    seq(|endedAt|, n requires 0 <= n < |endedAt| =>
          if n in running && !alive(round, n) then Some(round) else endedAt[n])
  }

  /** Starting the thread of the next level, in round `round`, keeps the schedule. */
  lemma ScheduleStart(running: seq<nat>, started: seq<nat>, endedAt: seq<Option<nat>>, polls: seq<nat>,
                      alive: (nat, nat) -> bool, round: nat)
    requires Schedule(running, started, endedAt, polls, alive)
    requires |endedAt| !in running && forall r :: r in polls ==> r < round
    ensures Schedule(running + [|endedAt|], started + [round], endedAt + [None], polls, alive)
  {
    var running', started', endedAt' := running + [|endedAt|], started + [round], endedAt + [None];
    forall n | 0 <= n < |endedAt'|
      ensures n in running' <==> endedAt'[n].None?
    {
      if n < |endedAt| {
        assert started'[n] == started[n] && endedAt'[n] == endedAt[n];
      }
    }
  }

  /** A polling round that keeps exactly the live threads keeps the schedule
      once the dropped threads are given that round as their end. */
  lemma SchedulePoll(running: seq<nat>, still: seq<nat>, started: seq<nat>, endedAt: seq<Option<nat>>,
                     polls: seq<nat>, alive: (nat, nat) -> bool, round: nat)
    requires Schedule(running, started, endedAt, polls, alive)
    requires forall n :: n in still <==> n in running && alive(round, n)
    requires forall n :: n in running ==> n < |endedAt|
    requires forall n :: 0 <= n < |started| ==> started[n] < round
    requires forall r :: r in polls ==> r < round
    ensures Schedule(still, started, EndRounds(endedAt, running, round, alive), polls + [round], alive)
  {
    var e := EndRounds(endedAt, running, round, alive);
    forall n, r | 0 <= n < |e| && r in polls + [round] && started[n] < r && (e[n].None? || r < e[n].value)
      ensures alive(r, n)
    {
      if r == round {
        assert e[n].None?;
        assert n in running;
      }
    }
  }

  /** The state `DownloadLevels` keeps between rounds: the jobs started so
      far are those of the first levels, in order; every started thread is
      either running or finished; at most `maxThreads` run; the running list
      is increasing; the progress reports are in order and never above the
      finished count; nothing finishes while every thread stays alive; and the
      recorded schedule agrees with the liveness oracle. */
  ghost predicate Admitted(levels: seq<EnrichedLevel>, maxThreads: int, alive: (nat, nat) -> bool,
                           jobs: seq<DownloadJob>, finished: nat, running: seq<nat>, progress: seq<nat>,
                           started: seq<nat>, endedAt: seq<Option<nat>>, polls: seq<nat>, round: nat)
  {
    && |jobs| <= |levels| && (forall i :: 0 <= i < |jobs| ==> jobs[i] == JobFor(levels[i]))
    && finished + |running| == |jobs|
    && |running| <= Max(maxThreads, 0)
    && StrictlyIncreasing(running) && (forall n :: n in running ==> n < |jobs|)
    && NonDecreasing(progress) && |progress| == round
    && (forall k :: 0 <= k < |progress| ==> progress[k] <= finished)
    && ((forall r, n :: alive(r, n)) ==> finished == 0)
    && |started| == |jobs| && Schedule(running, started, endedAt, polls, alive)
    && (forall n :: 0 <= n < |started| ==> started[n] < round)
    && (forall r :: r in polls ==> r < round)
  }

  /** A round that starts the thread of the next level keeps the state. */
  lemma AdmitStart(levels: seq<EnrichedLevel>, maxThreads: int, alive: (nat, nat) -> bool,
                   jobs: seq<DownloadJob>, finished: nat, running: seq<nat>, progress: seq<nat>,
                   started: seq<nat>, endedAt: seq<Option<nat>>, polls: seq<nat>, round: nat)
    requires Admitted(levels, maxThreads, alive, jobs, finished, running, progress, started, endedAt, polls, round)
    requires |jobs| < |levels| && |running| < maxThreads
    ensures Admitted(levels, maxThreads, alive, jobs + [JobFor(levels[|jobs|])], finished, running + [|jobs|],
                     progress + [finished], started + [round], endedAt + [None], polls, round + 1)
  {
    ScheduleStart(running, started, endedAt, polls, alive, round);
    AppendIncreasing(running, |jobs|);
    ProgressExtend(progress, finished, finished);
    var jobs' := jobs + [JobFor(levels[|jobs|])];
    assert forall i :: 0 <= i < |jobs'| ==> jobs'[i] == JobFor(levels[i]) by {
      forall i | 0 <= i < |jobs'| ensures jobs'[i] == JobFor(levels[i]) {
        if i < |jobs| { assert jobs'[i] == jobs[i]; }
      }
    }
  }

  /** A round that polls the running threads keeps the state. */
  lemma AdmitPoll(levels: seq<EnrichedLevel>, maxThreads: int, alive: (nat, nat) -> bool,
                  jobs: seq<DownloadJob>, finished: nat, running: seq<nat>, progress: seq<nat>,
                  started: seq<nat>, endedAt: seq<Option<nat>>, polls: seq<nat>, round: nat,
                  still: seq<nat>, ended: nat)
    requires Admitted(levels, maxThreads, alive, jobs, finished, running, progress, started, endedAt, polls, round)
    requires forall n :: n in still <==> n in running && alive(round, n)
    requires |still| + ended == |running|
    requires ended == 0 <==> forall n :: n in running ==> alive(round, n)
    requires StrictlyIncreasing(still)
    ensures Admitted(levels, maxThreads, alive, jobs, finished + ended, still, progress + [finished + ended],
                     started, EndRounds(endedAt, running, round, alive), polls + [round], round + 1)
  {
    SchedulePoll(running, still, started, endedAt, polls, alive, round);
    ProgressExtend(progress, finished, finished + ended);
  }

  /** `jobsAt[r]` is the number of threads started before round `r`: the
      threads of exactly the first `jobsAt[r]` levels were started earlier. */
  ghost predicate StartedBefore(started: seq<nat>, jobsAt: seq<nat>, rounds: nat)
  {
    && |jobsAt| == rounds
    && forall r :: 0 <= r < rounds ==>
         jobsAt[r] <= |started| && forall n :: 0 <= n < |started| ==> (n < jobsAt[r] <==> started[n] < r)
  }

  /** `runningAt[r]` lists, in increasing order, the threads in flight when
      round `r` begins: started earlier and not found dead before. */
  ghost predicate InFlightAt(started: seq<nat>, endedAt: seq<Option<nat>>, runningAt: seq<seq<nat>>, rounds: nat)
  {
    && |runningAt| == rounds
    && (forall r :: 0 <= r < rounds ==> StrictlyIncreasing(runningAt[r]))
    && (forall r, n: nat :: 0 <= r < rounds ==>
          (n in runningAt[r] <==>
             n < |started| && n < |endedAt| && started[n] < r && (endedAt[n].None? || r <= endedAt[n].value)))
  }

  /** Round `r` starts the thread of the next level exactly when a level is
      left and fewer than `maxThreads` threads are in flight, and polls
      otherwise. */
  ghost predicate ChoosesAt(levelCount: nat, maxThreads: int, started: seq<nat>, polls: seq<nat>,
                            jobsAt: seq<nat>, runningAt: seq<seq<nat>>, rounds: nat)
    requires |jobsAt| == rounds && |runningAt| == rounds
  {
    forall r :: 0 <= r < rounds ==>
      if jobsAt[r] < levelCount && |runningAt[r]| < maxThreads
      then r !in polls && jobsAt[r] < |started| && started[jobsAt[r]] == r
      else r in polls
  }

  /** The admission rule of the download loop (`if next_level_number <
      len(levels) and len(current_threads) < max_threads`), round by round,
      over the recorded schedule. */
  ghost predicate AdmissionRule(levelCount: nat, maxThreads: int, started: seq<nat>, endedAt: seq<Option<nat>>,
                                polls: seq<nat>, jobsAt: seq<nat>, runningAt: seq<seq<nat>>, rounds: nat)
  {
    && StartedBefore(started, jobsAt, rounds)
    && InFlightAt(started, endedAt, runningAt, rounds)
    && ChoosesAt(levelCount, maxThreads, started, polls, jobsAt, runningAt, rounds)
  }

  /** What the rule lemmas need to know of the loop state at the start of
      round `round`: every thread started in an earlier round, and a thread
      is in flight iff it has not ended, which it did in an earlier round. */
  ghost predicate RoundState(running: seq<nat>, started: seq<nat>, endedAt: seq<Option<nat>>, round: nat)
  {
    && |started| == |endedAt|
    && StrictlyIncreasing(running)
    && (forall n :: n in running ==> n < |started|)
    && (forall n :: 0 <= n < |endedAt| ==> (n in running <==> endedAt[n].None?))
    && (forall n :: 0 <= n < |endedAt| && endedAt[n].Some? ==> endedAt[n].value < round)
    && (forall n :: 0 <= n < |started| ==> started[n] < round)
  }

  lemma AdmittedRoundState(levels: seq<EnrichedLevel>, maxThreads: int, alive: (nat, nat) -> bool,
                           jobs: seq<DownloadJob>, finished: nat, running: seq<nat>, progress: seq<nat>,
                           started: seq<nat>, endedAt: seq<Option<nat>>, polls: seq<nat>, round: nat)
    requires Admitted(levels, maxThreads, alive, jobs, finished, running, progress, started, endedAt, polls, round)
    ensures RoundState(running, started, endedAt, round) && |jobs| == |started|
  {
  }

  lemma StartedBeforeStart(started: seq<nat>, jobsAt: seq<nat>, round: nat)
    requires StartedBefore(started, jobsAt, round)
    requires forall n :: 0 <= n < |started| ==> started[n] < round
    ensures StartedBefore(started + [round], jobsAt + [|started|], round + 1)
  {
    var started', jobsAt' := started + [round], jobsAt + [|started|];
    forall r, n | 0 <= r < round + 1 && 0 <= n < |started'|
      ensures n < jobsAt'[r] <==> started'[n] < r
    {
      if n < |started| {
        assert started'[n] == started[n];
      }
    }
  }

  lemma InFlightStart(running: seq<nat>, started: seq<nat>, endedAt: seq<Option<nat>>, runningAt: seq<seq<nat>>,
                      round: nat)
    requires RoundState(running, started, endedAt, round)
    requires InFlightAt(started, endedAt, runningAt, round)
    ensures InFlightAt(started + [round], endedAt + [None], runningAt + [running], round + 1)
  {
    var started', endedAt', runningAt' := started + [round], endedAt + [None], runningAt + [running];
    forall r, n: nat | 0 <= r < round + 1
      ensures n in runningAt'[r] <==>
                n < |started'| && n < |endedAt'| && started'[n] < r && (endedAt'[n].None? || r <= endedAt'[n].value)
    {
      if n < |started| {
        assert started'[n] == started[n] && endedAt'[n] == endedAt[n];
      }
    }
  }

  lemma ChoosesStart(levelCount: nat, maxThreads: int, running: seq<nat>, started: seq<nat>, polls: seq<nat>,
                     jobsAt: seq<nat>, runningAt: seq<seq<nat>>, round: nat)
    requires |jobsAt| == round && |runningAt| == round
    requires ChoosesAt(levelCount, maxThreads, started, polls, jobsAt, runningAt, round)
    requires forall r :: r in polls ==> r < round
    requires |started| < levelCount && |running| < maxThreads
    ensures ChoosesAt(levelCount, maxThreads, started + [round], polls, jobsAt + [|started|], runningAt + [running],
                      round + 1)
  {
    var started', jobsAt', runningAt' := started + [round], jobsAt + [|started|], runningAt + [running];
    forall r | 0 <= r < round + 1
      ensures if jobsAt'[r] < levelCount && |runningAt'[r]| < maxThreads
              then r !in polls && jobsAt'[r] < |started'| && started'[jobsAt'[r]] == r
              else r in polls
    {
      if r < round {
        assert jobsAt'[r] == jobsAt[r] && runningAt'[r] == runningAt[r];
        if jobsAt[r] < |started| {
          assert started'[jobsAt[r]] == started[jobsAt[r]];
        }
      }
    }
  }

  /** A round that starts the next thread follows the rule and keeps it. */
  lemma RuleStart(levelCount: nat, maxThreads: int, running: seq<nat>, started: seq<nat>, endedAt: seq<Option<nat>>,
                  polls: seq<nat>, round: nat, jobsAt: seq<nat>, runningAt: seq<seq<nat>>)
    requires RoundState(running, started, endedAt, round)
    requires forall r :: r in polls ==> r < round
    requires AdmissionRule(levelCount, maxThreads, started, endedAt, polls, jobsAt, runningAt, round)
    requires |started| < levelCount && |running| < maxThreads
    ensures AdmissionRule(levelCount, maxThreads, started + [round], endedAt + [None], polls,
                          jobsAt + [|started|], runningAt + [running], round + 1)
  {
    StartedBeforeStart(started, jobsAt, round);
    InFlightStart(running, started, endedAt, runningAt, round);
    ChoosesStart(levelCount, maxThreads, running, started, polls, jobsAt, runningAt, round);
  }

  /** A round that polls follows the rule and keeps it once the dropped
      threads get that round as their end. */
  lemma RulePoll(levelCount: nat, maxThreads: int, alive: (nat, nat) -> bool, running: seq<nat>, started: seq<nat>,
                 endedAt: seq<Option<nat>>, polls: seq<nat>, round: nat, jobsAt: seq<nat>, runningAt: seq<seq<nat>>)
    requires RoundState(running, started, endedAt, round)
    requires AdmissionRule(levelCount, maxThreads, started, endedAt, polls, jobsAt, runningAt, round)
    requires !(|started| < levelCount && |running| < maxThreads)
    ensures AdmissionRule(levelCount, maxThreads, started, EndRounds(endedAt, running, round, alive), polls + [round],
                          jobsAt + [|started|], runningAt + [running], round + 1)
  {
    var e := EndRounds(endedAt, running, round, alive);
    var jobsAt', runningAt' := jobsAt + [|started|], runningAt + [running];
    forall r, n: nat | 0 <= r < round + 1
      ensures n in runningAt'[r] <==>
                n < |started| && n < |e| && started[n] < r && (e[n].None? || r <= e[n].value)
    {
    }
    forall r | 0 <= r < round + 1
      ensures if jobsAt'[r] < levelCount && |runningAt'[r]| < maxThreads
              then r !in polls + [round] && jobsAt'[r] < |started| && started[jobsAt'[r]] == r
              else r in polls + [round]
    {
    }
  }

  /** A start round keeps the loop state and the admission rule. */
  lemma LoopStart(levels: seq<EnrichedLevel>, maxThreads: int, alive: (nat, nat) -> bool,
                  jobs: seq<DownloadJob>, finished: nat, running: seq<nat>, progress: seq<nat>,
                  started: seq<nat>, endedAt: seq<Option<nat>>, polls: seq<nat>, round: nat,
                  jobsAt: seq<nat>, runningAt: seq<seq<nat>>)
    requires Admitted(levels, maxThreads, alive, jobs, finished, running, progress, started, endedAt, polls, round)
    requires AdmissionRule(|levels|, maxThreads, started, endedAt, polls, jobsAt, runningAt, round)
    requires |jobs| < |levels| && |running| < maxThreads
    ensures Admitted(levels, maxThreads, alive, jobs + [JobFor(levels[|jobs|])], finished, running + [|jobs|],
                     progress + [finished], started + [round], endedAt + [None], polls, round + 1)
    ensures AdmissionRule(|levels|, maxThreads, started + [round], endedAt + [None], polls,
                          jobsAt + [|jobs|], runningAt + [running], round + 1)
  {
    AdmitStart(levels, maxThreads, alive, jobs, finished, running, progress, started, endedAt, polls, round);
    AdmittedRoundState(levels, maxThreads, alive, jobs, finished, running, progress, started, endedAt, polls, round);
    RuleStart(|levels|, maxThreads, running, started, endedAt, polls, round, jobsAt, runningAt);
  }

  /** A poll round keeps the loop state and the admission rule. */
  lemma LoopPoll(levels: seq<EnrichedLevel>, maxThreads: int, alive: (nat, nat) -> bool,
                 jobs: seq<DownloadJob>, finished: nat, running: seq<nat>, progress: seq<nat>,
                 started: seq<nat>, endedAt: seq<Option<nat>>, polls: seq<nat>, round: nat,
                 jobsAt: seq<nat>, runningAt: seq<seq<nat>>, still: seq<nat>, ended: nat)
    requires Admitted(levels, maxThreads, alive, jobs, finished, running, progress, started, endedAt, polls, round)
    requires AdmissionRule(|levels|, maxThreads, started, endedAt, polls, jobsAt, runningAt, round)
    requires !(|jobs| < |levels| && |running| < maxThreads)
    requires forall n :: n in still <==> n in running && alive(round, n)
    requires |still| + ended == |running|
    requires ended == 0 <==> forall n :: n in running ==> alive(round, n)
    requires StrictlyIncreasing(still)
    ensures Admitted(levels, maxThreads, alive, jobs, finished + ended, still, progress + [finished + ended],
                     started, EndRounds(endedAt, running, round, alive), polls + [round], round + 1)
    ensures AdmissionRule(|levels|, maxThreads, started, EndRounds(endedAt, running, round, alive), polls + [round],
                          jobsAt + [|jobs|], runningAt + [running], round + 1)
  {
    AdmitPoll(levels, maxThreads, alive, jobs, finished, running, progress, started, endedAt, polls, round,
              still, ended);
    AdmittedRoundState(levels, maxThreads, alive, jobs, finished, running, progress, started, endedAt, polls, round);
    RulePoll(|levels|, maxThreads, alive, running, started, endedAt, polls, round, jobsAt, runningAt);
  }

  /** One pass of the body of the `while` loop of `download_levels`: start
      the thread of the next level when one is left and a slot is free,
      otherwise poll the running threads; then report progress.  It keeps
      the loop state and follows the admission rule. */
  method DownloadRound(levels: seq<EnrichedLevel>, maxThreads: int, alive: (nat, nat) -> bool,
                       jobs: seq<DownloadJob>, finished: nat, running: seq<nat>, progress: seq<nat>, round: nat,
                       ghost started: seq<nat>, ghost endedAt: seq<Option<nat>>, ghost polls: seq<nat>,
                       ghost jobsAt: seq<nat>, ghost runningAt: seq<seq<nat>>)
    returns (jobs': seq<DownloadJob>, finished': nat, running': seq<nat>, progress': seq<nat>,
             ghost started': seq<nat>, ghost endedAt': seq<Option<nat>>, ghost polls': seq<nat>,
             ghost jobsAt': seq<nat>, ghost runningAt': seq<seq<nat>>)
    requires Admitted(levels, maxThreads, alive, jobs, finished, running, progress, started, endedAt, polls, round)
    requires AdmissionRule(|levels|, maxThreads, started, endedAt, polls, jobsAt, runningAt, round)
    ensures Admitted(levels, maxThreads, alive, jobs', finished', running', progress', started', endedAt', polls',
                     round + 1)
    ensures AdmissionRule(|levels|, maxThreads, started', endedAt', polls', jobsAt', runningAt', round + 1)
  {
    jobsAt', runningAt' := jobsAt + [|jobs|], runningAt + [running];
    if |jobs| < |levels| && |running| < maxThreads {
      var next: nat := |jobs|;
      LoopStart(levels, maxThreads, alive, jobs, finished, running, progress, started, endedAt, polls, round,
                jobsAt, runningAt);
      jobs', finished', running' := jobs + [JobFor(levels[next])], finished, running + [next];
      started', endedAt', polls' := started + [round], endedAt + [None], polls;
    } else {
      var still, ended := PollRunning(running, round, alive);
      LoopPoll(levels, maxThreads, alive, jobs, finished, running, progress, started, endedAt, polls, round,
               jobsAt, runningAt, still, ended);
      jobs', finished', running' := jobs, finished + ended, still;
      started', endedAt', polls' := started, EndRounds(endedAt, running, round, alive), polls + [round];
    }
    progress' := progress + [finished'];
  }

  /** `download_levels`, without the threads themselves: `running` holds the
      list positions of the threads in flight, `alive(round, n)` says whether
      the thread of level `n` is still alive when polled in round `round`,
      `jobs` are the threads started, in order, and `progress` the values
      passed to the progress bar.  The loop ends only once every thread has
      ended, so `fuel` bounds the rounds of this model.

      The ghost results record the schedule: `started[n]` is the round in
      which the thread of level `n` was started, `endedAt[n]` the polling
      round in which it was found dead (None while it runs), and `polls` the
      rounds that polled instead of starting a thread. */
  method DownloadLevels(levels: seq<EnrichedLevel>, maxThreads: int, alive: (nat, nat) -> bool, fuel: nat)
    returns (jobs: seq<DownloadJob>, finished: nat, running: seq<nat>, progress: seq<nat>,
             ghost started: seq<nat>, ghost endedAt: seq<Option<nat>>, ghost polls: seq<nat>,
             ghost jobsAt: seq<nat>, ghost runningAt: seq<seq<nat>>)
    ensures |jobs| <= |levels| && forall i :: 0 <= i < |jobs| ==> jobs[i] == JobFor(levels[i])
    ensures finished + |running| == |jobs|
    ensures |running| <= Max(maxThreads, 0)
    ensures StrictlyIncreasing(running) && forall n :: n in running ==> n < |jobs|
    ensures NonDecreasing(progress) && |progress| <= fuel
    ensures forall k :: 0 <= k < |progress| ==> progress[k] <= finished
    ensures finished < |levels| ==> |progress| == fuel
    ensures finished == |levels| ==> |jobs| == |levels| && running == []
    ensures (forall r, n :: alive(r, n)) ==> finished == 0
    ensures |started| == |jobs| && Schedule(running, started, endedAt, polls, alive)
    ensures forall r :: r in polls ==> r < |progress|
    ensures AdmissionRule(|levels|, maxThreads, started, endedAt, polls, jobsAt, runningAt, |progress|)
  {
    jobs, finished, running, progress := [], 0, [], [];
    started, endedAt, polls := [], [], [];
    jobsAt, runningAt := [], [];
    var round: nat := 0;
    while finished < |levels| && round < fuel
      invariant round <= fuel
      invariant Admitted(levels, maxThreads, alive, jobs, finished, running, progress, started, endedAt, polls, round)
      invariant AdmissionRule(|levels|, maxThreads, started, endedAt, polls, jobsAt, runningAt, round)
      decreases fuel - round
    {
      jobs, finished, running, progress, started, endedAt, polls, jobsAt, runningAt :=
        DownloadRound(levels, maxThreads, alive, jobs, finished, running, progress, round,
                      started, endedAt, polls, jobsAt, runningAt);
      round := round + 1;
    }
  }
}
