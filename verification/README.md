# ARBSMapDo in Dafny

ARBSMapDo ("Advanced Ranked Beat Saber Map Downloader") picks ranked Beat
Saber levels from the Scoresaber leaderboard and downloads them from
BeatSaver. It filters each leaderboard page by star difficulty, skips levels
that are already installed or already seen, and pages through the leaderboard
until the requested number of levels is collected. It then looks up each
level's BeatSaver detail record and downloads the levels with a bounded
number of threads. Around this driver sit:

- three detail-record caches, each a dictionary in front of the BeatSaver API.
  `arbsmapdo/cache.py` fills its dictionary from a bulk snapshot that it
  refreshes when older than a day. `beatsaver.py` loads a saved dictionary,
  or else downloads the snapshot, with no age check. `cache.py` starts empty:
  it keeps the snapshot loader, but the call to it is commented out;
- a cache of content hashes of the levels already installed;
- the level content hash itself;
- classifiers for command-line URIs;
- a playlist file that collects the downloaded songs;
- the configuration handler that merges command line, preset and defaults.

This project models that logic and proves what it promises. The remote
services are function-valued parameters: the Scoresaber leaderboard, the
BeatSaver detail lookup, the bulk snapshot download, SHA-1, JSON/TOML
parsing, the two installed-level hash functions, and thread liveness. So are
the file-system facts the code reads: directory listings, file contents,
file existence and modification times, and clock readings. Python exceptions
that end a run are modelled as error results.

| file | module | models |
|---|---|---|
| `common.dfy` | `Common` | `str.lower`, `str.split`, `PurePath.name`/`.suffix`, the detail record, and the shape of a dictionary filled from a list |
| `downloader.dfy` | `Downloader` | `downloader.py` |
| `utils.dfy` | `Utils` | `utils.py` |
| `snapshot.dfy` | `Snapshot` | the staleness rule of the snapshot loaders in `cache.py` and `arbsmapdo/cache.py`, and the shape of their dictionary-filling loops, whose keys differ |
| `levelhash.dfy` | `Levelhash` | the level-hash cache load and the installed-level scan shared by both `cache.py` files |
| `script_cache.dfy` | `ScriptCache` | `cache.py` |
| `package_cache.dfy` | `PackageCache` | `arbsmapdo/cache.py` |
| `beatsaver_cache.dfy` | `BeatSaverCache` | `beatsaver.py` |
| `playlists.dfy` | `Playlists` | `playlist.py` |
| `config.dfy` | `Config` | `ConfigHandler` in `arbsmapdo.py` |

Objects whose fields the code updates are classes with those fields:
`Cache` (twice), `BeatSaver`, `Playlist` and `ConfigHandler`. Loops that
update variables are methods with loop invariants, each proved against a
reference function, for example:

- `FilterSpec` for the page filter;
- `Scan` for the installed-level scan;
- `ApplyDefaults` for the default table;
- `LastWinsIndex` for the dictionary-filling loops;
- `HashedStream` for the hasher.

The properties are proved about those functions.

Where the program's own texts promise more than its code does, the model
follows the code:

- The leaderboard `cat` parameter is the truthiness of the sort mode
  (downloader.py:167). The `--scoresaber_sorting` help (arbsmapdo.py:267)
  and the assistant's menu (arbsmapdo.py:157-163) list four distinct sort
  modes 0–3; see Findings.
- The defaults table (arbsmapdo.py:75-89) sets vote-ratio, notes-per-second
  and note-count bounds. `downloader.py` filters by stars only
  (downloader.py:132-134), and so does the model.
- The cache in `cache.py` stores API results under the id as given.
  Lookups lower-case the id, so an upper-case hash never hits; this is
  stated, not corrected.

## Model

| member | source | states |
|---|---|---|
| Common.Lower | cache.py:118 | lower-casing keeps the length and maps each character through the ASCII case mapping |
| Common.LowerIdempotent | beatsaver.py:69 | lowering a lowered hash changes nothing |
| Common.LowerChangesIffUpper | cache.py:118-126 | lowering changes an id exactly when it holds an upper-case letter |
| Common.LowerHasNoUpper | arbsmapdo/cache.py:106 | a lowered id holds no upper-case letter |
| Common.Split | utils.py:87 | `split("/")` returns at least one part and no part contains the separator |
| Common.JoinSplit | utils.py:87 | joining the parts with the separator gives the path back |
| Common.SplitTrailingSep | utils.py:87-89 | a trailing separator adds exactly one empty last part |
| Common.Suffix | utils.py:63-66 | the suffix is empty exactly when the name is empty, has no dot after its first character, or ends in a dot; otherwise it is a dot and a dot-free tail, at least two characters, shorter than the name and ending it |
| Common.FinalComponent | utils.py:60 | the final component holds no separator; it is empty exactly when no part of the path is neither empty nor `.`; otherwise it is such a part, and every later part is empty or `.` |
| Common.LastProperSpec | utils.py:60 | the last part that is neither empty nor `.` is found, and one is found exactly when such a part exists |
| Common.FinalComponentOfSegment | utils.py:60 | the final component of `dir/name` is `name` for any name without separator other than empty or `.` |
| Common.SuffixOfExtension | utils.py:63-66 | a non-empty stem followed by a dot and a dot-free tail has exactly that extension as its suffix |
| Common.SplitPrefixSegment | utils.py:76 | splitting `a/b`, with `a` free of separators, gives `a` followed by the parts of `b` |
| Common.SplitAppendSep | utils.py:87-89 | splitting `a/b`, with `b` free of separators, gives the parts of `a` followed by `b` |
| Common.LastWinsStep | cache.py:86-88 | one more `d[key] = record` keeps the "present iff listed, last occurrence wins" shape |
| Downloader.KeepAllowed | downloader.py:155-158 | the filter keeps only whitelisted characters, never lengthens the name, and leaves a name of whitelisted characters unchanged |
| Downloader.KeepAllowedChar | downloader.py:157-158 | a single character is kept exactly when it is whitelisted |
| Downloader.SpacesToHyphens | downloader.py:157-158 | same length; each space becomes `-`, every other character is kept |
| Downloader.Sanitise | downloader.py:155-158 | a sanitised name is no longer than the input and holds only letters, digits and `-_.()`, never a space |
| Downloader.LevelDirname | downloader.py:152-164 | the directory name starts with the id and `_`, and the rest consists of safe characters |
| Downloader.LevelDirnameDeterminesId | downloader.py:160-164 | for ids without `_`, equal directory names mean equal level ids |
| Downloader.SanitiseConcat | downloader.py:157-158 | sanitising distributes over concatenation, so kept characters keep their order |
| Downloader.KeepAllowedConcat | downloader.py:157-158 | the character filter distributes over concatenation |
| Downloader.SpacesToHyphensConcat | downloader.py:157-158 | the space replacement distributes over concatenation |
| Downloader.SanitiseChar | downloader.py:155-158 | a single character is dropped if not allowed, a space becomes `-`, any other allowed character stays |
| Downloader.SanitiseIdempotent | downloader.py:157-158 | sanitising twice equals sanitising once |
| Downloader.SanitiseFixesSafe | downloader.py:157-158 | a name of safe characters is its own sanitised form |
| Downloader.FilterSpecSubsequence | downloader.py:123-145 | the filtered levels form a subsequence of the page |
| Downloader.FilterSpec | downloader.py:123-143 | every kept level has an id not seen before, is within the star bounds and is not installed |
| Downloader.FilterSpecAdmitted | downloader.py:127-143 | every filtered level is within the star bounds, not installed, not seen before, and the filtered ids are pairwise distinct |
| Downloader.FilterLevelsScoresaberOnly | downloader.py:117-145 | returns the reference filter's levels, the old id list extended by their ids in order, and the subsequence, bounds, unseen and distinct-id facts |
| Downloader.ScoresaberQuery | downloader.py:166-173 | `cat` is 1 iff the sort mode is non-zero, `ranked` is 1 iff ranked-only is set, page and limit pass through |
| Downloader.SortModesCollapse | downloader.py:167 | sort modes 1, 2 and 3 produce the same query |
| Downloader.IntendedScoresaberQuery | downloader.py:167 | `cat` carries the sort mode itself |
| Downloader.IntendedSortModesDistinct | downloader.py:167 | different sort modes give different queries |
| Downloader.PageRequest | downloader.py:93-98 | limit = min(configured limit, levels still missing), positive, never past the target, and page = floor(requested / limit) + 1 |
| Downloader.PageOfPosition | downloader.py:98 | the page holding a position at a given page size is the position divided by the page size, rounded down, plus one |
| Downloader.RequestsIssuedNext | downloader.py:91-101 | the page and limit the loop computes are the next request the loop rule allows, and the running total grows by that limit |
| Downloader.RequestsIssuedExtend | downloader.py:91-101 | issuing the next request by the loop rule keeps the request sequence valid, and the running total of page sizes grows by exactly the new limit |
| Downloader.RequestsIssuedBounded | downloader.py:92-95 | every issued request asks for a page size between 1 and the configured limit |
| Downloader.GatheredExtend | downloader.py:100-105 | one more request extends the download list by its response filtered against the ids gathered so far |
| Downloader.GatheredAdmitted | downloader.py:100-105 | the download list built from any requests holds distinct ids, each within the star bounds and not installed |
| Downloader.SearchLeaderboard | downloader.py:91-106 | the requests follow the loop rule, every one answered except a final unavailable page; the list is the filtered responses in request order; a full list holds at least the target count, exactly the target with pages no longer than requested; a zero limit fails at once; running out of fuel leaves a list still short |
| Downloader.ExtendDownloadList | downloader.py:103-105 | extending the download list by a filtered page keeps ids distinct and all entries qualifying |
| Downloader.FetchAndFilter | downloader.py:82-115 | the requests follow the loop rule and all but a final unavailable one were answered; a zero limit, an unavailable page or an undecodable detail ends the search with that error; the levels are exactly the filtered responses in request order, at least the target count (exactly it with pages no longer than requested), distinct, qualifying, each with its own detail record; an undecodable id is one of the listed levels |
| Downloader.AttachDetails | downloader.py:110-115 | succeeds iff every listed level's detail lookup decodes, then keeps the list and attaches each level's own record; otherwise it names an undecodable id with every earlier lookup decoded |
| Downloader.JobFor | downloader.py:45-47 | the thread's URL is the BeatSaver host followed by the record's download path, and its directory is the level's directory name |
| Downloader.SurvivorsSpec | downloader.py:53-59 | the survivors of a poll are exactly the running threads alive then, in increasing order; none is lost iff all are alive |
| Downloader.PollRunning | downloader.py:53-59 | the polling pass keeps exactly the live threads, in order; the count of ended threads is the number dropped, zero iff all were alive |
| Downloader.ScheduleStart | downloader.py:44-51 | starting a thread keeps the recorded schedule consistent with the liveness oracle |
| Downloader.SchedulePoll | downloader.py:52-59 | a polling pass keeps the recorded schedule consistent once the dropped threads are given that round as their end |
| Downloader.AdmitStart | downloader.py:44-51 | a round that starts the next level keeps the download loop's state |
| Downloader.AdmitPoll | downloader.py:52-61 | a round that polls keeps the download loop's state |
| Downloader.RuleStart | downloader.py:45-53 | when a level is left and fewer than `max_threads` threads are in flight, starting the next level's thread in this round keeps every recorded round consistent with the admission rule |
| Downloader.RulePoll | downloader.py:45-60 | when every level has been started or `max_threads` threads are in flight, polling in this round keeps every recorded round consistent with the admission rule |
| Downloader.LoopStart | downloader.py:44-53 | a starting round keeps both the loop state and the admission rule, recording the level count and the threads in flight at its start |
| Downloader.LoopPoll | downloader.py:44-61 | a polling round keeps both the loop state and the admission rule, recording the level count and the threads in flight at its start |
| Downloader.DownloadRound | downloader.py:44-61 | one pass of the loop body: it starts the next level's thread exactly when a level is left and fewer than `max_threads` are in flight, otherwise it polls; it keeps the loop state and the admission rule and reports the finished count |
| Downloader.DownloadLevels | downloader.py:35-62 | threads start in list order with the level's URL and directory; finished + in flight == started; at most max_threads in flight; progress never decreases; nothing finishes while every thread stays alive; a thread is in flight iff it has not been found dead, it ends in a polling round after its start where it was found dead, and it was alive at every earlier poll since its start; the loop only ends with every level started and no thread in flight; every round follows the admission rule of downloader.py:45, so a round starts the next level exactly when a level is left and fewer than `max_threads` threads were in flight at its start, and polls otherwise |
| Utils.HexUpper | utils.py:53 | two upper-case hex digits per digest byte |
| Utils.HexRoundTrip | utils.py:53 | decoding the hex string gives the digest back |
| Utils.HexUpperInjective | utils.py:53 | different digests give different hash strings |
| Utils.CalculateLevelHash | utils.py:22-55 | no `info.dat` gives None; an unparsable document or a missing beatmap file ends in an error; otherwise the result is the 40-digit upper-case hex SHA-1 of `info.dat` followed by the beatmap files in set, then beatmap order |
| Utils.FeedSet | utils.py:43-50 | feeding one difficulty set appends the bytes of its files in order when all are present; otherwise it names a listed file that is missing |
| Utils.HashedStream | utils.py:35-50 | the hashed stream starts with the bytes of `info.dat`, and is exactly them when no set lists a beatmap |
| Utils.ContentsConcat | utils.py:42-50 | the bytes fed for two runs of files are the bytes of each run in order |
| Utils.MissingIsReferenced | utils.py:42-48 | a file named in one difficulty set is one of the referenced beatmap files |
| Utils.HashReadsOnlyReferenced | utils.py:35-53 | the hash reads only `info.dat` and the referenced beatmap files: two levels that agree on those files get the same stream and the same hash, whatever else their directories hold |
| Utils.StreamLayout | utils.py:35-50 | the stream is `info.dat`, then the first set's files, then the remaining sets' files |
| Utils.ResourceType | utils.py:58-80 | an existing path with suffix `.zip`/`.bplist` is a map/playlist file; any other input is classified by its URL alone; it fails exactly when a bsaber.com URL has no second path segment, and is never `unknown` |
| Utils.LocalFileByExtension | utils.py:59-66 | an existing `dir/stem.zip` is a map file and an existing `dir/stem.bplist` a playlist file |
| Utils.ClassifyUrl | utils.py:68-80 | beatsaver.com is a one-click map iff the scheme is `beatsaver`, else a map; bsaber.com is a map page iff path segment 1 is `songs`, else a playlist, and fails without a segment 1; other hosts give None |
| Utils.BsaberPages | utils.py:75-80 | a bsaber.com `/songs/…` URL is a map page, and a bsaber.com URL with an empty path fails |
| Utils.IntendedResourceType | utils.py:59-62 | an existing path that is not a file is `unknown`, and only files are map or playlist files |
| Utils.DirectoryMisclassified | utils.py:59-64 | an existing directory `maps.zip` is a map file as written and `unknown` with the file test |
| Utils.LevelKeyFromUrl | utils.py:83-94 | for beatsaver and bsaber map URLs the key is the last path segment, or the one before it when the last is empty, and fails only when there is none; Scoresaber gives the NotImplementedError marker; other types give None |
| Utils.KeyIsLastSegment | utils.py:86-90 | `p/k` and `p/k/` both give the key `k` for any separator-free non-empty `k` |
| Utils.TrailingSlashSameKey | utils.py:86-90 | `…/133ee` and `…/133ee/` give the same key |
| Snapshot.IndexBy | cache.py:86-88 | the dictionary holds exactly the listed keys, each bound to its last record |
| Snapshot.HashKeys | arbsmapdo/cache.py:77-78 | each record's key is its `hash` field unchanged, as both `arbsmapdo/cache.py` and `beatsaver.py` (beatsaver.py:31-33) key their snapshot index |
| Snapshot.IndexedUnderOwnKey | arbsmapdo/cache.py:76-78 | every key of the index is bound to a record whose key it is |
| Levelhash.LoadLevelhashCache | cache.py:131-141 | an absent file or `rescan` gives an empty cache, otherwise the saved cache |
| Levelhash.ScanStep | cache.py:154-162 | an entry already cached, or neither a directory nor a `.zip` file, changes nothing; otherwise exactly its name is added, bound to the hash for its kind |
| Levelhash.Scan | cache.py:151-162 | the scan never recomputes or removes an existing entry |
| Levelhash.ScanCovers | cache.py:151-162 | afterwards every directory and every `.zip` file of the download directory has an entry |
| Levelhash.ScanAddsOnlyHashable | arbsmapdo/cache.py:139-148 | every new entry is a directory (directory hash) or `.zip` file (archive hash) of the listing |
| Levelhash.ScanCoveredNoop | cache.py:154-162 | a cache covering the listing is left unchanged |
| Levelhash.ScanIdempotent | arbsmapdo/cache.py:136-148 | scanning an unchanged directory twice computes nothing new |
| Levelhash.ReloadAfterSave | cache.py:131-162 | a saved cache reloaded without `rescan` over the same directory is the saved cache |
| ScriptCache.Endpoint | cache.py:97-106 | the URL ends in the id and starts with the `hash/` route iff the id has 40 characters, else the `detail/` route |
| ScriptCache.EndpointInjective | cache.py:99-106 | different ids are requested from different URLs |
| ScriptCache.SnapshotKeys | cache.py:87-88 | each record's key is its lower-cased `Hash` |
| ScriptCache.SnapshotKeysLower | cache.py:86-88 | every key of the snapshot index is lower case |
| ScriptCache.LoadBeatsaverCacheFromScrapes | cache.py:64-90 | refreshes iff the file is absent or older than a day; a bad archive leaves no file to load; the index maps lower-cased hashes to the last record, with the file's or the refresh's time |
| ScriptCache.Cache.constructor | cache.py:24-39 | empty detail cache, flag clear, level-hash cache loaded and then scanned |
| ScriptCache.Cache.GetBeatsaverInfo | cache.py:113-129 | a hit on the lower-cased id returns the record and changes nothing; a miss asks the endpoint and stores a result under the id as given only for 40-character ids, setting the flag; otherwise nothing changes |
| ScriptCache.Cache.UpdateLevelhashCache | cache.py:148-162 | the level-hash cache becomes the scan of the listing over the old cache; nothing else changes |
| ScriptCache.Cache.SaveLevelhashCache | cache.py:143-146 | the level-hash cache is what gets written |
| ScriptCache.UppercaseInsertStillMisses | cache.py:118-127 | an id with an upper-case letter is stored where its own lower-cased lookup still misses |
| ScriptCache.LowercaseInsertHits | cache.py:118-127 | a lower-case id, once stored, is found by a later lookup in any letter case |
| PackageCache.Endpoint | arbsmapdo/cache.py:87-94 | the URL ends in the id and starts with the `by-hash/` route iff the id has 40 characters, else the `detail/` route |
| PackageCache.EndpointInjective | arbsmapdo/cache.py:89-94 | different ids are requested from different URLs |
| PackageCache.UppercaseSnapshotHashUnreachable | arbsmapdo/cache.py:76-78 | a snapshot hash with an upper-case letter is indexed but no lower-cased lookup reaches it |
| PackageCache.LoadBeatsaverCacheFromScrapes | arbsmapdo/cache.py:54-80 | refreshes iff the file is absent or older than a day; a bad archive raises; the index maps hashes to the last record, with the file's or the refresh's time |
| PackageCache.Cache.constructor | arbsmapdo/cache.py:24-36 | the detail cache is the snapshot index, then the level-hash cache is loaded and scanned |
| PackageCache.Cache.Open | arbsmapdo/cache.py:24-36 | construction fails iff a needed refresh gets a bad archive; otherwise the detail cache indexes the snapshot used and the level-hash cache is scanned |
| PackageCache.Cache.GetBeatsaverInfo | arbsmapdo/cache.py:101-117 | a hit on the lower-cased id changes nothing; a miss asks the endpoint and stores a result under the id as given only for 40-character ids, setting the flag |
| PackageCache.Cache.UpdateLevelhashCache | arbsmapdo/cache.py:136-148 | the level-hash cache becomes the scan of the listing over the old cache; nothing else changes |
| PackageCache.Cache.SaveLevelhashCache | arbsmapdo/cache.py:131-134 | the level-hash cache is what gets written |
| BeatSaverCache.Endpoint | beatsaver.py:59-66 | the URL is the `by-hash/` route followed by the hash |
| BeatSaverCache.LoadCacheFromScrapes | beatsaver.py:22-37 | the dictionary holds exactly the listed hashes, each bound to its last record |
| BeatSaverCache.ScrapesIndexKeys | beatsaver.py:31-33 | the index's keys are exactly the records' hashes |
| BeatSaverCache.BeatSaver.constructor | beatsaver.py:41-52 | the saved dictionary when readable, else the snapshot index; flag clear |
| BeatSaverCache.BeatSaver.GetBeatsaverInfo | beatsaver.py:68-79 | lookup and insertion both use the lower-cased hash; a hit changes nothing; a decoded miss is stored and sets the flag; a failed miss changes nothing |
| BeatSaverCache.BeatSaver.LookupTwice | beatsaver.py:68-79 | after a lookup with a record, a second lookup of the same hash in any case returns that record from the cache |
| Playlists.NormaliseName | playlist.py:11-13 | `.bplist` is appended iff the name has no dot; the result always has one |
| Playlists.NormaliseNameIdempotent | playlist.py:11-13 | normalising twice equals normalising once |
| Playlists.NewPlaylist | playlist.py:21-29 | a new playlist has the name as title, author `[ARBSMapDo]`, no image and no songs |
| Playlists.HasSong | playlist.py:37-41 | true iff some song has the hash |
| Playlists.Playlist.ExistsInPlaylist | playlist.py:37-41 | the walk over the songs answers true iff some song has the hash |
| Playlists.MiniInfo | playlist.py:48-54 | the entry holds key, hash, uploader and `songAuthorName - songName` |
| Playlists.AddSongShape | playlist.py:43-55 | adding a present hash changes nothing; otherwise exactly the new entry is appended after the unchanged earlier ones |
| Playlists.AddSongPresent | playlist.py:43-55 | after adding, the hash is present |
| Playlists.AddSongKeepsDistinct | playlist.py:43-55 | pairwise distinct song hashes stay distinct |
| Playlists.AddSameHashKeepsFirst | playlist.py:43-55 | of two songs with one hash only the first is kept |
| Playlists.Playlist.constructor | playlist.py:7-35 | the name is normalised; a missing file gives the new playlist, an existing one its contents |
| Playlists.Playlist.AddToPlaylist | playlist.py:43-55 | the songs become the add-if-absent of the entry, nothing else changes, and the hash is present afterwards |
| Playlists.Playlist.SavePlaylist | playlist.py:57-60 | the playlist document is what gets written |
| Config.MergeInto | arbsmapdo.py:64-66 | every preset key fills the command-line value only when that value is None; other keys are kept |
| Config.MergePreset | arbsmapdo.py:41-68 | an unparsable preset re-raises; a missing preset aborts unless the name is the default object; otherwise the merge |
| Config.IntendedMergePreset | arbsmapdo.py:56-59 | a missing preset aborts iff its name differs from the default name |
| Config.ExplicitDefaultPresetAborts | arbsmapdo.py:58-62 | naming the default preset explicitly aborts as written and merges nothing as intended |
| Config.MergeKeepsCommandLine | arbsmapdo.py:64-66 | a set command-line value survives; an unset one takes the preset value or stays unset |
| Config.SetDefault | arbsmapdo.py:70-72 | the key is added if absent; an unset key takes the value, a set one keeps its value, and no other key changes |
| Config.ApplyDefaults | arbsmapdo.py:91-93 | the keys are those of the configuration and of the table; set values are kept, and keys outside the table keep their values |
| Config.ApplyDefaultsSetsAll | arbsmapdo.py:91-93 | afterwards every key of the table is set |
| Config.ApplyDefaultsNoop | arbsmapdo.py:91-93 | a configuration with every table key set is a fixed point |
| Config.ApplyDefaultsIdempotent | arbsmapdo.py:91-93 | applying the defaults twice equals applying them once |
| Config.ConfigHandler.constructor | arbsmapdo.py:68 | the handler holds the merged configuration |
| Config.ConfigHandler.SetDefaultIfNone | arbsmapdo.py:70-72 | the configuration becomes the set-if-unset of the key |
| Config.ConfigHandler.HandleNonAssistantDefaultValues | arbsmapdo.py:74-93 | the configuration becomes the table applied in order, and every table key is set |
| Config.ConfigHandler.SaveConfig | arbsmapdo.py:242-254 | the written mapping is the configuration minus exactly `URIs` and `preset`, other values unchanged |

## Left out

- Network access is not modelled: `requests.get`, `wget.download`, the archive extraction and `_update_andruzzzhka_scrapes`. Each shows up only through its result, passed in as a parameter.
- File-system effects are not modelled: `open`, JSON/TOML dump, `mkdir`, `unlink`, `rmdir` and `os.replace`. File contents, existence, listings and modification times are parameters. The deletion of the level-hash file under `rescan` is not represented. Neither is the write-back of the `beatsaver.py` dictionary (`_update_local_cache_file`).
- Threads and `_download_level` are not modelled. Thread liveness is a parameter. `Downloader.DownloadLevels` and `Downloader.FetchAndFilter` take a `fuel` bound, because the source loops have no exit other than completion; the model stops when the fuel runs out.
- Errors raised by the file system and by JSON parsing in the caches are not modelled. `iterdir()` raises when the download directory is missing (cache.py:151, arbsmapdo/cache.py:139). `json.load` raises on a corrupt level-hash file (cache.py:138, arbsmapdo/cache.py:126) and on a corrupt snapshot (cache.py:84, arbsmapdo/cache.py:74). The model takes the listing and the parsed files as given.
- SHA-1, JSON parsing and `urlparse` are parameters or given results. `calculate_Level_hash_from_dir` and `calculate_Level_hash_from_zip` are parameters too, since `utils.py` does not define them.
- The `json.loads(..., encoding=...)` keyword is rejected by Python 3.9 and later. The model treats the call as a parse that succeeds or fails.
- Stars and times are reals. Float rounding in `int(requested / limit + 1)` for very large counts is not modelled.
- Downloader.LevelDirname: the contract says the name starts with `id_` and the rest is safe characters. It does not say where the author part ends and the level-name part begins, because `_` can occur in both sanitised parts. The exact `{id}_{author}_{name}` layout is the function's definition, and the sanitiser lemmas are stated about it.
- `notes_max` defaults to `sys.maxsize` of a 64-bit build.
- `str.lower` is modelled for ASCII letters only.
- Paths use `/` as the only separator (POSIX `pathlib`).
- The downloader reads `config["scoresaber_limit"]`, while the defaults and the command line use `scoresaber_maxlimit`. The model takes the limit as given and does not model the missing-key error. The limit is also taken to be non-negative (`scoresaberLimit` is a `nat`). With a negative configured limit the source computes `limit = min(limit, remaining)` as negative, `int(requested_unfiltered / limit + 1)` as a page of 1 or less, and `requested_unfiltered` shrinks on every request; the model does not capture this.
- Downloader.AttachDetails: a detail response that decodes is taken to be a full `DetailRecord`, carrying the `directDownload` field that `download_levels` reads (downloader.py:47). In the source, `_get_beatsaver_info` (downloader.py:147-150) returns any decoded JSON, for example an error object without that field. Such a response is attached without complaint and fails only later, at downloader.py:47, with a `KeyError` or `TypeError`, after threads for the earlier levels have already started. The lookup parameter `string -> Option<DetailRecord>` cannot express such a response.
- Downloader.FetchAndFilter: inherits that assumption from `Downloader.AttachDetails`, so its success case never holds a level whose detail record lacks `directDownload`.
- A playlist name of None is not modelled: `"." in None` raises. `Playlists.Playlist.constructor` takes a string.
- The `modes` table (arbsmapdo.py:18-27) is not modelled: it only supplies the `--gamemode` choices of the argument parser (arbsmapdo.py:282), and the assistant code that reads it is commented out.
- Not modelled: the interactive assistant, input validation, the argparse block, progress bars, console output, `setup.py`, and the demo call at the end of `utils.py`.

## Findings

| source | as written | input that shows it | evidently intended | confidence | as-written member | corrected member |
|---|---|---|---|---|---|---|
| utils.py:61 | `not uri_path.is_file` tests the bound method, which is always truthy, so the `unknown` branch never runs | an existing directory named `maps.zip` is classified as a map file | call `is_file()`, so an existing non-file is `unknown` | high, not executed | Utils.DirectoryMisclassified | Utils.IntendedResourceType |
| downloader.py:167 | `cat` is `1 if scoresaber_sorting else 0` | sort mode 2 ("Scores Set") or 3 ("Star Difficulty") sends `cat=1`, the same as mode 1 | send the sort mode as `cat`, as the command-line help lists it | medium, not executed | Downloader.SortModesCollapse | Downloader.IntendedSortModesDistinct |
| arbsmapdo.py:58 | `args.preset is default_config_name` compares object identity | `--preset arbsmapdo_default.toml` given on the command line with no such file aborts with `None.keys()` | compare the names with `==`, so the default name starts an empty preset | medium, not executed | Config.ExplicitDefaultPresetAborts | Config.IntendedMergePreset |
