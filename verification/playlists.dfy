/**
  `playlist.py`: a Beat Saber playlist (`.bplist`) that collects the levels
  of a run.  Songs are only ever appended, and never twice with the same
  hash.
 */
module Playlists {
  import opened Common

  const PlaylistSuffix: string := ".bplist"
  const DefaultAuthor: string := "[ARBSMapDo]"

  /** One `songs` entry. */
  datatype Song = Song(key: string, hash: string, songName: string, uploader: string)

  /** The playlist document. */
  datatype PlaylistData = PlaylistData(title: string, author: string, image: Option<string>, songs: seq<Song>)

  /** The name normalisation in the constructor: a name without any dot gets
      the `.bplist` extension. */
  function NormaliseName(name: string): (r: string)
    ensures '.' in r
    ensures '.' in name <==> r == name
    ensures '.' !in name <==> r == name + PlaylistSuffix
  {
    if '.' in name then name else name + PlaylistSuffix
  }

  /** Normalising an already normalised name changes nothing. */
  lemma NormaliseNameIdempotent(name: string)
    ensures NormaliseName(NormaliseName(name)) == NormaliseName(name)
  {
  }

  /** The document of a playlist that does not exist yet. */
  function NewPlaylist(name: string): (p: PlaylistData)
    ensures p.title == name && p.author == DefaultAuthor && p.image.None? && p.songs == []
  {
    PlaylistData(name, DefaultAuthor, None, [])
  }

  /** The scan in `exists_in_playlist`. */
  function HasSong(songs: seq<Song>, hash: string): (b: bool)
    ensures b <==> exists i :: 0 <= i < |songs| && songs[i].hash == hash
  {
    if songs == [] then false
    else songs[0].hash == hash || HasSong(songs[1..], hash)
  }

  /** The entry `add_to_playlist` builds from a detail record. */
  function MiniInfo(info: DetailRecord): (s: Song)
    ensures s.key == info.key && s.hash == info.hash && s.uploader == info.uploader
    ensures s.songName == info.songAuthorName + " - " + info.songName
  {
    Song(info.key, info.hash, info.songAuthorName + " - " + info.songName, info.uploader)
  }

  /** The song list after adding `s`. */
  function AddSong(songs: seq<Song>, s: Song): seq<Song>
  {
    if HasSong(songs, s.hash) then songs else songs + [s]
  }

  /** Adding leaves the list as it is when the hash is present, and otherwise
      appends exactly the new song, keeping the earlier ones. */
  lemma AddSongShape(songs: seq<Song>, s: Song)
    ensures (exists i :: 0 <= i < |songs| && songs[i].hash == s.hash) ==> AddSong(songs, s) == songs
    ensures (forall i :: 0 <= i < |songs| ==> songs[i].hash != s.hash) ==>
      |AddSong(songs, s)| == |songs| + 1 && AddSong(songs, s)[..|songs|] == songs && AddSong(songs, s)[|songs|] == s
  {
  }

  /** After adding a song its hash is present. */
  lemma AddSongPresent(songs: seq<Song>, s: Song)
    ensures HasSong(AddSong(songs, s), s.hash)
  {
    if !HasSong(songs, s.hash) {
      assert AddSong(songs, s)[|songs|] == s;
    }
  }

  predicate DistinctHashes(songs: seq<Song>)
  {
    forall i, j :: 0 <= i < j < |songs| ==> songs[i].hash != songs[j].hash
  }

  /** Adding keeps the song hashes pairwise distinct. */
  lemma AddSongKeepsDistinct(songs: seq<Song>, s: Song)
    requires DistinctHashes(songs)
    ensures DistinctHashes(AddSong(songs, s))
  {
  }

  /** Of two songs with the same hash, the first one added stays. */
  lemma AddSameHashKeepsFirst(songs: seq<Song>, s1: Song, s2: Song)
    requires s1.hash == s2.hash
    ensures AddSong(AddSong(songs, s1), s2) == AddSong(songs, s1)
  {
    AddSongPresent(songs, s1);
  }

  class Playlist {
    var name: string
    var data: PlaylistData

    /** The constructor with `load_or_create`.  `configName` is the
        `playlist` setting; `existing` is the parsed playlist file, None when
        there is no such file. */
    constructor(configName: string, existing: Option<PlaylistData>)
      ensures name == NormaliseName(configName)
      ensures existing.None? ==> data == NewPlaylist(name)
      ensures existing.Some? ==> data == existing.value
    {
      name := NormaliseName(configName);
      data := if existing.None? then NewPlaylist(NormaliseName(configName)) else existing.value;
    }

    /** `exists_in_playlist`: walks the songs in order and stops at the
        first one with the hash. */
    method ExistsInPlaylist(hash: string) returns (b: bool)
      ensures b == HasSong(data.songs, hash)
      ensures b <==> exists i :: 0 <= i < |data.songs| && data.songs[i].hash == hash
    {
      for i := 0 to |data.songs|
        invariant forall k :: 0 <= k < i ==> data.songs[k].hash != hash
      {
        if data.songs[i].hash == hash {
          return true;
        }
      }
      return false;
    }

    /** `add_to_playlist`, for the detail record of the level. */
    method AddToPlaylist(info: DetailRecord)
      modifies this
      ensures name == old(name)
      ensures data == old(data).(songs := AddSong(old(data.songs), MiniInfo(info)))
      ensures HasSong(data.songs, info.hash)
    {
      var present := ExistsInPlaylist(info.hash);
      if !present {
        data := data.(songs := data.songs + [MiniInfo(info)]);
      }
      AddSongPresent(old(data.songs), MiniInfo(info));
    }

    /** `save_playlist`: the document written to the playlist file. */
    method SavePlaylist() returns (written: PlaylistData)
      ensures written == data
    {
      written := data;
    }
  }
}
