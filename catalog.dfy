/**
  The catalog: albums as the catalog document lists them, the flattened
  `allTracks` list in which every track carries its album's title and art,
  and the searches by track identity (album title, track title) that the
  queue code runs over both that list and the queue (`find`, `findIndex`,
  `some`).
 */
module Catalog {
  import opened Wrappers

  /** A track as its album lists it in the catalog document. */
  datatype RawTrack = RawTrack(title: string, duration: string, src: string, preview: string, moods: seq<string>)

  datatype Album = Album(id: string, title: string, year: int, art: string, tracks: seq<RawTrack>)

  /** A catalog track tagged with its album: the entries of `allTracks` and of the queue. */
  datatype Track = Track(
    title: string, duration: string, src: string, preview: string, moods: seq<string>,
    albumTitle: string, albumArt: string)

  /** `{...track, albumTitle: album.title, albumArt: album.art, moods: track.moods}` */
  function Tag(album: Album, t: RawTrack): Track
  {
    Track(t.title, t.duration, t.src, t.preview, t.moods, album.title, album.art)
  }

  function TagTracks(album: Album): seq<Track>
  {
    seq(|album.tracks|, k requires 0 <= k < |album.tracks| => Tag(album, album.tracks[k]))
  }

  /** `albums.flatMap(album => album.tracks.map(...))` */
  function Flatten(albums: seq<Album>): seq<Track>
  {
    if albums == [] then [] else TagTracks(albums[0]) + Flatten(albums[1..])
  }

  /** The number of tracks over all albums. */
  function TrackCount(albums: seq<Album>): nat
  {
    if albums == [] then 0 else |albums[0].tracks| + TrackCount(albums[1..])
  }

  /** The flattened list holds exactly as many entries as the albums have tracks. */
  lemma {:induction false} FlattenLength(albums: seq<Album>)
    ensures |Flatten(albums)| == TrackCount(albums)
  {
    if albums != [] {
      FlattenLength(albums[1..]);
    }
  }

  /**
    Track `k` of album `a` sits at the position after all tracks of the albums
    before `a`, tagged with album `a`'s title and art: album-then-track order.
   */
  lemma {:induction false} FlattenAt(albums: seq<Album>, a: int, k: int)
    requires 0 <= a < |albums| && 0 <= k < |albums[a].tracks|
    ensures TrackCount(albums[..a]) + k < |Flatten(albums)|
    ensures Flatten(albums)[TrackCount(albums[..a]) + k] == Tag(albums[a], albums[a].tracks[k])
  {
    if a == 0 {
      assert albums[..0] == [];
    } else {
      FlattenAt(albums[1..], a - 1, k);
      assert albums[1..][..a - 1] == albums[..a][1..];
    }
  }

  /** Every flattened entry is some album's track, tagged with that album. */
  lemma {:induction false} FlattenEntryOrigin(albums: seq<Album>, i: int)
    requires 0 <= i < |Flatten(albums)|
    ensures exists a, k :: 0 <= a < |albums| && 0 <= k < |albums[a].tracks| &&
                           Flatten(albums)[i] == Tag(albums[a], albums[a].tracks[k])
  {
    var n := |albums[0].tracks|;
    if i < n {
      assert Flatten(albums)[i] == Tag(albums[0], albums[0].tracks[i]);
    } else {
      FlattenEntryOrigin(albums[1..], i - n);
      var a, k :| 0 <= a < |albums[1..]| && 0 <= k < |albums[1..][a].tracks| &&
                  Flatten(albums[1..])[i - n] == Tag(albums[1..][a], albums[1..][a].tracks[k]);
      assert Flatten(albums)[i] == Tag(albums[a + 1], albums[a + 1].tracks[k]);
    }
  }

  /** A track's identity: the pair (album title, track title). */
  predicate SameKey(t: Track, albumTitle: string, title: string)
  {
    t.title == title && t.albumTitle == albumTitle
  }

  /** `tracks.some(...)` with the identity test. */
  predicate HasKey(tracks: seq<Track>, albumTitle: string, title: string)
  {
    exists i | 0 <= i < |tracks| :: SameKey(tracks[i], albumTitle, title)
  }

  /** `tracks.findIndex(...)` with the identity test: the first match, or -1. */
  function IndexOfKey(tracks: seq<Track>, albumTitle: string, title: string): (r: int)
    ensures -1 <= r < |tracks|
    ensures r == -1 <==> !HasKey(tracks, albumTitle, title)
    ensures r >= 0 ==> SameKey(tracks[r], albumTitle, title)
    ensures forall j | 0 <= j < r :: !SameKey(tracks[j], albumTitle, title)
  {
    if |tracks| == 0 then -1
    else if SameKey(tracks[0], albumTitle, title) then 0
    else
      var k := IndexOfKey(tracks[1..], albumTitle, title);
      if k < 0 then -1 else k + 1
  }

  /** `tracks.find(...)` with the identity test: the first match, if any. */
  function FindTrack(tracks: seq<Track>, albumTitle: string, title: string): (r: Option<Track>)
    ensures r.Some? <==> HasKey(tracks, albumTitle, title)
    ensures r.Some? ==> SameKey(r.value, albumTitle, title) && r.value in tracks
    ensures r.Some? ==> exists i | 0 <= i < |tracks| :: tracks[i] == r.value &&
                          forall j | 0 <= j < i :: !SameKey(tracks[j], albumTitle, title)
  {
    var i := IndexOfKey(tracks, albumTitle, title);
    if i < 0 then None else Some(tracks[i])
  }
}
