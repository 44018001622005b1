/**
  The search and mood filter. A track is shown when its lower-cased title
  includes the lower-cased query and the selected mood is "all" or one of the
  track's mood tags; an album is shown when at least one of its tracks is.
  The mood tags reach the filter through the track element's
  space-separated data attribute, so the membership test is made on
  `moods.join(' ').split(' ')`.
 */
module Filter {
  import opened Text
  import opened Catalog

  /** `mood === 'all' || moods.join(' ').split(' ').includes(mood)` */
  predicate MoodMatch(moods: seq<string>, mood: string)
  {
    mood == "all" || mood in Split(Join(moods, ' '), ' ')
  }

  /** Whether a track with this title and these mood tags passes the filter. */
  predicate Visible(title: string, moods: seq<string>, query: string, mood: string)
  {
    Contains(Lower(title), Lower(query)) && MoodMatch(moods, mood)
  }

  predicate TrackVisible(t: RawTrack, query: string, mood: string)
  {
    Visible(t.title, t.moods, query, mood)
  }

  predicate AlbumVisible(album: Album, query: string, mood: string)
  {
    exists k | 0 <= k < |album.tracks| :: TrackVisible(album.tracks[k], query, mood)
  }

  /**
    Going through the attribute string is plain membership when the track has
    at least one tag and no tag contains a space.
   */
  lemma MoodMatchIsMembership(moods: seq<string>, mood: string)
    requires |moods| >= 1
    requires forall k | 0 <= k < |moods| :: ' ' !in moods[k]
    ensures MoodMatch(moods, mood) <==> mood == "all" || mood in moods
  {
    SplitJoin(moods, ' ');
  }

  /** A track without tags carries the empty attribute, which splits into one empty tag. */
  lemma UntaggedTrackMatchesOnlyEmptyMood(mood: string)
    ensures MoodMatch([], mood) <==> mood == "all" || mood == ""
  {
  }

  /** The query's letter case does not matter: the filter lower-cases it. */
  lemma QueryCaseIgnored(title: string, moods: seq<string>, query: string, mood: string)
    ensures Visible(title, moods, query, mood) <==> Visible(title, moods, Lower(query), mood)
  {
    LowerIdempotent(query);
  }

  /** With the initial filter (empty query, mood "all") every track is shown. */
  lemma UnfilteredShowsEverything(title: string, moods: seq<string>)
    ensures Visible(title, moods, "", "all")
  {
    ContainsEmptyAndSelf(Lower(title));
  }

  /** With an empty query only the mood decides. */
  lemma EmptyQueryFiltersByMoodOnly(title: string, moods: seq<string>, mood: string)
    ensures Visible(title, moods, "", mood) <==> MoodMatch(moods, mood)
  {
    ContainsEmptyAndSelf(Lower(title));
  }

  /** With the initial filter an album is shown iff it has a track. */
  lemma UnfilteredShowsEveryNonEmptyAlbum(album: Album)
    ensures AlbumVisible(album, "", "all") <==> |album.tracks| > 0
  {
    if |album.tracks| > 0 {
      UnfilteredShowsEverything(album.tracks[0].title, album.tracks[0].moods);
    }
  }

  /** The catalog entries that pass the filter, in catalog order. */
  function VisibleTracks(tracks: seq<Track>, query: string, mood: string): (r: seq<Track>)
    ensures |r| <= |tracks|
    ensures forall i | 0 <= i < |r| :: r[i] in tracks && Visible(r[i].title, r[i].moods, query, mood)
    ensures forall i | 0 <= i < |tracks| :: Visible(tracks[i].title, tracks[i].moods, query, mood) ==> tracks[i] in r
  {
    if tracks == [] then []
    else
      var rest := VisibleTracks(tracks[1..], query, mood);
      if Visible(tracks[0].title, tracks[0].moods, query, mood) then [tracks[0]] + rest else rest
  }

  /**
    The shown tracks of the flattened catalog are the displayed track
    elements: an album's track is among them iff the filter shows it, and
    each of them is some album's shown track.
   */
  lemma ShownTracksAreDisplayed(albums: seq<Album>, query: string, mood: string, a: int, k: int)
    requires 0 <= a < |albums| && 0 <= k < |albums[a].tracks|
    ensures Tag(albums[a], albums[a].tracks[k]) in VisibleTracks(Flatten(albums), query, mood)
            <==> TrackVisible(albums[a].tracks[k], query, mood)
  {
    FlattenAt(albums, a, k);
  }

  lemma ShownTrackOrigin(albums: seq<Album>, query: string, mood: string, i: int)
    requires 0 <= i < |VisibleTracks(Flatten(albums), query, mood)|
    ensures exists a, k :: 0 <= a < |albums| && 0 <= k < |albums[a].tracks| &&
                           VisibleTracks(Flatten(albums), query, mood)[i] == Tag(albums[a], albums[a].tracks[k]) &&
                           TrackVisible(albums[a].tracks[k], query, mood)
  {
    var shown := VisibleTracks(Flatten(albums), query, mood);
    var j :| 0 <= j < |Flatten(albums)| && Flatten(albums)[j] == shown[i];
    FlattenEntryOrigin(albums, j);
  }

  /**
    `filterTracks`: the display state it writes, one flag per track element
    (grouped by album, in document order) and one per album section. An album
    is shown when it counts at least one shown track.
   */
  method FilterTracks(albums: seq<Album>, query: string, mood: string)
    returns (trackShown: seq<seq<bool>>, albumShown: seq<bool>)
    ensures |trackShown| == |albums| && |albumShown| == |albums|
    ensures forall a | 0 <= a < |albums| :: |trackShown[a]| == |albums[a].tracks|
    ensures forall a, k | 0 <= a < |albums| && 0 <= k < |albums[a].tracks| ::
              trackShown[a][k] == TrackVisible(albums[a].tracks[k], query, mood)
    ensures forall a | 0 <= a < |albums| :: albumShown[a] == AlbumVisible(albums[a], query, mood)
  {
    var q := Lower(query);
    trackShown := [];
    for a := 0 to |albums|
      invariant |trackShown| == a
      invariant forall b | 0 <= b < a :: |trackShown[b]| == |albums[b].tracks|
      invariant forall b, k | 0 <= b < a && 0 <= k < |albums[b].tracks| ::
                  trackShown[b][k] == TrackVisible(albums[b].tracks[k], query, mood)
    {
      var tracks := albums[a].tracks;
      var row := [];
      for k := 0 to |tracks|
        invariant |row| == k
        invariant forall j | 0 <= j < k :: row[j] == TrackVisible(tracks[j], query, mood)
      {
        var titleMatch := Contains(Lower(tracks[k].title), q);
        var moodMatch := mood == "all" || mood in Split(Join(tracks[k].moods, ' '), ' ');
        row := row + [titleMatch && moodMatch];
      }
      trackShown := trackShown + [row];
    }

    albumShown := [];
    for a := 0 to |albums|
      invariant |albumShown| == a
      invariant forall b | 0 <= b < a :: albumShown[b] == AlbumVisible(albums[b], query, mood)
    {
      var visibleCount := 0;
      for k := 0 to |trackShown[a]|
        invariant 0 <= visibleCount <= k
        invariant visibleCount > 0 <==> exists j | 0 <= j < k :: trackShown[a][j]
      {
        if trackShown[a][k] {
          visibleCount := visibleCount + 1;
        }
      }
      albumShown := albumShown + [visibleCount > 0];
    }
  }
}
