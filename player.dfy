/**
  The player's queue state as the script keeps it: the catalog loaded once,
  the queue that tracks are pushed onto, and the current index that the
  transport controls, queue rows and the `ended` event move. Each method is
  proved to change the state as the matching `QueueSpec` function says and
  to keep `QueueSpec.Valid`. What a method hands to the audio element is its
  `played` result: the track `playCurrentTrack` loads, or `None` when
  nothing is loaded.
 */
module PlayQueue {
  import opened Wrappers
  import opened Catalog
  import opened Filter
  import QueueSpec

  class Player {
    /** The albums of the catalog document. */
    const albums: seq<Album>
    /** The flattened catalog, every track tagged with its album. */
    const allTracks: seq<Track>
    var queue: seq<Track>
    var currentIndex: int

    function State(): QueueSpec.QueueState
      reads this
    {
      QueueSpec.QueueState(queue, currentIndex)
    }

    ghost predicate Valid()
      reads this
    {
      allTracks == Flatten(albums) && QueueSpec.Valid(State(), allTracks)
    }

    /** The state once the catalog document is loaded (an empty album list when loading failed). */
    constructor (albums: seq<Album>)
      ensures Valid()
      ensures this.albums == albums && State() == QueueSpec.Initial
    {
      this.albums := albums;
      this.allTracks := Flatten(albums);
      queue := [];
      currentIndex := -1;
    }

    /** `playCurrentTrack`: loads the current entry, and nothing when the index is out of range. */
    method PlayCurrentTrack() returns (loaded: Option<Track>)
      ensures loaded.Some? <==> 0 <= currentIndex < |queue|
      ensures loaded.Some? ==> loaded.value == queue[currentIndex]
    {
      if currentIndex < 0 || currentIndex >= |queue| {
        return None;
      }
      loaded := Some(queue[currentIndex]);
    }

    /**
      `addToQueueAndPlay` for the track element with this album title and
      title. Plays the catalog's track for that identity, appending it only
      when no queued entry has that identity.
     */
    method AddToQueueAndPlay(albumTitle: string, title: string) returns (played: Option<Track>)
      requires Valid()
      modifies this
      ensures Valid()
      ensures State() == QueueSpec.Add(old(State()), allTracks, albumTitle, title)
      ensures played == FindTrack(allTracks, albumTitle, title)
      ensures played.None? ==> queue == old(queue) && currentIndex == old(currentIndex)
      ensures played.Some? ==> 0 <= currentIndex < |queue| && queue[currentIndex] == played.value
      ensures old(queue) <= queue && |queue| <= |old(queue)| + 1
      ensures |queue| == |old(queue)| <==> played.None? || HasKey(old(queue), albumTitle, title)
    {
      QueueSpec.AddKeepsValid(State(), allTracks, albumTitle, title);
      QueueSpec.AddSelectsRequested(State(), allTracks, albumTitle, title);
      QueueSpec.AddOnlyAppends(State(), allTracks, albumTitle, title);
      var trackData := FindTrack(allTracks, albumTitle, title);
      if trackData.None? {
        return None;
      }
      var t := trackData.value;
      if !HasKey(queue, t.albumTitle, t.title) {
        queue := queue + [t];
      }
      currentIndex := IndexOfKey(queue, t.albumTitle, t.title);
      played := PlayCurrentTrack();
    }

    /** `nextTrack`: one step forward and play, or nothing at the last entry. */
    method NextTrack() returns (played: Option<Track>)
      requires Valid()
      modifies this`currentIndex
      ensures Valid()
      ensures State() == QueueSpec.Next(old(State()))
      ensures currentIndex == old(currentIndex) + 1 <==> old(currentIndex) < |queue| - 1
      ensures currentIndex != old(currentIndex) + 1 ==> currentIndex == old(currentIndex)
      ensures played.Some? <==> currentIndex != old(currentIndex)
      ensures played.Some? ==> played.value == queue[currentIndex]
    {
      if currentIndex < |queue| - 1 {
        currentIndex := currentIndex + 1;
        played := PlayCurrentTrack();
      } else {
        played := None;
      }
    }

    /** `prevTrack`: one step back and play, or nothing at the first entry. */
    method PrevTrack() returns (played: Option<Track>)
      requires Valid()
      modifies this`currentIndex
      ensures Valid()
      ensures State() == QueueSpec.Prev(old(State()))
      ensures currentIndex == old(currentIndex) - 1 <==> old(currentIndex) > 0
      ensures currentIndex != old(currentIndex) - 1 ==> currentIndex == old(currentIndex)
      ensures played.Some? <==> currentIndex != old(currentIndex)
      ensures played.Some? ==> played.value == queue[currentIndex]
    {
      if currentIndex > 0 {
        currentIndex := currentIndex - 1;
        played := PlayCurrentTrack();
      } else {
        played := None;
      }
    }

    /** A click on queue row `idx`: jump there and play. */
    method SelectIndex(idx: int) returns (played: Option<Track>)
      requires Valid()
      requires 0 <= idx < |queue|
      modifies this`currentIndex
      ensures Valid()
      ensures State() == QueueSpec.Select(old(State()), idx)
      ensures played == Some(queue[idx])
    {
      currentIndex := idx;
      played := PlayCurrentTrack();
    }

    /** The audio element's `ended` event: advance as `nextTrack` does, so the last entry stays put. */
    method Ended() returns (played: Option<Track>)
      requires Valid()
      modifies this`currentIndex
      ensures Valid()
      ensures State() == QueueSpec.Next(old(State()))
      ensures played.Some? <==> currentIndex != old(currentIndex)
      ensures played.Some? ==> played.value == queue[currentIndex]
      ensures old(currentIndex) == |queue| - 1 ==> currentIndex == old(currentIndex) && played.None?
    {
      played := NextTrack();
    }

    /**
      The random button, under the filter (`query`, `mood`) currently applied:
      nothing when no track is shown, otherwise the shown track at position
      `pick mod count` goes through `AddToQueueAndPlay`.
     */
    method PlayRandom(query: string, mood: string, pick: nat) returns (played: Option<Track>)
      requires Valid()
      modifies this
      ensures Valid()
      ensures State() == QueueSpec.RandomPick(old(State()), allTracks, query, mood, pick)
      ensures played.Some? <==> |VisibleTracks(allTracks, query, mood)| > 0
      ensures played.Some? ==> 0 <= currentIndex < |queue| && queue[currentIndex] == played.value
      ensures played.Some? ==> exists t | t in VisibleTracks(allTracks, query, mood) ::
                                 SameKey(played.value, t.albumTitle, t.title)
      ensures old(queue) <= queue
    {
      var shown := VisibleTracks(allTracks, query, mood);
      if |shown| == 0 {
        return None;
      }
      var t := shown[pick % |shown|];
      assert t in allTracks;
      var i :| 0 <= i < |allTracks| && allTracks[i] == t;
      assert SameKey(allTracks[i], t.albumTitle, t.title);
      played := AddToQueueAndPlay(t.albumTitle, t.title);
    }
  }
}
