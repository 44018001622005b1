/**
  The play queue as a value: the queue of tracks and the current index, the
  invariant the player keeps, and one function per user action or media
  event. The `Player` class is proved to follow these functions; the lemmas
  here say what the functions promise, for one step and for any run of steps.
 */
module QueueSpec {
  import opened Wrappers
  import opened Catalog
  import opened Filter

  datatype QueueState = QueueState(queue: seq<Track>, currentIndex: int)

  /** The state at start-up: nothing queued, nothing selected. */
  const Initial := QueueState([], -1)

  /** No two queue entries share an (album title, title) identity. */
  predicate NoDuplicateKeys(q: seq<Track>)
  {
    forall i, j | 0 <= i < j < |q| :: !SameKey(q[j], q[i].albumTitle, q[i].title)
  }

  /** Every queue entry is the catalog's own entry for its identity. */
  predicate FromCatalog(q: seq<Track>, catalog: seq<Track>)
  {
    forall i | 0 <= i < |q| :: FindTrack(catalog, q[i].albumTitle, q[i].title) == Some(q[i])
  }

  /**
    The queue invariant: the index is -1 exactly when the queue is empty and
    otherwise a valid index; no duplicate identities; entries come from the
    catalog.
   */
  predicate Valid(s: QueueState, catalog: seq<Track>)
  {
    && -1 <= s.currentIndex < |s.queue|
    && (s.currentIndex == -1 <==> s.queue == [])
    && NoDuplicateKeys(s.queue)
    && FromCatalog(s.queue, catalog)
  }

  /** The track `playCurrentTrack` loads, or nothing when the index is out of range. */
  function Current(s: QueueState): Option<Track>
  {
    if 0 <= s.currentIndex < |s.queue| then Some(s.queue[s.currentIndex]) else None
  }

  /**
    `addToQueueAndPlay`: look the identity up in the catalog; if found, append
    it unless an entry with its identity is queued, and point at that entry.
   */
  function Add(s: QueueState, catalog: seq<Track>, albumTitle: string, title: string): QueueState
  {
    match FindTrack(catalog, albumTitle, title)
    case None => s
    case Some(t) =>
      var q := if HasKey(s.queue, t.albumTitle, t.title) then s.queue else s.queue + [t];
      QueueState(q, IndexOfKey(q, t.albumTitle, t.title))
  }

  /** `nextTrack` (also run when a track ends): one step forward, stopping at the last entry. */
  function Next(s: QueueState): QueueState
  {
    if s.currentIndex < |s.queue| - 1 then s.(currentIndex := s.currentIndex + 1) else s
  }

  /** `prevTrack`: one step back, stopping at the first entry. */
  function Prev(s: QueueState): QueueState
  {
    if s.currentIndex > 0 then s.(currentIndex := s.currentIndex - 1) else s
  }

  /** A click on queue row `idx`. */
  function Select(s: QueueState, idx: int): QueueState
    requires 0 <= idx < |s.queue|
  {
    s.(currentIndex := idx)
  }

  /**
    The random button: nothing when no track is shown; otherwise the shown
    track at position `pick mod count` goes through `Add`.
   */
  function RandomPick(s: QueueState, catalog: seq<Track>, query: string, mood: string, pick: nat): QueueState
  {
    var shown := VisibleTracks(catalog, query, mood);
    if |shown| == 0 then s
    else Add(s, catalog, shown[pick % |shown|].albumTitle, shown[pick % |shown|].title)
  }

  /** What can happen to the queue: user actions and the media element's `ended` event. */
  datatype Event =
    | TrackClick(albumTitle: string, title: string)
    | QueueRowClick(idx: int)
    | PrevClick
    | NextClick
    | Ended
    | RandomClick(query: string, mood: string, pick: nat)

  /** Queue rows exist only for queued entries, so a row click names a valid index. */
  predicate Enabled(s: QueueState, e: Event)
  {
    e.QueueRowClick? ==> 0 <= e.idx < |s.queue|
  }

  function Step(s: QueueState, catalog: seq<Track>, e: Event): QueueState
    requires Enabled(s, e)
  {
    match e
    case TrackClick(albumTitle, title) => Add(s, catalog, albumTitle, title)
    case QueueRowClick(idx) => Select(s, idx)
    case PrevClick => Prev(s)
    case NextClick => Next(s)
    case Ended => Next(s)
    case RandomClick(query, mood, pick) => RandomPick(s, catalog, query, mood, pick)
  }

  /** Every event of the run is enabled in the state it arrives in. */
  predicate Feasible(s: QueueState, catalog: seq<Track>, events: seq<Event>)
    decreases events
  {
    events == [] || (Enabled(s, events[0]) && Feasible(Step(s, catalog, events[0]), catalog, events[1..]))
  }

  function Run(s: QueueState, catalog: seq<Track>, events: seq<Event>): QueueState
    requires Feasible(s, catalog, events)
    decreases events
  {
    if events == [] then s else Run(Step(s, catalog, events[0]), catalog, events[1..])
  }

  lemma InitialIsValid(catalog: seq<Track>)
    ensures Valid(Initial, catalog)
  {
  }

  /** Under the invariant, `playCurrentTrack` loads a track exactly when the queue is not empty. */
  lemma CurrentWhenValid(s: QueueState, catalog: seq<Track>)
    requires Valid(s, catalog)
    ensures Current(s).Some? <==> s.queue != []
  {
  }

  /** `Add` keeps the invariant. */
  lemma AddKeepsValid(s: QueueState, catalog: seq<Track>, albumTitle: string, title: string)
    requires Valid(s, catalog)
    ensures Valid(Add(s, catalog, albumTitle, title), catalog)
  {
    var found := FindTrack(catalog, albumTitle, title);
    if found.Some? {
      var t := found.value;
      var r := Add(s, catalog, albumTitle, title);
      if !HasKey(s.queue, t.albumTitle, t.title) {
        var q := s.queue + [t];
        assert r.queue == q;
        assert SameKey(q[|s.queue|], t.albumTitle, t.title);
        forall i, j | 0 <= i < j < |q|
          ensures !SameKey(q[j], q[i].albumTitle, q[i].title)
        {
          if j == |s.queue| {
            assert !SameKey(s.queue[i], t.albumTitle, t.title);
          }
        }
      }
    }
  }

  /**
    After `Add`, the current entry is the catalog's track for the requested
    identity, whether it was just appended or already queued; when the
    catalog has no such track, nothing changes.
   */
  lemma AddSelectsRequested(s: QueueState, catalog: seq<Track>, albumTitle: string, title: string)
    requires Valid(s, catalog)
    ensures FindTrack(catalog, albumTitle, title).None? ==> Add(s, catalog, albumTitle, title) == s
    ensures FindTrack(catalog, albumTitle, title).Some? ==>
              Current(Add(s, catalog, albumTitle, title)) == FindTrack(catalog, albumTitle, title)
  {
    var found := FindTrack(catalog, albumTitle, title);
    if found.Some? {
      var t := found.value;
      var r := Add(s, catalog, albumTitle, title);
      if HasKey(s.queue, t.albumTitle, t.title) {
        var i := r.currentIndex;
        assert FindTrack(catalog, s.queue[i].albumTitle, s.queue[i].title) == Some(s.queue[i]);
      } else {
        assert SameKey((s.queue + [t])[|s.queue|], t.albumTitle, t.title);
      }
    }
  }

  /**
    `Add` only appends: the old queue is a prefix of the new one, which is
    one entry longer (the found track, last) exactly when the found identity
    was not queued, and the same otherwise.
   */
  lemma AddOnlyAppends(s: QueueState, catalog: seq<Track>, albumTitle: string, title: string)
    ensures s.queue <= Add(s, catalog, albumTitle, title).queue
    ensures var found := FindTrack(catalog, albumTitle, title);
            var r := Add(s, catalog, albumTitle, title);
            if found.Some? && !HasKey(s.queue, albumTitle, title)
            then r.queue == s.queue + [found.value]
            else r.queue == s.queue
  {
  }

  /** `Next` moves forward by exactly one iff that stays in the queue, and otherwise changes nothing. */
  lemma NextHardStop(s: QueueState)
    ensures Next(s).queue == s.queue
    ensures Next(s).currentIndex == s.currentIndex + 1 <==> s.currentIndex < |s.queue| - 1
    ensures Next(s).currentIndex != s.currentIndex + 1 ==> Next(s) == s
  {
  }

  /** `Prev` moves back by exactly one iff the index is above 0, and otherwise changes nothing. */
  lemma PrevHardStop(s: QueueState)
    ensures Prev(s).queue == s.queue
    ensures Prev(s).currentIndex == s.currentIndex - 1 <==> s.currentIndex > 0
    ensures Prev(s).currentIndex != s.currentIndex - 1 ==> Prev(s) == s
  {
  }

  /** The random button plays a shown track, and does nothing when none is shown. */
  lemma RandomPickPlaysShownTrack(s: QueueState, catalog: seq<Track>, query: string, mood: string, pick: nat)
    requires Valid(s, catalog)
    ensures |VisibleTracks(catalog, query, mood)| == 0 ==> RandomPick(s, catalog, query, mood, pick) == s
    ensures |VisibleTracks(catalog, query, mood)| > 0 ==>
              var shown := VisibleTracks(catalog, query, mood);
              var t := shown[pick % |shown|];
              Current(RandomPick(s, catalog, query, mood, pick)) == FindTrack(catalog, t.albumTitle, t.title) &&
              FindTrack(catalog, t.albumTitle, t.title).Some?
  {
    var shown := VisibleTracks(catalog, query, mood);
    if |shown| > 0 {
      var t := shown[pick % |shown|];
      assert t in catalog;
      var i :| 0 <= i < |catalog| && catalog[i] == t;
      assert SameKey(catalog[i], t.albumTitle, t.title);
      AddSelectsRequested(s, catalog, t.albumTitle, t.title);
    }
  }

  /** One step keeps the invariant and only appends to the queue. */
  lemma StepKeepsValid(s: QueueState, catalog: seq<Track>, e: Event)
    requires Valid(s, catalog) && Enabled(s, e)
    ensures Valid(Step(s, catalog, e), catalog)
    ensures s.queue <= Step(s, catalog, e).queue
  {
    match e
    case TrackClick(albumTitle, title) =>
      AddKeepsValid(s, catalog, albumTitle, title);
      AddOnlyAppends(s, catalog, albumTitle, title);
    case RandomClick(query, mood, pick) =>
      var shown := VisibleTracks(catalog, query, mood);
      if |shown| > 0 {
        var t := shown[pick % |shown|];
        AddKeepsValid(s, catalog, t.albumTitle, t.title);
        AddOnlyAppends(s, catalog, t.albumTitle, t.title);
      }
    case _ =>
  }

  /**
    Any run of user actions and `ended` events from a valid state keeps the
    invariant (in particular, never two entries with one identity) and only
    appends to the queue.
   */
  lemma {:induction false} RunKeepsValid(s: QueueState, catalog: seq<Track>, events: seq<Event>)
    requires Valid(s, catalog) && Feasible(s, catalog, events)
    ensures Valid(Run(s, catalog, events), catalog)
    ensures s.queue <= Run(s, catalog, events).queue
    decreases events
  {
    if events != [] {
      var s' := Step(s, catalog, events[0]);
      StepKeepsValid(s, catalog, events[0]);
      RunKeepsValid(s', catalog, events[1..]);
    }
  }

  /** The catalog of the shared-title scenario, flattened. */
  lemma SharedTitleCatalog(a: Album, b: Album)
    requires |a.tracks| == 2 && |b.tracks| == 1
    ensures Flatten([a, b]) == [Tag(a, a.tracks[0]), Tag(a, a.tracks[1]), Tag(b, b.tracks[0])]
  {
    assert [a, b][1..] == [b] && [b][1..] == [];
    assert Flatten([b]) == TagTracks(b);
  }

  /**
    Two albums share a track title: album "A" has "Intro" and "Fade", album
    "B" has "Intro". Clicking B's "Intro", then A's "Intro", queues both
    entries and selects the second; clicking B's "Intro" again adds nothing
    and selects the first.
   */
  lemma SharedTitleScenario(a: Album, b: Album)
    requires a.title == "A" && b.title == "B"
    requires |a.tracks| == 2 && a.tracks[0].title == "Intro" && a.tracks[1].title == "Fade"
    requires |b.tracks| == 1 && b.tracks[0].title == "Intro"
    ensures var catalog := Flatten([a, b]);
            var s1 := Run(Initial, catalog, [TrackClick("B", "Intro"), TrackClick("A", "Intro")]);
            var s2 := Add(s1, catalog, "B", "Intro");
            && s1.queue == [Tag(b, b.tracks[0]), Tag(a, a.tracks[0])] && s1.currentIndex == 1
            && s2.queue == s1.queue && s2.currentIndex == 0
  {
    var ia, fa, ib := Tag(a, a.tracks[0]), Tag(a, a.tracks[1]), Tag(b, b.tracks[0]);
    SharedTitleCatalog(a, b);
    SharedTitleClicks(ia, fa, ib);
    var clicks := [TrackClick("B", "Intro"), TrackClick("A", "Intro")];
    assert clicks[1..] == [TrackClick("A", "Intro")] && clicks[1..][1..] == [];
  }

  /** The three clicks of the shared-title scenario, one `Add` at a time. */
  lemma SharedTitleClicks(ia: Track, fa: Track, ib: Track)
    requires SameKey(ia, "A", "Intro") && SameKey(fa, "A", "Fade") && SameKey(ib, "B", "Intro")
    ensures Add(Initial, [ia, fa, ib], "B", "Intro") == QueueState([ib], 0)
    ensures Add(QueueState([ib], 0), [ia, fa, ib], "A", "Intro") == QueueState([ib, ia], 1)
    ensures Add(QueueState([ib, ia], 1), [ia, fa, ib], "B", "Intro") == QueueState([ib, ia], 0)
  {
    var catalog := [ia, fa, ib];
    assert FindTrack(catalog, "B", "Intro") == Some(ib) by {
      assert !SameKey(catalog[0], "B", "Intro") && !SameKey(catalog[1], "B", "Intro");
      assert SameKey(catalog[2], "B", "Intro");
    }
    assert FindTrack(catalog, "A", "Intro") == Some(ia) by {
      assert SameKey(catalog[0], "A", "Intro");
    }
    assert !HasKey([ib], "A", "Intro");
    assert SameKey([ib, ia][1], "A", "Intro");
    assert SameKey([ib, ia][0], "B", "Intro");
  }

  /** Queue x, y, z with z current: `ended` leaves the index on z. */
  lemma EndedAtLastEntryStays(x: Track, y: Track, z: Track)
    ensures Step(QueueState([x, y, z], 2), [], Ended) == QueueState([x, y, z], 2)
  {
  }
}
