# Play queue of the jaydes music player, in Dafny

`jaydes.js` is a browser music player. It loads a catalog of albums, shows
their tracks, and plays them through one audio element. This project models
the logic at the player's core:

- **Catalog** (`catalog.dfy`): albums and their tracks. The flattened
  `allTracks` list gives every track its album's title and art. Tracks are
  looked up by their identity, the pair (album title, track title), using
  `find`, `findIndex` and `some`.
- **Queue** (`queue_spec.dfy`, `player.dfy`): the `queue` of tracks and the
  `currentIndex` position. `Player` is a class whose methods change these
  fields in place:
  - `AddToQueueAndPlay`, `NextTrack`, `PrevTrack` and `Ended` (the `ended`
    event).
  - `SelectIndex` (a click on a queue row).
  - `PlayRandom` (the random button).
  - `PlayCurrentTrack` and its bounds guard.

  Each method is proved to follow a pure transition function in
  `QueueSpec` and to keep the queue invariant:
  - the index is -1 exactly when the queue is empty, and otherwise a valid
    index;
  - no two entries share an identity;
  - every entry is the catalog's own track for its identity.

  Lemmas about the transition functions cover one step and any run of user
  actions and `ended` events.
- **Filter** (`filter.dfy`, `text.dfy`): the search and mood filter.
  `FilterTracks` computes the display state it writes, for tracks and for
  albums. The lemmas relate that state to the visibility rule.
- **Time display** (`time_format.dfy`): `formatTime` for whole seconds, with
  a reader `ParseTime` and a round-trip proof.
- **Volume button** (`volume.dfy`): the mute toggle, the slider level and the
  volume icon.

Three behaviours of the code are worth stating plainly, because a reader
might expect otherwise:
- The mood filter is combined with the title filter by AND
  (jaydes.js:271-273). Choosing a mood never shows a track whose title
  misses the query.
- Unmuting always sets full volume (jaydes.js:126-127). It does not go back
  to the level that was muted.
- Choosing a queue row has no out-of-range error path (jaydes.js:167-171).
  Rows are rendered from the queue, and the queue never shrinks, so a row's
  index is always valid. `SelectIndex` requires it.

Inputs that the script reads from the page or the browser are parameters
here:
- the album title that `addToQueueAndPlay` reads back from the album
  header;
- the search text and the active mood button;
- the random choice.

`Math.random() * n`, rounded down, becomes `pick % n` for an arbitrary
natural number `pick`. Every index below `n` can be reached this way.

## Model

| member | source | states |
|---|---|---|
| `Catalog.FlattenLength` | jaydes.js:31-36 | the flattened list has as many entries as all albums have tracks |
| `Catalog.FlattenAt` | jaydes.js:31-36 | track k of album a sits after all tracks of earlier albums (album-then-track order), carrying album a's title and art and the track's own fields |
| `Catalog.FlattenEntryOrigin` | jaydes.js:31-36 | every flattened entry is some album's track tagged with that album |
| `Catalog.IndexOfKey` | jaydes.js:88 | `findIndex` by identity: -1 iff no entry has the identity, otherwise the first index whose entry has it |
| `Catalog.FindTrack` | jaydes.js:80-81 | `find` by identity: a track iff some entry has the identity; it is the first such entry of the list |
| `Text.Lower` | jaydes.js:267 | lower-casing keeps the length, turns each upper-case ASCII letter into its lower-case letter and keeps every other character |
| `Text.LowerIdempotent` | jaydes.js:267-271 | lower-casing twice is lower-casing once |
| `Text.ContainsEmptyAndSelf` | jaydes.js:271 | every title includes the empty query and itself |
| `Text.Split` | jaydes.js:272 | `split(' ')` always yields at least one piece |
| `Text.JoinSplit` | jaydes.js:64 | joining the pieces of a split gives the original string back |
| `Text.SplitJoin` | jaydes.js:64 | splitting the joined mood attribute gives the tags back when there is at least one tag and no tag holds a space |
| `Filter.MoodMatchIsMembership` | jaydes.js:272 | the attribute-based mood test is "mood is all, or one of the track's tags" for tags without spaces |
| `Filter.QueryCaseIgnored` | jaydes.js:267-271 | the filter's verdict is the same for a query and its lower-cased form: the search is case-insensitive in the query |
| `Filter.UntaggedTrackMatchesOnlyEmptyMood` | jaydes.js:272 | a track with no tags matches only mood "all" or the empty mood |
| `Filter.UnfilteredShowsEverything` | jaydes.js:271-273 | with empty query and mood "all" every track is shown |
| `Filter.EmptyQueryFiltersByMoodOnly` | jaydes.js:271-273 | with an empty query a track is shown iff its mood test passes |
| `Filter.UnfilteredShowsEveryNonEmptyAlbum` | jaydes.js:277-280 | with the initial filter an album is shown iff it has a track |
| `Filter.VisibleTracks` | jaydes.js:285 | the shown tracks: each is a catalog track that passes the filter, and every catalog track that passes is among them |
| `Filter.ShownTracksAreDisplayed` | jaydes.js:285 | an album's track, tagged, is among the shown catalog tracks iff the filter shows its element |
| `Filter.ShownTrackOrigin` | jaydes.js:285 | every shown catalog track is some album's track that the filter shows |
| `Filter.FilterTracks` | jaydes.js:266-281 | a track is shown iff lower(title) includes lower(query) and the mood matches; an album is shown iff it counts at least one shown track, i.e. iff one of its tracks is visible |
| `QueueSpec.InitialIsValid` | jaydes.js:21-22 | the empty queue with index -1 satisfies the queue invariant |
| `QueueSpec.CurrentWhenValid` | jaydes.js:136 | under the invariant, `playCurrentTrack` loads a track iff the queue is not empty |
| `QueueSpec.AddKeepsValid` | jaydes.js:79-91 | adding keeps the index in range, the identities distinct and every entry from the catalog |
| `QueueSpec.AddSelectsRequested` | jaydes.js:80-88 | after adding, the current entry is the catalog's track for the requested identity, newly appended or already queued; an unknown identity changes nothing |
| `QueueSpec.AddOnlyAppends` | jaydes.js:84-86 | the old queue is a prefix of the new one; the queue grows by exactly the found track iff its identity was not queued, and is unchanged otherwise |
| `QueueSpec.NextHardStop` | jaydes.js:234-239 | next raises the index by exactly one iff it is below the last index, otherwise changes nothing; the queue is untouched |
| `QueueSpec.PrevHardStop` | jaydes.js:227-232 | previous lowers the index by exactly one iff it is above 0, otherwise changes nothing; the queue is untouched |
| `QueueSpec.RandomPickPlaysShownTrack` | jaydes.js:284-289 | with nothing shown the random button changes nothing; otherwise it makes current the catalog's track for the picked shown identity, which always exists |
| `QueueSpec.StepKeepsValid` | jaydes.js:79-289 | every user action or `ended` event keeps the invariant and only appends to the queue |
| `QueueSpec.RunKeepsValid` | jaydes.js:79-91 | any run of actions and `ended` events keeps the invariant (never two entries with one identity) and the starting queue stays a prefix |
| `QueueSpec.SharedTitleCatalog` | jaydes.js:31-36 | two albums sharing a track title flatten to three distinct entries in album order |
| `QueueSpec.SharedTitleClicks` | jaydes.js:84-88 | clicking B/Intro, A/Intro, B/Intro gives queue [B/Intro, A/Intro] with index 0, 1, then 0 |
| `QueueSpec.SharedTitleScenario` | jaydes.js:79-91 | the same scenario, starting from albums and the empty queue |
| `QueueSpec.EndedAtLastEntryStays` | jaydes.js:196-198 | `ended` on the last of three entries leaves the index where it is |
| `PlayQueue.Player.constructor` | jaydes.js:19-36 | after loading, the catalog is the flattened albums, the queue is empty, the index is -1, and the invariant holds |
| `PlayQueue.Player.PlayCurrentTrack` | jaydes.js:135-147 | loads a track iff the index is within the queue, and then exactly the current entry |
| `PlayQueue.Player.AddToQueueAndPlay` | jaydes.js:79-91 | plays the catalog's track for the identity, which becomes current; appends only if the identity is not queued; an unknown identity changes nothing; keeps the invariant |
| `PlayQueue.Player.NextTrack` | jaydes.js:234-239 | index +1 and play iff below the last index, otherwise nothing changes and nothing plays |
| `PlayQueue.Player.PrevTrack` | jaydes.js:227-232 | index -1 and play iff above 0, otherwise nothing changes and nothing plays |
| `PlayQueue.Player.SelectIndex` | jaydes.js:167-171 | the clicked row becomes current and its entry plays |
| `PlayQueue.Player.Ended` | jaydes.js:196-198 | advances as next does: plays the new current entry iff the index moved; at the last entry the index stays and nothing plays |
| `PlayQueue.Player.PlayRandom` | jaydes.js:284-289 | plays something iff some track is shown; what plays has the identity of a shown track and is current; the queue only grows |
| `TimeFormat.NatToString` | jaydes.js:180 | a number renders as at least one decimal digit, one digit below 10 and two below 100, with no leading zero except for 0 itself |
| `TimeFormat.NatToStringRoundTrip` | jaydes.js:180 | the decimal rendering reads back as the number |
| `TimeFormat.PadStart` | jaydes.js:180 | `padStart` gives at least the requested width, the string at the end, fill characters before it |
| `TimeFormat.SecondsFieldRoundTrip` | jaydes.js:179-180 | the seconds field is exactly two digits and reads back as the seconds |
| `TimeFormat.FormatTime` | jaydes.js:176-181 | the display is at least `m:ss` long, with the colon third from the end, and the minute field is unpadded (it starts with 0 only as `0:ss`) |
| `TimeFormat.FormatTimeRoundTrip` | jaydes.js:176-181 | reading the display back as minutes and seconds gives the original number of seconds |
| `TimeFormat.FormatTimeInjective` | jaydes.js:176-181 | different numbers of seconds never display alike |
| `Volume.SliderLevel` | jaydes.js:106-109 | the slider sets a level in [0, 1] that is 0 iff the slider is at 0 |
| `Volume.ToggleMute` | jaydes.js:121-130 | the button mutes iff the level is above 0, and otherwise sets level 1.0 with the slider at 100; slider and level stay in agreement |
| `Volume.ToggleMuteIcon` | jaydes.js:111-130 | after the button the icon is muted iff the level was above 0, and high otherwise |
| `Volume.ToggleTwiceGoesToFull` | jaydes.js:121-130 | muting and unmuting a playing level ends at full volume, not at the earlier level |
| `Volume.SliderIcon` | jaydes.js:106-119 | the icon for a slider value is muted at 0, low below 50 and high from 50 up |

## Left out

- Loading the catalog document (jaydes.js:26-38) is network I/O. The model
  starts from the loaded albums: `Player`'s constructor. A failed load is
  the constructor with no albums.
- Rendering is left out:
  - building the album and track elements and the queue list
    (jaydes.js:40-77, 161-174);
  - the now-playing fields and their placeholder art (jaydes.js:149-153);
  - the queue dialog (jaydes.js:241-253);
  - the fade animation (jaydes.js:291-295).
- `highlightPlayingTrack` (jaydes.js:155-159) marks the first track element
  whose title matches the current entry. It looks at the title alone and
  only affects display, not the queue.
- The album title that `addToQueueAndPlay` reads back from the album header
  (jaydes.js:80) is a parameter. The model does not capture a title whose
  HTML text differs from the catalog string.
- The audio element is left out:
  - the `play()` promise and its error logging;
  - `isPlaying` and the play/pause button and events (jaydes.js:140-143,
    200-217).

  A method's `played` result stands for the track loaded into the element.
- Progress and seeking (jaydes.js:184-190, 219-222) are floating-point
  arithmetic on the element's time and duration.
- Volume is modelled with exact reals rather than IEEE doubles.
  `SliderIcon` holds for the slider's integer values.
- `formatTime` for `NaN` and for fractional seconds (jaydes.js:177-179) is
  left out. The model takes whole, non-negative seconds.
- Shuffle (jaydes.js:94-100) only toggles a flag and a style. Nothing reads
  the flag, so it changes no queue behaviour.
- `Math.random` (jaydes.js:287) is the parameter `pick`.
- `toLowerCase` is modelled on ASCII letters only.
- `Filter.VisibleTracks`: does not state that the shown tracks keep catalog
  order, only which tracks they are. `PlayRandom` uses the order only
  through an arbitrary `pick`.
- `PlayRandom` takes the query and mood in force as parameters rather than
  reading the page. `ShownTracksAreDisplayed` and `ShownTrackOrigin` tie
  its shown list to the flags `FilterTracks` writes. Before any filtering
  the page shows every track, which is the case `UnfilteredShowsEverything`
  covers.
