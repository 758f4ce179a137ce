/**
 * The change-detection layer: the bodies of the mutation handlers, one call per batch of
 * mutation records. The track-change handler keeps a memo of the last song it announced;
 * the other handlers filter the batch and announce one event per matching record.
 */
module Hooks {
  import opened Wrappers
  import opened Strings
  import opened Selectors
  import opened Dom
  import opened Playback
  import opened Rating

  /** The payload of `change:song`. */
  datatype Song = Song(title: string, artist: string, album: string, art: Option<string>, duration: int)

  /** What the track-change memo remembers of a song. */
  datatype TrackKey = TrackKey(title: string, artist: string, album: string)

  /** The six semantic events, with their payloads; `change:playback` carries the status's number. */
  datatype Event =
    | SongChanged(song: Song)
    | ShuffleChanged(shuffle: string)
    | RepeatChanged(repeat: string)
    | PlaybackChanged(status: int)
    | PlaybackTimeChanged(current: int, total: int)
    | RatingChanged(rating: string)

  const Unknown := "Unknown"

  /** The memo before the first song: three empty strings. */
  const InitialMemo := TrackKey("", "", "")

  /** `text || 'Unknown'`: a missing or empty text becomes "Unknown"; the result is never empty. */
  function OrUnknown(text: Option<string>): (r: string)
    ensures r != ""
    ensures text.Some? && text.value != "" ==> r == text.value
    ensures text.None? || text.value == "" ==> r == Unknown
  {
    match text
    case Some(t) => if t != "" then t else Unknown
    case None => Unknown
  }

  /** A protocol-relative art URL (starting with "//") gets an "https:" prefix; anything else, a missing one included, is kept. */
  function NormaliseArt(art: Option<string>): (r: Option<string>)
    ensures r.None? <==> art.None?
    ensures art.Some? && StartsWith(art.value, "//") ==> r == Some("https:" + art.value)
    ensures art.Some? && !StartsWith(art.value, "//") ==> r == art
  {
    match art
    case Some(a) => if StartsWith(a, "//") then Some("https:" + a) else art
    case None => None
  }

  /** Normalised art is never protocol-relative, so normalising twice changes nothing. */
  lemma NormaliseArtIdempotent(art: Option<string>)
    ensures NormaliseArt(art).Some? ==> !StartsWith(NormaliseArt(art).value, "//")
    ensures NormaliseArt(NormaliseArt(art)) == NormaliseArt(art)
  {
    if art.Some? && StartsWith(art.value, "//") {
      assert ("https:" + art.value)[0] == 'h';
    }
  }

  /** The song announced for the page's title, artist, album, art and duration. */
  function SongOf(title: Option<string>, artist: Option<string>, album: Option<string>, art: Option<string>, duration: int): (s: Song)
    ensures s.title != "" && s.artist != "" && s.album != ""
  {
    Song(OrUnknown(title), OrUnknown(artist), OrUnknown(album), NormaliseArt(art), duration)
  }

  function KeyOf(s: Song): TrackKey
  {
    TrackKey(s.title, s.artist, s.album)
  }

  /** An added node that carries the now-playing info wrapper class. */
  predicate IsInfoWrapper(n: Node)
  {
    InfoWrapperClass in n.classes
  }

  ghost predicate HasInfoWrapper(batch: seq<Mutation>)
  {
    exists i, j :: 0 <= i < |batch| && 0 <= j < |batch[i].addedNodes| && IsInfoWrapper(batch[i].addedNodes[j])
  }

  /** The memo after a batch and the events the batch produced. */
  datatype TrackOutcome = TrackOutcome(memo: TrackKey, events: seq<Event>)

  /**
   * The track-change handler on one batch, for the song the page shows while the batch is
   * handled: it announces the song once when some added node is an info wrapper and the
   * song differs from the memo, and the memo then becomes the song; otherwise nothing
   * happens.
   */
  ghost function TrackStep(memo: TrackKey, song: Song, batch: seq<Mutation>): (o: TrackOutcome)
    ensures |o.events| <= 1
    ensures o.events != [] <==> HasInfoWrapper(batch) && KeyOf(song) != memo
    ensures o.events != [] ==> o.events == [SongChanged(song)] && o.memo == KeyOf(song)
    ensures o.events == [] ==> o.memo == memo
  {
    if HasInfoWrapper(batch) && KeyOf(song) != memo then TrackOutcome(KeyOf(song), [SongChanged(song)])
    else TrackOutcome(memo, [])
  }

  /** The handler applied to successive batches while the page shows the same song. */
  ghost function TrackRun(memo: TrackKey, song: Song, batches: seq<seq<Mutation>>): TrackOutcome
    decreases |batches|
  {
    if batches == [] then TrackOutcome(memo, [])
    else
      var first := TrackStep(memo, song, batches[0]);
      var rest := TrackRun(first.memo, song, batches[1..]);
      TrackOutcome(rest.memo, first.events + rest.events)
  }

  /**
   * However many insertion batches a single track change produces, `change:song` fires at
   * most once: exactly when some batch inserts an info wrapper and the song differs from
   * the memo.
   */
  lemma {:induction false} TrackRunAnnouncesOnce(memo: TrackKey, song: Song, batches: seq<seq<Mutation>>)
    decreases |batches|
    ensures var o := TrackRun(memo, song, batches);
      && (o.events == [] || o.events == [SongChanged(song)])
      && (o.events != [] <==> KeyOf(song) != memo && exists k :: 0 <= k < |batches| && HasInfoWrapper(batches[k]))
  {
    if batches != [] {
      var first := TrackStep(memo, song, batches[0]);
      TrackRunAnnouncesOnce(first.memo, song, batches[1..]);
      if first.events != [] {
        assert first.memo == KeyOf(song);
      }
      assert forall k :: 1 <= k < |batches| ==> batches[1..][k - 1] == batches[k];
    }
  }

  /** The memo starts empty and normalised fields never are, so the first info wrapper always announces the song. */
  lemma FirstInsertionAnnounces(title: Option<string>, artist: Option<string>, album: Option<string>, art: Option<string>, duration: int, batch: seq<Mutation>)
    requires HasInfoWrapper(batch)
    ensures var song := SongOf(title, artist, album, art, duration);
      TrackStep(InitialMemo, song, batch).events == [SongChanged(song)]
  {
  }

  // ---------------------------------------------------------------------------------
  // The attribute watchers
  // ---------------------------------------------------------------------------------

  datatype Watcher = ShuffleWatcher | RepeatWatcher | PlaybackWatcher | PlaybackTimeWatcher | RatingWatcher

  /** What the handlers read from the page while they handle a batch. */
  datatype Readings = Readings(shuffle: string, repeat: string, status: PlaybackStatus, playbackTime: int, duration: int)

  /** The records a watcher reacts to: by the target's `data-id`, its `id`, or a selected rating control. */
  predicate Relevant(w: Watcher, m: Mutation)
  {
    match w
    case ShuffleWatcher => m.target.dataId == Some(ShuffleDataId)
    case RepeatWatcher => m.target.dataId == Some(RepeatDataId)
    case PlaybackWatcher => m.target.dataId == Some(PlayPauseDataId)
    case PlaybackTimeWatcher => m.target.id == PlaybackSliderId
    case RatingWatcher => m.target.dataRating.Some? && IsElSelected(m.target.iconLabel)
  }

  /** The event a watcher announces for a record it reacts to. */
  function Payload(w: Watcher, m: Mutation, r: Readings): Event
    requires Relevant(w, m)
  {
    match w
    case ShuffleWatcher => ShuffleChanged(r.shuffle)
    case RepeatWatcher => RepeatChanged(r.repeat)
    case PlaybackWatcher => PlaybackChanged(StatusCode(r.status))
    case PlaybackTimeWatcher => PlaybackTimeChanged(r.playbackTime, r.duration)
    case RatingWatcher => RatingChanged(m.target.dataRating.value)
  }

  /**
   * A watcher's handler on one batch: one event per record it reacts to, in the order of the
   * records; every event comes from such a record and every such record gives its event.
   */
  function Notify(w: Watcher, batch: seq<Mutation>, r: Readings): (events: seq<Event>)
    decreases |batch|
    ensures |events| <= |batch|
    ensures forall e :: e in events ==> exists m :: m in batch && Relevant(w, m) && e == Payload(w, m, r)
    ensures forall m :: m in batch && Relevant(w, m) ==> Payload(w, m, r) in events
  {
    if batch == [] then []
    else
      var rest := Notify(w, batch[1..], r);
      assert forall m :: m in batch[1..] ==> m in batch;
      assert forall m :: m in batch && m != batch[0] ==> m in batch[1..];
      (if Relevant(w, batch[0]) then [Payload(w, batch[0], r)] else []) + rest
  }

  /** Handling a batch in two parts gives the same events, in the same order, as handling it at once. */
  lemma {:induction false} NotifySplit(w: Watcher, a: seq<Mutation>, b: seq<Mutation>, r: Readings)
    decreases |a|
    ensures Notify(w, a + b, r) == Notify(w, a, r) + Notify(w, b, r)
  {
    if a != [] {
      assert (a + b)[0] == a[0] && (a + b)[1..] == a[1..] + b;
      NotifySplit(w, a[1..], b, r);
      var head := if Relevant(w, a[0]) then [Payload(w, a[0], r)] else [];
      calc {
        Notify(w, a + b, r);
        head + Notify(w, a[1..] + b, r);
        head + (Notify(w, a[1..], r) + Notify(w, b, r));
        (head + Notify(w, a[1..], r)) + Notify(w, b, r);
        Notify(w, a, r) + Notify(w, b, r);
      }
    } else {
      assert a + b == b;
    }
  }

  /** A single record gives its event exactly when the watcher reacts to it. */
  lemma NotifyOne(w: Watcher, m: Mutation, r: Readings)
    ensures Notify(w, [m], r) == if Relevant(w, m) then [Payload(w, m, r)] else []
  {
    assert [m][1..] == [];
  }

  /** Every `change:rating` payload is the `data-rating` of a record whose target is a selected rating control. */
  lemma RatingEventsComeFromSelectedThumbs(batch: seq<Mutation>, r: Readings, v: string)
    requires RatingChanged(v) in Notify(RatingWatcher, batch, r)
    ensures exists m :: m in batch && m.target.dataRating == Some(v) && !Contains(m.target.iconLabel, "-outline")
  {
  }
}
