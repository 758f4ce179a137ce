/**
 * The library object: a handle on the page and the per-instance memo of the track-change
 * handler, with the commands of the volume, playback and rating facets and the bodies of the
 * track-change and attribute handlers.
 */
module GoogleMusicApi {
  import opened Wrappers
  import opened Dom
  import opened Rating
  import opened Volume
  import opened Playback
  import opened Hooks

  const MissingWindow := "`win` was not provided to the `GoogleMusic` constructor"

  class GoogleMusic {
    /** The page the library is bound to. */
    const doc: Page
    /** The last title, artist and album announced by `change:song`. */
    var lastTitle: string
    var lastArtist: string
    var lastAlbum: string

    constructor (win: Page)
      ensures doc == win && Memo() == InitialMemo
    {
      doc := win;
      lastTitle, lastArtist, lastAlbum := "", "", "";
    }

    /** Construction fails, with the library's message, exactly when no window is given. */
    static method Create(win: Option<Page>) returns (r: Result<GoogleMusic, string>)
      ensures r.Failure? <==> win.None?
      ensures r.Failure? ==> r.error == MissingWindow
      ensures r.Success? ==> fresh(r.value) && r.value.doc == win.value && r.value.Memo() == InitialMemo
    {
      if win.None? {
        return Failure(MissingWindow);
      }
      var gm := new GoogleMusic(win.value);
      return Success(gm);
    }

    function Memo(): TrackKey
      reads this
    {
      TrackKey(lastTitle, lastArtist, lastAlbum)
    }

    /** The song the page currently shows, normalised as `change:song` announces it. */
    function CurrentSong(): Song
      reads doc
    {
      SongOf(doc.title, doc.artist, doc.album, doc.art, doc.duration)
    }

    /** What the attribute handlers read from the page. */
    function Readings(): Hooks.Readings
      reads doc
      requires doc.Valid()
    {
      Hooks.Readings(doc.shuffle, doc.RepeatMode(), StatusOf(doc.playPauseClasses, doc.infoChildCount),
                     doc.playbackTime, doc.duration)
    }

    // ---------------------------------------------------------------------------------
    // Rating
    // ---------------------------------------------------------------------------------

    /** `getRating`: scans the thumbs in document order and returns the first selected one's value. */
    method GetRating() returns (r: string)
      ensures r == RatingOf(doc.thumbs)
    {
      var ts := doc.thumbs;
      var i := 0;
      while i < |ts|
        invariant 0 <= i <= |ts|
        invariant forall j :: 0 <= j < i ==> !Selected(ts[j])
      {
        if IsElSelected(ts[i].ariaLabel) {
          return ts[i].rating;
        }
        i := i + 1;
      }
      return NoRating;
    }

    /** `toggleThumbsUp`: clicks the thumbs-up control when there is one. */
    method ToggleThumbsUp()
      modifies doc`actions, doc`repeatAt
      ensures doc.actions == old(doc.actions) + ToggleClicks(doc.thumbs, ThumbsUp)
      ensures doc.repeatAt == old(doc.repeatAt)
    {
      var el := FindThumb(doc.thumbs, ThumbsUp);
      if el.Some? {
        doc.Click(ThumbButton(el.value));
      }
    }

    /** `toggleThumbsDown`: clicks the thumbs-down control when there is one. */
    method ToggleThumbsDown()
      modifies doc`actions, doc`repeatAt
      ensures doc.actions == old(doc.actions) + ToggleClicks(doc.thumbs, ThumbsDown)
      ensures doc.repeatAt == old(doc.repeatAt)
    {
      var el := FindThumb(doc.thumbs, ThumbsDown);
      if el.Some? {
        doc.Click(ThumbButton(el.value));
      }
    }

    /**
     * `setRating`: the selector built from the format (`SelectorFor(rating)`) finds the first
     * thumb whose `data-rating` is `rating`; it is clicked unless absent or already selected.
     */
    method SetRating(rating: string)
      modifies doc`actions, doc`repeatAt
      ensures doc.actions == old(doc.actions) + SetRatingClicks(doc.thumbs, rating)
      ensures doc.repeatAt == old(doc.repeatAt)
    {
      var el := FindThumb(doc.thumbs, rating);
      if el.Some? && !IsElSelected(doc.thumbs[el.value].ariaLabel) {
        doc.Click(ThumbButton(el.value));
      }
    }

    // ---------------------------------------------------------------------------------
    // Volume
    // ---------------------------------------------------------------------------------

    /** `increaseVolume`: one `increment()` per started step of 5 (5 when no amount is given). */
    method IncreaseVolume(amount: Option<int>)
      modifies doc`actions
      ensures doc.actions == old(doc.actions) + Repeat(Incremented, Steps(AmountOrDefault(amount)))
    {
      var a := AmountOrDefault(amount);
      var i := 0;
      ghost var n := 0;
      while i < a
        invariant i == StepSize * n && (a > 0 ==> i < a + StepSize) && (a <= 0 ==> i == 0)
        invariant doc.actions == old(doc.actions) + Repeat(Incremented, n)
        decreases a - i
      {
        doc.Increment();
        assert Repeat(Incremented, n) + [Incremented] == Repeat(Incremented, n + 1);
        i, n := i + StepSize, n + 1;
      }
    }

    /** `decreaseVolume`: one `decrement()` per started step of 5 (5 when no amount is given). */
    method DecreaseVolume(amount: Option<int>)
      modifies doc`actions
      ensures doc.actions == old(doc.actions) + Repeat(Decremented, Steps(AmountOrDefault(amount)))
    {
      var a := AmountOrDefault(amount);
      var i := 0;
      ghost var n := 0;
      while i < a
        invariant i == StepSize * n && (a > 0 ==> i < a + StepSize) && (a <= 0 ==> i == 0)
        invariant doc.actions == old(doc.actions) + Repeat(Decremented, n)
        decreases a - i
      {
        doc.Decrement();
        assert Repeat(Decremented, n) + [Decremented] == Repeat(Decremented, n + 1);
        i, n := i + StepSize, n + 1;
      }
    }

    /** `setVolume`: steps from the volume read once at the start towards `target`. */
    method SetVolume(target: int)
      modifies doc`actions
      ensures doc.actions == old(doc.actions) + SetVolumeActions(doc.volume, target)
    {
      var current := doc.volume;
      if target > current {
        IncreaseVolume(Some(target - current));
      } else if target < current {
        DecreaseVolume(Some(current - target));
      }
    }

    // ---------------------------------------------------------------------------------
    // Playback
    // ---------------------------------------------------------------------------------

    method PlayPause()
      modifies doc`actions, doc`repeatAt
      ensures doc.actions == old(doc.actions) + [Clicked(PlayPauseButton)] && doc.repeatAt == old(doc.repeatAt)
    {
      doc.Click(PlayPauseButton);
    }

    method Forward()
      modifies doc`actions, doc`repeatAt
      ensures doc.actions == old(doc.actions) + [Clicked(ForwardButton)] && doc.repeatAt == old(doc.repeatAt)
    {
      doc.Click(ForwardButton);
    }

    method Rewind()
      modifies doc`actions, doc`repeatAt
      ensures doc.actions == old(doc.actions) + [Clicked(RewindButton)] && doc.repeatAt == old(doc.repeatAt)
    {
      doc.Click(RewindButton);
    }

    method ToggleShuffle()
      modifies doc`actions, doc`repeatAt
      ensures doc.actions == old(doc.actions) + [Clicked(ShuffleButton)] && doc.repeatAt == old(doc.repeatAt)
    {
      doc.Click(ShuffleButton);
    }

    /**
     * `toggleRepeat(mode)`: without a mode (or with an empty one) one click; with a mode,
     * clicks until the button shows it, which takes the fewest clicks that reach it and
     * none when it already shows it. The button must be able to show the mode; otherwise
     * the library's loop never ends.
     */
    method ToggleRepeat(mode: Option<string>)
      requires doc.Valid()
      requires mode.Some? && mode.value != "" ==> mode.value in doc.repeatModes
      modifies doc`actions, doc`repeatAt
      ensures doc.Valid()
      ensures mode.None? || mode.value == "" ==>
                doc.actions == old(doc.actions) + [Clicked(RepeatButton)]
                && doc.repeatAt == NextIndex(old(doc.repeatAt), |doc.repeatModes|)
      ensures mode.Some? && mode.value != "" ==>
                doc.RepeatMode() == mode.value
                && doc.actions == old(doc.actions)
                   + Repeat(Clicked(RepeatButton), ClicksToReach(doc.repeatModes, old(doc.repeatAt), mode.value))
    {
      if mode.None? || mode.value == "" {
        doc.Click(RepeatButton);
      } else {
        ghost var n := |doc.repeatModes|;
        ghost var at0 := doc.repeatAt;
        ghost var goal := ClicksToReach(doc.repeatModes, at0, mode.value);
        ghost var k := 0;
        while doc.RepeatMode() != mode.value
          invariant doc.Valid() && k <= goal
          invariant doc.repeatAt == Advance(at0, k, n)
          invariant doc.actions == old(doc.actions) + Repeat(Clicked(RepeatButton), k)
          decreases goal - k
        {
          doc.Click(RepeatButton);
          assert Repeat(Clicked(RepeatButton), k) + [Clicked(RepeatButton)] == Repeat(Clicked(RepeatButton), k + 1);
          k := k + 1;
        }
      }
    }

    // ---------------------------------------------------------------------------------
    // Track-change handler
    // ---------------------------------------------------------------------------------

    /**
     * The track-change handler on one batch of records: every added node that is an info
     * wrapper compares the page's song with the memo, announces it when it differs and
     * stores it in the memo.
     */
    method HandleTrackChange(batch: seq<Mutation>) returns (events: seq<Event>)
      modifies this`lastTitle, this`lastArtist, this`lastAlbum
      ensures TrackOutcome(Memo(), events) == TrackStep(old(Memo()), CurrentSong(), batch)
    {
      var song := CurrentSong();
      ghost var memo0 := Memo();
      events := [];
      var i := 0;
      while i < |batch|
        invariant 0 <= i <= |batch|
        invariant TrackOutcome(Memo(), events) == TrackStep(memo0, song, batch[..i])
      {
        var nodes := batch[i].addedNodes;
        var j := 0;
        WrapperEmpty(batch[..i], batch[i].target);
        assert nodes[..0] == [];
        while j < |nodes|
          invariant 0 <= j <= |nodes|
          invariant TrackOutcome(Memo(), events) == TrackStep(memo0, song, batch[..i] + [Mutation(batch[i].target, nodes[..j])])
        {
          WrapperExtend(batch[..i], batch[i].target, nodes[..j], nodes[j]);
          assert nodes[..j + 1] == nodes[..j] + [nodes[j]];
          if IsInfoWrapper(nodes[j]) {
            if lastTitle != song.title || lastArtist != song.artist || lastAlbum != song.album {
              events := events + [SongChanged(song)];
              lastTitle, lastArtist, lastAlbum := song.title, song.artist, song.album;
            }
          }
          j := j + 1;
        }
        assert nodes[..j] == nodes;
        assert batch[..i + 1] == batch[..i] + [Mutation(batch[i].target, nodes)];
        i := i + 1;
      }
      assert batch[..i] == batch;
    }

    // ---------------------------------------------------------------------------------
    // Attribute handlers
    // ---------------------------------------------------------------------------------

    /**
     * The body of an attribute watcher on one batch: for each record in turn, when the record
     * is one the watcher reacts to, it reads the page (or the record's target, for a rating)
     * and announces the event.
     */
    method HandleAttributeChange(w: Watcher, batch: seq<Mutation>) returns (events: seq<Event>)
      requires doc.Valid()
      ensures events == Notify(w, batch, Readings())
    {
      events := [];
      var i := 0;
      while i < |batch|
        invariant 0 <= i <= |batch|
        invariant events == Notify(w, batch[..i], Readings())
      {
        var m := batch[i];
        NotifySplit(w, batch[..i], [m], Readings());
        NotifyOne(w, m, Readings());
        assert batch[..i + 1] == batch[..i] + [m];
        if Relevant(w, m) {
          var e := Payload(w, m, Readings());
          events := events + [e];
        }
        i := i + 1;
      }
      assert batch[..i] == batch;
    }
  }

  /** Adding one node to the last record adds an info wrapper exactly when that node is one. */
  lemma WrapperExtend(prefix: seq<Mutation>, target: Node, nodes: seq<Node>, n: Node)
    ensures HasInfoWrapper(prefix + [Mutation(target, nodes + [n])])
      <==> HasInfoWrapper(prefix + [Mutation(target, nodes)]) || IsInfoWrapper(n)
  {
    var before := prefix + [Mutation(target, nodes)];
    var after := prefix + [Mutation(target, nodes + [n])];
    var last := |prefix|;
    assert after[last].addedNodes[|nodes|] == n;
    if HasInfoWrapper(after) {
      var i, j :| 0 <= i < |after| && 0 <= j < |after[i].addedNodes| && IsInfoWrapper(after[i].addedNodes[j]);
      if i < last {
        assert before[i] == after[i];
      } else if j < |nodes| {
        assert before[i].addedNodes[j] == after[i].addedNodes[j];
      }
    }
    if HasInfoWrapper(before) {
      var i, j :| 0 <= i < |before| && 0 <= j < |before[i].addedNodes| && IsInfoWrapper(before[i].addedNodes[j]);
      if i < last {
        assert before[i] == after[i];
      } else {
        assert before[i].addedNodes[j] == after[i].addedNodes[j];
      }
    }
  }

  /** A record that adds no nodes adds no info wrapper. */
  lemma WrapperEmpty(prefix: seq<Mutation>, target: Node)
    ensures HasInfoWrapper(prefix + [Mutation(target, [])]) <==> HasInfoWrapper(prefix)
  {
    var after := prefix + [Mutation(target, [])];
    if HasInfoWrapper(after) {
      var i, j :| 0 <= i < |after| && 0 <= j < |after[i].addedNodes| && IsInfoWrapper(after[i].addedNodes[j]);
      assert after[i] == prefix[i];
    }
    if HasInfoWrapper(prefix) {
      var i, j :| 0 <= i < |prefix| && 0 <= j < |prefix[i].addedNodes| && IsInfoWrapper(prefix[i].addedNodes[j]);
      assert after[i] == prefix[i];
    }
  }
}
