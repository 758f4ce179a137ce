/** The playback facet: the three-way playback status and the repeat button's cycle. */
module Playback {
  import opened Dom

  /** `GoogleMusic.Playback`'s status constants. */
  datatype PlaybackStatus = Stopped | Paused | Playing

  /** The numbers the library reports for each status: STOPPED 0, PAUSED 1, PLAYING 2. */
  function StatusCode(s: PlaybackStatus): (c: int)
    ensures c == 0 <==> s == Stopped
    ensures c == 1 <==> s == Paused
    ensures c == 2 <==> s == Playing
  {
    match s
    case Stopped => 0
    case Paused => 1
    case Playing => 2
  }

  // Repeat and shuffle modes, as the buttons' `value` attributes spell them
  const ListRepeat := "LIST_REPEAT"
  const SingleRepeat := "SINGLE_REPEAT"
  const NoRepeat := "NO_REPEAT"
  const AllShuffle := "ALL_SHUFFLE"
  const NoShuffle := "NO_SHUFFLE"

  /**
   * `getPlaybackStatus`: playing exactly when the play/pause button has the `playing` class;
   * otherwise paused exactly when the song info container has child nodes, stopped if not.
   */
  function StatusOf(playPauseClasses: seq<string>, infoChildCount: nat): (s: PlaybackStatus)
    ensures s == Playing <==> "playing" in playPauseClasses
    ensures s == Paused <==> "playing" !in playPauseClasses && infoChildCount > 0
    ensures s == Stopped <==> "playing" !in playPauseClasses && infoChildCount == 0
  {
    if "playing" in playPauseClasses then Playing
    else if infoChildCount > 0 then Paused
    else Stopped
  }

  /** Some position at or after `j` clicks from `at` shows `mode`. */
  ghost predicate ReachableFrom(modes: seq<string>, at: nat, mode: string, j: nat)
    requires at < |modes|
  {
    exists p :: j <= p < |modes| && modes[Advance(at, p, |modes|)] == mode
  }

  /** The first number of clicks, at least `j`, after which the repeat button shows `mode`. */
  ghost function ClicksFrom(modes: seq<string>, at: nat, mode: string, j: nat): (k: nat)
    requires at < |modes| && ReachableFrom(modes, at, mode, j)
    decreases |modes| - j
    ensures j <= k < |modes| && modes[Advance(at, k, |modes|)] == mode
    ensures forall i :: j <= i < k ==> modes[Advance(at, i, |modes|)] != mode
  {
    if modes[Advance(at, j, |modes|)] == mode then j
    else ClicksFrom(modes, at, mode, j + 1)
  }

  lemma EveryModeIsReachable(modes: seq<string>, at: nat, mode: string)
    requires at < |modes| && mode in modes
    ensures ReachableFrom(modes, at, mode, 0)
  {
    var p :| 0 <= p < |modes| && modes[p] == mode;
    var d := if p >= at then p - at else p + |modes| - at;
    assert Advance(at, d, |modes|) == p;
  }

  /**
   * The number of clicks `toggleRepeat(mode)` makes on a button whose cycle is `modes` and
   * which shows `modes[at]`: the fewest clicks after which it shows `mode`; none when it
   * already does; fewer than a full turn of the cycle.
   */
  ghost function ClicksToReach(modes: seq<string>, at: nat, mode: string): (k: nat)
    requires at < |modes| && mode in modes
    ensures k < |modes| && modes[Advance(at, k, |modes|)] == mode
    ensures forall i :: 0 <= i < k ==> modes[Advance(at, i, |modes|)] != mode
    ensures modes[at] == mode ==> k == 0
  {
    EveryModeIsReachable(modes, at, mode);
    ClicksFrom(modes, at, mode, 0)
  }
}
