/**
 * The rating facet: which thumb counts as selected, the current rating, and which clicks
 * `toggleThumbsUp`, `toggleThumbsDown` and `setRating` perform. The second half states,
 * under an explicitly assumed model of how the page reacts to a click on a thumb, what
 * rating results.
 */
module Rating {
  import opened Wrappers
  import opened Strings
  import opened Selectors
  import opened Dom

  const OutlineMarker := "-outline"
  const NoRating := "0"
  const ThumbsUp := "5"
  const ThumbsDown := "1"

  /** `_isElSelected`: a thumb is selected exactly when its icon's label is not an outline. */
  function IsElSelected(ariaLabel: string): (b: bool)
    ensures b <==> !Contains(ariaLabel, OutlineMarker)
  {
    IndexOf(ariaLabel, OutlineMarker) == -1
  }

  predicate Selected(t: Thumb)
  {
    IsElSelected(t.ariaLabel)
  }

  /**
   * `getRating` as a value: the `data-rating` of the first selected thumb in document
   * order, or "0" when no thumb is selected (in particular when there are none).
   */
  function RatingOf(ts: seq<Thumb>): (r: string)
    ensures (forall i :: 0 <= i < |ts| ==> !Selected(ts[i])) ==> r == NoRating
    ensures forall i :: 0 <= i < |ts| && Selected(ts[i]) && (forall j :: 0 <= j < i ==> !Selected(ts[j])) ==> r == ts[i].rating
  {
    if ts == [] then NoRating
    else if Selected(ts[0]) then ts[0].rating
    else
      var r := RatingOf(ts[1..]);
      assert forall i :: 1 <= i < |ts| ==> ts[1..][i - 1] == ts[i];
      r
  }

  /** The first thumb at or after `k` whose `data-rating` is `rating`. */
  function FindFrom(ts: seq<Thumb>, rating: string, k: nat): (r: Option<nat>)
    decreases |ts| - k
    ensures r.Some? ==> (k <= r.value < |ts| && ts[r.value].rating == rating
                         && forall j :: k <= j < r.value ==> ts[j].rating != rating)
    ensures r.None? ==> forall j :: k <= j < |ts| ==> ts[j].rating != rating
  {
    if k >= |ts| then None
    else if ts[k].rating == rating then Some(k)
    else FindFrom(ts, rating, k + 1)
  }

  /** `querySelector` with a thumb selector for `rating`: the first thumb with that `data-rating`, if any. */
  function FindThumb(ts: seq<Thumb>, rating: string): (r: Option<nat>)
    ensures r.Some? ==> (r.value < |ts| && ts[r.value].rating == rating
                         && forall j :: 0 <= j < r.value ==> ts[j].rating != rating)
    ensures r.None? <==> forall j :: 0 <= j < |ts| ==> ts[j].rating != rating
  {
    FindFrom(ts, rating, 0)
  }

  /** The selector `setRating` builds by substituting `rating` for `{rating}` in the format. */
  function SelectorFor(rating: string): string
  {
    ReplaceFirst(ThumbSelectorFormat, "{rating}", rating)
  }

  /**
   * Substituting any rating into the format yields the thumbs selector narrowed to that
   * `data-rating` value; for "5" and "1" it is exactly the thumbs-up and thumbs-down selector.
   */
  lemma SelectorSubstitution(rating: string)
    ensures SelectorFor(rating) == ThumbControls + "[data-rating=\"" + rating + "\"]"
    ensures SelectorFor(ThumbsUp) == ThumbsUpSelector
    ensures SelectorFor(ThumbsDown) == ThumbsDownSelector
  {
    var attr := "[data-rating=\"";
    assert '{' !in "#player " && '{' !in ".player-rating-container " && '{' !in "[icon^=\"sj:thumb-\"]";
    assert '{' !in attr;
    forall r: string
      ensures SelectorFor(r) == ThumbControls + attr + r + "\"]"
    {
      ReplaceAfterPrefix(ThumbControls + attr, "{rating}", "\"]", r);
    }
  }

  /** The clicks of `toggleThumbsUp` ("5") or `toggleThumbsDown` ("1"): one click on the thumb when it exists. */
  function ToggleClicks(ts: seq<Thumb>, rating: string): (acts: seq<Action>)
    ensures |acts| <= 1
    ensures acts == [] <==> forall j :: 0 <= j < |ts| ==> ts[j].rating != rating
    ensures forall a :: a in acts ==> (a.Clicked? && a.control.ThumbButton?
                                       && a.control.index < |ts| && ts[a.control.index].rating == rating)
    ensures acts != [] ==> FindThumb(ts, rating).Some? && acts == [Clicked(ThumbButton(FindThumb(ts, rating).value))]
  {
    match FindThumb(ts, rating)
    case Some(i) => [Clicked(ThumbButton(i))]
    case None => []
  }

  /**
   * The clicks of `setRating(rating)`: at most one, on the thumb for `rating`, and only when
   * that thumb exists and is not already selected.
   */
  function SetRatingClicks(ts: seq<Thumb>, rating: string): (acts: seq<Action>)
    ensures |acts| <= 1
    ensures acts != [] <==> FindThumb(ts, rating).Some? && !Selected(ts[FindThumb(ts, rating).value])
    ensures forall a :: a in acts ==> (a.Clicked? && a.control.ThumbButton?
                                       && a.control.index < |ts| && ts[a.control.index].rating == rating)
    ensures acts != [] ==> FindThumb(ts, rating).Some? && acts == [Clicked(ThumbButton(FindThumb(ts, rating).value))]
  {
    match FindThumb(ts, rating)
    case Some(i) => if Selected(ts[i]) then [] else [Clicked(ThumbButton(i))]
    case None => []
  }

  /** No thumb carries `data-rating="0"` on the page, so `setRating("0")` clicks nothing and cannot clear a rating. */
  lemma SetRatingZeroClicksNothing(ts: seq<Thumb>)
    requires forall j :: 0 <= j < |ts| ==> ts[j].rating != NoRating
    ensures SetRatingClicks(ts, NoRating) == []
  {
  }

  // ---------------------------------------------------------------------------------
  // Assumed reaction of the page to a click on a thumb (not part of the library): the
  // clicked thumb flips between filled and outlined, and every other selected thumb
  // becomes outlined, so at most one thumb is ever selected.
  // ---------------------------------------------------------------------------------

  /** The filled icon label the page shows for a selected thumb. */
  function FilledLabel(rating: string): string
  {
    if rating == ThumbsUp then "thumb-up" else "thumb-down"
  }

  function Outlined(t: Thumb): (r: Thumb)
    ensures r.rating == t.rating && !Selected(r)
  {
    ContainsSuffix(t.ariaLabel, OutlineMarker);
    Thumb(t.rating, t.ariaLabel + OutlineMarker)
  }

  function Filled(t: Thumb): (r: Thumb)
    ensures r.rating == t.rating && Selected(r)
  {
    AbsentWithoutFirstChar(FilledLabel(t.rating), OutlineMarker);
    Thumb(t.rating, FilledLabel(t.rating))
  }

  /** The thumbs after the page has reacted to a click on thumb `i`. */
  function PressThumb(ts: seq<Thumb>, i: nat): (r: seq<Thumb>)
    requires i < |ts|
    ensures |r| == |ts|
  {
    seq(|ts|, j requires 0 <= j < |ts| =>
      if j == i then (if Selected(ts[j]) then Outlined(ts[j]) else Filled(ts[j]))
      else if Selected(ts[j]) then Outlined(ts[j])
      else ts[j])
  }

  /** The thumbs after the page has reacted to every thumb click in `acts`, in order. */
  function ApplyClicks(ts: seq<Thumb>, acts: seq<Action>): (r: seq<Thumb>)
    decreases |acts|
  {
    if acts == [] then ts
    else
      var a := acts[0];
      var next := if a.Clicked? && a.control.ThumbButton? && a.control.index < |ts|
        then PressThumb(ts, a.control.index) else ts;
      ApplyClicks(next, acts[1..])
  }

  ghost predicate AtMostOneSelected(ts: seq<Thumb>)
  {
    forall i, j :: 0 <= i < |ts| && 0 <= j < |ts| && Selected(ts[i]) && Selected(ts[j]) ==> i == j
  }

  /**
   * A click on thumb `i` leaves at most one thumb selected, keeps every `data-rating`, and
   * makes the rating that thumb's value, or "0" when the thumb was already selected.
   */
  lemma {:induction false} PressThumbRating(ts: seq<Thumb>, i: nat)
    requires i < |ts|
    ensures AtMostOneSelected(PressThumb(ts, i))
    ensures forall j :: 0 <= j < |ts| ==> PressThumb(ts, i)[j].rating == ts[j].rating
    ensures RatingOf(PressThumb(ts, i)) == if Selected(ts[i]) then NoRating else ts[i].rating
  {
    var r := PressThumb(ts, i);
    assert forall j :: 0 <= j < |ts| && j != i ==> !Selected(r[j]);
    if Selected(ts[i]) {
      assert !Selected(r[i]);
    } else {
      assert Selected(r[i]);
    }
  }

  /** Applying a single click on thumb `i` is pressing that thumb. */
  lemma {:induction false} ApplyOneClick(ts: seq<Thumb>, i: nat)
    requires i < |ts|
    ensures ApplyClicks(ts, [Clicked(ThumbButton(i))]) == PressThumb(ts, i)
  {
    var acts := [Clicked(ThumbButton(i))];
    assert acts[1..] == [];
  }

  /**
   * `toggleThumbsUp` / `toggleThumbsDown` when the thumb exists: the rating becomes that
   * thumb's value when it was not selected, and "0" when it was (a toggle clears it).
   */
  lemma ToggleThumbRating(ts: seq<Thumb>, rating: string)
    requires FindThumb(ts, rating).Some?
    ensures RatingOf(ApplyClicks(ts, ToggleClicks(ts, rating)))
      == if Selected(ts[FindThumb(ts, rating).value]) then NoRating else rating
  {
    var i := FindThumb(ts, rating).value;
    ApplyOneClick(ts, i);
    PressThumbRating(ts, i);
  }

  /**
   * Thumbs down followed by thumbs up ends with the rating "5", whatever was selected
   * before, as long as both thumbs exist.
   */
  lemma ThumbsDownThenUp(ts: seq<Thumb>)
    requires FindThumb(ts, ThumbsUp).Some? && FindThumb(ts, ThumbsDown).Some?
    ensures var down := ApplyClicks(ts, ToggleClicks(ts, ThumbsDown));
      RatingOf(ApplyClicks(down, ToggleClicks(down, ThumbsUp))) == ThumbsUp
  {
    var d := FindThumb(ts, ThumbsDown).value;
    var u := FindThumb(ts, ThumbsUp).value;
    ApplyOneClick(ts, d);
    PressThumbRating(ts, d);
    var down := PressThumb(ts, d);
    assert FindThumb(down, ThumbsUp) == Some(u);
    assert !Selected(down[u]);
    ToggleThumbRating(down, ThumbsUp);
  }

  /**
   * From a page with at most one selected thumb and a thumb for `rating`, `setRating(rating)`
   * makes `getRating()` return `rating`, and a second `setRating(rating)` clicks nothing.
   */
  lemma SetRatingReachesAndIsIdempotent(ts: seq<Thumb>, rating: string)
    requires AtMostOneSelected(ts)
    requires FindThumb(ts, rating).Some?
    ensures var after := ApplyClicks(ts, SetRatingClicks(ts, rating));
      && RatingOf(after) == rating
      && SetRatingClicks(after, rating) == []
  {
    var i := FindThumb(ts, rating).value;
    if Selected(ts[i]) {
      assert SetRatingClicks(ts, rating) == [];
      assert forall j :: 0 <= j < i ==> !Selected(ts[j]);
    } else {
      ApplyOneClick(ts, i);
      PressThumbRating(ts, i);
      var after := PressThumb(ts, i);
      assert FindThumb(after, rating) == Some(i);
      assert Selected(after[i]);
    }
  }
}
