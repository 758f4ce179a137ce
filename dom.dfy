/**
 * The host page, reduced to the plain data the library reads and the actions it performs
 * on it. Selector lookups are resolved: each field holds what the library's query would
 * find (an element's text, an attribute already parsed as an integer, the list of matches
 * in document order).
 */
module Dom {
  import opened Wrappers

  /** A rating control: its `data-rating` value and the `aria-label` of its inner icon. */
  datatype Thumb = Thumb(rating: string, ariaLabel: string)

  /**
   * A node seen in a mutation record: its class list, its `id`, its `data-id` and
   * `data-rating` (absent ones are `None`) and, for rating controls, the `aria-label`
   * of its inner icon.
   */
  datatype Node = Node(
    classes: seq<string>,
    id: string,
    dataId: Option<string>,
    dataRating: Option<string>,
    iconLabel: string)

  /** One mutation record: the node whose attributes changed and the nodes it gained. */
  datatype Mutation = Mutation(target: Node, addedNodes: seq<Node>)

  /** The controls the library clicks; a thumb is named by its position among the thumbs. */
  datatype Control =
    | ThumbButton(index: nat)
    | RepeatButton
    | ShuffleButton
    | PlayPauseButton
    | ForwardButton
    | RewindButton

  /** What the library does to the page: a `click()` on a control, or an `increment()` / `decrement()` of the volume slider. */
  datatype Action = Clicked(control: Control) | Incremented | Decremented

  /** `n` copies of the action `a`. */
  function Repeat(a: Action, n: nat): (r: seq<Action>)
    ensures |r| == n && forall k :: 0 <= k < n ==> r[k] == a
  {
    seq(n, _ => a)
  }

  /** The repeat button's next position in its cycle of modes. */
  function NextIndex(at: nat, n: nat): nat
  {
    if at + 1 < n then at + 1 else 0
  }

  /** The position `k` clicks after `at` in a cycle of `n` modes (`k < n`). */
  function Advance(at: nat, k: nat, n: nat): nat
  {
    if at + k < n then at + k else at + k - n
  }

  /**
   * The page as the library sees it. The library never changes the page except through
   * `Click`, `Increment` and `Decrement`, which are recorded in `actions`. The only reaction
   * of the page that is modelled here is the repeat button's: each click moves its `value`
   * attribute one step along a fixed cycle `repeatModes` (the host page's own order).
   */
  class Page {
    /** The rating controls matched by the thumbs selector, in document order. */
    var thumbs: seq<Thumb>
    /** The class list of the play/pause button. */
    var playPauseClasses: seq<string>
    /** The number of child nodes of the song info container. */
    var infoChildCount: nat
    /** The volume slider's `aria-valuenow`. */
    var volume: int
    /** The progress slider's `aria-valuenow` and `aria-valuemax` (milliseconds). */
    var playbackTime: int
    var duration: int
    /** The shuffle button's `value` attribute. */
    var shuffle: string
    /** The repeat button's cycle of `value` attributes and its position in it. */
    var repeatModes: seq<string>
    var repeatAt: nat
    /** The text of the title, artist and album elements and the art `src` (`None` when the element is absent). */
    var title: Option<string>
    var artist: Option<string>
    var album: Option<string>
    var art: Option<string>
    /** The `data-id` of the `.player-album` and `.player-artist` links (`None` when the element is absent). */
    var albumLinkId: Option<string>
    var artistLinkId: Option<string>
    /** Everything the library has done to the page, oldest first. */
    var actions: seq<Action>

    ghost predicate Valid()
      reads this
    {
      repeatAt < |repeatModes|
    }

    /** The repeat button's current `value` attribute. */
    function RepeatMode(): string
      reads this
      requires Valid()
    {
      repeatModes[repeatAt]
    }

    /** `el.click()` on a control. */
    method Click(c: Control)
      modifies this`actions, this`repeatAt
      ensures actions == old(actions) + [Clicked(c)]
      ensures repeatAt == if c == RepeatButton then NextIndex(old(repeatAt), |repeatModes|) else old(repeatAt)
    {
      actions := actions + [Clicked(c)];
      if c == RepeatButton {
        repeatAt := NextIndex(repeatAt, |repeatModes|);
      }
    }

    /** `increment()` on the volume slider. */
    method Increment()
      modifies this`actions
      ensures actions == old(actions) + [Incremented]
    {
      actions := actions + [Incremented];
    }

    /** `decrement()` on the volume slider. */
    method Decrement()
      modifies this`actions
      ensures actions == old(actions) + [Decremented]
    {
      actions := actions + [Decremented];
    }
  }
}
