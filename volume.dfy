/**
 * The volume facet. The slider only moves in steps of 5 (`increment()` / `decrement()`),
 * so an amount is turned into a number of steps. The last part states, under an assumed
 * model of the slider, where `setVolume` leaves it.
 */
module Volume {
  import opened Wrappers
  import opened Dom

  const DefaultAmount := 5
  const StepSize := 5
  const MaxVolume := 100

  /** The amount `increaseVolume` / `decreaseVolume` use: 5 when none is given (`undefined`). */
  function AmountOrDefault(amount: Option<int>): int
  {
    match amount
    case None => DefaultAmount
    case Some(a) => a
  }

  /**
   * How often `for (i = 0; i < amount; i += 5)` runs: the least number of steps of 5 that
   * covers `amount`, and none when `amount` is not positive.
   */
  function Steps(amount: int): (n: nat)
    ensures amount <= 0 ==> n == 0
    ensures amount > 0 ==> StepSize * (n - 1) < amount <= StepSize * n
  {
    if amount <= 0 then 0 else (amount + StepSize - 1) / StepSize
  }

  /**
   * What `setVolume(target)` does to the slider when it reads `current`: nothing when they
   * are equal, only increments when the target is above, only decrements when it is below.
   */
  function SetVolumeActions(current: int, target: int): (acts: seq<Action>)
    ensures acts == [] <==> target == current
    ensures target > current ==> acts == Repeat(Incremented, Steps(target - current))
    ensures target < current ==> acts == Repeat(Decremented, Steps(current - target))
  {
    if target > current then Repeat(Incremented, Steps(target - current))
    else if target < current then Repeat(Decremented, Steps(current - target))
    else []
  }

  // ---------------------------------------------------------------------------------
  // Assumed reaction of the slider (not part of the library): each increment adds 5 and
  // each decrement takes 5 away, within 0..100.
  // ---------------------------------------------------------------------------------

  function Slide(v: int, a: Action): int
  {
    match a
    case Incremented => if v + StepSize > MaxVolume then MaxVolume else v + StepSize
    case Decremented => if v - StepSize < 0 then 0 else v - StepSize
    case Clicked(_) => v
  }

  /** The slider's value after the page has reacted to `acts`, in order. */
  function SliderAfter(v: int, acts: seq<Action>): int
    decreases |acts|
  {
    if acts == [] then v else SliderAfter(Slide(v, acts[0]), acts[1..])
  }

  lemma {:induction false} SliderAfterIncrements(v: int, n: nat)
    requires 0 <= v <= MaxVolume
    decreases n
    ensures SliderAfter(v, Repeat(Incremented, n))
      == if v + StepSize * n > MaxVolume then MaxVolume else v + StepSize * n
  {
    if n > 0 {
      assert Repeat(Incremented, n)[1..] == Repeat(Incremented, n - 1);
      SliderAfterIncrements(Slide(v, Incremented), n - 1);
    }
  }

  lemma {:induction false} SliderAfterDecrements(v: int, n: nat)
    requires 0 <= v <= MaxVolume
    decreases n
    ensures SliderAfter(v, Repeat(Decremented, n))
      == if v - StepSize * n < 0 then 0 else v - StepSize * n
  {
    if n > 0 {
      assert Repeat(Decremented, n)[1..] == Repeat(Decremented, n - 1);
      SliderAfterDecrements(Slide(v, Decremented), n - 1);
    }
  }

  /**
   * `setVolume(target)` on a slider in 0..100 ends less than one step away from the target,
   * on the far side of it, and exactly on it when the distance is a multiple of 5: the value
   * has to be read back rather than assumed.
   */
  lemma SetVolumeLands(current: int, target: int)
    requires 0 <= current <= MaxVolume && 0 <= target <= MaxVolume
    ensures var v := SliderAfter(current, SetVolumeActions(current, target));
      && (target >= current ==> target <= v < target + StepSize)
      && (target <= current ==> target - StepSize < v <= target)
      && ((target - current) % StepSize == 0 ==> v == target)
  {
    if target > current {
      SliderAfterIncrements(current, Steps(target - current));
    } else if target < current {
      SliderAfterDecrements(current, Steps(current - target));
    }
  }
}
