/**
 * danogl.gui.rendering.AnimationRenderable: a looping sequence of clips. The
 * clips themselves are only counted; what matters is which one is current
 * and how long it has been shown.
 */
module Animations {
  import opened Wrappers

  datatype Animation = Animation(clipCount: nat, timeBetweenClips: real, index: int, sinceSwitch: real)

  /** The current clip is one of the clips. */
  predicate Valid(a: Animation) {
    0 <= a.index < a.clipCount
  }

  /** The constructor: the first clip, shown from now. */
  function Create(clipCount: nat, timeBetweenClips: real): (a: Animation)
    ensures a.index == 0 && a.sinceSwitch == 0.0
    ensures a.clipCount == clipCount && a.timeBetweenClips == timeBetweenClips
    ensures clipCount > 0 ==> Valid(a)
  {
    Animation(clipCount, timeBetweenClips, 0, 0.0)
  }

  /**
   * `update(dt)`: the time shown grows by dt; once it reaches the time between
   * clips it restarts at 0 and the next clip (cyclically) becomes current.
   * With no clips at all that step divides by zero (ArithmeticException).
   */
  function Update(a: Animation, dt: real): (r: Result<Animation>)
    ensures a.sinceSwitch + dt < a.timeBetweenClips ==> r == Ok(a.(sinceSwitch := a.sinceSwitch + dt))
    ensures a.sinceSwitch + dt >= a.timeBetweenClips && a.clipCount == 0 ==> r == Err(Arithmetic)
    ensures a.sinceSwitch + dt >= a.timeBetweenClips && a.clipCount > 0 ==>
              r.Ok? && r.value.sinceSwitch == 0.0
              && (0 <= a.index && a.index + 1 < a.clipCount ==> r.value.index == a.index + 1)
              && (a.index + 1 == a.clipCount ==> r.value.index == 0)
    ensures r.Ok? ==> r.value.clipCount == a.clipCount && r.value.timeBetweenClips == a.timeBetweenClips
  {
    var since := a.sinceSwitch + dt;
    if since >= a.timeBetweenClips then
      if a.clipCount == 0 then Err(Arithmetic)
      else Ok(a.(sinceSwitch := 0.0, index := (a.index + 1) % a.clipCount))
    else Ok(a.(sinceSwitch := since))
  }

  /** The current clip stays a clip, and one update advances it by at most one, however large dt is. */
  lemma UpdateKeepsValid(a: Animation, dt: real)
    requires Valid(a)
    ensures Update(a, dt).Ok?
    ensures Valid(Update(a, dt).value)
    ensures Update(a, dt).value.index == a.index || Update(a, dt).value.index == NextIndex(a)
  {
  }

  /** `resetAnimation`: back to the first clip, shown from now. */
  function ResetAnimation(a: Animation): (r: Animation)
    ensures r.index == 0 && r.sinceSwitch == 0.0
    ensures r == Create(a.clipCount, a.timeBetweenClips)
  {
    a.(index := 0, sinceSwitch := 0.0)
  }

  /** The clip after the current one, cyclically. */
  function NextIndex(a: Animation): (i: int)
    requires Valid(a)
    ensures 0 <= i < a.clipCount
  {
    if a.index + 1 == a.clipCount then 0 else a.index + 1
  }

  /** Clip switches one after another, with nothing else happening in between. */
  function Advance(a: Animation, switches: nat): (r: Animation)
    requires Valid(a)
    ensures Valid(r) && r.clipCount == a.clipCount
    decreases switches
  {
    if switches == 0 then a
    else Advance(a.(index := NextIndex(a), sinceSwitch := 0.0), switches - 1)
  }

  /** After k switches (k at most the clip count) the current clip is k further on, wrapping once. */
  lemma {:induction false} AdvanceIndex(a: Animation, switches: nat)
    requires Valid(a) && switches <= a.clipCount
    ensures a.index + switches < a.clipCount ==> Advance(a, switches).index == a.index + switches
    ensures a.index + switches >= a.clipCount ==> Advance(a, switches).index == a.index + switches - a.clipCount
    decreases switches
  {
    if switches > 0 {
      var next := a.(index := NextIndex(a), sinceSwitch := 0.0);
      if a.index + 1 == a.clipCount {
        assert a.index + switches >= a.clipCount;
        AdvanceFromStart(next, switches - 1);
      } else {
        AdvanceIndex(next, switches - 1);
      }
    }
  }

  /** From the first clip, fewer switches than there are clips never wrap. */
  lemma {:induction false} AdvanceFromStart(a: Animation, switches: nat)
    requires Valid(a) && a.index == 0 && switches < a.clipCount
    ensures Advance(a, switches).index == switches
    decreases switches
  {
    if switches > 0 {
      var next := a.(index := NextIndex(a), sinceSwitch := 0.0);
      assert next.index == 1;
      AdvanceShifted(next, switches - 1);
    }
  }

  /** Switches that stay short of the last clip just count up. */
  lemma {:induction false} AdvanceShifted(a: Animation, switches: nat)
    requires Valid(a) && a.index + switches < a.clipCount
    ensures Advance(a, switches).index == a.index + switches
    decreases switches
  {
    if switches > 0 {
      var next := a.(index := NextIndex(a), sinceSwitch := 0.0);
      AdvanceShifted(next, switches - 1);
    }
  }

  /** After as many switches as there are clips the animation shows the same clip again. */
  lemma CycleLength(a: Animation)
    requires Valid(a)
    ensures Advance(a, a.clipCount).index == a.index
  {
    AdvanceIndex(a, a.clipCount);
  }

  /** A switching update is one step of `Advance`. */
  lemma SwitchIsAdvance(a: Animation, dt: real)
    requires Valid(a) && a.sinceSwitch + dt >= a.timeBetweenClips
    ensures Update(a, dt) == Ok(Advance(a, 1))
  {
    var next := a.(index := NextIndex(a), sinceSwitch := 0.0);
    assert Advance(a, 1) == next;
    NextIndexIsModulo(a.index, a.clipCount);
  }

  lemma NextIndexIsModulo(i: int, n: int)
    requires 0 <= i < n
    ensures (i + 1) % n == if i + 1 == n then 0 else i + 1
  {
  }
}
