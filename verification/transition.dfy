/**
 * danogl.components.Transition: a component that moves a parameter t through
 * [0, 1] at a rate of 1/transitionTime per second and hands the interpolated
 * value to a setter on every update. ONCE stops at the final value, LOOP
 * jumps back to the initial one, BACK_AND_FORTH reverses direction.
 */
module Transitions {
  import opened Wrappers
  import opened Vectors
  import DL = DeferredList
  import CL = ComponentLists

  datatype TransitionType = TransitionOnce | TransitionLoop | TransitionBackAndForth

  /** `LINEAR_INTERPOLATOR_FLOAT`: (1 - t)·n1 + t·n2. */
  function LinearFloat(n1: real, n2: real, t: real): real {
    (1.0 - t) * n1 + t * n2
  }

  /** `CUBIC_INTERPOLATOR_FLOAT`: (2n1 - 2n2)·t³ + (3n2 - 3n1)·t² + n1. */
  function CubicFloat(n1: real, n2: real, t: real): real {
    (2.0 * n1 - 2.0 * n2) * t * t * t + (3.0 * n2 - 3.0 * n1) * t * t + n1
  }

  /** `LINEAR_INTERPOLATOR_VECTOR`: the linear interpolator on each axis. */
  function LinearVector(v1: Vec, v2: Vec, t: real): Vec {
    Vec(LinearFloat(v1.x, v2.x, t), LinearFloat(v1.y, v2.y, t))
  }

  /** `CUBIC_INTERPOLATOR_VECTOR`: the cubic interpolator on each axis. */
  function CubicVector(v1: Vec, v2: Vec, t: real): Vec {
    Vec(CubicFloat(v1.x, v2.x, t), CubicFloat(v1.y, v2.y, t))
  }

  /** All four built-in interpolators start at the initial value and end at the final one. */
  lemma InterpolatorEndpoints(n1: real, n2: real, v1: Vec, v2: Vec)
    ensures LinearFloat(n1, n2, 0.0) == n1 && LinearFloat(n1, n2, 1.0) == n2
    ensures CubicFloat(n1, n2, 0.0) == n1 && CubicFloat(n1, n2, 1.0) == n2
    ensures LinearVector(v1, v2, 0.0) == v1 && LinearVector(v1, v2, 1.0) == v2
    ensures CubicVector(v1, v2, 0.0) == v1 && CubicVector(v1, v2, 1.0) == v2
  {
  }

  /** For t in [0, 1] the linear interpolator stays between its two ends. */
  lemma LinearStaysBetween(n1: real, n2: real, t: real)
    requires 0.0 <= t <= 1.0
    ensures n1 <= n2 ==> n1 <= LinearFloat(n1, n2, t) <= n2
    ensures n2 <= n1 ==> n2 <= LinearFloat(n1, n2, t) <= n1
  {
    LinearForm(n1, n2, t);
    ScaledDifferenceBetween(n1, n2, t);
  }

  lemma LinearForm(n1: real, n2: real, t: real)
    ensures LinearFloat(n1, n2, t) == n1 + t * (n2 - n1)
  {
    assert (1.0 - t) * n1 == n1 - t * n1;
    assert t * (n2 - n1) == t * n2 - t * n1;
  }

  /** A fraction t of a difference lies between 0 and the whole difference. */
  lemma ScaledDifferenceBetween(n1: real, n2: real, t: real)
    requires 0.0 <= t <= 1.0
    ensures n1 <= n2 ==> 0.0 <= t * (n2 - n1) <= n2 - n1
    ensures n2 <= n1 ==> n2 - n1 <= t * (n2 - n1) <= 0.0
  {
    var d := n2 - n1;
    assert d - t * d == (1.0 - t) * d;
    if d > 0.0 {
      NonNegPosMul(t, d);
      NonNegPosMul(1.0 - t, d);
    } else if d < 0.0 {
      var e := -d;
      assert t * d == -(t * e) && (1.0 - t) * d == -((1.0 - t) * e);
      NonNegPosMul(t, e);
      NonNegPosMul(1.0 - t, e);
    }
  }

  /**
   * The state of one transition. `interpolator` maps (initial, final, t) to a
   * value; `hasCallback` says whether `onReachingFinalValue` is non-null.
   */
  datatype Transition<!T> = Transition(
    initial: T,
    final: T,
    interpolator: (T, T, real) -> T,
    transitionTime: real,
    kind: TransitionType,
    hasCallback: bool,
    t: real,
    factor: int)

  /** After construction and after every update: t in [0, 1], and the advancement factor is ±1. */
  predicate Valid<T>(tr: Transition<T>) {
    0.0 <= tr.t <= 1.0 && (tr.factor == 1 || tr.factor == -1) && tr.transitionTime > 0.0
  }

  /**
   * The constructor: `NullPointerException` if the object, the setter, either
   * edge value, the interpolator or the type is null (only the callback may
   * be); otherwise t = 0 moving forwards, and the transition is queued as a
   * component of the object, with id `id`.
   */
  function Create<T>(
    components: Option<Option<DL.ModList<CL.ComponentId>>>,
    id: CL.ComponentId,
    hasSetter: bool,
    initial: Option<T>,
    final: Option<T>,
    interpolator: Option<(T, T, real) -> T>,
    transitionTime: real,
    kind: Option<TransitionType>,
    hasCallback: bool): (r: Result<(Transition<T>, DL.ModList<CL.ComponentId>)>)
    requires transitionTime > 0.0
    ensures r.Err? <==> components.None? || !hasSetter || initial.None? || final.None? || interpolator.None? || kind.None?
    ensures r.Err? ==> r.error == NullPointer
    ensures r.Ok? ==> var (tr, cs) := r.value;
                      Valid(tr) && tr.t == 0.0 && tr.factor == 1
                      && tr.initial == initial.value && tr.final == final.value && tr.kind == kind.value
                      && tr.interpolator == interpolator.value && tr.transitionTime == transitionTime
                      && tr.hasCallback == hasCallback
                      && cs == CL.AddComponent(components.value, id)
  {
    if components.None? || !hasSetter || initial.None? || final.None? || interpolator.None? || kind.None? then
      Err(NullPointer)
    else
      var tr := Transition(initial.value, final.value, interpolator.value, transitionTime, kind.value, hasCallback, 0.0, 1);
      Ok((tr, CL.AddComponent(components.value, id)))
  }

  /** What one update did besides changing the state: the value set, whether the callback ran, whether the transition asked to be removed. */
  datatype Effects<T> = Effects(valueSet: T, callbackRan: bool, removeSelf: bool)

  function Clamp01(x: real): (r: real)
    ensures 0.0 <= r <= 1.0
    ensures 0.0 <= x <= 1.0 ==> r == x
    ensures x > 1.0 ==> r == 1.0
    ensures x < 0.0 ==> r == 0.0
  {
    if x > 1.0 then 1.0 else if x < 0.0 then 0.0 else x
  }

  /**
   * `update(dt)`: advance t by factor·dt/transitionTime, clamp it to [0, 1] and
   * set the interpolated value. On reaching 1: run the callback (if any),
   * then flip the factor (BACK_AND_FORTH), restart at 0 (LOOP) or ask to be
   * removed and stop (ONCE). Finally, a t at 0 flips the factor.
   */
  function Update<T>(tr: Transition<T>, dt: real): (r: (Transition<T>, Effects<T>))
    requires Valid(tr)
    ensures Valid(r.0)
    ensures r.0.initial == tr.initial && r.0.final == tr.final && r.0.kind == tr.kind
    ensures r.0.transitionTime == tr.transitionTime && r.0.hasCallback == tr.hasCallback
    ensures var clamped := Clamp01(tr.t + tr.factor as real * dt / tr.transitionTime);
            r.1.valueSet == tr.interpolator(tr.initial, tr.final, clamped)
            && (r.1.callbackRan <==> clamped == 1.0 && tr.hasCallback)
            && (r.1.removeSelf <==> clamped == 1.0 && tr.kind == TransitionOnce)
    ensures r.0 == tr.(t := r.0.t, factor := r.0.factor)
    ensures var clamped := Clamp01(tr.t + tr.factor as real * dt / tr.transitionTime);
            (0.0 < clamped < 1.0 ==> r.0.t == clamped && r.0.factor == tr.factor)
            && (clamped == 0.0 ==> r.0.t == 0.0 && r.0.factor == -tr.factor)
            && (clamped == 1.0 && tr.kind == TransitionOnce ==> r.0.t == 1.0 && r.0.factor == tr.factor)
            && (clamped == 1.0 && tr.kind == TransitionBackAndForth ==> r.0.t == 1.0 && r.0.factor == -tr.factor)
            && (clamped == 1.0 && tr.kind == TransitionLoop ==> r.0.t == 0.0 && r.0.factor == -tr.factor)
  {
    var t := Clamp01(tr.t + tr.factor as real * dt / tr.transitionTime);
    var value := tr.interpolator(tr.initial, tr.final, t);
    if t >= 1.0 && tr.kind == TransitionOnce then
      (tr.(t := t), Effects(value, tr.hasCallback, true))
    else
      var factor := if t >= 1.0 && tr.kind == TransitionBackAndForth then -tr.factor else tr.factor;
      var t' := if t >= 1.0 && tr.kind == TransitionLoop then 0.0 else t;
      var factor' := if t' <= 0.0 then -factor else factor;
      (tr.(t := t', factor := factor'), Effects(value, t >= 1.0 && tr.hasCallback, false))
  }

  /**
   * A LOOP transition that reaches its end jumps back to t = 0 and, because
   * t is then 0, also flips its factor: the next update holds it at 0 and
   * flips the factor back.
   */
  lemma LoopHoldsAtZeroForOneUpdate<T>(tr: Transition<T>, dt: real, dt2: real)
    requires Valid(tr) && tr.kind == TransitionLoop && tr.factor == 1 && dt2 >= 0.0
    requires tr.t + dt / tr.transitionTime >= 1.0
    ensures var (tr1, _) := Update(tr, dt);
            tr1.t == 0.0 && tr1.factor == -1
            && Update(tr1, dt2).0.t == 0.0 && Update(tr1, dt2).0.factor == 1
            && Update(tr1, dt2).1.valueSet == tr.interpolator(tr.initial, tr.final, 0.0)
  {
    var tr1 := Update(tr, dt).0;
    assert tr1.t == 0.0 && tr1.factor == -1;
    assert -1 as real * dt2 / tr.transitionTime <= 0.0 by { NonPositiveQuotient(dt2, tr.transitionTime); }
  }

  lemma NonPositiveQuotient(a: real, b: real)
    requires a >= 0.0 && b > 0.0
    ensures -1 as real * a / b <= 0.0
  {
    assert -1 as real * a / b == -(a / b);
  }

  lemma QuotientAtLeastOne(a: real, b: real)
    requires b > 0.0 && a >= b
    ensures a / b >= 1.0
  {
  }

  /** A ONCE transition whose update covers the rest of its time sets the final value, runs the callback if any, and asks to be removed. */
  lemma OnceFinishes<T>(tr: Transition<T>, dt: real)
    requires Valid(tr) && tr.kind == TransitionOnce && tr.factor == 1
    requires tr.t + dt / tr.transitionTime >= 1.0
    ensures Update(tr, dt).1 == Effects(tr.interpolator(tr.initial, tr.final, 1.0), tr.hasCallback, true)
  {
    assert 1 as real * dt / tr.transitionTime == dt / tr.transitionTime;
  }

  /** BACK_AND_FORTH turns round at the final value: the factor flips and t stays at 1. */
  lemma BackAndForthTurnsAtEnd<T>(tr: Transition<T>, dt: real)
    requires Valid(tr) && tr.kind == TransitionBackAndForth && tr.factor == 1
    requires tr.t + dt / tr.transitionTime >= 1.0
    ensures Update(tr, dt).0.t == 1.0 && Update(tr, dt).0.factor == -1
    ensures Update(tr, dt).1.callbackRan == tr.hasCallback
  {
  }

  /** BACK_AND_FORTH turns round at the initial value too. */
  lemma BackAndForthTurnsAtStart<T>(tr: Transition<T>, dt: real)
    requires Valid(tr) && tr.kind == TransitionBackAndForth && tr.factor == -1
    requires tr.t - dt / tr.transitionTime <= 0.0
    ensures Update(tr, dt).0.t == 0.0 && Update(tr, dt).0.factor == 1
    ensures !Update(tr, dt).1.callbackRan
  {
    assert -1 as real * dt / tr.transitionTime == -(dt / tr.transitionTime);
    assert Clamp01(tr.t + tr.factor as real * dt / tr.transitionTime) == 0.0;
  }
}
