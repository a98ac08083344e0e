/**
 * danogl.components.RendererComponent: how an object is drawn. The drawing
 * itself is not modelled; what is kept is the state the component owns (the
 * renderable, its angle, the two flip flags and the opacity) and the one
 * renderable whose `update` has behaviour, the animation.
 */
module Renderers {
  import opened Wrappers
  import A = Animations
  import Tr = Transitions
  import DL = DeferredList
  import CL = ComponentLists

  /** A renderable: a still picture (known by id) or an animation. */
  datatype Renderable = StaticRenderable(id: nat) | AnimatedRenderable(anim: A.Animation)

  datatype Renderer = Renderer(renderable: Option<Renderable>, angle: real, flippedHorizontally: bool,
                               flippedVertically: bool, opaqueness: real)

  /** The opacity is always a fraction between invisible (0) and opaque (1). */
  predicate Valid(r: Renderer) {
    0.0 <= r.opaqueness <= 1.0
  }

  /** The constructor: the given renderable (possibly null), upright, unflipped and opaque. */
  function Create(renderable: Option<Renderable>): (r: Renderer)
    ensures Valid(r) && r.opaqueness == 1.0
    ensures r.renderable == renderable && r.angle == 0.0
    ensures !r.flippedHorizontally && !r.flippedVertically
  {
    Renderer(renderable, 0.0, false, false, 1.0)
  }

  /**
   * `update(dt)`: forwarded to the renderable when there is one; of the
   * renderables only an animation changes, and one with no clips throws when
   * it is due to switch.
   */
  function Update(r: Renderer, dt: real): (res: Result<Renderer>)
    ensures r.renderable.None? || r.renderable.value.StaticRenderable? ==> res == Ok(r)
    ensures r.renderable.Some? && r.renderable.value.AnimatedRenderable? ==>
              var a := r.renderable.value.anim;
              (res.Err? <==> A.Update(a, dt).Err?)
              && (res.Ok? ==> res.value == r.(renderable := Some(AnimatedRenderable(A.Update(a, dt).value))))
  {
    match r.renderable
    case None => Ok(r)
    case Some(StaticRenderable(_)) => Ok(r)
    case Some(AnimatedRenderable(a)) =>
      match A.Update(a, dt)
      case Err(e) => Err(e)
      case Ok(a') => Ok(r.(renderable := Some(AnimatedRenderable(a'))))
  }

  /** `setRenderable`: any renderable, or null. */
  function SetRenderable(r: Renderer, renderable: Option<Renderable>): (res: Renderer)
    ensures res.renderable == renderable && res == r.(renderable := renderable)
  {
    r.(renderable := renderable)
  }

  /** `setRenderableAngle`: `getRenderableAngle` then returns the angle given, and nothing else changes. */
  function SetRenderableAngle(r: Renderer, degrees: real): (res: Renderer)
    ensures res.angle == degrees
    ensures res.renderable == r.renderable && res.opaqueness == r.opaqueness
    ensures res.flippedHorizontally == r.flippedHorizontally && res.flippedVertically == r.flippedVertically
  {
    r.(angle := degrees)
  }

  /** `setIsFlippedHorizontally`: the flag becomes the argument (unchanged when equal already). */
  function SetIsFlippedHorizontally(r: Renderer, flipped: bool): (res: Renderer)
    ensures res.flippedHorizontally == flipped && res == r.(flippedHorizontally := flipped)
  {
    if r.flippedHorizontally == flipped then r else r.(flippedHorizontally := flipped)
  }

  /** `setIsFlippedVertically`: the flag becomes the argument (unchanged when equal already). */
  function SetIsFlippedVertically(r: Renderer, flipped: bool): (res: Renderer)
    ensures res.flippedVertically == flipped && res == r.(flippedVertically := flipped)
  {
    if r.flippedVertically == flipped then r else r.(flippedVertically := flipped)
  }

  /** `setOpaqueness`: the value clamped into [0, 1]. */
  function SetOpaqueness(r: Renderer, opaqueness: real): (res: Renderer)
    ensures Valid(res)
    ensures 0.0 <= opaqueness <= 1.0 ==> res.opaqueness == opaqueness
    ensures opaqueness > 1.0 ==> res.opaqueness == 1.0
    ensures opaqueness < 0.0 ==> res.opaqueness == 0.0
    ensures res == r.(opaqueness := res.opaqueness)
  {
    var atLeastZero := if opaqueness > 0.0 then opaqueness else 0.0;
    r.(opaqueness := if atLeastZero < 1.0 then atLeastZero else 1.0)
  }

  /** Every setter keeps the opacity a fraction. */
  lemma SettersKeepValid(r: Renderer, renderable: Option<Renderable>, degrees: real, flipped: bool, dt: real)
    requires Valid(r)
    ensures Valid(SetRenderable(r, renderable)) && Valid(SetRenderableAngle(r, degrees))
    ensures Valid(SetIsFlippedHorizontally(r, flipped)) && Valid(SetIsFlippedVertically(r, flipped))
    ensures Update(r, dt).Ok? ==> Valid(Update(r, dt).value)
  {
  }

  /**
   * A fade: a ONCE transition, linear, from the current opacity to `target`,
   * whose setter is `setOpaqueness`; it becomes a component of the object.
   */
  function Fade(r: Renderer, components: Option<DL.ModList<CL.ComponentId>>, id: CL.ComponentId,
                target: real, fadeTime: real, hasCallback: bool): (res: (Tr.Transition<real>, DL.ModList<CL.ComponentId>))
    requires fadeTime > 0.0
    ensures Tr.Valid(res.0) && res.0.t == 0.0 && res.0.factor == 1
    ensures res.0.initial == r.opaqueness && res.0.final == target
    ensures res.0.kind == Tr.TransitionOnce && res.0.interpolator == Tr.LinearFloat
    ensures res.0.transitionTime == fadeTime && res.0.hasCallback == hasCallback
    ensures res.1 == CL.AddComponent(components, id)
  {
    Tr.Create(Some(components), id, true, Some(r.opaqueness), Some(target), Some(Tr.LinearFloat),
              fadeTime, Some(Tr.TransitionOnce), hasCallback).value
  }

  /** `fadeIn`: a fade to opaque. */
  function FadeIn(r: Renderer, components: Option<DL.ModList<CL.ComponentId>>, id: CL.ComponentId,
                  fadeInTime: real, hasCallback: bool): (res: (Tr.Transition<real>, DL.ModList<CL.ComponentId>))
    requires fadeInTime > 0.0
    ensures res == Fade(r, components, id, 1.0, fadeInTime, hasCallback)
    ensures res.0.final == 1.0 && res.0.initial == r.opaqueness
  {
    Fade(r, components, id, 1.0, fadeInTime, hasCallback)
  }

  /** `fadeOut`: a fade to invisible. */
  function FadeOut(r: Renderer, components: Option<DL.ModList<CL.ComponentId>>, id: CL.ComponentId,
                   fadeOutTime: real, hasCallback: bool): (res: (Tr.Transition<real>, DL.ModList<CL.ComponentId>))
    requires fadeOutTime > 0.0
    ensures res == Fade(r, components, id, 0.0, fadeOutTime, hasCallback)
    ensures res.0.final == 0.0 && res.0.initial == r.opaqueness
  {
    Fade(r, components, id, 0.0, fadeOutTime, hasCallback)
  }

  /**
   * Whatever time steps it is given, a fade of a valid renderer only ever
   * sets opacities between the starting opacity and the target, so within [0, 1].
   */
  lemma FadeSetsOnlyFractions(r: Renderer, components: Option<DL.ModList<CL.ComponentId>>, id: CL.ComponentId,
                              target: real, fadeTime: real, dt: real)
    requires Valid(r) && 0.0 <= target <= 1.0 && fadeTime > 0.0
    ensures var tr := Fade(r, components, id, target, fadeTime, false).0;
            var v := Tr.Update(tr, dt).1.valueSet;
            0.0 <= v <= 1.0 && SetOpaqueness(r, v).opaqueness == v
  {
    var tr := Fade(r, components, id, target, fadeTime, false).0;
    var clamped := Tr.Clamp01(tr.t + tr.factor as real * dt / tr.transitionTime);
    Tr.LinearStaysBetween(r.opaqueness, target, clamped);
  }

  /** A fade given at least its whole duration in one update reaches the target and removes itself. */
  lemma FadeCompletes(r: Renderer, components: Option<DL.ModList<CL.ComponentId>>, id: CL.ComponentId,
                      target: real, fadeTime: real, dt: real, hasCallback: bool)
    requires fadeTime > 0.0 && dt >= fadeTime
    ensures var tr := Fade(r, components, id, target, fadeTime, hasCallback).0;
            Tr.Update(tr, dt).1.valueSet == target
            && Tr.Update(tr, dt).1.removeSelf
            && Tr.Update(tr, dt).1.callbackRan == hasCallback
  {
    var tr := Fade(r, components, id, target, fadeTime, hasCallback).0;
    Tr.QuotientAtLeastOne(dt, fadeTime);
    Tr.OnceFinishes(tr, dt);
    assert Tr.LinearFloat(r.opaqueness, target, 1.0) == target;
  }
}
