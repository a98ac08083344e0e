/**
 * danogl.components.Transform: an object's top-left corner, dimensions,
 * velocity, acceleration and the acceleration-enabled flag, plus the velocity
 * actually applied in the last step (`velocityToApply`), which makes `update`
 * a midpoint integrator and delays a directly set velocity by one frame.
 */
module Transforms {
  import opened Wrappers
  import opened Vectors

  datatype Transform = Transform(
    topLeft: Vec,
    dims: Vec,
    velocity: Vec,
    stepVelocity: Vec,
    acceleration: Vec,
    accelerationEnabled: bool)

  /** `new Transform(topLeft, dims)`: at rest, no acceleration, acceleration enabled. */
  function Create(topLeft: Vec, dims: Vec): (t: Transform)
    ensures t.topLeft == topLeft && t.dims == dims
    ensures IsZero(t.velocity) && IsZero(t.stepVelocity) && IsZero(t.acceleration) && t.accelerationEnabled
  {
    Transform(topLeft, dims, ZERO, ZERO, ZERO, true)
  }

  /** `getCenter`: half the dimensions past the top-left corner. */
  function Center(t: Transform): Vec {
    Add(Mult(t.dims, 0.5), t.topLeft)
  }

  /** `setCenter`: move the corner so the centre lands on `c`; nothing else changes. */
  function SetCenter(t: Transform, c: Vec): (r: Transform)
    ensures Center(r) == c
    ensures r.dims == t.dims && r.velocity == t.velocity && r.stepVelocity == t.stepVelocity
    ensures r.acceleration == t.acceleration && r.accelerationEnabled == t.accelerationEnabled
  {
    t.(topLeft := Add(Mult(t.dims, -0.5), c))
  }

  /** `setCenterX`: only the corner's x moves, so that the centre's x becomes `x`. */
  function SetCenterX(t: Transform, x: real): (r: Transform)
    ensures Center(r).x == x && Center(r).y == Center(t).y && r.topLeft.y == t.topLeft.y
    ensures r == t.(topLeft := r.topLeft)
  {
    t.(topLeft := Vec(x - 0.5 * t.dims.x, t.topLeft.y))
  }

  /** `setCenterY`: only the corner's y moves, so that the centre's y becomes `y`. */
  function SetCenterY(t: Transform, y: real): (r: Transform)
    ensures Center(r).y == y && Center(r).x == Center(t).x && r.topLeft.x == t.topLeft.x
    ensures r == t.(topLeft := r.topLeft)
  {
    t.(topLeft := Vec(t.topLeft.x, y - 0.5 * t.dims.y))
  }

  /** `setCenter(x, y)`: `setCenterX` then `setCenterY`, with the same effect as `setCenter`. */
  lemma SetCenterXYAgrees(t: Transform, x: real, y: real)
    ensures SetCenterY(SetCenterX(t, x), y) == SetCenter(t, Vec(x, y))
  {
  }

  function SetTopLeftCornerX(t: Transform, x: real): (r: Transform)
    ensures r.topLeft.x == x && r.topLeft.y == t.topLeft.y
    ensures r == t.(topLeft := r.topLeft)
  {
    t.(topLeft := Vec(x, t.topLeft.y))
  }

  function SetTopLeftCornerY(t: Transform, y: real): (r: Transform)
    ensures r.topLeft.y == y && r.topLeft.x == t.topLeft.x
    ensures r == t.(topLeft := r.topLeft)
  {
    t.(topLeft := Vec(t.topLeft.x, y))
  }

  function SetVelocityX(t: Transform, x: real): (r: Transform)
    ensures r.velocity.x == x && r.velocity.y == t.velocity.y
    ensures r == t.(velocity := r.velocity)
  {
    t.(velocity := Vec(x, t.velocity.y))
  }

  function SetVelocityY(t: Transform, y: real): (r: Transform)
    ensures r.velocity.y == y && r.velocity.x == t.velocity.x
    ensures r == t.(velocity := r.velocity)
  {
    t.(velocity := Vec(t.velocity.x, y))
  }

  /** `setAccelerationEnabled`: only the flag changes. */
  function SetAccelerationEnabled(t: Transform, enabled: bool): (r: Transform)
    ensures r.accelerationEnabled == enabled
    ensures r.topLeft == t.topLeft && r.dims == t.dims && r.velocity == t.velocity
    ensures r.stepVelocity == t.stepVelocity && r.acceleration == t.acceleration
  {
    t.(accelerationEnabled := enabled)
  }

  /**
   * `setDimensions(x, y)`: IllegalArgumentException, changing nothing, when a
   * component is negative; otherwise the new dimensions about the old centre.
   */
  function SetDimensions(t: Transform, x: real, y: real): (r: Result<Transform>)
    ensures x < 0.0 || y < 0.0 ==> r == Err(IllegalArgument)
    ensures x >= 0.0 && y >= 0.0 ==> r.Ok? && r.value.dims == Vec(x, y) && Center(r.value) == Center(t)
    ensures r.Ok? ==> r.value == t.(topLeft := r.value.topLeft, dims := r.value.dims)
  {
    if x < 0.0 || y < 0.0 then Err(IllegalArgument)
    else
      var oldCenter := Center(t);
      Ok(SetCenter(t.(dims := Vec(x, y)), oldCenter))
  }

  /**
   * `update(dt)`: with a non-zero, enabled acceleration the velocity is
   * integrated and the applied velocity becomes the mean of the previous
   * applied velocity and the new velocity; the corner then moves by the
   * applied velocity times dt, and the applied velocity is set to the velocity.
   */
  function Update(t: Transform, dt: real): (r: Transform)
    ensures r.stepVelocity == r.velocity
    ensures r.dims == t.dims && r.acceleration == t.acceleration
    ensures r.accelerationEnabled == t.accelerationEnabled
    ensures !IsZero(t.acceleration) && t.accelerationEnabled ==>
              r.velocity == Vec(t.velocity.x + t.acceleration.x * dt, t.velocity.y + t.acceleration.y * dt)
              && r.topLeft == Vec(t.topLeft.x + (t.stepVelocity.x + r.velocity.x) * 0.5 * dt,
                                  t.topLeft.y + (t.stepVelocity.y + r.velocity.y) * 0.5 * dt)
    ensures IsZero(t.acceleration) || !t.accelerationEnabled ==>
              r.velocity == t.velocity
              && r.topLeft == Vec(t.topLeft.x + t.stepVelocity.x * dt, t.topLeft.y + t.stepVelocity.y * dt)
  {
    var accelerate := !Equals(t.acceleration, ZERO) && t.accelerationEnabled;
    var velocity := if accelerate
                    then Vec(t.velocity.x + t.acceleration.x * dt, t.velocity.y + t.acceleration.y * dt)
                    else t.velocity;
    var applied := if accelerate then Mult(Add(t.stepVelocity, velocity), 0.5) else t.stepVelocity;
    var topLeft := if !IsZero(applied) then Add(t.topLeft, Mult(applied, dt)) else t.topLeft;
    t.(topLeft := topLeft, velocity := velocity, stepVelocity := velocity)
  }

  /**
   * Without acceleration, a velocity set between updates moves the object
   * only from the second update on: the first still applies the old one.
   */
  lemma SetVelocityTakesEffectNextFrame(t: Transform, v: Vec, dt: real)
    requires IsZero(t.acceleration)
    ensures Update(t.(velocity := v), dt).topLeft == Update(t, dt).topLeft
    ensures Update(Update(t.(velocity := v), dt), dt).topLeft ==
              Vec(Update(t, dt).topLeft.x + v.x * dt, Update(t, dt).topLeft.y + v.y * dt)
  {
  }

  /** At rest with no acceleration, an update moves nothing and changes nothing. */
  lemma UpdateAtRestIsIdentity(t: Transform, dt: real)
    requires IsZero(t.velocity) && IsZero(t.stepVelocity) && IsZero(t.acceleration)
    ensures Update(t, dt) == t
  {
  }
}
