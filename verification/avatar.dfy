/**
 * pepse.world.Avatar: the player's character. Each frame the held keys pick
 * a movement state and a velocity; flying costs energy and walking restores
 * it, one unit every second update; falling fast opens a parachute that
 * swings in the wind until the avatar lands.
 */
module Avatars {
  import opened Wrappers
  import opened Vectors
  import T = Transforms
  import P = Physics
  import GO = GameObjects
  import C = Counters
  import CL = ComponentLists
  import Tr = Transitions
  import ST = ScheduledTasks

  const MOVEMENT_SPEED: real := 250.0
  const MAX_ENERGY: int := 100
  const GRAVITY: real := 500.0
  const MAX_FALLING_SPEED: real := 400.0
  const VELOCITY_TO_START_PARACHUTE: real := 440.0
  const JUMP_SPEED: real := 420.0
  const AVATAR_SIZE: Vec := Vec(100.0, 100.0)
  const EPSILON_WAIT_TIME: real := 0.01
  const START_ROTATION_ANGLE: real := 30.0
  const WIND_TRANSITION_TIME: real := 1.0
  const LEAF_TAG: string := "leaf"

  datatype State = MoveRight | MoveLeft | JumpNormal | JumpRight | JumpLeft | FlyNormal | FlyLeft | FlyRight

  /** The five animations the avatar can show. */
  datatype Look = WalkRight | WalkLeft | FlyNormalLook | FlyRightLook | FlyLeftLook

  /** Which of the four keys the avatar reacts to are held. */
  datatype Keys = Keys(left: bool, right: bool, space: bool, shift: bool)

  /**
   * The avatar: its game object, movement state, energy counter, the flag
   * that lets every second update touch the energy, the component id of the
   * swinging-in-the-wind transition while there is one, and the animation
   * shown (none until the first update).
   */
  datatype Avatar = Avatar(
    go: GO.GameObject,
    state: State,
    energy: C.Counter,
    decreaseEnergy: bool,
    wind: Option<CL.ComponentId>,
    look: Option<Look>)

  predicate IsJump(s: State) {
    s == JumpNormal || s == JumpRight || s == JumpLeft
  }

  predicate IsFlight(s: State) {
    s == FlyNormal || s == FlyRight || s == FlyLeft
  }

  predicate IsMove(s: State) {
    s == MoveRight || s == MoveLeft
  }

  /** Energy stays in [0, 100], and a wind transition is always on the object's component list. */
  predicate Inv(a: Avatar) {
    0 <= a.energy.value <= MAX_ENERGY && (a.wind.Some? ==> a.go.components.Some?)
  }

  /**
   * `Avatar.create`: a 100×100 object at the corner, solid from every
   * direction, falling under gravity 500, facing right with full energy.
   */
  function Create(topLeft: Vec): (a: Avatar)
    ensures Inv(a) && a.energy.value == MAX_ENERGY && a.state == MoveRight
    ensures a.decreaseEnergy && a.wind.None? && a.look.None?
    ensures a.go.transform.topLeft == topLeft && a.go.transform.dims == AVATAR_SIZE
    ensures a.go.transform.acceleration.y == GRAVITY && a.go.physics.dirToPrevent == Some(ZERO)
  {
    var go := GO.Create(topLeft, AVATAR_SIZE, None);
    var physics := P.PreventIntersectionsFromDirection(go.physics, Some(ZERO));
    var transform := go.transform.(acceleration := Vec(go.transform.acceleration.x, GRAVITY));
    Avatar(go.(physics := physics, transform := transform), MoveRight, C.Create(MAX_ENERGY), true, None, None)
  }

  /** The state a held LEFT (`toLeft`) or RIGHT turns `s` into: same kind of motion, new direction. */
  function Turn(s: State, toLeft: bool): (r: State)
    ensures IsJump(r) == IsJump(s) && IsFlight(r) == IsFlight(s) && IsMove(r) == IsMove(s)
    ensures toLeft ==> r == JumpLeft || r == FlyLeft || r == MoveLeft
    ensures !toLeft ==> r == JumpRight || r == FlyRight || r == MoveRight
  {
    if IsJump(s) then (if toLeft then JumpLeft else JumpRight)
    else if IsFlight(s) then (if toLeft then FlyLeft else FlyRight)
    else if toLeft then MoveLeft else MoveRight
  }

  /** The state after the LEFT and RIGHT checks, RIGHT applied second. */
  function Steer(s: State, keys: Keys): (r: State)
    ensures IsJump(r) == IsJump(s) && IsFlight(r) == IsFlight(s) && IsMove(r) == IsMove(s)
    ensures keys.right ==> r == Turn(s, false)
    ensures keys.left && !keys.right ==> r == Turn(s, true)
    ensures !keys.left && !keys.right ==> r == s
  {
    var s1 := if keys.left then Turn(s, true) else s;
    if keys.right then Turn(s1, false) else s1
  }

  /** Whether this update keeps the avatar flying: SPACE and SHIFT held, and energy left. */
  predicate Flies(a: Avatar, keys: Keys) {
    keys.space && keys.shift && a.energy.value > 0
  }

  function SetVelocity(a: Avatar, v: Vec): (r: Avatar)
    ensures r.go.transform.velocity == v
    ensures r == a.(go := r.go) && r.go == a.go.(transform := r.go.transform)
    ensures r.go.transform == a.go.transform.(velocity := v)
  {
    a.(go := a.go.(transform := a.go.transform.(velocity := v)))
  }

  /**
   * The key rules of `update`: LEFT then RIGHT set the horizontal speed and
   * direction; SPACE+SHIFT with energy flies up (anything else ends a
   * flight in a jump); SPACE on the ground jumps; no key at all stops the
   * horizontal motion.
   */
  function ApplyKeys(a: Avatar, keys: Keys): (r: Avatar)
    ensures r.energy == a.energy && r.decreaseEnergy == a.decreaseEnergy && r.wind == a.wind && r.look == a.look
    ensures r.go == a.go.(transform := r.go.transform)
    ensures r.go.transform == a.go.transform.(velocity := r.go.transform.velocity)
    // horizontal speed
    ensures keys.right ==> r.go.transform.velocity.x == MOVEMENT_SPEED
    ensures keys.left && !keys.right ==> r.go.transform.velocity.x == -MOVEMENT_SPEED
    ensures !keys.left && !keys.right && !keys.space && !keys.shift ==> r.go.transform.velocity.x == 0.0
    ensures !keys.left && !keys.right && (keys.space || keys.shift) ==>
              r.go.transform.velocity.x == a.go.transform.velocity.x
    // state and vertical speed
    ensures Flies(a, keys) ==>
              IsFlight(r.state) && r.go.transform.velocity.y == -MOVEMENT_SPEED
              && r.state == (if IsFlight(a.state) then Steer(a.state, keys) else FlyNormal)
    ensures !Flies(a, keys) ==> !IsFlight(r.state)
    ensures !Flies(a, keys) && IsFlight(a.state) ==>
              r.state == (if Steer(a.state, keys) == FlyLeft then JumpLeft else JumpRight)
              && r.go.transform.velocity.y == a.go.transform.velocity.y
    ensures !Flies(a, keys) && keys.space && IsMove(a.state) ==>
              r.state == JumpNormal && r.go.transform.velocity.y == -JUMP_SPEED
    ensures !Flies(a, keys) && IsJump(a.state) ==>
              r.state == Steer(a.state, keys) && r.go.transform.velocity.y == a.go.transform.velocity.y
    ensures !keys.space && IsMove(a.state) ==>
              r.state == Steer(a.state, keys) && r.go.transform.velocity.y == a.go.transform.velocity.y
  {
    var v0 := a.go.transform.velocity;
    var vx1 := if keys.right then MOVEMENT_SPEED else if keys.left then -MOVEMENT_SPEED else v0.x;
    var s1 := Steer(a.state, keys);
    var s2 := if Flies(a, keys) then (if IsFlight(s1) then s1 else FlyNormal)
              else if IsFlight(s1) then (if s1 == FlyLeft then JumpLeft else JumpRight)
              else s1;
    var vy2 := if Flies(a, keys) then -MOVEMENT_SPEED else v0.y;
    var jumps := keys.space && !IsJump(s2) && !IsFlight(s2);
    var s3 := if jumps then JumpNormal else s2;
    var vy3 := if jumps then -JUMP_SPEED else vy2;
    var vx3 := if !keys.space && !keys.shift && !keys.left && !keys.right then 0.0 else vx1;
    SetVelocity(a, Vec(vx3, vy3)).(state := s3)
  }

  /** `applyWind`: a back-and-forth transition of the angle between -30° and 30° over one second, added as component `id`. */
  function ApplyWind(a: Avatar, id: CL.ComponentId): (r: (Avatar, Tr.Transition<real>))
    ensures r.0 == a.(go := r.0.go, wind := Some(id))
    ensures r.0.go == GO.AddComponent(a.go, id)
    ensures r.1.kind == Tr.TransitionBackAndForth && r.1.t == 0.0
    ensures r.1.initial == -START_ROTATION_ANGLE && r.1.final == START_ROTATION_ANGLE
    ensures r.1.transitionTime == WIND_TRANSITION_TIME && !r.1.hasCallback
  {
    var created := Tr.Create(Some(a.go.components), id, true, Some(-START_ROTATION_ANGLE), Some(START_ROTATION_ANGLE),
                             Some(Tr.LinearFloat), WIND_TRANSITION_TIME, Some(Tr.TransitionBackAndForth), false);
    var (tr, components) := created.value;
    (a.(go := a.go.(components := Some(components)), wind := Some(id)), tr)
  }

  /**
   * `manageFreeFall`: falling faster than 440 caps the fall at 400 and, if
   * no wind transition is running, starts one (with id `windId`) and opens
   * the parachute; the second result is the new transition, if any.
   */
  function ManageFreeFall(a: Avatar, windId: CL.ComponentId): (r: (Avatar, Option<Tr.Transition<real>>))
    ensures Inv(a) ==> Inv(r.0)
    ensures r.0.state == a.state && r.0.energy == a.energy && r.0.decreaseEnergy == a.decreaseEnergy
    ensures r.0.look == a.look && r.0.go.physics == a.go.physics && r.0.go.tag == a.go.tag
    ensures a.go.transform.velocity.y > VELOCITY_TO_START_PARACHUTE ==>
              r.0.go.transform.velocity == Vec(a.go.transform.velocity.x, MAX_FALLING_SPEED)
              && r.0.wind.Some?
              && (r.1.Some? <==> a.wind.None?)
              && (a.wind.None? ==> r.0.wind == Some(windId))
    ensures a.go.transform.velocity.y <= VELOCITY_TO_START_PARACHUTE ==> r == (a, None)
    ensures a.wind.Some? ==> r.1.None? && r.0.wind == a.wind
    ensures r.0.go.transform == a.go.transform.(velocity := r.0.go.transform.velocity)
  {
    var v := a.go.transform.velocity;
    if v.y > VELOCITY_TO_START_PARACHUTE then
      var (a1, added) := if a.wind.None? then var (w, tr) := ApplyWind(a, windId); (w, Some(tr)) else (a, None);
      (SetVelocity(a1, Vec(v.x, MAX_FALLING_SPEED)), added)
    else (a, None)
  }

  /**
   * `updateEnergy`: the flag flips every update, and only when it turns
   * true does anything happen: flying costs one unit, walking below the
   * maximum restores one, and a value above the maximum is cut to it.
   */
  function UpdateEnergy(a: Avatar): (r: Avatar)
    requires C.Valid(a.energy)
    ensures r == a.(energy := r.energy, decreaseEnergy := !a.decreaseEnergy) && C.Valid(r.energy)
    ensures a.decreaseEnergy ==> r.energy == a.energy
    ensures !a.decreaseEnergy && IsFlight(a.state) && 0 < a.energy.value <= MAX_ENERGY + 1 ==>
              r.energy.value == a.energy.value - 1
    ensures !a.decreaseEnergy && IsMove(a.state) && 0 <= a.energy.value < MAX_ENERGY ==>
              r.energy.value == a.energy.value + 1
    ensures !a.decreaseEnergy && !IsFlight(a.state) && a.energy.value > MAX_ENERGY ==> r.energy.value == MAX_ENERGY
    ensures !IsFlight(a.state) && !(IsMove(a.state) && a.energy.value < MAX_ENERGY) && a.energy.value <= MAX_ENERGY ==>
              r.energy == a.energy
  {
    var decrease := !a.decreaseEnergy;
    if !decrease then a.(decreaseEnergy := decrease)
    else
      var e1 := if IsFlight(a.state) then C.Decrement(a.energy) else a.energy;
      var e2 := if IsMove(a.state) && e1.value < MAX_ENERGY then C.Increment(e1) else e1;
      var e3 := if e2.value > MAX_ENERGY then C.IncreaseBy(C.Reset(e2), MAX_ENERGY) else e2;
      a.(energy := e3, decreaseEnergy := decrease)
  }

  /** `updateRenderable`: the animation for the state; JUMP_NORMAL keeps whatever was shown. */
  function UpdateRenderable(a: Avatar): (r: Avatar)
    ensures r == a.(look := r.look)
    ensures (a.state == MoveRight || a.state == JumpRight) ==> r.look == Some(WalkRight)
    ensures (a.state == MoveLeft || a.state == JumpLeft) ==> r.look == Some(WalkLeft)
    ensures a.state == FlyNormal ==> r.look == Some(FlyNormalLook)
    ensures a.state == FlyRight ==> r.look == Some(FlyRightLook)
    ensures a.state == FlyLeft ==> r.look == Some(FlyLeftLook)
    ensures a.state == JumpNormal ==> r.look == a.look
  {
    match a.state
    case MoveRight => a.(look := Some(WalkRight))
    case JumpRight => a.(look := Some(WalkRight))
    case MoveLeft => a.(look := Some(WalkLeft))
    case JumpLeft => a.(look := Some(WalkLeft))
    case FlyNormal => a.(look := Some(FlyNormalLook))
    case FlyRight => a.(look := Some(FlyRightLook))
    case FlyLeft => a.(look := Some(FlyLeftLook))
    case JumpNormal => a
  }

  /** What an update did besides changing the avatar: the components its object ran, and the wind transition started (the parachute opens with it). */
  datatype Effects = Effects(ran: seq<CL.ComponentId>, wind: Option<Tr.Transition<real>>)

  /** The avatar after the object's own update and the fall cap, before the keys: the state the key rules read. */
  function Prepared(a: Avatar, dt: real, fx: CL.Requests, windId: CL.ComponentId): (r: Result<(Avatar, Effects)>)
    ensures r.Err? <==> GO.Update(a.go, dt, fx).Err?
    ensures r.Ok? ==> var a1 := a.(go := GO.Update(a.go, dt, fx).value.0);
              (r.value.0, r.value.1.wind) == ManageFreeFall(a1, windId)
              && r.value.1.ran == GO.Update(a.go, dt, fx).value.1
    ensures r.Ok? && Inv(a) ==> Inv(r.value.0)
  {
    match GO.Update(a.go, dt, fx)
    case Err(e) => Err(e)
    case Ok((go, ran)) =>
      var (a2, wind) := ManageFreeFall(a.(go := go), windId);
      Ok((a2, Effects(ran, wind)))
  }

  /**
   * `update(dt)`: the object's own update, the fall cap, the key rules, the
   * energy and the animation. `windId` is the id a new wind transition
   * gets; `fx` is what the object's components ask of it, as in
   * `GameObjects.Update`. Energy stays in [0, 100]: it falls only in flight, rises only on
   * the ground below the maximum, by one unit at most, and never on two
   * updates in a row.
   */
  function Update(a: Avatar, keys: Keys, dt: real, fx: CL.Requests, windId: CL.ComponentId): (r: Result<(Avatar, Effects)>)
    requires Inv(a)
    ensures r.Err? <==> GO.Update(a.go, dt, fx).Err?
    ensures r.Ok? ==> Inv(r.value.0)
    ensures r.Ok? ==> r.value.0.decreaseEnergy == !a.decreaseEnergy
    ensures r.Ok? && a.decreaseEnergy ==> r.value.0.energy == a.energy
    ensures r.Ok? && r.value.0.energy.value < a.energy.value ==>
              IsFlight(r.value.0.state) && r.value.0.energy.value == a.energy.value - 1
    ensures r.Ok? && r.value.0.energy.value > a.energy.value ==>
              IsMove(r.value.0.state) && r.value.0.energy.value == a.energy.value + 1
    ensures r.Ok? && IsFlight(r.value.0.state) ==> keys.space && keys.shift && a.energy.value > 0
    ensures r.Ok? ==> r.value.0.go.physics == a.go.physics && r.value.0.go.tag == a.go.tag
  {
    match Prepared(a, dt, fx, windId)
    case Err(e) => Err(e)
    case Ok((a1, fx)) =>
      var a2 := ApplyKeys(a1, keys);
      Ok((UpdateRenderable(UpdateEnergy(a2)), fx))
  }

  /** The key and energy stages of an update, separated from the object's own update. */
  lemma UpdateStages(a: Avatar, keys: Keys, dt: real, fx: CL.Requests, windId: CL.ComponentId)
    requires Inv(a) && Update(a, keys, dt, fx, windId).Ok?
    ensures Prepared(a, dt, fx, windId).Ok?
    ensures var a1 := Prepared(a, dt, fx, windId).value.0;
            Update(a, keys, dt, fx, windId).value.0 == UpdateRenderable(UpdateEnergy(ApplyKeys(a1, keys)))
            && a1.state == a.state && a1.energy == a.energy && a1.decreaseEnergy == a.decreaseEnergy
  {
  }

  /** Of two updates in a row, at most one changes the energy. */
  lemma EnergyChangesEverySecondUpdate(a: Avatar, keys1: Keys, keys2: Keys, dt1: real, dt2: real, fx1: CL.Requests, fx2: CL.Requests,
                                       id1: CL.ComponentId, id2: CL.ComponentId)
    requires Inv(a) && Update(a, keys1, dt1, fx1, id1).Ok?
    requires Update(Update(a, keys1, dt1, fx1, id1).value.0, keys2, dt2, fx2, id2).Ok?
    ensures var a1 := Update(a, keys1, dt1, fx1, id1).value.0;
            a1.energy == a.energy || Update(a1, keys2, dt2, fx2, id2).value.0.energy == a1.energy
  {
  }

  /** On the ground with no key held, an update whose turn it is restores one unit of energy below the maximum. */
  lemma RestingRestoresEnergy(a: Avatar, dt: real, fx: CL.Requests, windId: CL.ComponentId)
    requires Inv(a) && IsMove(a.state) && !a.decreaseEnergy && a.energy.value < MAX_ENERGY
    requires Update(a, Keys(false, false, false, false), dt, fx, windId).Ok?
    ensures Update(a, Keys(false, false, false, false), dt, fx, windId).value.0.energy.value == a.energy.value + 1
    ensures Update(a, Keys(false, false, false, false), dt, fx, windId).value.0.state == a.state
  {
    UpdateStages(a, Keys(false, false, false, false), dt, fx, windId);
  }

  /** Holding SPACE+SHIFT with energy left keeps the avatar flying, and an update whose turn it is costs one unit. */
  lemma FlyingDrainsEnergy(a: Avatar, keys: Keys, dt: real, fx: CL.Requests, windId: CL.ComponentId)
    requires Inv(a) && keys.space && keys.shift && a.energy.value > 0 && !a.decreaseEnergy
    requires Update(a, keys, dt, fx, windId).Ok?
    ensures IsFlight(Update(a, keys, dt, fx, windId).value.0.state)
    ensures Update(a, keys, dt, fx, windId).value.0.energy.value == a.energy.value - 1
  {
    UpdateStages(a, keys, dt, fx, windId);
  }

  /** After the object's own update, a fall faster than 440 ends at 400 unless SPACE makes the avatar rise or jump. */
  lemma FallIsCapped(a: Avatar, keys: Keys, dt: real, fx: CL.Requests, windId: CL.ComponentId)
    requires Inv(a) && !keys.space && Update(a, keys, dt, fx, windId).Ok?
    requires GO.Update(a.go, dt, fx).value.0.transform.velocity.y > VELOCITY_TO_START_PARACHUTE
    ensures Update(a, keys, dt, fx, windId).value.0.go.transform.velocity.y == MAX_FALLING_SPEED
  {
    UpdateStages(a, keys, dt, fx, windId);
  }

  /** The parachute opens once per fall: a second fast update with the wind still running starts nothing new. */
  lemma ParachuteOpensOnce(a: Avatar, id1: CL.ComponentId, id2: CL.ComponentId)
    requires a.go.transform.velocity.y > VELOCITY_TO_START_PARACHUTE
    ensures var (a1, w1) := ManageFreeFall(a, id1);
            a1.wind.Some? && ManageFreeFall(a1, id2).1.None?
  {
  }

  /**
   * `onCollisionEnter(other)`: anything but a leaf closes the parachute and
   * schedules `stopRotating` for 0.01 s later (as component `stopId`); any
   * collision lands the avatar, facing left if it was moving left.
   */
  function OnCollisionEnter(a: Avatar, otherTag: string, stopId: CL.ComponentId)
    : (r: (Avatar, Option<ST.ScheduledTask>))
    requires Inv(a)
    ensures Inv(r.0) && r.0.energy == a.energy && r.0.wind == a.wind && r.0.decreaseEnergy == a.decreaseEnergy
    ensures (a.state == FlyLeft || a.state == JumpLeft || a.state == MoveLeft) ==> r.0.state == MoveLeft
    ensures !(a.state == FlyLeft || a.state == JumpLeft || a.state == MoveLeft) ==> r.0.state == MoveRight
    ensures otherTag == LEAF_TAG ==> r.1.None? && r.0.go == a.go
    ensures otherTag != LEAF_TAG ==>
              r.1 == Some(ST.ScheduledTask(EPSILON_WAIT_TIME, false, 0.0)) && r.0.go == GO.AddComponent(a.go, stopId)
  {
    var (go, task) :=
      if otherTag != LEAF_TAG then
        var (t, components) := ST.Create(Some(a.go.components), stopId, EPSILON_WAIT_TIME, false, true).value;
        (a.go.(components := Some(components)), Some(t))
      else (a.go, None);
    var state := if a.state == FlyLeft || a.state == JumpLeft || a.state == MoveLeft then MoveLeft else MoveRight;
    (a.(go := go, state := state), task)
  }

  /** `stopRotating`: the wind transition, if any, is removed and the avatar set upright. */
  function StopRotating(a: Avatar): (r: Avatar)
    requires Inv(a)
    ensures Inv(r) && r.wind.None? && r.state == a.state && r.energy == a.energy
    ensures a.wind.None? ==> r == a
    ensures a.wind.Some? ==> r.go.renderer.angle == 0.0
    ensures a.wind.Some? ==> r.go.components == Some(CL.RemoveComponent(a.go.components, a.wind.value).value)
  {
    match a.wind
    case None => a
    case Some(id) =>
      var go := GO.RemoveComponent(a.go, id).value;
      a.(go := go.(renderer := go.renderer.(angle := 0.0)), wind := None)
  }

  /** Landing and then stopping the rotation lets the next fast fall open the parachute again. */
  lemma LandingRearmsParachute(a: Avatar, otherTag: string, stopId: CL.ComponentId, windId: CL.ComponentId)
    requires Inv(a)
    ensures var landed := StopRotating(OnCollisionEnter(a, otherTag, stopId).0);
            IsMove(landed.state)
            && (landed.go.transform.velocity.y > VELOCITY_TO_START_PARACHUTE ==> ManageFreeFall(landed, windId).1.Some?)
  {
  }
}
