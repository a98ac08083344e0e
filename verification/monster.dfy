/**
 * pepse.world.Monsters.Monster: a creature that walks at a constant speed,
 * turns round at tree trunks, and jumps on a repeating timer, but only when
 * standing on the ground. Which way it starts and how long its timer waits
 * come from `java.util.Random` and are parameters here.
 */
module Monsters {
  import opened Wrappers
  import opened Vectors
  import P = Physics
  import R = Renderers
  import GO = GameObjects
  import CL = ComponentLists
  import ST = ScheduledTasks

  const GRAVITY: real := 500.0
  const MAX_TIME_UNTIL_JUMP: int := 8
  const JUMP_SPEED: real := 300.0
  const MOVEMENT_SPEED: int := 200
  const WAIT_TIME: real := 0.3
  const TRUNK_TAG: string := "trunk"
  const TERRAIN_TAG: string := "terrain"

  /** The monster: its object, its two pictures, the signed walking speed and whether it is in the air. */
  datatype Monster = Monster(go: GO.GameObject, leftImg: R.Renderable, rightImg: R.Renderable,
                             direction: int, isOnAir: bool)

  /** The walking speed is ±200 and the picture shown faces the way the monster walks. */
  predicate Inv(m: Monster) {
    (m.direction == MOVEMENT_SPEED || m.direction == -MOVEMENT_SPEED)
    && m.go.renderer.renderable == Some(if m.direction < 0 then m.leftImg else m.rightImg)
  }

  /** `updateRenderable`: the left picture exactly when walking left. */
  function UpdateRenderable(m: Monster): (r: Monster)
    ensures r.direction == m.direction && r.isOnAir == m.isOnAir
    ensures r.go == m.go.(renderer := r.go.renderer)
    ensures r.go.renderer.renderable == Some(if m.direction < 0 then m.leftImg else m.rightImg)
  {
    var picture := if m.direction < 0 then m.leftImg else m.rightImg;
    m.(go := m.go.(renderer := R.SetRenderable(m.go.renderer, Some(picture))))
  }

  function SetVelocityX(m: Monster, x: real): (r: Monster)
    ensures r.go.transform.velocity == Vec(x, m.go.transform.velocity.y)
    ensures r == m.(go := m.go.(transform := m.go.transform.(velocity := r.go.transform.velocity)))
  {
    m.(go := m.go.(transform := m.go.transform.(velocity := Vec(x, m.go.transform.velocity.y))))
  }

  /**
   * The constructor: a solid object falling under gravity 500, in the air,
   * walking right (`goRight`, the random coin) or left at 200, and a
   * repeating jump timer of `jumpWait` seconds (`nextInt(8)`) added as
   * component `jumpId`.
   */
  function Create(topLeft: Vec, dims: Vec, leftImg: R.Renderable, rightImg: R.Renderable,
                  goRight: bool, jumpWait: int, jumpId: CL.ComponentId): (r: (Monster, ST.ScheduledTask))
    requires 0 <= jumpWait < MAX_TIME_UNTIL_JUMP
    ensures Inv(r.0) && r.0.isOnAir
    ensures r.0.direction == (if goRight then MOVEMENT_SPEED else -MOVEMENT_SPEED)
    ensures r.0.go.transform.velocity.x == r.0.direction as real
    ensures r.0.go.transform.acceleration.y == GRAVITY && r.0.go.physics.dirToPrevent == Some(ZERO)
    ensures r.0.go.transform.topLeft == topLeft && r.0.go.transform.dims == dims
    ensures r.1 == ST.ScheduledTask(jumpWait as real, true, 0.0)
    ensures r.0.go.components == Some(CL.AddComponent(None, jumpId))
  {
    var go := GO.Create(topLeft, dims, None);
    var transform := go.transform.(acceleration := Vec(go.transform.acceleration.x, GRAVITY));
    var physics := P.PreventIntersectionsFromDirection(go.physics, Some(ZERO));
    var direction := if goRight then MOVEMENT_SPEED else -MOVEMENT_SPEED;
    var m := UpdateRenderable(Monster(go.(transform := transform, physics := physics), leftImg, rightImg, direction, true));
    var m1 := SetVelocityX(m, direction as real);
    var (task, components) := ST.Create(Some(m1.go.components), jumpId, jumpWait as real, true, true).value;
    (m1.(go := m1.go.(components := Some(components))), task)
  }

  /**
   * The jump timer's task: a grounded monster jumps (upward speed 300, now
   * in the air); either way a one-shot timer (component `restoreId`) is
   * started to restore the walking speed 0.3 s later.
   */
  function Jump(m: Monster, restoreId: CL.ComponentId): (r: (Monster, ST.ScheduledTask))
    ensures r.0.direction == m.direction && r.0.leftImg == m.leftImg && r.0.rightImg == m.rightImg
    ensures r.0.go.renderer == m.go.renderer
    ensures Inv(m) ==> Inv(r.0)
    ensures !m.isOnAir ==> r.0.isOnAir && r.0.go.transform.velocity == Vec(m.go.transform.velocity.x, -JUMP_SPEED)
    ensures m.isOnAir ==> r.0.isOnAir && r.0.go.transform == m.go.transform
    ensures r.1 == ST.ScheduledTask(WAIT_TIME, false, 0.0)
  {
    var m1 := if !m.isOnAir
              then m.(go := m.go.(transform := m.go.transform.(velocity := Vec(m.go.transform.velocity.x, -JUMP_SPEED))),
                      isOnAir := true)
              else m;
    var (task, components) := ST.Create(Some(m1.go.components), restoreId, WAIT_TIME, false, true).value;
    (m1.(go := m1.go.(components := Some(components))), task)
  }

  /** The one-shot timer's task: walk at the current speed again. */
  function RestoreWalk(m: Monster): (r: Monster)
    ensures r.go.transform.velocity == Vec(m.direction as real, m.go.transform.velocity.y)
    ensures r.direction == m.direction && r.isOnAir == m.isOnAir
    ensures Inv(m) ==> Inv(r)
  {
    SetVelocityX(m, m.direction as real)
  }

  /**
   * `onCollisionEnter(other)`: a trunk turns the monster round (speed
   * negated, picture swapped); the terrain grounds it.
   */
  function OnCollisionEnter(m: Monster, otherTag: string): (r: Monster)
    ensures Inv(m) ==> Inv(r)
    ensures otherTag == TRUNK_TAG ==> r.direction == -m.direction && r.go.transform.velocity.x == r.direction as real
    ensures otherTag != TRUNK_TAG ==> r.direction == m.direction && r.go == m.go
    ensures otherTag == TERRAIN_TAG ==> !r.isOnAir
    ensures otherTag != TERRAIN_TAG ==> r.isOnAir == m.isOnAir
  {
    var m1 := if otherTag == TRUNK_TAG then UpdateRenderable(SetVelocityX(m.(direction := -m.direction), -m.direction as real))
              else m;
    if otherTag == TERRAIN_TAG then m1.(isOnAir := false) else m1
  }

  /** Two trunks in a row leave the monster walking the way it started. */
  lemma TwoTrunksRestoreDirection(m: Monster)
    requires Inv(m)
    ensures OnCollisionEnter(OnCollisionEnter(m, TRUNK_TAG), TRUNK_TAG).direction == m.direction
    ensures OnCollisionEnter(OnCollisionEnter(m, TRUNK_TAG), TRUNK_TAG).go.renderer.renderable == m.go.renderer.renderable
  {
  }

  /** A monster jumps only from the ground: after landing on terrain the timer makes it jump, a second firing in the air does not. */
  lemma JumpsOnlyFromGround(m: Monster, id1: CL.ComponentId, id2: CL.ComponentId)
    ensures var landed := OnCollisionEnter(m, TERRAIN_TAG);
            var (jumped, _) := Jump(landed, id1);
            jumped.go.transform.velocity.y == -JUMP_SPEED && jumped.isOnAir
            && Jump(jumped, id2).0.go.transform == jumped.go.transform
  {
  }
}
