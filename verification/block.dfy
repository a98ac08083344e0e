/**
 * pepse.world.Block: a 30×30 square that cannot be moved and that nothing
 * passes through.
 */
module Blocks {
  import opened Wrappers
  import opened Vectors
  import P = Physics
  import R = Renderers
  import GO = GameObjects

  const SIZE: int := 30
  const BLOCK_TAG: string := "block"

  /** The constructor: a square of side `SIZE` at the corner, solid from every direction, immovable, tagged "block". */
  function Create(topLeft: Vec, renderable: Option<R.Renderable>): (b: GO.GameObject)
    ensures b.transform.topLeft == topLeft && b.transform.dims == Vec(SIZE as real, SIZE as real)
    ensures b.physics.dirToPrevent == Some(ZERO) && b.physics.mass == P.IMMOVABLE_MASS
    ensures b.physics.collider == GO.Create(topLeft, b.transform.dims, renderable).physics.collider
    ensures b.tag == BLOCK_TAG && b.renderer.renderable == renderable
  {
    var go := GO.Create(topLeft, Mult(ONES, SIZE as real), renderable);
    var physics := P.SetMass(P.PreventIntersectionsFromDirection(go.physics, Some(ZERO)), P.IMMOVABLE_MASS);
    go.(physics := physics, tag := BLOCK_TAG)
  }
}
