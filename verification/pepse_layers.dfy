/**
 * The layer numbers the pepse game places its objects in, as the game
 * manager defines them on top of the engine's built-in layers.
 */
module PepseLayers {
  import L = Layers

  const AVATAR_LAYER: int := L.DEFAULT
  const PARACHUTE_LAYER: int := L.BACKGROUND
  const SUN_LAYER: int := L.BACKGROUND
  const SKY_LAYER: int := L.BACKGROUND
  const NIGHT_LAYER: int := L.FOREGROUND
  const CLOUD_LAYER: int := SUN_LAYER + 1
  const TRUNK_LAYER: int := L.STATIC_OBJECTS + 1
  const LEAVES_LAYER: int := 1
  const TOP_TERRAIN_LAYER: int := L.STATIC_OBJECTS
  const BOTTOM_TERRAIN_LAYER: int := L.STATIC_OBJECTS - 1
  const MONSTERS_LAYER: int := 2
  const NUMERIC_ENERGY_LAYER: int := L.UI
}
