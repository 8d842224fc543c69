/** Fixed parameters of the game and the value types shared by every component. */
module Config {
  /** Size of the playfield; the origin is at its centre. */
  const Width: int := 600
  const Height: int := 900

  /** Half-extents of the region the player may walk and the bullets may fly in. */
  const BorderX: real := (Width / 2 - 20) as real
  const BorderY: real := (Height / 2 - 10) as real

  /** The player walks in steps of this many units. */
  const PlayerSpeed: int := 20
  const PlayerBulletSpeed: real := 16.0

  const EnemyRows: nat := 3
  const EnemyCols: nat := 10
  const EnemySpacingX: real := 60.0
  const EnemySpacingY: real := 60.0
  /** Side of the square hit box centred on each enemy. */
  const EnemySize: real := 32.0
  /** Anchor of the formation: the enemy in row 0, column 0. */
  const EnemyStartX: real := BorderX - EnemySpacingX / 5.0
  const EnemyStartY: real := BorderY - EnemySize
  const EnemyFallSpeed: real := 0.5
  const EnemyBulletSpeed: real := 8.0
  const EnemyDriftStep: real := 2.0

  /** Vertical distance between a shooter and the bullet it fires. */
  const BulletSpawnOffset: real := 15.0
  /** Half-extent of the square hit box centred on the player. */
  const PlayerHalfBox: real := 10.0

  /** Where a new game places the player. */
  const PlayerStartX: real := 0.0
  const PlayerStartY: real := -350.0

  /** A position on the playfield. Every entity is modelled by its position alone. */
  datatype Pos = Pos(x: real, y: real)

  datatype Option<+T> = None | Some(value: T)
}
