/** The records and constants of the game: positions, sprite sizes, the
    canvas, the speeds, and the entity shapes that the game creates. */
module Entities {

  /** Canvas size in pixels. */
  const CanvasWidth: int := 512
  const CanvasHeight: int := 480

  /** Speeds in pixels per second. */
  const PlayerSpeed: real := 200.0
  const BulletSpeed: real := 500.0
  const EnemySpeed: real := 200.0

  /** Milliseconds that must pass between two bursts of fire. */
  const FireCooldown: int := 100

  /** Points awarded for each enemy a bullet destroys. */
  const KillScore: int := 100

  /** A position on the canvas; positions are real numbers (IEEE rounding is not modelled). */
  datatype Vec = Vec(x: real, y: real)

  /** The fixed pixel size of a sprite, which is also its collision box. */
  datatype Size = Size(w: nat, h: nat)

  /** A bullet's direction tag; enemies and explosions carry none. */
  datatype Dir = Forward | Up | Down | Undirected

  /** Anything on the canvas: top-left position, sprite size, direction tag,
      the seconds by which its own sprite's animation has been advanced, and
      whether that sprite reports that its animation has finished. Each
      entity owns its sprite, so explosions at one place but at different
      points of their animation are different values. Only an explosion's
      animation decides anything; the enemies' animation only affects
      drawing, and their `age` stays 0. */
  datatype Entity = Entity(pos: Vec, size: Size, dir: Dir, age: real, done: bool)

  const PlayerSize: Size := Size(44, 44)
  const ForwardBulletSize: Size := Size(50, 50)
  const AngledBulletSize: Size := Size(54, 66)
  const LlamaSize: Size := Size(50, 60)
  const ExplosionSize: Size := Size(39, 39)

  /** Where the player is put on a new session: x = 50, half the canvas height. */
  const PlayerStart: Vec := Vec(50.0, (CanvasHeight as real) / 2.0)

  /** A new bullet at `p`; the forward bullet has the small sprite, the angled ones the large. */
  function Bullet(p: Vec, d: Dir): Entity
  {
    Entity(p, if d == Forward then ForwardBulletSize else AngledBulletSize, d, 0.0, false)
  }

  /** A new enemy entering at the right edge of the canvas at height `y`. */
  function Llama(y: real): Entity
  {
    Entity(Vec(CanvasWidth as real, y), LlamaSize, Undirected, 0.0, false)
  }

  /** A new, not yet finished explosion at `p`. */
  function Explosion(p: Vec): Entity
  {
    Entity(p, ExplosionSize, Undirected, 0.0, false)
  }

  /** The centre of the player's sprite when its top-left corner is at `p`. */
  function Centre(p: Vec): Vec
  {
    Vec(p.x + (PlayerSize.w as real) / 2.0, p.y + (PlayerSize.h as real) / 2.0)
  }
}
