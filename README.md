# Llama shooter: a verified model of one game tick

The game is a canvas shooter. The player (the "chud", a 44x44 sprite)
moves with the arrow or WASD keys and fires bursts of three bullets. Enemies
("llamas", 50x60) enter at the right edge and walk left. A bullet that
overlaps an enemy destroys it. This scores 100 points and leaves an
explosion. An enemy that overlaps the player ends the session, which restarts
at once.

This project models the simulation logic of `js/game.js`:

- one tick of `update`;
- the key and fire handling;
- the movement and culling of the three entity lists;
- the collision step with its bounds check;
- `gameOver` and `reset`.

It proves what each of these promises.

Layout:

- `entities.dfy` (module `Entities`): the records and constants of the game. These are the canvas size, the speeds, the sprite sizes, the fire cooldown, the kill score, and the shapes of new bullets, enemies and explosions.
- `collision.dfy` (module `Collision`): `collides` and `boxCollides`, with the comparisons exactly as written, and their asymmetry at touching edges.
- `seqs.dfy` (module `Seqs`): order-preserving selection (`Filter`) and `splice(i, 1)` (`Remove`). It also holds the invariant of a loop that walks a list and splices elements out behind an index it then decrements (`Culled`, with its step lemmas).
- `rules.dfy` (module `Rules`): the game's globals as one value (`State`) and each step of the tick as a function on it, with lemmas stating what the steps promise. The steps are `Reset`, `GameOver`, `ClampPlayer`, `HandleInput`, `UpdateEntities`, `Spawn`, `Collide` and `Update`.
- `session.dfy` (module `Game`): class `Session`. Its fields are the game's globals. Its methods are the game's functions, written as the game writes them: field updates, in-place splice loops, and the nested collision loop that may reset the lists under its own feet. Each method is proved to leave exactly the state that the matching `Rules` function describes (`View()` is the fields as a `State`).

The inputs that the game reads from the host are parameters:

- the held keys (`Keys`);
- the clock reading `now`, in integer milliseconds;
- the frame time `dt`;
- whether an enemy spawns this tick, and at what height (`spawn`, `spawnY`);
- whether an explosion's sprite, at its animation progress `age`, reports itself done after advancing by `dt` (`doneAfter`).

## Model

| member | source | states |
|---|---|---|
| Collision.BoxCollides | js/game.js:183-188 | The boxes overlap exactly when, on each axis, the second corner lies in a window closed below and open above: x - w2 <= x2 < x + w, and likewise for y. |
| Collision.TouchingFarEdgeMisses | js/game.js:178-181 | The first box's right edge on the second's left edge, or its bottom edge on the second's top edge, is never a hit. |
| Collision.TouchingNearEdgeHits | js/game.js:178-181 | The first box's left edge on the second's right edge, or its top edge on the second's bottom edge, is a hit when the other axis overlaps. |
| Collision.BoxCollidesAsymmetric | js/game.js:178-188 | Two equal boxes side by side, touching on one edge, hit one way round and miss the other. |
| Seqs.Filter | js/game.js:134-173 | The survivors of a culling loop are no more than the input, and an element survives exactly when it is in the input and passes the test. |
| Seqs.FilterSnoc | js/game.js:134-150 | Handling one more element appends it to the survivors exactly when it passes the test. |
| Seqs.FilterKeepsOrder | js/game.js:134-173 | Survivors keep their relative order. The t-th survivor is the input element at a strictly increasing position. A position is selected exactly when its element passes, so no element is skipped or handled twice. |
| Seqs.Remove | js/game.js:147 | `splice(k, 1)` shortens the list by one, keeps the elements before k, and shifts those after k down by one. |
| Seqs.CullStep | js/game.js:134-150 | One iteration (update the element under the cursor, splice it out and step back unless it is kept) keeps the loop invariant. The prefix before the cursor is the filtered prefix of the updated input, and the rest is the untouched input. |
| Seqs.CullDone | js/game.js:134-150 | When the cursor reaches the end of the list, the list is the filtered update of the whole input. |
| Rules.ResetIdempotent | js/game.js:288-297 | Resetting twice is resetting once. |
| Rules.GameOverIsReset | js/game.js:282-285 | Game over equals a reset and leaves the game-over flag clear. |
| Rules.ClampAxis | js/game.js:236-240 | One coordinate ends in [0, hi]: unchanged when it was inside, 0 when it was below 0, and hi when it was above hi. |
| Rules.ClampPlayer | js/game.js:234-249 | After the bounds check the player satisfies 0 <= x <= 512-44 and 0 <= y <= 480-44, and a position already inside is unchanged. |
| Rules.ClampIdempotent | js/game.js:234-249 | Applying the bounds check twice equals applying it once. |
| Rules.SteerIsAdditive | js/game.js:89-104 | Each axis moves by PlayerSpeed * dt times the net of its two keys, so opposite keys cancel. |
| Rules.FireRule | js/game.js:106-126 | When fire is held, the game is not over and more than 100 ms have passed, exactly three bullets are appended after the existing ones. They sit at the player's centre with directions forward, up and down in that order, and the fire time becomes `now`. Otherwise nothing changes, and in no case does anything but the bullets and the fire time change. |
| Rules.MoveBulletAlongHeading | js/game.js:137-142 | A bullet moves BulletSpeed * dt along its heading: up is -y, down is +y, anything else is +x. Nothing else about it changes. |
| Rules.BulletsAfterUpdate | js/game.js:134-150 | The t-th surviving bullet is the bullet at position idx[t], moved along its heading, and lies within 0 <= y <= 480 and x <= 512. The positions are increasing. A bullet survives exactly when its moved copy is on screen. |
| Rules.LlamasAfterUpdate | js/game.js:153-162 | Each surviving enemy is an input enemy whose x has decreased by EnemySpeed * dt. Order is kept, and an enemy survives exactly when its moved right edge is at x >= 0. |
| Rules.ExplosionsAfterUpdate | js/game.js:165-173 | The surviving explosions are exactly those whose sprite is not done after advancing. Each is advanced by dt and otherwise unchanged, and they keep their order. |
| Rules.ExplosionsFinishSeparately | js/game.js:165-173 | Each explosion animates its own sprite. Of two explosions at the same place, one near the end of its animation leaves the list while one just started stays. |
| Rules.FirstHit | js/game.js:198-225 | The bullet that destroys an enemy is the first one, in list order, that overlaps it. When there is none, no bullet overlaps it. |
| Rules.ResumeKills | js/game.js:201-225 | A destroyed enemy that spares the player is spliced out together with its bullet. The score rises by 100, its explosion is appended, and the next enemy is resolved at the same index. |
| Rules.ResumeSpares | js/game.js:194-231 | An enemy that no bullet overlaps and that spares the player stays, nothing changes, and the loop moves past it. |
| Rules.ResumeStops | js/game.js:228-230 | An enemy whose box, as read before any removal, overlaps the player ends the session. Its explosion is appended first if a bullet also destroyed it. |
| Rules.SweepAccounting | js/game.js:194-226 | A sweep leaves one explosion per kill, each at an enemy's position. Kept enemies and remaining bullets come from the inputs. When the player is not hit, every enemy is either kept or killed, and every kill used up exactly one bullet. |
| Rules.SweepPairsKills | js/game.js:194-226 | Each kill pairs with one enemy. There are increasing killed positions and increasing spared positions that between them list each judged enemy exactly once. The explosions are at the killed enemies' positions, in their order. The kept enemies are the judged ones without the killed, in order. Without a player hit every enemy is judged; with one, judging ends at the enemy that touched the player. |
| Rules.PairsConsKilled | js/game.js:198-225 | Judging one more enemy in front of the others and destroying it adds position 0 to the killed positions and its explosion in front, and shifts the other positions by one. |
| Rules.PairsConsSpared | js/game.js:198-225 | Judging one more enemy in front of the others and sparing it adds position 0 to the spared positions and the enemy in front of the kept ones, and shifts the other positions by one. |
| Rules.PlayerHitIff | js/game.js:228-230 | The sweep is stopped by the player exactly when some enemy overlaps the player, whether or not a bullet destroyed it. |
| Rules.SweepLeavesNoOverlap | js/game.js:194-226 | After a sweep the player did not stop, no kept enemy overlaps a remaining bullet, and a bullet that overlaps no enemy is still there. |
| Rules.CollideAccounting | js/game.js:190-232 | When no enemy touches the clamped player, the score rises by exactly 100 per enemy removed. Each removal also removes one bullet and appends one explosion after the existing ones. The player is clamped, and time and fire time are untouched. |
| Rules.CollideEndsSession | js/game.js:228-230 | When some enemy touches the player, the result is a fresh session: no enemies, no bullets, score and time zero, the flag clear, and the player at (50, 240). The explosions so far and the fire time are kept. |
| Rules.DestroyedEnemyStillEndsSession | js/game.js:194-230 | The first enemy, destroyed by a bullet, still ends the session from the position it had, and its explosion is kept. |
| Rules.OneKillScenario | js/game.js:190-232 | An enemy at the origin and a forward bullet at (10, 10), with the player far away, leave no enemy, no bullet, score + 100 and one explosion at the origin. |
| Rules.InitialInvariant | js/game.js:31-36 | The state after the first reset satisfies the invariant: score a non-negative multiple of 100, player on the canvas, flag clear. |
| Rules.UpdateKeepsInvariant | js/game.js:69-87 | Every tick keeps the invariant, so the game-over flag is never observed set between ticks. The session time grows by dt or restarts from zero. |
| Rules.CollideKeepsInvariant | js/game.js:190-232 | From a score that is a non-negative multiple of 100 with the flag clear, the collision step keeps the invariant and either keeps the session time or restarts it from zero. |
| Game.Session.constructor | js/game.js:45-60 | The globals as the script initialises them. |
| Game.Session.Reset | js/game.js:288-297 | The state is `Rules.Reset` of the old state: the listed fields are cleared, and explosions and fire time are untouched. |
| Game.Session.GameOver | js/game.js:282-285 | Raising the flag and then resetting leaves a plain reset with the flag clear. |
| Game.Session.CheckPlayerBounds | js/game.js:234-249 | The player ends at `Rules.ClampPlayer` of its old position, on the canvas, and nothing else changes. |
| Game.Session.HandleInput | js/game.js:89-127 | The four key tests move the player as `Rules.Steer` does, and the fire test appends the burst as `Rules.Fire` does. |
| Game.Session.UpdateBullets | js/game.js:134-150 | The in-place loop with `splice(i, 1); i--` leaves exactly `Filter(on screen, moved bullets)`. No element is skipped. |
| Game.Session.UpdateLlamas | js/game.js:153-162 | The same for enemies, with the left-edge test. |
| Game.Session.UpdateExplosions | js/game.js:165-173 | The same for explosions, with the sprite's done flag. |
| Game.Session.UpdateEntities | js/game.js:129-174 | Bullets, then enemies, then explosions, as `Rules.UpdateEntities`. |
| Game.Session.StrikeLlama | js/game.js:198-226 | The inner loop destroys the enemy exactly when some bullet overlaps it. It removes the first such bullet and the enemy, adds 100, and appends the explosion, as `Rules.Strike`. |
| Game.Session.CheckCollisions | js/game.js:190-232 | The nested loop leaves exactly `Rules.Collide` of the old state. It gets there through splices of both lists, the stale-position player check, and a reset in mid-loop that ends the loop. |
| Game.Session.Update | js/game.js:69-87 | A tick (time, input, movement, spawn, collisions) leaves exactly `Rules.Update` of the old state. |

## Left out

- The frame loop, `init` and the clock: `requestAnimFrame`, `main`, `Date.now()` and `resources.load`/`onReady` are host services. `dt` and `now` are parameters.
- `now`: `handleInput` reads `Date.now()` twice, once in the cooldown test and once to set the fire time. The model uses one reading for both.
- Input: `input.isDown` lives in a module that is not part of this model. The key states are booleans, and each direction is the disjunction of its two keys.
- Sprites: `Sprite` is defined in a file that is not part of this model. A sprite is its fixed size. Animation frames of the player and the enemies are not modelled, since they affect only drawing.
- Explosions: whether an explosion is done after `sprite.update(dt)` is the caller-supplied function `doneAfter`. It sees the explosion with its animation progress `age`, the seconds its own sprite has been advanced. Two explosions at the same place and at the same point of their animation are one value and so share their fate, as two sprites in the same state would. The enemies' animation progress is not tracked; it only affects drawing.
- Spawning: the random spawn decision `Math.random() < 1 - .993^gameTime` and the random height are the inputs `spawn` and `spawnY`. The new enemy enters at x = 512.
- Drawing: `render`, `renderEntities`, `renderEntity`, the canvas and the score element only draw.
- Arithmetic: positions and times are exact reals. IEEE rounding is not modelled.
- Initial state: the initial game-over flag is `undefined` in the game. It is modelled as `false`, which is how `!isGameOver` reads it.
- Touching edges: a prose reading of the overlap test as closed boxes, where touching counts as overlap, disagrees with the code. The model follows the code's asymmetric comparisons (`Collision.TouchingFarEdgeMisses`, `Collision.TouchingNearEdgeHits`).
- Bullet size in the worked example: a worked example with a 10x10 projectile does not match the code, whose bullets are always 50x50 (forward) or 54x66 (up and down). `Rules.OneKillScenario` uses the forward bullet's real size.
- Game.Session.StrikeLlama: the inner loop of `checkCollisions` is a method of its own, returning whether the enemy was destroyed. The game performs `i--` inside the inner loop right after `llamas.splice(i, 1)` and before the score, the explosion and the bullet splice; the model performs it in the outer loop after the call returns. Nothing reads `i` in between, so neither the order of observable effects nor any value changes.
- Game.Session.UpdateBullets: the `switch` on the direction tag is the function `Rules.MoveBullet`, called on the local copy of the bullet. The bullet object is overwritten in the list rather than mutated through an alias. No other reference to it exists during the tick.
- Aliasing: the game's entities are objects shared by reference, but no two globals share one, so the model treats entities as values.
- Rules.Steer and Rules.Fire: these functions carry no contract of their own. What they promise is stated by `Rules.SteerIsAdditive` and `Rules.FireRule`.
