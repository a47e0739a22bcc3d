/** The rules of one game tick, as functions on a snapshot of the game's
    global state. The session's imperative methods are proved to compute
    exactly these functions; the lemmas here state what the rules promise. */
module Rules {
  import opened Seqs
  import opened Entities
  import opened Collision

  datatype Option<T> = None | Some(value: T)

  /** Which controls are held this tick (each one: the arrow key or its letter). */
  datatype Keys = Keys(down: bool, up: bool, left: bool, right: bool, fire: bool)

  /** The game's globals: the player's position, the bullet, enemy and
      explosion lists, the score, the session time in seconds, the time of the
      last burst in milliseconds, and the game-over flag. */
  datatype State = State(
    chud: Vec,
    bullets: seq<Entity>,
    llamas: seq<Entity>,
    explosions: seq<Entity>,
    score: int,
    gameTime: real,
    lastFire: int,
    isGameOver: bool)

  /** Stands for a sprite's own animation step, which this model does not
      contain: whether the sprite of the entity, at its animation progress
      `age`, reports done after advancing by dt. */
  type SpriteDone = (Entity, real) -> bool

  /** The globals as the script sets them when it is loaded at time `now`. */
  function Initial(now: int): State
  {
    State(Vec(0.0, 0.0), [], [], [], 0, 0.0, now, false)
  }

  // ---------------------------------------------------------------- reset

  /** A new session: flag cleared, time and score zero, no enemies and no
      bullets, the player at the start. Explosions and the fire time stay. */
  function Reset(s: State): State
  {
    s.(isGameOver := false, gameTime := 0.0, score := 0,
       llamas := [], bullets := [], chud := PlayerStart)
  }

  /** Game over raises the flag and then starts a new session at once. */
  function GameOver(s: State): State
  {
    Reset(s.(isGameOver := true))
  }

  lemma ResetIdempotent(s: State)
    ensures Reset(Reset(s)) == Reset(s)
  {
  }

  /** Game over is indistinguishable from a reset: its flag is already clear again. */
  lemma GameOverIsReset(s: State)
    ensures GameOver(s) == Reset(s) && !GameOver(s).isGameOver
  {
  }

  // ---------------------------------------------------------------- player bounds

  /** The largest coordinates at which the player's sprite is still wholly on the canvas. */
  const MaxPlayerX: real := (CanvasWidth - PlayerSize.w) as real
  const MaxPlayerY: real := (CanvasHeight - PlayerSize.h) as real

  predicate OnCanvas(p: Vec)
  {
    0.0 <= p.x <= MaxPlayerX && 0.0 <= p.y <= MaxPlayerY
  }

  /** One coordinate pulled back into [0, hi]. */
  function ClampAxis(v: real, hi: real): (c: real)
    requires 0.0 <= hi
    ensures 0.0 <= c <= hi
    ensures 0.0 <= v <= hi ==> c == v
    ensures v < 0.0 ==> c == 0.0
    ensures v > hi ==> c == hi
  {
    if v < 0.0 then 0.0
    else if v > hi then hi
    else v
  }

  /** The player's position after the bounds check: always on the canvas,
      and unchanged when it already was. */
  function ClampPlayer(p: Vec): (q: Vec)
    ensures OnCanvas(q)
    ensures OnCanvas(p) ==> q == p
  {
    Vec(ClampAxis(p.x, MaxPlayerX), ClampAxis(p.y, MaxPlayerY))
  }

  lemma ClampIdempotent(p: Vec)
    ensures ClampPlayer(ClampPlayer(p)) == ClampPlayer(p)
  {
  }

  // ---------------------------------------------------------------- input

  /** +1, 0 or -1: the net effect of a pair of opposite keys. */
  function Net(minus: bool, plus: bool): int
  {
    (if plus then 1 else 0) - (if minus then 1 else 0)
  }

  /** The player moved by the held direction keys, one key after another. */
  function Steer(p: Vec, keys: Keys, dt: real): Vec
  {
    var y1 := if keys.down then p.y + PlayerSpeed * dt else p.y;
    var y2 := if keys.up then y1 - PlayerSpeed * dt else y1;
    var x1 := if keys.left then p.x - PlayerSpeed * dt else p.x;
    var x2 := if keys.right then x1 + PlayerSpeed * dt else x1;
    Vec(x2, y2)
  }

  /** Movement is additive and per axis: each axis moves by PlayerSpeed * dt
      times the net of its two keys, so opposite keys cancel and a diagonal
      moves at full speed on both axes. */
  lemma SteerIsAdditive(p: Vec, keys: Keys, dt: real)
    ensures Steer(p, keys, dt).x == p.x + (Net(keys.left, keys.right) as real) * (PlayerSpeed * dt)
    ensures Steer(p, keys, dt).y == p.y + (Net(keys.up, keys.down) as real) * (PlayerSpeed * dt)
  {
  }

  /** Fire is held, the game is not over, and more than the cooldown has
      passed since the last burst. */
  predicate CanFire(s: State, fire: bool, now: int)
  {
    fire && !s.isGameOver && now - s.lastFire > FireCooldown
  }

  /** The burst of fire: three bullets at the player's centre, forward, up
      and down, and the fire time set, when `CanFire` allows it. */
  function Fire(s: State, fire: bool, now: int): State
  {
    if CanFire(s, fire, now) then
      var c := Centre(s.chud);
      s.(bullets := s.bullets + [Bullet(c, Forward), Bullet(c, Up), Bullet(c, Down)],
         lastFire := now)
    else s
  }

  /** The firing rule: when allowed, exactly three new bullets at the
      player's centre, heading forward, up and down in that order, are
      appended after the existing ones, and the fire time becomes `now`.
      Otherwise nothing changes. Nothing but the bullets and the fire time
      ever does. */
  lemma FireRule(s: State, fire: bool, now: int)
    ensures var r := Fire(s, fire, now);
      && (CanFire(s, fire, now) ==>
            && r.lastFire == now
            && |r.bullets| == |s.bullets| + 3
            && r.bullets[..|s.bullets|] == s.bullets
            && (forall b :: b in r.bullets[|s.bullets|..] ==> b.pos == Centre(s.chud) && !b.done)
            && r.bullets[|s.bullets|].dir == Forward
            && r.bullets[|s.bullets| + 1].dir == Up
            && r.bullets[|s.bullets| + 2].dir == Down)
      && (!CanFire(s, fire, now) ==> r == s)
      && r == s.(bullets := r.bullets, lastFire := r.lastFire)
  {
    if CanFire(s, fire, now) {
      var r := Fire(s, fire, now);
      assert r.bullets[|s.bullets|..] == [Bullet(Centre(s.chud), Forward), Bullet(Centre(s.chud), Up), Bullet(Centre(s.chud), Down)];
    }
  }

  /** The input step: move, then fire from the moved position. */
  function HandleInput(s: State, keys: Keys, dt: real, now: int): State
  {
    Fire(s.(chud := Steer(s.chud, keys, dt)), keys.fire, now)
  }

  // ---------------------------------------------------------------- movement and culling

  /** The unit heading of a bullet: up is -y, down is +y, anything else is +x. */
  function Heading(d: Dir): Vec
  {
    match d
    case Up => Vec(0.0, -1.0)
    case Down => Vec(0.0, 1.0)
    case _ => Vec(1.0, 0.0)
  }

  /** One bullet's step, the game's switch on its direction tag. */
  function MoveBullet(b: Entity, dt: real): Entity
  {
    match b.dir
    case Up => b.(pos := b.pos.(y := b.pos.y - BulletSpeed * dt))
    case Down => b.(pos := b.pos.(y := b.pos.y + BulletSpeed * dt))
    case _ => b.(pos := b.pos.(x := b.pos.x + BulletSpeed * dt))
  }

  /** A bullet is removed once it is above or below the canvas or past its right edge. */
  predicate BulletOnScreen(b: Entity)
  {
    !(b.pos.y < 0.0 || b.pos.y > CanvasHeight as real || b.pos.x > CanvasWidth as real)
  }

  function MoveBullets(bs: seq<Entity>, dt: real): seq<Entity>
  {
    seq(|bs|, i requires 0 <= i < |bs| => MoveBullet(bs[i], dt))
  }

  function UpdatedBullets(bs: seq<Entity>, dt: real): seq<Entity>
  {
    Filter(BulletOnScreen, MoveBullets(bs, dt))
  }

  function MoveLlama(l: Entity, dt: real): Entity
  {
    l.(pos := l.pos.(x := l.pos.x - EnemySpeed * dt))
  }

  /** An enemy is removed once its right edge has passed the left edge of the canvas. */
  predicate LlamaOnScreen(l: Entity)
  {
    !(l.pos.x + l.size.w as real < 0.0)
  }

  function MoveLlamas(ls: seq<Entity>, dt: real): seq<Entity>
  {
    seq(|ls|, i requires 0 <= i < |ls| => MoveLlama(ls[i], dt))
  }

  function UpdatedLlamas(ls: seq<Entity>, dt: real): seq<Entity>
  {
    Filter(LlamaOnScreen, MoveLlamas(ls, dt))
  }

  function AnimateExplosion(e: Entity, dt: real, doneAfter: SpriteDone): Entity
  {
    e.(age := e.age + dt, done := doneAfter(e, dt))
  }

  /** An explosion is removed once its sprite reports done. */
  predicate Ongoing(e: Entity)
  {
    !e.done
  }

  function AnimateExplosions(es: seq<Entity>, dt: real, doneAfter: SpriteDone): seq<Entity>
  {
    seq(|es|, i requires 0 <= i < |es| => AnimateExplosion(es[i], dt, doneAfter))
  }

  function UpdatedExplosions(es: seq<Entity>, dt: real, doneAfter: SpriteDone): seq<Entity>
  {
    Filter(Ongoing, AnimateExplosions(es, dt, doneAfter))
  }

  /** The movement-and-culling step over the three lists. */
  function UpdateEntities(s: State, dt: real, doneAfter: SpriteDone): State
  {
    s.(bullets := UpdatedBullets(s.bullets, dt),
       llamas := UpdatedLlamas(s.llamas, dt),
       explosions := UpdatedExplosions(s.explosions, dt, doneAfter))
  }

  /** `after` is `before` advanced by BulletSpeed * dt along its heading, nothing else changed. */
  predicate SteppedBullet(before: Entity, after: Entity, dt: real)
  {
    after == before.(pos := Vec(before.pos.x + Heading(before.dir).x * (BulletSpeed * dt),
                                before.pos.y + Heading(before.dir).y * (BulletSpeed * dt)))
  }

  /** Surviving bullets: the t-th survivor is the bullet at position idx[t]
      advanced along its heading, it lies within 0 <= y <= height and
      x <= width, the positions are increasing (order is kept), and a bullet
      survives exactly when its moved copy is on screen. */
  lemma BulletsAfterUpdate(bs: seq<Entity>, dt: real)
    ensures var r := UpdatedBullets(bs, dt);
            var idx := KeptIndices(BulletOnScreen, MoveBullets(bs, dt));
      && |idx| == |r|
      && (forall t :: 0 <= t < |r| ==>
            && idx[t] < |bs|
            && SteppedBullet(bs[idx[t]], r[t], dt)
            && 0.0 <= r[t].pos.y <= CanvasHeight as real
            && r[t].pos.x <= CanvasWidth as real)
      && (forall t, u :: 0 <= t < u < |r| ==> idx[t] < idx[u])
      && (forall j :: 0 <= j < |bs| ==> (j in idx <==> BulletOnScreen(MoveBullet(bs[j], dt))))
  {
    var moved := MoveBullets(bs, dt);
    var r := UpdatedBullets(bs, dt);
    var idx := KeptIndices(BulletOnScreen, moved);
    FilterKeepsOrder(BulletOnScreen, moved);
    forall t | 0 <= t < |r|
      ensures && idx[t] < |bs|
              && SteppedBullet(bs[idx[t]], r[t], dt)
              && 0.0 <= r[t].pos.y <= CanvasHeight as real
              && r[t].pos.x <= CanvasWidth as real
    {
      assert r[t] == moved[idx[t]];
      MoveBulletAlongHeading(bs[idx[t]], dt);
    }
  }

  /** A bullet's step is BulletSpeed * dt along its heading. */
  lemma MoveBulletAlongHeading(b: Entity, dt: real)
    ensures SteppedBullet(b, MoveBullet(b, dt), dt)
  {
  }

  /** Surviving enemies: each moved left by EnemySpeed * dt, order kept, and
      an enemy survives exactly when its moved right edge is at x >= 0. */
  lemma LlamasAfterUpdate(ls: seq<Entity>, dt: real)
    ensures var r := UpdatedLlamas(ls, dt);
            var idx := KeptIndices(LlamaOnScreen, MoveLlamas(ls, dt));
      && |idx| == |r|
      && (forall t :: 0 <= t < |r| ==>
            && idx[t] < |ls|
            && r[t].pos == Vec(ls[idx[t]].pos.x - EnemySpeed * dt, ls[idx[t]].pos.y)
            && r[t] == ls[idx[t]].(pos := r[t].pos))
      && (forall t, u :: 0 <= t < u < |r| ==> idx[t] < idx[u])
      && (forall j :: 0 <= j < |ls| ==>
            (j in idx <==> ls[j].pos.x - EnemySpeed * dt + ls[j].size.w as real >= 0.0))
  {
    var moved := MoveLlamas(ls, dt);
    FilterKeepsOrder(LlamaOnScreen, moved);
  }

  /** Surviving explosions: exactly those whose sprite is not done after the
      animation step, each advanced by dt and otherwise unchanged, order kept. */
  lemma ExplosionsAfterUpdate(es: seq<Entity>, dt: real, doneAfter: SpriteDone)
    ensures var r := UpdatedExplosions(es, dt, doneAfter);
            var idx := KeptIndices(Ongoing, AnimateExplosions(es, dt, doneAfter));
      && |idx| == |r|
      && (forall t :: 0 <= t < |r| ==> idx[t] < |es| && r[t] == es[idx[t]].(age := es[idx[t]].age + dt, done := false))
      && (forall t, u :: 0 <= t < u < |r| ==> idx[t] < idx[u])
      && (forall j :: 0 <= j < |es| ==> (j in idx <==> !doneAfter(es[j], dt)))
  {
    var animated := AnimateExplosions(es, dt, doneAfter);
    FilterKeepsOrder(Ongoing, animated);
  }

  /** Each explosion animates its own sprite: of two explosions at the same
      place, the one near the end of a once-only animation of length `limit`
      leaves the list while the one just started stays. */
  lemma {:induction false} ExplosionsFinishSeparately(p: Vec, dt: real, limit: real, doneAfter: SpriteDone)
    requires forall e, d :: doneAfter(e, d) == (e.age + d >= limit)
    requires 0.0 <= dt < limit
    ensures UpdatedExplosions([Explosion(p).(age := limit - dt), Explosion(p)], dt, doneAfter)
         == [Explosion(p).(age := dt)]
  {
    var es := [Explosion(p).(age := limit - dt), Explosion(p)];
    var animated := AnimateExplosions(es, dt, doneAfter);
    assert animated == [Explosion(p).(age := limit, done := true), Explosion(p).(age := dt)];
    var second := animated[1..];
    assert second[1..] == [];
    assert Filter(Ongoing, second) == [second[0]] + Filter(Ongoing, second[1..]);
    assert Filter(Ongoing, animated) == [] + Filter(Ongoing, second);
  }

  // ---------------------------------------------------------------- spawning

  /** The spawn decision is made by the caller; a new enemy enters at the right edge. */
  function Spawn(s: State, spawn: bool, y: real): State
  {
    if spawn then s.(llamas := s.llamas + [Llama(y)]) else s
  }

  // ---------------------------------------------------------------- collisions

  /** The enemy `l` overlaps the bullet `b` (the enemy is the first box). */
  predicate Hits(l: Entity, b: Entity)
  {
    BoxCollides(l.pos, l.size, b.pos, b.size)
  }

  /** The enemy `l` overlaps the player standing at `chud`. */
  predicate TouchesPlayer(l: Entity, chud: Vec)
  {
    BoxCollides(l.pos, l.size, chud, PlayerSize)
  }

  /** The position of the first bullet, in list order, that the enemy overlaps. */
  function FirstHit(l: Entity, bs: seq<Entity>): (k: Option<nat>)
    ensures k.Some? ==>
      k.value < |bs| && Hits(l, bs[k.value]) && forall j :: 0 <= j < k.value ==> !Hits(l, bs[j])
    ensures k.None? ==> forall j :: 0 <= j < |bs| ==> !Hits(l, bs[j])
    decreases |bs|
  {
    if bs == [] then None
    else if Hits(l, bs[0]) then Some(0)
    else
      match FirstHit(l, bs[1..])
      case None => None
      case Some(k) => Some(k + 1)
  }

  /** What resolving a run of enemies leaves: the enemies kept, the bullets
      left, the explosions to append, the number of kills, and whether an
      enemy touched the player (which stops the run). */
  datatype Sweep = Sweep(kept: seq<Entity>, bullets: seq<Entity>, booms: seq<Entity>,
                         kills: nat, playerHit: bool)

  /** Run `b` after `a`. */
  function Then(a: Sweep, b: Sweep): Sweep
  {
    Sweep(a.kept + b.kept, b.bullets, a.booms + b.booms, a.kills + b.kills, b.playerHit)
  }

  /** One enemy: the first bullet it overlaps, if any, destroys it and is used
      up, leaving an explosion where the enemy was; independently, whether it
      overlaps the player is judged from the position it had. */
  function Engage(l: Entity, bs: seq<Entity>, chud: Vec): Sweep
  {
    match FirstHit(l, bs)
    case Some(k) => Sweep([], Remove(bs, k), [Explosion(l.pos)], 1, TouchesPlayer(l, chud))
    case None => Sweep([l], bs, [], 0, TouchesPlayer(l, chud))
  }

  /** All enemies in list order, each against the bullets its predecessors
      left, until one touches the player. */
  function SweepLlamas(ls: seq<Entity>, bs: seq<Entity>, chud: Vec): Sweep
    decreases |ls|
  {
    if ls == [] then Sweep([], bs, [], 0, false)
    else
      var first := Engage(ls[0], bs, chud);
      if first.playerHit then first
      else Then(first, SweepLlamas(ls[1..], first.bullets, chud))
  }

  /** The collision step: bounds check first, then the sweep; an enemy that
      touched the player ends the session. */
  function Collide(s: State): State
  {
    var p := ClampPlayer(s.chud);
    var w := SweepLlamas(s.llamas, s.bullets, p);
    var after := s.(chud := p, llamas := w.kept, bullets := w.bullets,
                    explosions := s.explosions + w.booms,
                    score := s.score + KillScore * w.kills);
    if w.playerHit then GameOver(after) else after
  }

  /** The rest of the collision step from the enemy at position `i` on,
      the enemies before it already resolved into `s`: what the sweep of the
      remaining enemies does to `s`. */
  function Resume(s: State, i: nat): State
    requires i <= |s.llamas|
  {
    var w := SweepLlamas(s.llamas[i..], s.bullets, s.chud);
    var after := s.(llamas := s.llamas[..i] + w.kept, bullets := w.bullets,
                    explosions := s.explosions + w.booms,
                    score := s.score + KillScore * w.kills);
    if w.playerHit then GameOver(after) else after
  }

  /** The collision step is the bounds check followed by the whole sweep. */
  lemma CollideIsResume(s: State)
    ensures Collide(s) == Resume(s.(chud := ClampPlayer(s.chud)), 0)
  {
    assert s.llamas[0..] == s.llamas;
    assert s.llamas[..0] == [];
  }

  /** With no enemy left to resolve, nothing more happens. */
  lemma ResumeDone(s: State)
    ensures Resume(s, |s.llamas|) == s
  {
    assert s.llamas[|s.llamas|..] == [];
    assert s.llamas[..|s.llamas|] + [] == s.llamas;
    assert s.explosions + [] == s.explosions;
  }

  /** The bullets' effect on the enemy at position `i` of the game's list:
      the first bullet it overlaps, if any, is spliced out together with the
      enemy, the score rises and an explosion is appended where it was. */
  function Strike(s: State, i: nat): State
    requires i < |s.llamas|
  {
    match FirstHit(s.llamas[i], s.bullets)
    case Some(k) =>
      s.(llamas := Remove(s.llamas, i), bullets := Remove(s.bullets, k),
         explosions := s.explosions + [Explosion(s.llamas[i].pos)],
         score := s.score + KillScore)
    case None => s
  }

  /** The enemy at `i` touches the player: whether or not a bullet destroyed
      it, the session ends with its explosion, if any, appended. */
  lemma ResumeStops(s: State, i: nat)
    requires i < |s.llamas| && TouchesPlayer(s.llamas[i], s.chud)
    ensures Resume(s, i) == GameOver(Strike(s, i))
  {
    assert s.llamas[i..][0] == s.llamas[i];
  }

  /** The enemy at `i` is destroyed by a bullet and spares the player: it
      and the bullet are spliced out, the next enemy moves up to `i`. */
  lemma ResumeKills(s: State, i: nat)
    requires i < |s.llamas| && !TouchesPlayer(s.llamas[i], s.chud)
    requires FirstHit(s.llamas[i], s.bullets).Some?
    ensures i <= |Strike(s, i).llamas| && Resume(s, i) == Resume(Strike(s, i), i)
  {
    var ls := s.llamas;
    var t := Strike(s, i);
    var first := Engage(ls[i], s.bullets, s.chud);
    assert ls[i..][0] == ls[i];
    assert ls[i..][1..] == ls[i + 1..];
    var rest := SweepLlamas(ls[i + 1..], first.bullets, s.chud);
    assert SweepLlamas(ls[i..], s.bullets, s.chud) == Then(first, rest);
    assert t.llamas[..i] == ls[..i];
    assert t.llamas[i..] == ls[i + 1..];
    assert ls[..i] + ([] + rest.kept) == ls[..i] + rest.kept;
    assert s.explosions + (first.booms + rest.booms) == s.explosions + first.booms + rest.booms;
  }

  /** No bullet overlaps the enemy at `i` and it spares the player: it is
      kept and the cursor moves past it. */
  lemma ResumeSpares(s: State, i: nat)
    requires i < |s.llamas| && !TouchesPlayer(s.llamas[i], s.chud)
    requires FirstHit(s.llamas[i], s.bullets).None?
    ensures Strike(s, i) == s && Resume(s, i) == Resume(s, i + 1)
  {
    var ls := s.llamas;
    var first := Engage(ls[i], s.bullets, s.chud);
    assert ls[i..][0] == ls[i];
    assert ls[i..][1..] == ls[i + 1..];
    var rest := SweepLlamas(ls[i + 1..], s.bullets, s.chud);
    assert SweepLlamas(ls[i..], s.bullets, s.chud) == Then(first, rest);
    assert ls[..i] + ([ls[i]] + rest.kept) == ls[..i + 1] + rest.kept;
    assert s.explosions + ([] + rest.booms) == s.explosions + rest.booms;
  }

  lemma RemoveKeepsOthers(bs: seq<Entity>, k: nat, b: Entity)
    requires k < |bs| && b in bs && b != bs[k]
    ensures b in Remove(bs, k)
  {
    var j :| 0 <= j < |bs| && bs[j] == b;
    if j < k {
      assert Remove(bs, k)[j] == b;
    } else {
      assert Remove(bs, k)[j - 1] == b;
    }
  }

  /** Book-keeping of a sweep: one explosion per kill, each at the position
      of one of the enemies; kept enemies and remaining bullets come from the
      inputs; and, when the run is not stopped by the player, every enemy is
      either kept or killed and every kill used up exactly one bullet. */
  lemma {:induction false} SweepAccounting(ls: seq<Entity>, bs: seq<Entity>, chud: Vec)
    ensures var w := SweepLlamas(ls, bs, chud);
      && |w.booms| == w.kills
      && (forall e :: e in w.booms ==> exists l :: l in ls && e == Explosion(l.pos))
      && (forall l :: l in w.kept ==> l in ls)
      && (forall b :: b in w.bullets ==> b in bs)
      && (!w.playerHit ==> |w.kept| + w.kills == |ls| && |w.bullets| + w.kills == |bs|)
    decreases |ls|
  {
    if ls != [] {
      var first := Engage(ls[0], bs, chud);
      if !first.playerHit {
        SweepAccounting(ls[1..], first.bullets, chud);
        var rest := SweepLlamas(ls[1..], first.bullets, chud);
        forall e | e in first.booms + rest.booms
          ensures exists l :: l in ls && e == Explosion(l.pos)
        {
          if e in first.booms {
            assert ls[0] in ls;
          } else {
            var l :| l in ls[1..] && e == Explosion(l.pos);
            assert l in ls;
          }
        }
      } else {
        assert ls[0] in ls;
      }
    }
  }

  /** How a sweep of `ls` accounts for its enemies: the first `n` were
      judged; the increasing positions `killed` and `spared` between them list
      each of those exactly once; the explosions are at the killed enemies'
      positions and the kept enemies are the spared ones, both in list order.
      So the kept enemies are `ls[..n]` without the killed ones, in order. */
  ghost predicate Pairs(ls: seq<Entity>, n: nat, killed: seq<nat>, spared: seq<nat>,
                        kept: seq<Entity>, booms: seq<Entity>)
  {
    && n <= |ls|
    && Increasing(killed) && Increasing(spared)
    && (forall t :: 0 <= t < |killed| ==> killed[t] < n)
    && (forall t :: 0 <= t < |spared| ==> spared[t] < n)
    && (forall j :: 0 <= j < n ==> (j in killed <==> j !in spared))
    && |booms| == |killed|
    && (forall t :: 0 <= t < |killed| ==> booms[t] == Explosion(ls[killed[t]].pos))
    && |kept| == |spared|
    && (forall t :: 0 <= t < |spared| ==> kept[t] == ls[spared[t]])
  }

  /** One more enemy `l` judged in front of the others and destroyed: it
      adds position 0 to the killed and its explosion in front. */
  lemma PairsConsKilled(l: Entity, tail: seq<Entity>, n: nat, killed: seq<nat>, spared: seq<nat>,
                        kept: seq<Entity>, booms: seq<Entity>)
    requires Pairs(tail, n, killed, spared, kept, booms)
    ensures Pairs([l] + tail, n + 1, [0] + Shift(killed), Shift(spared), kept, [Explosion(l.pos)] + booms)
  {
    var ls := [l] + tail;
    PairsConsPositions(l, tail, n, killed, spared);
    forall t | 0 <= t < |spared|
      ensures ls[Shift(spared)[t]] == tail[spared[t]]
    {
    }
  }

  /** One more enemy `l` judged in front of the others and spared: it adds
      position 0 to the spared and itself in front. */
  lemma PairsConsSpared(l: Entity, tail: seq<Entity>, n: nat, killed: seq<nat>, spared: seq<nat>,
                        kept: seq<Entity>, booms: seq<Entity>)
    requires Pairs(tail, n, killed, spared, kept, booms)
    ensures Pairs([l] + tail, n + 1, Shift(killed), [0] + Shift(spared), [l] + kept, booms)
  {
    var ls := [l] + tail;
    PairsConsPositions(l, tail, n, killed, spared);
    forall t | 0 <= t < |killed|
      ensures ls[Shift(killed)[t]] == tail[killed[t]]
    {
    }
  }

  /** The positions part of the two steps above: shifted, with 0 added to
      one side, the two lists still split the judged positions. */
  lemma PairsConsPositions(l: Entity, tail: seq<Entity>, n: nat, killed: seq<nat>, spared: seq<nat>)
    requires Increasing(killed) && Increasing(spared)
    requires forall t :: 0 <= t < |killed| ==> killed[t] < n
    requires forall t :: 0 <= t < |spared| ==> spared[t] < n
    requires forall j :: 0 <= j < n ==> (j in killed <==> j !in spared)
    ensures Increasing(Shift(killed)) && Increasing([0] + Shift(killed))
    ensures Increasing(Shift(spared)) && Increasing([0] + Shift(spared))
    ensures forall t :: 0 <= t < |killed| ==> Shift(killed)[t] < n + 1
    ensures forall t :: 0 <= t < |spared| ==> Shift(spared)[t] < n + 1
    ensures 0 !in Shift(killed) && 0 !in Shift(spared)
    ensures forall j :: 1 <= j < n + 1 ==> (j in Shift(killed) <==> j !in Shift(spared))
  {
    ShiftPositions(killed, n);
    ShiftPositions(spared, n);
    forall j | 1 <= j < n + 1
      ensures j in Shift(killed) <==> j !in Shift(spared)
    {
      assert j - 1 in killed <==> j - 1 !in spared;
    }
  }

  /** The sweep `w` of `ls` judged its first `n` enemies, killing those at
      `killed` and keeping those at `spared` (as `Pairs` says); it judged
      every enemy unless the player stopped it, and then it stopped at the
      enemy that touched the player. */
  ghost predicate Paired(ls: seq<Entity>, chud: Vec, w: Sweep, n: nat, killed: seq<nat>, spared: seq<nat>)
  {
    && Pairs(ls, n, killed, spared, w.kept, w.booms)
    && |killed| == w.kills
    && (!w.playerHit ==> n == |ls|)
    && (w.playerHit ==> 0 < n && TouchesPlayer(ls[n - 1], chud))
  }

  /** Some choice of judged, killed and spared positions accounts for `w`. */
  ghost predicate PairedSweep(ls: seq<Entity>, chud: Vec, w: Sweep)
  {
    exists n: nat, killed: seq<nat>, spared: seq<nat> :: Paired(ls, chud, w, n, killed, spared)
  }

  /** Each kill of a sweep pairs with one enemy: its explosion is at that
      enemy's position, the explosions come in the order of those enemies,
      and the kept enemies are the judged ones without the killed, in order.
      A sweep the player did not stop judges every enemy; one the player
      stopped ends at the enemy that touched the player. */
  lemma {:induction false} SweepPairsKills(ls: seq<Entity>, bs: seq<Entity>, chud: Vec)
    ensures PairedSweep(ls, chud, SweepLlamas(ls, bs, chud))
    decreases |ls|
  {
    var w := SweepLlamas(ls, bs, chud);
    if ls == [] {
      var none: seq<nat> := [];
      assert Paired(ls, chud, w, 0, none, none);
    } else {
      var l, tail := ls[0], ls[1..];
      assert ls == [l] + tail;
      var first := Engage(l, bs, chud);
      if first.playerHit {
        PairedStopped(l, tail, bs, chud);
      } else {
        var rest := SweepLlamas(tail, first.bullets, chud);
        SweepPairsKills(tail, first.bullets, chud);
        assert w == Then(first, rest);
        if FirstHit(l, bs).Some? {
          PairedKilled(l, tail, chud, rest);
          assert w == rest.(booms := [Explosion(l.pos)] + rest.booms, kills := rest.kills + 1);
        } else {
          PairedSpared(l, tail, chud, rest);
          assert w == rest.(kept := [l] + rest.kept);
        }
      }
    }
  }

  /** An enemy `l` that touches the player, judged in front of the others:
      the sweep stops at it, having judged only it. */
  lemma PairedStopped(l: Entity, tail: seq<Entity>, bs: seq<Entity>, chud: Vec)
    requires TouchesPlayer(l, chud)
    ensures PairedSweep([l] + tail, chud, Engage(l, bs, chud))
  {
    var none: seq<nat> := [];
    assert Pairs(tail, 0, none, none, [], []);
    if FirstHit(l, bs).Some? {
      PairsConsKilled(l, tail, 0, none, none, [], []);
      assert Paired([l] + tail, chud, Engage(l, bs, chud), 1, [0] + Shift(none), Shift(none));
    } else {
      PairsConsSpared(l, tail, 0, none, none, [], []);
      assert Paired([l] + tail, chud, Engage(l, bs, chud), 1, Shift(none), [0] + Shift(none));
    }
  }

  /** A destroyed enemy `l`, not touching the player, judged in front of a
      sweep `rest` of the others that some positions account for. */
  lemma PairedKilled(l: Entity, tail: seq<Entity>, chud: Vec, rest: Sweep)
    requires PairedSweep(tail, chud, rest)
    ensures PairedSweep([l] + tail, chud, rest.(booms := [Explosion(l.pos)] + rest.booms, kills := rest.kills + 1))
  {
    var n: nat, killed: seq<nat>, spared: seq<nat> :| Paired(tail, chud, rest, n, killed, spared);
    PairsConsKilled(l, tail, n, killed, spared, rest.kept, rest.booms);
    if rest.playerHit {
      assert ([l] + tail)[n] == tail[n - 1];
    }
    assert Paired([l] + tail, chud, rest.(booms := [Explosion(l.pos)] + rest.booms, kills := rest.kills + 1),
                  n + 1, [0] + Shift(killed), Shift(spared));
  }

  /** A spared enemy `l`, not touching the player, judged in front of a
      sweep `rest` of the others that some positions account for. */
  lemma PairedSpared(l: Entity, tail: seq<Entity>, chud: Vec, rest: Sweep)
    requires PairedSweep(tail, chud, rest)
    ensures PairedSweep([l] + tail, chud, rest.(kept := [l] + rest.kept))
  {
    var n: nat, killed: seq<nat>, spared: seq<nat> :| Paired(tail, chud, rest, n, killed, spared);
    PairsConsSpared(l, tail, n, killed, spared, rest.kept, rest.booms);
    if rest.playerHit {
      assert ([l] + tail)[n] == tail[n - 1];
    }
    assert Paired([l] + tail, chud, rest.(kept := [l] + rest.kept), n + 1, Shift(killed), [0] + Shift(spared));
  }

  /** The session ends exactly when some enemy overlaps the player: each
      enemy is checked against the player whether or not a bullet just
      destroyed it, and the player does not move during the sweep. */
  lemma {:induction false} PlayerHitIff(ls: seq<Entity>, bs: seq<Entity>, chud: Vec)
    ensures SweepLlamas(ls, bs, chud).playerHit <==>
      exists i :: 0 <= i < |ls| && TouchesPlayer(ls[i], chud)
    decreases |ls|
  {
    if ls != [] {
      var first := Engage(ls[0], bs, chud);
      if !first.playerHit {
        PlayerHitIff(ls[1..], first.bullets, chud);
        if exists i :: 0 <= i < |ls| && TouchesPlayer(ls[i], chud) {
          var i :| 0 <= i < |ls| && TouchesPlayer(ls[i], chud);
          assert i != 0;
          assert ls[1..][i - 1] == ls[i];
        }
        if exists i :: 0 <= i < |ls| - 1 && TouchesPlayer(ls[1..][i], chud) {
          var i :| 0 <= i < |ls| - 1 && TouchesPlayer(ls[1..][i], chud);
          assert ls[i + 1] == ls[1..][i];
        }
      } else {
        assert TouchesPlayer(ls[0], chud);
      }
    }
  }

  /** After a sweep the player did not stop, no surviving enemy overlaps a
      surviving bullet, and a bullet that overlaps none of the enemies is
      still there. */
  lemma {:induction false} SweepLeavesNoOverlap(ls: seq<Entity>, bs: seq<Entity>, chud: Vec)
    ensures var w := SweepLlamas(ls, bs, chud);
      !w.playerHit ==>
        && (forall l, b :: l in w.kept && b in w.bullets ==> !Hits(l, b))
        && (forall b :: b in bs && (forall l :: l in ls ==> !Hits(l, b)) ==> b in w.bullets)
    decreases |ls|
  {
    var w := SweepLlamas(ls, bs, chud);
    if ls != [] && !w.playerHit {
      var l0 := ls[0];
      var first := Engage(l0, bs, chud);
      var rest := SweepLlamas(ls[1..], first.bullets, chud);
      assert w == Then(first, rest);
      SweepLeavesNoOverlap(ls[1..], first.bullets, chud);
      SweepAccounting(ls[1..], first.bullets, chud);
      forall l, b | l in w.kept && b in w.bullets
        ensures !Hits(l, b)
      {
        if l in first.kept {
          assert l == l0 && FirstHit(l0, bs).None?;
          assert b in first.bullets;
          assert b in bs;
        }
      }
      forall b | b in bs && (forall l :: l in ls ==> !Hits(l, b))
        ensures b in w.bullets
      {
        assert !Hits(l0, b);
        match FirstHit(l0, bs)
        case Some(k) =>
          RemoveKeepsOthers(bs, k, b);
        case None =>
      }
    }
  }

  /** When no enemy touches the (bounds-checked) player, the collision step
      keeps the player there and adds exactly KillScore per enemy removed;
      each removal also removes one bullet and appends one explosion after
      the existing ones. Time and fire time are untouched. */
  lemma CollideAccounting(s: State)
    requires forall i :: 0 <= i < |s.llamas| ==> !TouchesPlayer(s.llamas[i], ClampPlayer(s.chud))
    ensures var r := Collide(s);
            var kills := |s.llamas| - |r.llamas|;
      && kills >= 0
      && r.score == s.score + KillScore * kills
      && |r.bullets| == |s.bullets| - kills
      && |r.explosions| == |s.explosions| + kills
      && r.explosions[..|s.explosions|] == s.explosions
      && r.chud == ClampPlayer(s.chud)
      && r.gameTime == s.gameTime && r.lastFire == s.lastFire && r.isGameOver == s.isGameOver
  {
    var p := ClampPlayer(s.chud);
    PlayerHitIff(s.llamas, s.bullets, p);
    SweepAccounting(s.llamas, s.bullets, p);
  }

  /** When some enemy touches the player, the session is over and already
      restarted: no enemies, no bullets, score and time zero, the flag clear,
      the player at the start. Explosions so far are kept. */
  lemma CollideEndsSession(s: State)
    requires exists i :: 0 <= i < |s.llamas| && TouchesPlayer(s.llamas[i], ClampPlayer(s.chud))
    ensures var r := Collide(s);
      && r.llamas == [] && r.bullets == [] && r.score == 0 && r.gameTime == 0.0
      && !r.isGameOver && r.chud == PlayerStart
      && r.explosions[..|s.explosions|] == s.explosions && r.lastFire == s.lastFire
  {
    PlayerHitIff(s.llamas, s.bullets, ClampPlayer(s.chud));
  }

  /** The first enemy is destroyed by a bullet and, from the position it had,
      also touches the player: it still leaves its explosion, and the session
      still ends. */
  lemma DestroyedEnemyStillEndsSession(s: State)
    requires s.llamas != [] && FirstHit(s.llamas[0], s.bullets).Some?
    requires TouchesPlayer(s.llamas[0], ClampPlayer(s.chud))
    ensures Collide(s) == Reset(s.(explosions := s.explosions + [Explosion(s.llamas[0].pos)]))
  {
  }

  /** A worked case: an enemy at the origin and a forward bullet at (10, 10),
      the player far away. The enemy and the bullet are gone, the score is up
      by 100, and one explosion stands at the origin. */
  lemma OneKillScenario(score: int, time: real, last: int)
    ensures var l := Llama(0.0).(pos := Vec(0.0, 0.0));
            var b := Bullet(Vec(10.0, 10.0), Forward);
            var s := State(Vec(300.0, 300.0), [b], [l], [], score, time, last, false);
      Collide(s) == s.(llamas := [], bullets := [], explosions := [Explosion(Vec(0.0, 0.0))],
                       score := score + 100)
  {
    var l := Llama(0.0).(pos := Vec(0.0, 0.0));
    var b := Bullet(Vec(10.0, 10.0), Forward);
    var s := State(Vec(300.0, 300.0), [b], [l], [], score, time, last, false);
    var p := ClampPlayer(s.chud);
    assert p == s.chud;
    assert Hits(l, b) && !TouchesPlayer(l, p);
    assert FirstHit(l, [b]) == Some(0);
    assert Remove([b], 0) == [];
    assert Engage(l, [b], p) == Sweep([], [], [Explosion(l.pos)], 1, false);
    assert [l][1..] == [];
    assert SweepLlamas([l], [b], p) == Sweep([], [], [Explosion(l.pos)], 1, false);
  }

  // ---------------------------------------------------------------- the tick

  /** The tick up to the collision step: time, input, movement and culling,
      the spawn decided by the caller. */
  function Advance(s: State, dt: real, keys: Keys, now: int,
                   spawn: bool, spawnY: real, doneAfter: SpriteDone): State
  {
    Spawn(UpdateEntities(HandleInput(s.(gameTime := s.gameTime + dt), keys, dt, now), dt, doneAfter),
          spawn, spawnY)
  }

  /** One tick, in the game's order: time, input, movement and culling, the
      spawn decided by the caller, collisions. */
  function Update(s: State, dt: real, keys: Keys, now: int,
                  spawn: bool, spawnY: real, doneAfter: SpriteDone): State
  {
    Collide(Advance(s, dt, keys, now, spawn, spawnY, doneAfter))
  }

  /** What holds between ticks: the score is a non-negative multiple of
      KillScore, the player is on the canvas, and the game-over flag is clear. */
  predicate Invariant(s: State)
  {
    s.score >= 0 && s.score % KillScore == 0 && OnCanvas(s.chud) && !s.isGameOver
  }

  lemma InitialInvariant(now: int)
    ensures Invariant(Reset(Initial(now)))
  {
  }

  /** Every tick keeps the invariant, so the game-over flag is never seen set;
      the session time either grows by dt or starts again from zero. */
  lemma UpdateKeepsInvariant(s: State, dt: real, keys: Keys, now: int,
                             spawn: bool, spawnY: real, doneAfter: SpriteDone)
    requires Invariant(s)
    ensures var r := Update(s, dt, keys, now, spawn, spawnY, doneAfter);
      Invariant(r) && (r.gameTime == s.gameTime + dt || r.gameTime == 0.0)
  {
    var s4 := Advance(s, dt, keys, now, spawn, spawnY, doneAfter);
    AdvanceKeepsScore(s, dt, keys, now, spawn, spawnY, doneAfter);
    CollideKeepsInvariant(s4);
  }

  /** Movement leaves the score and the flag alone and adds dt to the time. */
  lemma AdvanceKeepsScore(s: State, dt: real, keys: Keys, now: int,
                          spawn: bool, spawnY: real, doneAfter: SpriteDone)
    ensures var r := Advance(s, dt, keys, now, spawn, spawnY, doneAfter);
      r.score == s.score && r.isGameOver == s.isGameOver && r.gameTime == s.gameTime + dt
  {
  }

  /** The collision step keeps the score a non-negative multiple of the kill
      score, leaves the player on the canvas and the flag clear, and either
      keeps the time or restarts it. */
  lemma CollideKeepsInvariant(s: State)
    requires s.score >= 0 && s.score % KillScore == 0 && !s.isGameOver
    ensures Invariant(Collide(s))
    ensures Collide(s).gameTime == s.gameTime || Collide(s).gameTime == 0.0
  {
    var w := SweepLlamas(s.llamas, s.bullets, ClampPlayer(s.chud));
    assert (s.score + KillScore * w.kills) % KillScore == 0;
  }
}
