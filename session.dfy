/** The game's global state and the functions that change it in place.
    Each method is proved to leave the state that the matching function of
    module Rules describes. */
module Game {
  import opened Seqs
  import opened Entities
  import opened Collision
  import Rules

  class Session {
    var chudPos: Vec
    var bullets: seq<Entity>
    var llamas: seq<Entity>
    var explosions: seq<Entity>
    var score: int
    var gameTime: real
    var lastFire: int
    var isGameOver: bool

    /** The globals as one value. */
    function View(): Rules.State
      reads this
    {
      Rules.State(chudPos, bullets, llamas, explosions, score, gameTime, lastFire, isGameOver)
    }

    /** The globals as the script sets them when it is loaded at time `now`
        (the game-over flag starts undefined, which reads as false). */
    constructor (now: int)
      ensures View() == Rules.Initial(now)
    {
      chudPos := Vec(0.0, 0.0);
      bullets := [];
      llamas := [];
      explosions := [];
      lastFire := now;
      gameTime := 0.0;
      isGameOver := false;
      score := 0;
    }

    /** Start a new session. */
    method Reset()
      modifies this
      ensures View() == Rules.Reset(old(View()))
      ensures !isGameOver && gameTime == 0.0 && score == 0 && llamas == [] && bullets == []
      ensures chudPos == PlayerStart
      ensures explosions == old(explosions) && lastFire == old(lastFire)
    {
      isGameOver := false;
      gameTime := 0.0;
      score := 0;

      llamas := [];
      bullets := [];

      chudPos := PlayerStart;
    }

    /** Raise the game-over flag and start a new session, which lowers it again. */
    method GameOver()
      modifies this
      ensures View() == Rules.GameOver(old(View()))
      ensures View() == Rules.Reset(old(View())) && !isGameOver
      ensures gameTime == 0.0 && score == 0 && llamas == [] && bullets == [] && chudPos == PlayerStart
      ensures explosions == old(explosions) && lastFire == old(lastFire)
    {
      isGameOver := true;
      Reset();
    }

    /** Pull the player back onto the canvas, one axis at a time. */
    method CheckPlayerBounds()
      modifies this
      ensures chudPos == Rules.ClampPlayer(old(chudPos)) && Rules.OnCanvas(chudPos)
      ensures View() == old(View()).(chud := chudPos)
    {
      if chudPos.x < 0.0 {
        chudPos := chudPos.(x := 0.0);
      } else if chudPos.x > (CanvasWidth - PlayerSize.w) as real {
        chudPos := chudPos.(x := (CanvasWidth - PlayerSize.w) as real);
      }

      if chudPos.y < 0.0 {
        chudPos := chudPos.(y := 0.0);
      } else if chudPos.y > (CanvasHeight - PlayerSize.h) as real {
        chudPos := chudPos.(y := (CanvasHeight - PlayerSize.h) as real);
      }
    }

    /** Move by the held direction keys, then fire a burst if allowed. */
    method HandleInput(keys: Rules.Keys, dt: real, now: int)
      modifies this
      ensures chudPos == Rules.Steer(old(chudPos), keys, dt)
      ensures View() == Rules.HandleInput(old(View()), keys, dt, now)
    {
      if keys.down {
        chudPos := chudPos.(y := chudPos.y + PlayerSpeed * dt);
      }
      if keys.up {
        chudPos := chudPos.(y := chudPos.y - PlayerSpeed * dt);
      }
      if keys.left {
        chudPos := chudPos.(x := chudPos.x - PlayerSpeed * dt);
      }
      if keys.right {
        chudPos := chudPos.(x := chudPos.x + PlayerSpeed * dt);
      }

      if keys.fire && !isGameOver && now - lastFire > FireCooldown {
        var x := chudPos.x + (PlayerSize.w as real) / 2.0;
        var y := chudPos.y + (PlayerSize.h as real) / 2.0;
        ghost var before := bullets;

        bullets := bullets + [Bullet(Vec(x, y), Forward)];
        bullets := bullets + [Bullet(Vec(x, y), Up)];
        bullets := bullets + [Bullet(Vec(x, y), Down)];
        assert bullets == before + [Bullet(Vec(x, y), Forward), Bullet(Vec(x, y), Up), Bullet(Vec(x, y), Down)];

        lastFire := now;
      }
    }

    /** Move every bullet along its heading and splice out, in place, those
        that left the canvas. */
    method UpdateBullets(dt: real)
      modifies this`bullets
      ensures View() == old(View()).(bullets := Rules.UpdatedBullets(old(bullets), dt))
    {
      ghost var moved := Rules.MoveBullets(bullets, dt);
      ghost var k := 0;
      CullStart(Rules.BulletOnScreen, bullets, moved);
      var i := 0;
      while i < |bullets|
        invariant Culled(Rules.BulletOnScreen, bullets, i, moved, old(bullets), k)
        decreases |bullets| - i
      {
        CullStep(Rules.BulletOnScreen, bullets, i, moved, old(bullets), k);
        var bullet := bullets[i];

        bullet := Rules.MoveBullet(bullet, dt);  // the switch on the direction tag
        assert bullet == moved[k];
        bullets := bullets[i := bullet];

        if bullet.pos.y < 0.0 || bullet.pos.y > CanvasHeight as real ||
           bullet.pos.x > CanvasWidth as real {
          bullets := bullets[..i] + bullets[i + 1..];
          i := i - 1;
        }
        i := i + 1;
        k := k + 1;
      }
      CullDone(Rules.BulletOnScreen, bullets, moved, old(bullets), k);
    }

    /** Move every enemy left and splice out, in place, those wholly past the left edge. */
    method UpdateLlamas(dt: real)
      modifies this`llamas
      ensures View() == old(View()).(llamas := Rules.UpdatedLlamas(old(llamas), dt))
    {
      ghost var moved := Rules.MoveLlamas(llamas, dt);
      ghost var k := 0;
      CullStart(Rules.LlamaOnScreen, llamas, moved);
      var i := 0;
      while i < |llamas|
        invariant Culled(Rules.LlamaOnScreen, llamas, i, moved, old(llamas), k)
        decreases |llamas| - i
      {
        CullStep(Rules.LlamaOnScreen, llamas, i, moved, old(llamas), k);
        llamas := llamas[i := llamas[i].(pos := llamas[i].pos.(x := llamas[i].pos.x - EnemySpeed * dt))];
        assert llamas[i] == moved[k];

        if llamas[i].pos.x + llamas[i].size.w as real < 0.0 {
          llamas := llamas[..i] + llamas[i + 1..];
          i := i - 1;
        }
        i := i + 1;
        k := k + 1;
      }
      CullDone(Rules.LlamaOnScreen, llamas, moved, old(llamas), k);
    }

    /** Advance every explosion's animation and splice out, in place, those now done. */
    method UpdateExplosions(dt: real, doneAfter: Rules.SpriteDone)
      modifies this`explosions
      ensures View() == old(View()).(explosions := Rules.UpdatedExplosions(old(explosions), dt, doneAfter))
    {
      ghost var animated := Rules.AnimateExplosions(explosions, dt, doneAfter);
      ghost var k := 0;
      CullStart(Rules.Ongoing, explosions, animated);
      var i := 0;
      while i < |explosions|
        invariant Culled(Rules.Ongoing, explosions, i, animated, old(explosions), k)
        decreases |explosions| - i
      {
        CullStep(Rules.Ongoing, explosions, i, animated, old(explosions), k);
        explosions := explosions[i := explosions[i].(age := explosions[i].age + dt, done := doneAfter(explosions[i], dt))];
        assert explosions[i] == animated[k];

        if explosions[i].done {
          explosions := explosions[..i] + explosions[i + 1..];
          i := i - 1;
        }
        i := i + 1;
        k := k + 1;
      }
      CullDone(Rules.Ongoing, explosions, animated, old(explosions), k);
    }

    /** The movement-and-culling step: bullets, then enemies, then explosions. */
    method UpdateEntities(dt: real, doneAfter: Rules.SpriteDone)
      modifies this
      ensures View() == Rules.UpdateEntities(old(View()), dt, doneAfter)
    {
      UpdateBullets(dt);
      UpdateLlamas(dt);
      UpdateExplosions(dt, doneAfter);
    }

    /** The inner loop of the collision step for the enemy at position `i`:
        the first bullet, in list order, that overlaps it destroys it; both
        are spliced out, the score rises and an explosion is appended where
        the enemy was. Reports whether the enemy was destroyed. */
    method StrikeLlama(i: nat) returns (killed: bool)
      requires i < |llamas|
      modifies this`llamas, this`bullets, this`score, this`explosions
      ensures killed == Rules.FirstHit(old(llamas)[i], old(bullets)).Some?
      ensures View() == Rules.Strike(old(View()), i)
    {
      var pos := llamas[i].pos;
      var size := llamas[i].size;
      killed := false;

      var j := 0;
      while j < |bullets|
        invariant 0 <= j <= |bullets|
        invariant llamas == old(llamas) && bullets == old(bullets)
        invariant score == old(score) && explosions == old(explosions)
        invariant forall q :: 0 <= q < j ==> !BoxCollides(pos, size, bullets[q].pos, bullets[q].size)
      {
        if BoxCollides(pos, size, bullets[j].pos, bullets[j].size) {
          assert Rules.FirstHit(old(llamas)[i], old(bullets)) == Rules.Some(j);
          // Remove the enemy
          llamas := llamas[..i] + llamas[i + 1..];

          score := score + KillScore;

          explosions := explosions + [Explosion(pos)];

          // Remove the bullet and stop this iteration
          bullets := bullets[..j] + bullets[j + 1..];
          killed := true;
          return;
        }
        j := j + 1;
      }
      assert Rules.FirstHit(old(llamas)[i], old(bullets)).None?;
    }

    /** The collision step. After the bounds check, each enemy in turn is
        tested against the bullets (StrikeLlama); a destroyed enemy's
        successor moves up to its position. Then the enemy's box, as it was
        before any removal, is tested against the player, and an overlap ends
        the session, which empties the lists and so ends the loop. */
    method CheckCollisions()
      modifies this
      ensures View() == Rules.Collide(old(View()))
    {
      CheckPlayerBounds();
      Rules.CollideIsResume(old(View()));
      ghost var ended := false;

      var i := 0;
      while i < |llamas|
        invariant 0 <= i
        invariant ended ==> llamas == []
        invariant !ended ==> i <= |llamas|
        invariant !ended ==> Rules.Collide(old(View())) == Rules.Resume(View(), i)
        invariant ended ==> Rules.Collide(old(View())) == View()
        decreases |llamas| + 1 - i
      {
        var pos := llamas[i].pos;
        var size := llamas[i].size;
        ghost var s := View();
        ghost var i0 := i;

        var killed := StrikeLlama(i);
        if killed {
          i := i - 1;
        }

        if BoxCollides(pos, size, chudPos, PlayerSize) {
          Rules.ResumeStops(s, i0);
          GameOver();
          ended := true;
        } else if killed {
          Rules.ResumeKills(s, i0);
        } else {
          Rules.ResumeSpares(s, i0);
        }
        i := i + 1;
      }
      if !ended {
        Rules.ResumeDone(View());
      }
    }

    /** One tick: session time, input, movement and culling, the enemy spawn
        decided by the caller, collisions. */
    method Update(dt: real, keys: Rules.Keys, now: int,
                  spawn: bool, spawnY: real, doneAfter: Rules.SpriteDone)
      modifies this
      ensures View() == Rules.Update(old(View()), dt, keys, now, spawn, spawnY, doneAfter)
    {
      gameTime := gameTime + dt;
      HandleInput(keys, dt, now);
      UpdateEntities(dt, doneAfter);
      ghost var moved := View();
      if spawn {
        llamas := llamas + [Llama(spawnY)];
      }
      assert View() == Rules.Spawn(moved, spawn, spawnY);
      assert View() == Rules.Advance(old(View()), dt, keys, now, spawn, spawnY, doneAfter);
      CheckCollisions();
    }
  }
}
