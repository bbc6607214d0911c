/** The running game as one object: the fields of the `game` literal, the
    player, the three entity lists and the spawn counter, updated in place
    step by step as game.js does. Every method is proved to leave the
    object in the state that the corresponding function of Session, Rules
    or Collisions gives for the state it started from, so the properties
    proved about those functions hold of the object. */
module Engine {
  import opened Geometry
  import opened Seqs
  import opened Entities
  import opened Session
  import opened Collisions
  import opened Rules

  class World {
    var width: real
    var height: real
    var active: bool
    var paused: bool
    var score: int
    var keys: map<string, bool>
    var mouse: Mouse
    var player: Player
    var projectiles: seq<Projectile>
    var enemies: seq<Enemy>
    var particles: seq<Particle>
    var spawnTimer: int

    /** The object's state as a value. */
    function Snap(): State
      reads this
    {
      State(width, height, active, paused, score, keys, mouse, player, projectiles, enemies, particles, spawnTimer)
    }

    /** What holds between frames. */
    ghost predicate Valid()
      reads this
    {
      Inv(Snap())
    }

    /** The page load: the `game` literal with the canvas size, the empty
        lists and counter, and then `init()`. */
    constructor (width: real, height: real)
      ensures Snap() == Boot(width, height) && Valid()
    {
      this.width := width;
      this.height := height;
      active := true;
      paused := false;
      score := 0;
      keys := map[];
      mouse := Mouse(0.0, 0.0, false);
      player := NewPlayer(width, height);
      projectiles := [];
      enemies := [];
      particles := [];
      spawnTimer := 0;
      new;
      Init();
    }

    /** `init`. */
    method Init()
      modifies this
      ensures Snap() == Session.Init(old(Snap()))
    {
      player := NewPlayer(width, height);
      player := player.(lastShotTime := 0);
      projectiles := [];
      enemies := [];
      particles := [];
      score := 0;
      active := true;
      paused := false;
    }

    /** `endGame`, without its report on the page. */
    method EndGame()
      modifies this`active
      ensures Snap() == Session.EndGame(old(Snap()))
    {
      active := false;
    }

    /** `togglePause`, without the overlay and the frame scheduling. */
    method TogglePause()
      modifies this`paused
      ensures Snap() == Session.TogglePause(old(Snap()))
    {
      if !active {
        return;
      }
      paused := !paused;
    }

    /** The `for` loops that push `n` new particles at (x, y). */
    method Emit(n: nat, x: real, y: real, color: Color)
      modifies this`particles
      ensures particles == old(particles) + Burst(n, x, y, color)
    {
      var i := 0;
      while i < n
        invariant i <= n
        invariant particles == old(particles) + Burst(i, x, y, color)
      {
        particles := particles + [Particle(x, y, color, FullAlpha)];
        i := i + 1;
        assert Burst(i, x, y, color) == Burst(i - 1, x, y, color) + [Particle(x, y, color, FullAlpha)];
      }
    }

    /** `Player.useBandage`. */
    method UseBandage()
      modifies this`player, this`particles
      ensures Snap() == Session.UseBandage(old(Snap()))
    {
      if player.bandages > 0 && player.health < MaxHealth {
        player := player.(bandages := player.bandages - 1);
        player := player.(health := IntMin(MaxHealth, player.health + BandageHeal));
        Emit(HealBurst, player.x, player.y, HealGreen);
      }
    }

    /** `Player.takeDamage(amount)`. */
    method TakeDamage(amount: int)
      modifies this`player, this`active, this`particles
      ensures Snap() == Session.TakeDamage(old(Snap()), amount)
    {
      player := player.(health := player.health - amount);
      if player.health <= 0 {
        player := player.(health := 0);
        EndGame();
      }
      Emit(DamageBurst, player.x, player.y, DamageRed);
    }

    /** The movement half of `Player.update`: a step of PlayerSpeed along
        `v` unless `v` is zero, then the clamp to the canvas. */
    method Move(v: Vec)
      modifies this`player
      ensures player == Walk(old(player), v, width, height)
    {
      if v.x != 0.0 || v.y != 0.0 {
        player := player.(x := player.x + v.x * PlayerSpeed, y := player.y + v.y * PlayerSpeed);
      }
      player := player.(x := Clamp(PlayerRadius, width - PlayerRadius, player.x),
                        y := Clamp(PlayerRadius, height - PlayerRadius, player.y));
    }

    /** `Player.update`: move, clamp, and the 'e' key. */
    method UpdatePlayer(move: Stick)
      modifies this`player, this`keys, this`particles
      ensures Snap() == PlayerStep(old(Snap()), move)
    {
      ghost var s := Snap();
      Move(Heading(keys, move));
      assert Snap() == s.(player := Walk(s.player, Heading(s.keys, move), s.width, s.height));
      if Pressed(keys, "e") {
        UseBandage();
        keys := keys["e" := false];
      }
    }

    /** The player's fire with its cooldown (game.js:355-384). */
    method Fire(now: int, mobile: MobileInput, direction: Vec -> Vec)
      modifies this`projectiles, this`player
      ensures Snap() == Rules.Fire(old(Snap()), now, mobile, direction)
    {
      if (mouse.down || mobile.shooting) && active {
        if now - player.lastShotTime > FireCooldown {
          var targetX, targetY;
          if mobile.aim.active {
            targetX := player.x + mobile.aim.x * AimReach;
            targetY := player.y + mobile.aim.y * AimReach;
          } else {
            targetX := mouse.x;
            targetY := mouse.y;
          }
          projectiles := projectiles + [Launch(player.x, player.y, targetX, targetY, false, direction)];
          player := player.(lastShotTime := now);
        }
      }
    }

    /** Every projectile's `update`, then the filter on the deletion flag. */
    method UpdateProjectiles()
      modifies this`projectiles
      ensures Snap() == MoveProjectiles(old(Snap()))
    {
      var i := 0;
      while i < |projectiles|
        invariant i <= |projectiles| == |old(projectiles)|
        invariant forall m :: 0 <= m < i ==> projectiles[m] == ProjectileStep(old(projectiles)[m], width, height)
        invariant forall m :: i <= m < |projectiles| ==> projectiles[m] == old(projectiles)[m]
      {
        projectiles := projectiles[i := ProjectileStep(projectiles[i], width, height)];
        i := i + 1;
      }
      assert projectiles == Advance(old(projectiles), width, height);
      projectiles := Filter(projectiles, Unflagged);
    }

    /** `spawnEnemies`. The counter is never negative, so JavaScript's `%`
        and Dafny's agree on it. */
    method SpawnEnemies(now: int, draw: nat -> real)
      modifies this`spawnTimer, this`enemies
      ensures Snap() == Spawn(old(Snap()), now, draw)
    {
      spawnTimer := spawnTimer + 1;
      if spawnTimer % SpawnPeriod == 0 {
        enemies := enemies + [NewEnemy(draw, width, height, now)];
      }
    }

    /** Every enemy's `update` in list order, each pushing its shot, if any,
        onto the projectiles; then the filter on the deletion flag. */
    method UpdateEnemies(now: int, direction: Vec -> Vec)
      modifies this`enemies, this`projectiles
      ensures Snap() == MoveEnemies(old(Snap()), now, direction)
    {
      PursueAll(now, direction);
      enemies := Filter(enemies, Standing);
    }

    /** `enemies.forEach(e => e.update())`. */
    method PursueAll(now: int, direction: Vec -> Vec)
      modifies this`enemies, this`projectiles
      ensures var moved := Pursue(old(enemies), player, now, direction);
              enemies == moved.0 && projectiles == old(projectiles) + moved.1
    {
      ghost var es := enemies;
      var i := 0;
      while i < |enemies|
        invariant i <= |enemies| == |es|
        invariant enemies[..i] == Pursue(es[..i], player, now, direction).0
        invariant enemies[i..] == es[i..]
        invariant projectiles == old(projectiles) + Pursue(es[..i], player, now, direction).1
      {
        PursueAdvance(es, enemies, old(projectiles), projectiles, i, player, now, direction);
        UpdateEnemy(i, now, direction);
        i := i + 1;
      }
      assert es[..i] == es;
      assert enemies == enemies[..i];
    }

    /** `Enemy.update` of enemy i: it steps towards the player and its shot,
        if any, is pushed onto the projectiles. */
    method UpdateEnemy(i: nat, now: int, direction: Vec -> Vec)
      requires i < |enemies|
      modifies this`enemies, this`projectiles
      ensures var step := EnemyStep(old(enemies)[i], player, now, direction);
              enemies == old(enemies)[i := step.0] && projectiles == old(projectiles) + step.1
    {
      var step := EnemyStep(enemies[i], player, now, direction);
      enemies := enemies[i := step.0];
      projectiles := projectiles + step.1;
    }

    /** The particle pass: a faded particle is spliced out where it stands,
        and the visit moves on to the next index, which now holds the
        particle after the removed one; any other particle is dimmed. */
    method UpdateParticles()
      modifies this`particles
      ensures particles == Cull(old(particles))
    {
      var i := 0;
      while i < |particles|
        invariant i <= |particles| + 1
        invariant i <= |particles| ==> Cull(old(particles)) == particles[..i] + Cull(particles[i..])
        invariant i == |particles| + 1 ==> Cull(old(particles)) == particles
        decreases |particles| - i
      {
        if Faded(particles[i]) {
          SpliceFaded(particles, i);
          particles := particles[..i] + particles[i + 1..];
        } else {
          SpliceDim(particles, i);
          particles := particles[i := Dim(particles[i])];
        }
        i := i + 1;
      }
      if i == |particles| {
        assert particles[..i] == particles;
      }
    }

    /** `checkCollisions`: every projectile in order, a friendly one against
        every enemy, a hostile one against the player; then every enemy
        against the player. `hypot` is `Math.hypot`; `drop(k)` is the draw
        for the k-th kill of the pass. */
    method CheckCollisions(hypot: Vec -> real, drop: nat -> real)
      modifies this
      ensures Snap() == Collide(old(Snap()), hypot, drop)
    {
      ghost var s := Snap();
      var kills: nat := 0;
      var k := 0;
      while k < |projectiles|
        invariant k <= |projectiles| == |s.projectiles| && |enemies| == |s.enemies|
        invariant Pass(Snap(), kills) == ProjectileScan(Pass(s, 0), k, hypot, drop)
      {
        ghost var a := Pass(Snap(), kills);
        kills := CheckProjectile(k, kills, hypot, drop);
        assert Pass(Snap(), kills) == ProjectileStepPass(a, k, hypot, drop);
        k := k + 1;
      }
      ghost var b := Pass(Snap(), kills);
      assert b == ProjectileScan(Pass(s, 0), |s.projectiles|, hypot, drop);
      CheckContacts(hypot);
      assert Snap() == ContactScan(b.s, |s.enemies|, hypot);
    }

    /** One projectile of the first loop of `checkCollisions`
        (game.js:293-338); returns the new number of drop draws used. */
    method CheckProjectile(k: nat, kills: nat, hypot: Vec -> real, drop: nat -> real) returns (kills': nat)
      requires k < |projectiles|
      modifies this`enemies, this`projectiles, this`score, this`particles, this`player, this`active
      ensures Pass(Snap(), kills') == ProjectileStepPass(Pass(old(Snap()), kills), k, hypot, drop)
    {
      if !projectiles[k].isEnemy {
        kills' := Volley(k, kills, hypot, drop);
      } else {
        kills' := kills;
        if ProjectileHitsPlayer(projectiles[k], player, hypot) {
          TakeDamage(HostileShotDamage);
          projectiles := projectiles[k := projectiles[k].(marked := true)];
        }
      }
    }

    /** A friendly projectile against every enemy in order (game.js:295-329);
        returns the new number of drop draws used. */
    method Volley(k: nat, kills: nat, hypot: Vec -> real, drop: nat -> real) returns (kills': nat)
      requires k < |projectiles|
      modifies this`enemies, this`projectiles, this`score, this`particles, this`player
      ensures Pass(Snap(), kills') == FriendlyScan(Pass(old(Snap()), kills), k, |old(enemies)|, hypot, drop)
    {
      ghost var b := Pass(Snap(), kills);
      kills' := kills;
      var j := 0;
      while j < |enemies|
        invariant j <= |enemies| == |b.s.enemies| && |projectiles| == |b.s.projectiles|
        invariant Pass(Snap(), kills') == FriendlyScan(b, k, j, hypot, drop)
      {
        kills' := Strike(k, j, kills', hypot, drop);
        j := j + 1;
      }
    }

    /** Friendly projectile k tested against enemy j: the hit, if they overlap. */
    method Strike(k: nat, j: nat, kills: nat, hypot: Vec -> real, drop: nat -> real) returns (kills': nat)
      requires k < |projectiles| && j < |enemies|
      modifies this`enemies, this`projectiles, this`score, this`particles, this`player
      ensures Pass(Snap(), kills') == FriendlyStep(Pass(old(Snap()), kills), k, j, hypot, drop)
    {
      kills' := kills;
      if ProjectileHitsEnemy(projectiles[k], enemies[j], hypot) {
        var down := HitEnemy(k, j, kills, drop);
        kills' := kills + if down then 1 else 0;
      }
    }

    /** The second loop of `checkCollisions` (game.js:342-347): one point of
        damage for every enemy touching the player. */
    method CheckContacts(hypot: Vec -> real)
      modifies this`player, this`active, this`particles
      ensures Snap() == ContactScan(old(Snap()), |enemies|, hypot)
    {
      ghost var c := Snap();
      var j := 0;
      while j < |enemies|
        invariant j <= |enemies| == |c.enemies|
        invariant Snap() == ContactScan(c, j, hypot)
      {
        if EnemyTouchesPlayer(enemies[j], player, hypot) {
          TakeDamage(ContactDamage);
        }
        j := j + 1;
      }
    }

    /** A friendly projectile hits an enemy (game.js:299-327), in source
        order; `kills` is the number of drop draws already used. */
    method HitEnemy(k: nat, j: nat, kills: nat, drop: nat -> real) returns (down: bool)
      requires k < |projectiles| && j < |enemies|
      modifies this`enemies, this`projectiles, this`score, this`particles, this`player
      ensures Pass(Snap(), kills + if down then 1 else 0) == Collisions.HitEnemy(Pass(old(Snap()), kills), k, j, drop)
    {
      var p := projectiles[k];
      var e := enemies[j].(health := enemies[j].health - ShotDamage);
      Emit(ImpactBurst, p.x, p.y, ImpactRed);
      down := e.health <= 0;
      if down {
        score := score + KillScore;
        Emit(ExplosionBurst, e.x, e.y, ImpactRed);
        if drop(kills) < DropChance {
          player := player.(bandages := player.bandages + 1);
        }
      }
      enemies := enemies[j := e.(marked := e.marked || down)];
      projectiles := projectiles[k := p.(marked := true)];
    }

    /** `update`: one frame. */
    method Update(h: Host)
      modifies this
      ensures Snap() == Tick(old(Snap()), h)
      ensures old(Valid()) ==> Valid()
    {
      TickInv(Snap(), h);
      if !active {
        return;
      }
      ghost var s := Snap();
      UpdatePlayer(h.mobile.move);
      Fire(h.now, h.mobile, h.direction);
      UpdateProjectiles();
      SpawnEnemies(h.now, h.spawnDraw);
      UpdateEnemies(h.now, h.direction);
      UpdateParticles();
      assert Snap() == Moved(s, h);
      CheckCollisions(h.hypot, h.dropDraw);
    }
  }

  /** Splicing out the faded particle at i leaves the pass with the same
      outcome, resumed one index on. */
  lemma SpliceFaded(ps: seq<Particle>, i: nat)
    requires i < |ps| && Faded(ps[i])
    ensures var q := ps[..i] + ps[i + 1..];
            && (i < |q| ==> ps[..i] + Cull(ps[i..]) == q[..i + 1] + Cull(q[i + 1..]))
            && (i == |q| ==> ps[..i] + Cull(ps[i..]) == q)
  {
    var q := ps[..i] + ps[i + 1..];
    if i < |q| {
      assert q[..i + 1] == ps[..i] + [ps[i..][1]];
      assert q[i + 1..] == ps[i..][2..];
    } else {
      assert ps[i..] == [ps[i]];
    }
  }

  /** Dimming the live particle at i in place leaves the pass with the same
      outcome, resumed one index on. */
  lemma SpliceDim(ps: seq<Particle>, i: nat)
    requires i < |ps| && !Faded(ps[i])
    ensures var q := ps[i := Dim(ps[i])];
            ps[..i] + Cull(ps[i..]) == q[..i + 1] + Cull(q[i + 1..])
  {
    var q := ps[i := Dim(ps[i])];
    assert q[..i + 1] == ps[..i] + [Dim(ps[i..][0])];
    assert q[i + 1..] == ps[i..][1..];
  }

  /** One more enemy's step, written into its slot and its shots appended,
      extends the pursuit of a prefix by one. */
  lemma PursueAdvance(es: seq<Enemy>, cur: seq<Enemy>, ps0: seq<Projectile>, ps: seq<Projectile>, i: nat,
                      target: Player, now: int, direction: Vec -> Vec)
    requires i < |es| == |cur|
    requires cur[..i] == Pursue(es[..i], target, now, direction).0 && cur[i..] == es[i..]
    requires ps == ps0 + Pursue(es[..i], target, now, direction).1
    ensures var step := EnemyStep(cur[i], target, now, direction);
            var next := cur[i := step.0];
            && next[..i + 1] == Pursue(es[..i + 1], target, now, direction).0
            && next[i + 1..] == es[i + 1..]
            && ps + step.1 == ps0 + Pursue(es[..i + 1], target, now, direction).1
  {
    assert es[..i + 1][..i] == es[..i];
    assert cur[i] == es[i];
    var step := EnemyStep(cur[i], target, now, direction);
    var next := cur[i := step.0];
    assert next[..i + 1] == cur[..i] + [step.0];
  }
}
