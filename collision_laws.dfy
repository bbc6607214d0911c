/** What one collision pass does, in closed form: how much health each enemy
    and the player lose, which entities end up flagged, how score and
    bandages follow the kills, and that nothing moves. These are the
    properties the nested loops of `checkCollisions` (game.js:290-348) add up
    to. Each level of the pass (one test, one projectile, the projectile loop,
    the contact loop, the whole pass) has its own lemmas, each proved from the
    level below. */
module CollisionLaws {
  import opened Geometry
  import opened Entities
  import opened Session
  import opened Collisions

  /** Friendly projectiles among the first n of ps that overlap e. */
  function FriendlyHits(ps: seq<Projectile>, n: nat, e: Enemy, hypot: Vec -> real): nat
    requires n <= |ps|
  {
    if n == 0 then 0
    else FriendlyHits(ps, n - 1, e, hypot) + (if !ps[n - 1].isEnemy && ProjectileHitsEnemy(ps[n - 1], e, hypot) then 1 else 0)
  }

  /** Enemies among the first n of es that projectile p overlaps. */
  function Targets(p: Projectile, es: seq<Enemy>, n: nat, hypot: Vec -> real): nat
    requires n <= |es|
  {
    if n == 0 then 0
    else Targets(p, es, n - 1, hypot) + (if ProjectileHitsEnemy(p, es[n - 1], hypot) then 1 else 0)
  }

  /** Hostile projectiles among the first n of ps that overlap the player. */
  function HostileHits(ps: seq<Projectile>, n: nat, pl: Player, hypot: Vec -> real): nat
    requires n <= |ps|
  {
    if n == 0 then 0
    else HostileHits(ps, n - 1, pl, hypot) + (if ps[n - 1].isEnemy && ProjectileHitsPlayer(ps[n - 1], pl, hypot) then 1 else 0)
  }

  /** Enemies among the first n of es that touch the player. */
  function Touching(es: seq<Enemy>, n: nat, pl: Player, hypot: Vec -> real): nat
    requires n <= |es|
  {
    if n == 0 then 0
    else Touching(es, n - 1, pl, hypot) + (if EnemyTouchesPlayer(es[n - 1], pl, hypot) then 1 else 0)
  }

  /** Whether projectile p hits anything it is tested against in state s: the
      player if it is hostile, at least one enemy if it is friendly. */
  predicate Struck(p: Projectile, s: State, hypot: Vec -> real) {
    if p.isEnemy then ProjectileHitsPlayer(p, s.player, hypot)
    else Targets(p, s.enemies, |s.enemies|, hypot) > 0
  }

  /** A friendly projectile has targets exactly when some enemy overlaps it. */
  lemma {:induction false} TargetsWitness(p: Projectile, es: seq<Enemy>, n: nat, hypot: Vec -> real)
    requires n <= |es|
    ensures Targets(p, es, n, hypot) > 0 <==> exists m :: 0 <= m < n && ProjectileHitsEnemy(p, es[m], hypot)
  {
    if n > 0 {
      TargetsWitness(p, es, n - 1, hypot);
      if ProjectileHitsEnemy(p, es[n - 1], hypot) {
        assert ProjectileHitsEnemy(p, es[n - 1], hypot);
      }
    }
  }

  // ---------------------------------------------------------------------
  // What a pass keeps

  /** Projectile i after a pass is projectile i before it, up to its flag. */
  lemma ProjectileKept(s: State, r: State, i: nat)
    requires Framed(s, r) && i < |s.projectiles|
    ensures r.projectiles[i] == s.projectiles[i].(marked := r.projectiles[i].marked)
  {
    assert Shapes(r.projectiles)[i] == Shapes(s.projectiles)[i];
  }

  /** Enemy m after a pass is enemy m before it, up to health and flag. */
  lemma EnemyKept(s: State, r: State, m: nat)
    requires Framed(s, r) && m < |s.enemies|
    ensures r.enemies[m] == s.enemies[m].(health := r.enemies[m].health, marked := r.enemies[m].marked)
  {
    assert Bodies(r.enemies)[m] == Bodies(s.enemies)[m];
  }

  /** The player after a pass is the player before it, up to health and bandages. */
  lemma PlayerKept(s: State, r: State)
    requires Framed(s, r)
    ensures r.player == s.player.(health := r.player.health, bandages := r.player.bandages)
  {
    assert Rest(r).player == Rest(s).player;
  }

  /** Whether projectile k overlaps enemy m depends only on where the two are,
      which a pass does not change. */
  lemma FriendlyHitKept(s: State, r: State, k: nat, m: nat, hypot: Vec -> real)
    requires Framed(s, r) && k < |s.projectiles| && m < |s.enemies|
    ensures ProjectileHitsEnemy(r.projectiles[k], r.enemies[m], hypot) ==
              ProjectileHitsEnemy(s.projectiles[k], s.enemies[m], hypot)
  {
    ProjectileKept(s, r, k);
    EnemyKept(s, r, m);
  }

  /** Counting targets reads only positions. */
  lemma {:induction false} TargetsFramed(p: Projectile, es: seq<Enemy>, fs: seq<Enemy>, n: nat, hypot: Vec -> real)
    requires Bodies(es) == Bodies(fs) && n <= |es|
    ensures Targets(p, fs, n, hypot) == Targets(p, es, n, hypot)
  {
    if n > 0 {
      TargetsFramed(p, es, fs, n - 1, hypot);
      assert Bodies(es)[n - 1] == Bodies(fs)[n - 1];
    }
  }

  /** Counting contacts reads only positions. */
  lemma {:induction false} TouchingFramed(es: seq<Enemy>, fs: seq<Enemy>, n: nat, pl: Player, ql: Player, hypot: Vec -> real)
    requires Bodies(es) == Bodies(fs) && n <= |es| && pl.x == ql.x && pl.y == ql.y
    ensures Touching(fs, n, ql, hypot) == Touching(es, n, pl, hypot)
  {
    if n > 0 {
      TouchingFramed(es, fs, n - 1, pl, ql, hypot);
      assert Bodies(es)[n - 1] == Bodies(fs)[n - 1];
    }
  }

  /** Whether a projectile hits anything depends only on where everything is. */
  lemma StruckFramed(s: State, r: State, p: Projectile, hypot: Vec -> real)
    requires Framed(s, r)
    ensures Struck(p, r, hypot) == Struck(p, s, hypot)
  {
    PlayerKept(s, r);
    TargetsFramed(p, s.enemies, r.enemies, |s.enemies|, hypot);
  }

  // ---------------------------------------------------------------------
  // One test

  /** A friendly projectile hitting an enemy (game.js:299-327): that enemy
      loses exactly ten health and nothing else about it changes but its flag,
      which is set exactly when it was set or the enemy is now at zero or
      below; then, and only then, the score rises by exactly 100, one drop
      draw is used and a bandage is granted exactly when that draw is below
      0.2. Three impact particles appear at the projectile, and fifteen
      explosion particles at the enemy when it is down. The projectile is
      flagged; no other projectile or enemy, and nothing else about the
      player or the session, changes. */
  lemma HitEnemyLaw(a: Pass, k: nat, j: nat, drop: nat -> real)
    requires k < |a.s.projectiles| && j < |a.s.enemies|
    ensures var b := HitEnemy(a, k, j, drop);
            var e := b.s.enemies[j];
            var down := e.health <= 0;
            && e == a.s.enemies[j].(health := e.health, marked := e.marked)
            && e.health == a.s.enemies[j].health - ShotDamage
            && (e.marked <==> a.s.enemies[j].marked || down)
            && b.s.enemies == a.s.enemies[j := e]
            && b.s.projectiles == a.s.projectiles[k := a.s.projectiles[k].(marked := true)]
            && b.s.score == a.s.score + (if down then KillScore else 0)
            && b.kills == a.kills + (if down then 1 else 0)
            && b.s.player == a.s.player.(bandages := b.s.player.bandages)
            && b.s.player.bandages == a.s.player.bandages + (if down && drop(a.kills) < DropChance then 1 else 0)
            && b.s.particles == a.s.particles + Burst(ImpactBurst, a.s.projectiles[k].x, a.s.projectiles[k].y, ImpactRed)
                                + (if down then Burst(ExplosionBurst, e.x, e.y, ImpactRed) else [])
            && b.s == a.s.(projectiles := b.s.projectiles, enemies := b.s.enemies, score := b.s.score,
                           player := b.s.player, particles := b.s.particles)
  {
  }

  /** Testing friendly projectile k against enemy j: the enemy loses ten
      health exactly when the two overlap, and is then flagged if that leaves
      it at zero or below; the projectile is flagged exactly when they overlap
      (or was before); nothing moves and no other entity changes. */
  lemma FriendlyStepLaw(b: Pass, c: Pass, k: nat, j: nat, hypot: Vec -> real, drop: nat -> real)
    requires k < |b.s.projectiles| && j < |b.s.enemies|
    requires c == FriendlyStep(b, k, j, hypot, drop)
    ensures Framed(b.s, c.s)
    ensures c.s.projectiles == b.s.projectiles[k := c.s.projectiles[k]]
    ensures c.s.enemies == b.s.enemies[j := c.s.enemies[j]]
    ensures var hit := ProjectileHitsEnemy(b.s.projectiles[k], b.s.enemies[j], hypot);
            && c.s.enemies[j].health == b.s.enemies[j].health - (if hit then ShotDamage else 0)
            && (c.s.enemies[j].marked <==> b.s.enemies[j].marked || (hit && c.s.enemies[j].health <= 0))
            && (c.s.projectiles[k].marked <==> b.s.projectiles[k].marked || hit)
  {
    HitEnemyLaw(b, k, j, drop);
  }

  /** Testing friendly projectile k against enemy j keeps the tally, leaves
      the player's health and the running flag alone, and keeps the
      invariant. */
  lemma FriendlyStepTally(b: Pass, k: nat, j: nat, hypot: Vec -> real, drop: nat -> real)
    requires k < |b.s.projectiles| && j < |b.s.enemies|
    ensures var c := FriendlyStep(b, k, j, hypot, drop);
            && Tallied(b, c, drop)
            && c.s.player.health == b.s.player.health && c.s.active == b.s.active
            && (Inv(b.s) ==> Inv(c.s))
  {
    HitEnemyLaw(b, k, j, drop);
  }

  /** A hostile projectile (game.js:331-337): when it overlaps the player it
      is flagged and the player takes ten damage, exactly as `takeDamage(10)`
      deals it; otherwise nothing changes. Enemies, score, bandages and the
      other projectiles are untouched either way. */
  lemma HostileLaw(a: Pass, k: nat, hypot: Vec -> real)
    requires k < |a.s.projectiles|
    ensures var b := HostileCheck(a, k, hypot);
            var hit := ProjectileHitsPlayer(a.s.projectiles[k], a.s.player, hypot);
            var t := if hit then TakeDamage(a.s, HostileShotDamage) else a.s;
            && b.kills == a.kills
            && b.s == t.(projectiles := b.s.projectiles)
            && b.s.projectiles == a.s.projectiles[k := a.s.projectiles[k].(marked := a.s.projectiles[k].marked || hit)]
  {
  }

  // ---------------------------------------------------------------------
  // One friendly projectile against every enemy

  /** A friendly projectile's scan moves nothing. */
  lemma {:induction false} FriendlyScanFrame(a: Pass, r: Pass, k: nat, j: nat, hypot: Vec -> real, drop: nat -> real)
    requires k < |a.s.projectiles| && j <= |a.s.enemies|
    requires r == FriendlyScan(a, k, j, hypot, drop)
    ensures Framed(a.s, r.s)
    decreases j
  {
    if j > 0 {
      var b := FriendlyScan(a, k, j - 1, hypot, drop);
      FriendlyScanFrame(a, b, k, j - 1, hypot, drop);
      FriendlyStepLaw(b, r, k, j - 1, hypot, drop);
    }
  }

  /** A friendly projectile's scan leaves every other projectile as it was. */
  lemma {:induction false} FriendlyScanOthers(a: Pass, r: Pass, k: nat, j: nat, i: nat, hypot: Vec -> real, drop: nat -> real)
    requires k < |a.s.projectiles| && j <= |a.s.enemies| && i < |a.s.projectiles| && i != k
    requires r == FriendlyScan(a, k, j, hypot, drop)
    ensures r.s.projectiles[i] == a.s.projectiles[i]
    decreases j
  {
    if j > 0 {
      var b := FriendlyScan(a, k, j - 1, hypot, drop);
      FriendlyScanOthers(a, b, k, j - 1, i, hypot, drop);
      FriendlyStepLaw(b, r, k, j - 1, hypot, drop);
    }
  }

  /** A friendly projectile's scan keeps the tally, the player's health, the
      running flag and the invariant. */
  lemma {:induction false} FriendlyScanTally(a: Pass, r: Pass, k: nat, j: nat, hypot: Vec -> real, drop: nat -> real)
    requires k < |a.s.projectiles| && j <= |a.s.enemies|
    requires r == FriendlyScan(a, k, j, hypot, drop)
    ensures Tallied(a, r, drop)
    ensures r.s.player.health == a.s.player.health && r.s.active == a.s.active
    ensures Inv(a.s) ==> Inv(r.s)
    decreases j
  {
    if j > 0 {
      var b := FriendlyScan(a, k, j - 1, hypot, drop);
      FriendlyScanTally(a, b, k, j - 1, hypot, drop);
      FriendlyStepTally(b, k, j - 1, hypot, drop);
    }
  }

  /** Enemies the scan has not reached yet are as they were. */
  lemma {:induction false} FriendlyScanAhead(a: Pass, r: Pass, k: nat, j: nat, m: nat, hypot: Vec -> real, drop: nat -> real)
    requires k < |a.s.projectiles| && j <= m < |a.s.enemies|
    requires r == FriendlyScan(a, k, j, hypot, drop)
    ensures r.s.enemies[m] == a.s.enemies[m]
    decreases j
  {
    if j > 0 {
      var b := FriendlyScan(a, k, j - 1, hypot, drop);
      FriendlyScanAhead(a, b, k, j - 1, m, hypot, drop);
      FriendlyStepLaw(b, r, k, j - 1, hypot, drop);
    }
  }

  /** Enemies the scan has passed keep what their own test made of them. */
  lemma {:induction false} FriendlyScanBehind(a: Pass, r: Pass, k: nat, j: nat, m: nat, hypot: Vec -> real, drop: nat -> real)
    requires k < |a.s.projectiles| && m < j <= |a.s.enemies|
    requires r == FriendlyScan(a, k, j, hypot, drop)
    ensures r.s.enemies[m] == FriendlyScan(a, k, m + 1, hypot, drop).s.enemies[m]
    decreases j
  {
    if j > m + 1 {
      var b := FriendlyScan(a, k, j - 1, hypot, drop);
      FriendlyScanBehind(a, b, k, j - 1, m, hypot, drop);
      FriendlyStepLaw(b, r, k, j - 1, hypot, drop);
    }
  }

  /** Within the scan, enemy m meets the projectile as both were before the
      scan: earlier tests changed neither position. */
  lemma FriendlyScanOwnStep(a: Pass, k: nat, m: nat, hypot: Vec -> real, drop: nat -> real)
    requires k < |a.s.projectiles| && m < |a.s.enemies|
    ensures var b := FriendlyScan(a, k, m, hypot, drop);
            && b.s.enemies[m] == a.s.enemies[m]
            && ProjectileHitsEnemy(b.s.projectiles[k], b.s.enemies[m], hypot) ==
                 ProjectileHitsEnemy(a.s.projectiles[k], a.s.enemies[m], hypot)
  {
    var b := FriendlyScan(a, k, m, hypot, drop);
    FriendlyScanAhead(a, b, k, m, m, hypot, drop);
    FriendlyScanFrame(a, b, k, m, hypot, drop);
    FriendlyHitKept(a.s, b.s, k, m, hypot);
  }

  /** A friendly projectile is tested against EVERY enemy: each one it
      overlaps loses exactly ten health, and is flagged if that leaves it at
      zero or below; every other enemy is untouched. */
  lemma FriendlyScanEnemy(a: Pass, k: nat, m: nat, hypot: Vec -> real, drop: nat -> real)
    requires k < |a.s.projectiles| && m < |a.s.enemies|
    ensures var r := FriendlyScan(a, k, |a.s.enemies|, hypot, drop);
            var hit := ProjectileHitsEnemy(a.s.projectiles[k], a.s.enemies[m], hypot);
            && r.s.enemies[m].health == a.s.enemies[m].health - (if hit then ShotDamage else 0)
            && (r.s.enemies[m].marked <==> a.s.enemies[m].marked || (hit && r.s.enemies[m].health <= 0))
  {
    var r := FriendlyScan(a, k, |a.s.enemies|, hypot, drop);
    var b := FriendlyScan(a, k, m, hypot, drop);
    var c := FriendlyScan(a, k, m + 1, hypot, drop);
    FriendlyScanBehind(a, r, k, |a.s.enemies|, m, hypot, drop);
    FriendlyScanOwnStep(a, k, m, hypot, drop);
    FriendlyStepLaw(b, c, k, m, hypot, drop);
  }

  /** The test against enemy j-1, within the scan, flags the projectile
      exactly when the two overlapped where they stood before the scan. */
  lemma FriendlyScanMarkStep(a: Pass, k: nat, j: nat, hypot: Vec -> real, drop: nat -> real)
    requires k < |a.s.projectiles| && 0 < j <= |a.s.enemies|
    ensures FriendlyScan(a, k, j, hypot, drop).s.projectiles[k].marked <==>
              || FriendlyScan(a, k, j - 1, hypot, drop).s.projectiles[k].marked
              || ProjectileHitsEnemy(a.s.projectiles[k], a.s.enemies[j - 1], hypot)
  {
    var b := FriendlyScan(a, k, j - 1, hypot, drop);
    FriendlyScanOwnStep(a, k, j - 1, hypot, drop);
    FriendlyStepLaw(b, FriendlyStep(b, k, j - 1, hypot, drop), k, j - 1, hypot, drop);
  }

  /** Friendly projectile k against enemies 0 .. j-1 is flagged exactly when it
      overlapped at least one of them (or was flagged before). */
  lemma {:induction false} FriendlyScanMark(a: Pass, k: nat, j: nat, hypot: Vec -> real, drop: nat -> real)
    requires k < |a.s.projectiles| && j <= |a.s.enemies|
    ensures FriendlyScan(a, k, j, hypot, drop).s.projectiles[k].marked <==>
              a.s.projectiles[k].marked || Targets(a.s.projectiles[k], a.s.enemies, j, hypot) > 0
    decreases j
  {
    if j > 0 {
      FriendlyScanMark(a, k, j - 1, hypot, drop);
      FriendlyScanMarkStep(a, k, j, hypot, drop);
    }
  }

  // ---------------------------------------------------------------------
  // One projectile, whichever kind

  /** Testing projectile k moves nothing. */
  lemma StepFrame(b: Pass, k: nat, hypot: Vec -> real, drop: nat -> real)
    requires k < |b.s.projectiles|
    ensures Framed(b.s, ProjectileStepPass(b, k, hypot, drop).s)
  {
    if !b.s.projectiles[k].isEnemy {
      FriendlyScanFrame(b, FriendlyScan(b, k, |b.s.enemies|, hypot, drop), k, |b.s.enemies|, hypot, drop);
    } else {
      HostileLaw(b, k, hypot);
    }
  }

  /** Testing projectile k leaves every other projectile as it was. */
  lemma StepOthers(b: Pass, k: nat, i: nat, hypot: Vec -> real, drop: nat -> real)
    requires k < |b.s.projectiles| && i < |b.s.projectiles| && i != k
    ensures ProjectileStepPass(b, k, hypot, drop).s.projectiles[i] == b.s.projectiles[i]
  {
    if !b.s.projectiles[k].isEnemy {
      FriendlyScanOthers(b, FriendlyScan(b, k, |b.s.enemies|, hypot, drop), k, |b.s.enemies|, i, hypot, drop);
    } else {
      HostileLaw(b, k, hypot);
    }
  }

  /** Testing projectile k keeps the tally and the invariant. */
  lemma StepTally(b: Pass, k: nat, hypot: Vec -> real, drop: nat -> real)
    requires k < |b.s.projectiles|
    ensures Tallied(b, ProjectileStepPass(b, k, hypot, drop), drop)
    ensures Inv(b.s) ==> Inv(ProjectileStepPass(b, k, hypot, drop).s)
  {
    if !b.s.projectiles[k].isEnemy {
      FriendlyScanTally(b, FriendlyScan(b, k, |b.s.enemies|, hypot, drop), k, |b.s.enemies|, hypot, drop);
    } else {
      HostileLaw(b, k, hypot);
    }
  }

  /** Testing projectile k: enemy m loses ten health exactly when the
      projectile is friendly and overlaps it, and is flagged when that leaves
      it at zero or below. */
  lemma StepEnemy(b: Pass, k: nat, m: nat, hypot: Vec -> real, drop: nat -> real)
    requires k < |b.s.projectiles| && m < |b.s.enemies|
    ensures var c := ProjectileStepPass(b, k, hypot, drop);
            var p := b.s.projectiles[k];
            var hit := !p.isEnemy && ProjectileHitsEnemy(p, b.s.enemies[m], hypot);
            && c.s.enemies[m].health == b.s.enemies[m].health - (if hit then ShotDamage else 0)
            && (c.s.enemies[m].marked <==> b.s.enemies[m].marked || (hit && c.s.enemies[m].health <= 0))
  {
    if !b.s.projectiles[k].isEnemy {
      FriendlyScanEnemy(b, k, m, hypot, drop);
    } else {
      HostileLaw(b, k, hypot);
    }
  }

  /** Projectile k is flagged by its test exactly when it hits something. */
  lemma StepMark(b: Pass, k: nat, hypot: Vec -> real, drop: nat -> real)
    requires k < |b.s.projectiles|
    ensures ProjectileStepPass(b, k, hypot, drop).s.projectiles[k].marked <==>
              b.s.projectiles[k].marked || Struck(b.s.projectiles[k], b.s, hypot)
  {
    if !b.s.projectiles[k].isEnemy {
      FriendlyScanMark(b, k, |b.s.enemies|, hypot, drop);
    } else {
      HostileLaw(b, k, hypot);
    }
  }

  /** Testing projectile k costs the player ten health (never going below
      zero) exactly when it is hostile and overlaps the player, and ends the
      game exactly when that leaves no health. */
  lemma StepPlayer(b: Pass, k: nat, hypot: Vec -> real, drop: nat -> real)
    requires k < |b.s.projectiles| && b.s.player.health >= 0 && (b.s.active ==> b.s.player.health > 0)
    ensures var c := ProjectileStepPass(b, k, hypot, drop);
            var p := b.s.projectiles[k];
            var loss := if p.isEnemy && ProjectileHitsPlayer(p, b.s.player, hypot) then HostileShotDamage else 0;
            && c.s.player.health == IntMax(0, b.s.player.health - loss)
            && (c.s.active <==> b.s.active && b.s.player.health - loss > 0)
  {
    if !b.s.projectiles[k].isEnemy {
      FriendlyScanTally(b, FriendlyScan(b, k, |b.s.enemies|, hypot, drop), k, |b.s.enemies|, hypot, drop);
    } else {
      HostileLaw(b, k, hypot);
    }
  }

  // ---------------------------------------------------------------------
  // The projectile loop

  /** The projectile loop moves nothing. */
  lemma {:induction false} ScanFrame(a: Pass, r: Pass, k: nat, hypot: Vec -> real, drop: nat -> real)
    requires k <= |a.s.projectiles|
    requires r == ProjectileScan(a, k, hypot, drop)
    ensures Framed(a.s, r.s)
    decreases k
  {
    if k > 0 {
      var b := ProjectileScan(a, k - 1, hypot, drop);
      ScanFrame(a, b, k - 1, hypot, drop);
      StepFrame(b, k - 1, hypot, drop);
    }
  }

  /** The projectile loop keeps the tally and the invariant. */
  lemma {:induction false} ScanTally(a: Pass, k: nat, hypot: Vec -> real, drop: nat -> real)
    requires k <= |a.s.projectiles|
    ensures Tallied(a, ProjectileScan(a, k, hypot, drop), drop)
    ensures Inv(a.s) ==> Inv(ProjectileScan(a, k, hypot, drop).s)
    decreases k
  {
    if k > 0 {
      ScanTally(a, k - 1, hypot, drop);
      StepTally(ProjectileScan(a, k - 1, hypot, drop), k - 1, hypot, drop);
    }
  }

  /** Projectiles the loop has not reached yet are as they were. */
  lemma {:induction false} ScanAhead(a: Pass, k: nat, i: nat, hypot: Vec -> real, drop: nat -> real)
    requires k <= i < |a.s.projectiles|
    ensures ProjectileScan(a, k, hypot, drop).s.projectiles[i] == a.s.projectiles[i]
    decreases k
  {
    if k > 0 {
      ScanAhead(a, k - 1, i, hypot, drop);
      StepOthers(ProjectileScan(a, k - 1, hypot, drop), k - 1, i, hypot, drop);
    }
  }

  /** Projectiles the loop has passed keep what their own test made of them. */
  lemma {:induction false} ScanBehind(a: Pass, k: nat, i: nat, v: Projectile, hypot: Vec -> real, drop: nat -> real)
    requires i < k <= |a.s.projectiles|
    requires ProjectileScan(a, i + 1, hypot, drop).s.projectiles[i] == v
    ensures ProjectileScan(a, k, hypot, drop).s.projectiles[i] == v
    decreases k
  {
    if k > i + 1 {
      ScanBehind(a, k - 1, i, v, hypot, drop);
      StepOthers(ProjectileScan(a, k - 1, hypot, drop), k - 1, i, hypot, drop);
    }
  }

  /** Projectile i's own test, within the loop: it is flagged exactly when it
      was flagged or hits something where everything stood before the loop. */
  lemma ScanMarkOwn(a: Pass, i: nat, hypot: Vec -> real, drop: nat -> real)
    requires i < |a.s.projectiles|
    ensures ProjectileScan(a, i + 1, hypot, drop).s.projectiles[i].marked <==>
              a.s.projectiles[i].marked || Struck(a.s.projectiles[i], a.s, hypot)
  {
    var b := ProjectileScan(a, i, hypot, drop);
    ScanAhead(a, i, i, hypot, drop);
    ScanFrame(a, b, i, hypot, drop);
    StepMark(b, i, hypot, drop);
    StruckFramed(a.s, b.s, a.s.projectiles[i], hypot);
  }

  /** After the projectile loop, projectile i is flagged exactly when it was
      flagged before or hit something. */
  lemma ScanMark(a: Pass, i: nat, hypot: Vec -> real, drop: nat -> real)
    requires i < |a.s.projectiles|
    ensures ProjectileScan(a, |a.s.projectiles|, hypot, drop).s.projectiles[i].marked <==>
              a.s.projectiles[i].marked || Struck(a.s.projectiles[i], a.s, hypot)
  {
    ScanMarkOwn(a, i, hypot, drop);
    ScanBehind(a, |a.s.projectiles|, i, ProjectileScan(a, i + 1, hypot, drop).s.projectiles[i], hypot, drop);
  }

  /** Projectile k-1 meets enemy m, in the loop, where both stood before it. */
  lemma ScanMeetsEnemy(a: Pass, k: nat, m: nat, hypot: Vec -> real, drop: nat -> real)
    requires 0 < k <= |a.s.projectiles| && m < |a.s.enemies|
    ensures var b := ProjectileScan(a, k - 1, hypot, drop);
            && b.s.projectiles[k - 1] == a.s.projectiles[k - 1]
            && ProjectileHitsEnemy(b.s.projectiles[k - 1], b.s.enemies[m], hypot) ==
                 ProjectileHitsEnemy(a.s.projectiles[k - 1], a.s.enemies[m], hypot)
  {
    var b := ProjectileScan(a, k - 1, hypot, drop);
    ScanAhead(a, k - 1, k - 1, hypot, drop);
    ScanFrame(a, b, k - 1, hypot, drop);
    FriendlyHitKept(a.s, b.s, k - 1, m, hypot);
  }

  /** Projectile k-1's test, within the loop, as it affects enemy m. */
  lemma ScanEnemyStep(a: Pass, k: nat, m: nat, hypot: Vec -> real, drop: nat -> real)
    requires 0 < k <= |a.s.projectiles| && m < |a.s.enemies|
    ensures var b := ProjectileScan(a, k - 1, hypot, drop).s.enemies[m];
            var c := ProjectileScan(a, k, hypot, drop).s.enemies[m];
            var p := a.s.projectiles[k - 1];
            var hit := !p.isEnemy && ProjectileHitsEnemy(p, a.s.enemies[m], hypot);
            && c.health == b.health - (if hit then ShotDamage else 0)
            && (c.marked <==> b.marked || (hit && c.health <= 0))
  {
    ScanMeetsEnemy(a, k, m, hypot, drop);
    StepEnemy(ProjectileScan(a, k - 1, hypot, drop), k - 1, m, hypot, drop);
  }

  /** Over the projectile loop, enemy m loses exactly ten health per friendly
      projectile that overlaps it. */
  lemma {:induction false} ScanHealth(a: Pass, k: nat, m: nat, hypot: Vec -> real, drop: nat -> real)
    requires k <= |a.s.projectiles| && m < |a.s.enemies|
    ensures ProjectileScan(a, k, hypot, drop).s.enemies[m].health ==
              a.s.enemies[m].health - ShotDamage * FriendlyHits(a.s.projectiles, k, a.s.enemies[m], hypot)
    decreases k
  {
    if k > 0 {
      ScanHealth(a, k - 1, m, hypot, drop);
      ScanEnemyStep(a, k, m, hypot, drop);
    }
  }

  /** ... and ends up flagged exactly when it was flagged before or was hit at
      least once and is left at zero health or below. */
  lemma {:induction false} ScanDown(a: Pass, k: nat, m: nat, hypot: Vec -> real, drop: nat -> real)
    requires k <= |a.s.projectiles| && m < |a.s.enemies|
    ensures var r := ProjectileScan(a, k, hypot, drop);
            r.s.enemies[m].marked <==>
              || a.s.enemies[m].marked
              || (FriendlyHits(a.s.projectiles, k, a.s.enemies[m], hypot) > 0 && r.s.enemies[m].health <= 0)
    decreases k
  {
    if k > 0 {
      ScanDown(a, k - 1, m, hypot, drop);
      ScanHealth(a, k - 1, m, hypot, drop);
      ScanEnemyStep(a, k, m, hypot, drop);
    }
  }

  /** Projectile k-1 meets the player, in the loop, where both stood before it. */
  lemma ScanMeetsPlayer(a: Pass, k: nat, hypot: Vec -> real, drop: nat -> real)
    requires 0 < k <= |a.s.projectiles|
    ensures var b := ProjectileScan(a, k - 1, hypot, drop);
            && b.s.projectiles[k - 1] == a.s.projectiles[k - 1]
            && b.s.player.x == a.s.player.x && b.s.player.y == a.s.player.y
  {
    var b := ProjectileScan(a, k - 1, hypot, drop);
    ScanAhead(a, k - 1, k - 1, hypot, drop);
    ScanFrame(a, b, k - 1, hypot, drop);
    PlayerKept(a.s, b.s);
  }

  /** The projectile loop never leaves the player below zero health, nor
      running with none. */
  lemma {:induction false} ScanAlive(a: Pass, k: nat, hypot: Vec -> real, drop: nat -> real)
    requires k <= |a.s.projectiles|
    requires a.s.player.health >= 0 && (a.s.active ==> a.s.player.health > 0)
    ensures var r := ProjectileScan(a, k, hypot, drop).s;
            r.player.health >= 0 && (r.active ==> r.player.health > 0)
    decreases k
  {
    if k > 0 {
      ScanAlive(a, k - 1, hypot, drop);
      StepPlayer(ProjectileScan(a, k - 1, hypot, drop), k - 1, hypot, drop);
    }
  }

  /** Projectile k-1's test, within the loop, as it affects the player. */
  lemma ScanPlayerStep(a: Pass, k: nat, hypot: Vec -> real, drop: nat -> real)
    requires 0 < k <= |a.s.projectiles|
    requires a.s.player.health >= 0 && (a.s.active ==> a.s.player.health > 0)
    ensures var b := ProjectileScan(a, k - 1, hypot, drop).s;
            var c := ProjectileScan(a, k, hypot, drop).s;
            var p := a.s.projectiles[k - 1];
            var loss := if p.isEnemy && ProjectileHitsPlayer(p, a.s.player, hypot) then HostileShotDamage else 0;
            && c.player.health == IntMax(0, b.player.health - loss)
            && (c.active <==> b.active && b.player.health - loss > 0)
  {
    ScanAlive(a, k - 1, hypot, drop);
    ScanMeetsPlayer(a, k, hypot, drop);
    StepPlayer(ProjectileScan(a, k - 1, hypot, drop), k - 1, hypot, drop);
  }

  /** Over the projectile loop the player loses ten health per hostile
      projectile that overlaps it, never going below zero, and the game
      stops exactly when that leaves no health. */
  lemma {:induction false} ScanPlayer(a: Pass, r: State, k: nat, hypot: Vec -> real, drop: nat -> real)
    requires k <= |a.s.projectiles|
    requires a.s.player.health >= 0 && (a.s.active ==> a.s.player.health > 0)
    requires r == ProjectileScan(a, k, hypot, drop).s
    ensures var loss := HostileShotDamage * HostileHits(a.s.projectiles, k, a.s.player, hypot);
            && r.player.health == IntMax(0, a.s.player.health - loss)
            && (r.active <==> a.s.active && a.s.player.health - loss > 0)
    decreases k
  {
    if k > 0 {
      ScanPlayer(a, ProjectileScan(a, k - 1, hypot, drop).s, k - 1, hypot, drop);
      ScanPlayerStep(a, k, hypot, drop);
    }
  }

  // ---------------------------------------------------------------------
  // The contact loop

  /** The contact loop changes only the player's health, the running flag and
      the particles. */
  lemma {:induction false} ContactFrame(s: State, j: nat, hypot: Vec -> real)
    requires j <= |s.enemies|
    ensures var r := ContactScan(s, j, hypot);
            && r == s.(player := r.player, active := r.active, particles := r.particles)
            && r.player == s.player.(health := r.player.health)
    decreases j
  {
    if j > 0 {
      ContactFrame(s, j - 1, hypot);
    }
  }

  /** Enemy j-1's contact test, within the contact loop. */
  lemma ContactStep(s: State, j: nat, hypot: Vec -> real)
    requires 0 < j <= |s.enemies|
    requires var t := ContactScan(s, j - 1, hypot);
             t.player.health >= 0 && (t.active ==> t.player.health > 0)
    ensures var t := ContactScan(s, j - 1, hypot);
            var r := ContactScan(s, j, hypot);
            var loss := if EnemyTouchesPlayer(s.enemies[j - 1], s.player, hypot) then ContactDamage else 0;
            && r.player.health == IntMax(0, t.player.health - loss)
            && (r.active <==> t.active && t.player.health - loss > 0)
  {
    ContactFrame(s, j - 1, hypot);
  }

  /** Over the contact loop, the player loses exactly one health per enemy
      touching it, never going below zero, and the game stops exactly when
      that leaves no health. */
  lemma {:induction false} ContactPlayer(s: State, r: State, j: nat, hypot: Vec -> real)
    requires j <= |s.enemies|
    requires s.player.health >= 0 && (s.active ==> s.player.health > 0)
    requires r == ContactScan(s, j, hypot)
    ensures var loss := ContactDamage * Touching(s.enemies, j, s.player, hypot);
            && r.player.health == IntMax(0, s.player.health - loss)
            && (r.active <==> s.active && s.player.health - loss > 0)
    decreases j
  {
    if j > 0 {
      ContactPlayer(s, ContactScan(s, j - 1, hypot), j - 1, hypot);
      ContactStep(s, j, hypot);
    }
  }

  /** The contact loop keeps the invariant. */
  lemma {:induction false} ContactInv(s: State, j: nat, hypot: Vec -> real)
    requires j <= |s.enemies|
    ensures Inv(s) ==> Inv(ContactScan(s, j, hypot))
    decreases j
  {
    if j > 0 {
      ContactInv(s, j - 1, hypot);
    }
  }

  // ---------------------------------------------------------------------
  // The whole pass

  /** A collision pass moves nothing and changes no list's length. */
  lemma CollideFrame(s: State, hypot: Vec -> real, drop: nat -> real)
    ensures Framed(s, Collide(s, hypot, drop))
  {
    var b := ProjectileScan(Pass(s, 0), |s.projectiles|, hypot, drop);
    ScanFrame(Pass(s, 0), b, |s.projectiles|, hypot, drop);
    ContactFrame(b.s, |s.enemies|, hypot);
  }

  /** Every kill of the pass scores exactly 100, and every drop draw below 0.2
      grants exactly one bandage; nothing else changes score or bandages. */
  lemma CollideTally(s: State, hypot: Vec -> real, drop: nat -> real)
    ensures var b := CollidePass(s, hypot, drop);
            && b.s.score == s.score + KillScore * b.kills
            && b.s.player.bandages == s.player.bandages + DropCount(drop, b.kills)
  {
    var b := ProjectileScan(Pass(s, 0), |s.projectiles|, hypot, drop);
    ScanTally(Pass(s, 0), |s.projectiles|, hypot, drop);
    ContactFrame(b.s, |s.enemies|, hypot);
  }

  /** A collision pass keeps the invariant: health within [0, 100], bandages
      and score not negative, a score of whole kills, a running game only
      with a living player. */
  lemma CollideInv(s: State, hypot: Vec -> real, drop: nat -> real)
    ensures Inv(s) ==> Inv(Collide(s, hypot, drop))
  {
    var b := ProjectileScan(Pass(s, 0), |s.projectiles|, hypot, drop);
    ScanTally(Pass(s, 0), |s.projectiles|, hypot, drop);
    ContactInv(b.s, |s.enemies|, hypot);
  }

  /** After a pass, projectile i is flagged exactly when it was flagged
      before or hit something: the player if it is hostile, at least one
      enemy if it is friendly. */
  lemma CollideMark(s: State, i: nat, hypot: Vec -> real, drop: nat -> real)
    requires i < |s.projectiles|
    ensures Collide(s, hypot, drop).projectiles[i].marked <==> s.projectiles[i].marked || Struck(s.projectiles[i], s, hypot)
  {
    var b := ProjectileScan(Pass(s, 0), |s.projectiles|, hypot, drop);
    ScanMark(Pass(s, 0), i, hypot, drop);
    ContactFrame(b.s, |s.enemies|, hypot);
  }

  /** After a pass, enemy m has lost exactly ten health per friendly
      projectile overlapping it, and is flagged exactly when it was flagged
      before or was hit at least once and is left at zero health or below. */
  lemma CollideEnemy(s: State, m: nat, hypot: Vec -> real, drop: nat -> real)
    requires m < |s.enemies|
    ensures var e := Collide(s, hypot, drop).enemies[m];
            var hits := FriendlyHits(s.projectiles, |s.projectiles|, s.enemies[m], hypot);
            && e.health == s.enemies[m].health - ShotDamage * hits
            && (e.marked <==> s.enemies[m].marked || (hits > 0 && e.health <= 0))
  {
    var b := ProjectileScan(Pass(s, 0), |s.projectiles|, hypot, drop);
    ScanHealth(Pass(s, 0), |s.projectiles|, m, hypot, drop);
    ScanDown(Pass(s, 0), |s.projectiles|, m, hypot, drop);
    ContactFrame(b.s, |s.enemies|, hypot);
  }

  /** After a pass, the player has lost ten health per hostile projectile and
      one per enemy touching it, never going below zero, and the game has
      stopped exactly when that leaves no health. */
  lemma CollidePlayer(s: State, r: State, hypot: Vec -> real, drop: nat -> real)
    requires s.player.health >= 0 && (s.active ==> s.player.health > 0)
    requires r == Collide(s, hypot, drop)
    ensures var loss := HostileShotDamage * HostileHits(s.projectiles, |s.projectiles|, s.player, hypot)
                        + ContactDamage * Touching(s.enemies, |s.enemies|, s.player, hypot);
            && r.player.health == IntMax(0, s.player.health - loss)
            && (r.active <==> s.active && s.player.health - loss > 0)
  {
    var b := ProjectileScan(Pass(s, 0), |s.projectiles|, hypot, drop);
    ScanPlayer(Pass(s, 0), b.s, |s.projectiles|, hypot, drop);
    ScanFrame(Pass(s, 0), b, |s.projectiles|, hypot, drop);
    PlayerKept(s, b.s);
    TouchingFramed(s.enemies, b.s.enemies, |s.enemies|, s.player, b.s.player, hypot);
    ContactPlayer(b.s, r, |s.enemies|, hypot);
    Wear(s.player.health, b.s.player.health, r.player.health,
         HostileShotDamage * HostileHits(s.projectiles, |s.projectiles|, s.player, hypot),
         ContactDamage * Touching(s.enemies, |s.enemies|, s.player, hypot),
         s.active, b.s.active, r.active);
  }

  /** Two blows in a row wear health down as one blow of their sum. */
  lemma Wear(h0: int, h1: int, h2: int, loss: int, d: int, a0: bool, a1: bool, a2: bool)
    requires h0 >= 0 && loss >= 0 && d >= 0
    requires h1 == IntMax(0, h0 - loss) && (a1 <==> a0 && h0 - loss > 0)
    requires h2 == IntMax(0, h1 - d) && (a2 <==> a1 && h1 - d > 0)
    ensures h2 == IntMax(0, h0 - (loss + d)) && (a2 <==> a0 && h0 - (loss + d) > 0)
  {
  }

  // ---------------------------------------------------------------------
  // Two consequences

  /** A fresh enemy (30 health, not flagged) is flagged by a pass exactly
      when at least three friendly projectiles overlap it. */
  lemma ThirdShotDowns(s: State, m: nat, hypot: Vec -> real, drop: nat -> real)
    requires m < |s.enemies| && s.enemies[m].health == EnemyHealth && !s.enemies[m].marked
    ensures Collide(s, hypot, drop).enemies[m].marked <==>
              FriendlyHits(s.projectiles, |s.projectiles|, s.enemies[m], hypot) >= 3
  {
    CollideEnemy(s, m, hypot, drop);
  }

  /** A kill is scored per hit, not per enemy: an enemy at ten health that
      two friendly projectiles overlap in the same pass is hit by both (the
      flag set by the first hit does not stop the second), so the pass
      scores 200 and spends two drop draws on it, and leaves it at -10. */
  lemma Overkill(s: State, hypot: Vec -> real, drop: nat -> real)
    requires |s.projectiles| == 2 && |s.enemies| == 1 && s.enemies[0].health == ShotDamage
    requires !s.projectiles[0].isEnemy && ProjectileHitsEnemy(s.projectiles[0], s.enemies[0], hypot)
    requires !s.projectiles[1].isEnemy && ProjectileHitsEnemy(s.projectiles[1], s.enemies[0], hypot)
    ensures var b := CollidePass(s, hypot, drop);
            && b.kills == 2
            && b.s.score == s.score + 2 * KillScore
            && b.s.player.bandages == s.player.bandages + DropCount(drop, 2)
            && b.s.enemies[0].health == -ShotDamage && b.s.enemies[0].marked
  {
    var a0 := Pass(s, 0);
    HitEnemyLaw(a0, 0, 0, drop);
    var a1 := HitEnemy(a0, 0, 0, drop);
    assert ProjectileScan(a0, 1, hypot, drop) == a1;
    HitEnemyLaw(a1, 1, 0, drop);
    var a2 := HitEnemy(a1, 1, 0, drop);
    assert ProjectileScan(a0, 2, hypot, drop) == a2;
    CollideTally(s, hypot, drop);
    ContactFrame(a2.s, 1, hypot);
  }

  // ---------------------------------------------------------------------
  // Where the kills come from

  /** The hits among the first k projectiles of ps that left e, counting
      down from its own health, at zero health or below: the kills that e
      accounts for in a pass. */
  function Downs(ps: seq<Projectile>, k: nat, e: Enemy, hypot: Vec -> real): nat
    requires k <= |ps|
  {
    if k == 0 then 0
    else
      Downs(ps, k - 1, e, hypot)
        + (if !ps[k - 1].isEnemy && ProjectileHitsEnemy(ps[k - 1], e, hypot)
              && e.health - ShotDamage * FriendlyHits(ps, k, e, hypot) <= 0 then 1 else 0)
  }

  /** The kills that enemies 0 .. n-1 of es account for over the first k projectiles. */
  function KillCount(ps: seq<Projectile>, es: seq<Enemy>, k: nat, n: nat, hypot: Vec -> real): nat
    requires k <= |ps| && n <= |es|
  {
    if n == 0 then 0 else KillCount(ps, es, k, n - 1, hypot) + Downs(ps, k, es[n - 1], hypot)
  }

  /** Enemies among the first n of es that one more hit by p leaves at zero or below. */
  function Felled(p: Projectile, es: seq<Enemy>, n: nat, hypot: Vec -> real): nat
    requires n <= |es|
  {
    if n == 0 then 0
    else Felled(p, es, n - 1, hypot) + (if ProjectileHitsEnemy(p, es[n - 1], hypot) && es[n - 1].health - ShotDamage <= 0 then 1 else 0)
  }

  /** A friendly projectile's scan over enemies 0 .. j-1 uses one drop draw
      per enemy that its hit leaves at zero or below. */
  lemma {:induction false} FriendlyScanKills(a: Pass, k: nat, j: nat, hypot: Vec -> real, drop: nat -> real)
    requires k < |a.s.projectiles| && j <= |a.s.enemies|
    ensures FriendlyScan(a, k, j, hypot, drop).kills == a.kills + Felled(a.s.projectiles[k], a.s.enemies, j, hypot)
    decreases j
  {
    if j > 0 {
      FriendlyScanKills(a, k, j - 1, hypot, drop);
      FriendlyScanOwnStep(a, k, j - 1, hypot, drop);
      HitEnemyLaw(FriendlyScan(a, k, j - 1, hypot, drop), k, j - 1, drop);
    }
  }

  /** Testing projectile k uses one drop draw per enemy it fells if it is
      friendly, and none if it is hostile. */
  lemma StepKills(b: Pass, k: nat, hypot: Vec -> real, drop: nat -> real)
    requires k < |b.s.projectiles|
    ensures ProjectileStepPass(b, k, hypot, drop).kills ==
              b.kills + (if b.s.projectiles[k].isEnemy then 0 else Felled(b.s.projectiles[k], b.s.enemies, |b.s.enemies|, hypot))
  {
    if !b.s.projectiles[k].isEnemy {
      FriendlyScanKills(b, k, |b.s.enemies|, hypot, drop);
    } else {
      HostileLaw(b, k, hypot);
    }
  }

  /** When projectile k-1 adds to each enemy's own count exactly what it
      fells of the enemies bs it meets, it adds their sum to the kills of
      enemies 0 .. n-1. */
  lemma {:induction false} ScanFelled(ps: seq<Projectile>, es: seq<Enemy>, p: Projectile, bs: seq<Enemy>, k: nat, n: nat, hypot: Vec -> real)
    requires 0 < k <= |ps| && n <= |es| && n <= |bs|
    requires forall m :: 0 <= m < n ==>
               Downs(ps, k, es[m], hypot) == Downs(ps, k - 1, es[m], hypot)
                 + (if !p.isEnemy && ProjectileHitsEnemy(p, bs[m], hypot) && bs[m].health - ShotDamage <= 0 then 1 else 0)
    ensures KillCount(ps, es, k, n, hypot) ==
              KillCount(ps, es, k - 1, n, hypot) + (if p.isEnemy then 0 else Felled(p, bs, n, hypot))
    decreases n
  {
    if n > 0 {
      ScanFelled(ps, es, p, bs, k, n - 1, hypot);
    }
  }

  /** One enemy's share of ScanFelled: in the loop, projectile k-1 adds to
      enemy m's kills exactly when it is friendly and fells m as m stands
      then. */
  lemma ScanFelledOne(a: Pass, b: State, k: nat, m: nat, hypot: Vec -> real, drop: nat -> real)
    requires 0 < k <= |a.s.projectiles| && m < |a.s.enemies|
    requires b == ProjectileScan(a, k - 1, hypot, drop).s
    ensures var p := b.projectiles[k - 1];
            Downs(a.s.projectiles, k, a.s.enemies[m], hypot) ==
              Downs(a.s.projectiles, k - 1, a.s.enemies[m], hypot)
                + (if !p.isEnemy && ProjectileHitsEnemy(p, b.enemies[m], hypot)
                      && b.enemies[m].health - ShotDamage <= 0 then 1 else 0)
  {
    ScanMeetsEnemy(a, k, m, hypot, drop);
    ScanHealth(a, k - 1, m, hypot, drop);
  }

  /** Projectile k-1, in the loop, adds to the kills what it adds to the
      enemies' own counts. */
  lemma ScanKillsStep(a: Pass, b: Pass, k: nat, hypot: Vec -> real, drop: nat -> real)
    requires 0 < k <= |a.s.projectiles|
    requires b == ProjectileScan(a, k - 1, hypot, drop)
    ensures ProjectileScan(a, k, hypot, drop).kills ==
              b.kills + KillCount(a.s.projectiles, a.s.enemies, k, |a.s.enemies|, hypot)
                - KillCount(a.s.projectiles, a.s.enemies, k - 1, |a.s.enemies|, hypot)
  {
    StepKills(b, k - 1, hypot, drop);
    ScanFelledAll(a, b.s, k, hypot, drop);
  }

  /** ScanFelled over every enemy, in the loop. */
  lemma ScanFelledAll(a: Pass, b: State, k: nat, hypot: Vec -> real, drop: nat -> real)
    requires 0 < k <= |a.s.projectiles|
    requires b == ProjectileScan(a, k - 1, hypot, drop).s
    ensures |b.enemies| == |a.s.enemies|
    ensures KillCount(a.s.projectiles, a.s.enemies, k, |a.s.enemies|, hypot) ==
              KillCount(a.s.projectiles, a.s.enemies, k - 1, |a.s.enemies|, hypot)
                + (if b.projectiles[k - 1].isEnemy then 0 else Felled(b.projectiles[k - 1], b.enemies, |b.enemies|, hypot))
  {
    forall m | 0 <= m < |a.s.enemies|
      ensures Downs(a.s.projectiles, k, a.s.enemies[m], hypot) == Downs(a.s.projectiles, k - 1, a.s.enemies[m], hypot)
                + (if !b.projectiles[k - 1].isEnemy && ProjectileHitsEnemy(b.projectiles[k - 1], b.enemies[m], hypot)
                      && b.enemies[m].health - ShotDamage <= 0 then 1 else 0)
    {
      ScanFelledOne(a, b, k, m, hypot, drop);
    }
    ScanFelled(a.s.projectiles, a.s.enemies, b.projectiles[k - 1], b.enemies, k, |a.s.enemies|, hypot);
  }

  /** Over the projectile loop, the drop draws used are the kills each enemy
      accounts for, summed over the enemies. */
  lemma {:induction false} ScanKills(a: Pass, k: nat, hypot: Vec -> real, drop: nat -> real)
    requires k <= |a.s.projectiles|
    ensures ProjectileScan(a, k, hypot, drop).kills ==
              a.kills + KillCount(a.s.projectiles, a.s.enemies, k, |a.s.enemies|, hypot)
    decreases k
  {
    if k > 0 {
      ScanKills(a, k - 1, hypot, drop);
      ScanKillsStep(a, ProjectileScan(a, k - 1, hypot, drop), k, hypot, drop);
    } else {
      NoKillsYet(a.s.projectiles, a.s.enemies, |a.s.enemies|, hypot);
    }
  }

  /** Before any projectile, no enemy accounts for a kill. */
  lemma {:induction false} NoKillsYet(ps: seq<Projectile>, es: seq<Enemy>, n: nat, hypot: Vec -> real)
    requires n <= |es|
    ensures KillCount(ps, es, 0, n, hypot) == 0
  {
    if n > 0 {
      NoKillsYet(ps, es, n - 1, hypot);
    }
  }

  /** The kills of a pass, and with them its score and its drop draws, are
      the hits that leave an enemy at zero health or below, counted per
      enemy from its health before the pass and summed over the enemies. */
  lemma CollideKills(s: State, hypot: Vec -> real, drop: nat -> real)
    ensures var b := CollidePass(s, hypot, drop);
            var kills := KillCount(s.projectiles, s.enemies, |s.projectiles|, |s.enemies|, hypot);
            && b.kills == kills
            && b.s.score == s.score + KillScore * kills
  {
    ScanKills(Pass(s, 0), |s.projectiles|, hypot, drop);
    CollideTally(s, hypot, drop);
  }

  /** An enemy with health left accounts for a kill exactly when the hits
      bring it to zero or below, and for at most one unless a hit lands after
      that (leaving it at -10 or lower). */
  lemma {:induction false} DownsOnce(ps: seq<Projectile>, k: nat, e: Enemy, hypot: Vec -> real)
    requires k <= |ps| && e.health > 0
    ensures var left := e.health - ShotDamage * FriendlyHits(ps, k, e, hypot);
            && (Downs(ps, k, e, hypot) > 0 <==> left <= 0)
            && (left > -ShotDamage ==> Downs(ps, k, e, hypot) <= 1)
    decreases k
  {
    if k > 0 {
      DownsOnce(ps, k - 1, e, hypot);
    }
  }

  /** So a pass flags a standing enemy with health left exactly when that
      enemy accounts for a kill, and, without overkill, for exactly one: the
      kills then equal the enemies the pass newly flags. */
  lemma KillFlags(s: State, m: nat, hypot: Vec -> real, drop: nat -> real)
    requires m < |s.enemies| && s.enemies[m].health > 0 && !s.enemies[m].marked
    ensures var e := Collide(s, hypot, drop).enemies[m];
            var d := Downs(s.projectiles, |s.projectiles|, s.enemies[m], hypot);
            && (e.marked <==> d > 0)
            && (e.health > -ShotDamage ==> d <= 1)
  {
    CollideEnemy(s, m, hypot, drop);
    DownsOnce(s.projectiles, |s.projectiles|, s.enemies[m], hypot);
  }

  /** With an exact `hypot`, each of the three collision kinds is the one
      circle test with its own two radii. */
  lemma ExactHits(p: Projectile, e: Enemy, pl: Player, hypot: Vec -> real)
    requires forall v :: hypot(v) >= 0.0 && hypot(v) * hypot(v) == NormSq(v)
    ensures ProjectileHitsEnemy(p, e, hypot) <==> Overlap(p.x - e.x, p.y - e.y, EnemyRadius, ProjectileRadius)
    ensures ProjectileHitsPlayer(p, pl, hypot) <==> Overlap(p.x - pl.x, p.y - pl.y, PlayerRadius, ProjectileRadius)
    ensures EnemyTouchesPlayer(e, pl, hypot) <==> Overlap(e.x - pl.x, e.y - pl.y, PlayerRadius, EnemyRadius)
  {
    var u := Vec(p.x - e.x, p.y - e.y);
    var v := Vec(p.x - pl.x, p.y - pl.y);
    var w := Vec(e.x - pl.x, e.y - pl.y);
    HitRule(hypot(u), u.x, u.y, EnemyRadius, ProjectileRadius);
    HitRule(hypot(v), v.x, v.y, PlayerRadius, ProjectileRadius);
    HitRule(hypot(w), w.x, w.y, PlayerRadius, EnemyRadius);
  }
}
