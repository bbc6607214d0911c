/** The four kinds of entity of the arena (player, projectile, enemy, particle)
    as values, with the constants of game.js and each entity's own update rule.
    Trigonometry (`Math.atan2` followed by `Math.cos`/`Math.sin`) is the
    `direction` oracle: it maps a displacement to the heading the browser
    would compute for it; `Math.random()` results come in as `draw` values. */
module Entities {
  import opened Geometry

  // Player (game.js:69-79)
  const PlayerRadius: real := 20.0
  const PlayerSpeed: real := 5.0
  const MaxHealth: int := 100
  const StartBandages: int := 2
  const BandageHeal: int := 25
  /** `Math.hypot(1, 1)` as the double the browser returns for it. */
  const DiagonalLength: real := 1.4142135623730951

  // Projectile (game.js:179-194)
  const ProjectileRadius: real := 5.0
  const ProjectileSpeed: real := 10.0

  // Enemy (game.js:215-234)
  const EnemyRadius: real := 20.0
  const EnemyHealth: int := 30
  const SpawnMargin: real := 30.0

  // Particle (game.js:40-67); opacity is kept in hundredths
  const FullAlpha: int := 100
  const FadeStep: int := 2

  /** The player; `lastShotTime` is the timestamp of the last friendly shot. */
  datatype Player = Player(x: real, y: real, health: int, bandages: int, lastShotTime: int)

  /** `new Player()` followed by `player.lastShotTime = 0` (game.js:269-270). */
  function NewPlayer(width: real, height: real): (p: Player)
    ensures p.health == MaxHealth && p.bandages == StartBandages && p.lastShotTime == 0
    ensures p.x + p.x == width && p.y + p.y == height
    ensures width >= 2.0 * PlayerRadius && height >= 2.0 * PlayerRadius ==>
              PlayerRadius <= p.x <= width - PlayerRadius && PlayerRadius <= p.y <= height - PlayerRadius
  {
    Player(width / 2.0, height / 2.0, MaxHealth, StartBandages, 0)
  }

  datatype Projectile = Projectile(x: real, y: real, velocity: Vec, isEnemy: bool, marked: bool)

  predicate Unit(v: Vec) {
    NormSq(v) == 1.0
  }

  /** `new Projectile(x, y, targetX, targetY, isEnemy)`: the velocity is fixed at
      launch, ProjectileSpeed along the heading towards the target. */
  function Launch(x: real, y: real, targetX: real, targetY: real, isEnemy: bool, direction: Vec -> Vec): (p: Projectile)
    ensures p.x == x && p.y == y && p.isEnemy == isEnemy && !p.marked
    ensures p.velocity == Scale(direction(Vec(targetX - x, targetY - y)), ProjectileSpeed)
    ensures Unit(direction(Vec(targetX - x, targetY - y))) ==>
              NormSq(p.velocity) == ProjectileSpeed * ProjectileSpeed
  {
    var u := direction(Vec(targetX - x, targetY - y));
    assert NormSq(Scale(u, ProjectileSpeed)) == NormSq(u) * ProjectileSpeed * ProjectileSpeed;
    Projectile(x, y, Scale(u, ProjectileSpeed), isEnemy, false)
  }

  /** Outside the canvas [0, width] x [0, height]. */
  predicate OffScreen(x: real, y: real, width: real, height: real) {
    x < 0.0 || x > width || y < 0.0 || y > height
  }

  /** `Projectile.update`: move by the velocity, and flag for deletion once the
      new position has left the canvas; a flag once set is never cleared. */
  function ProjectileStep(p: Projectile, width: real, height: real): (q: Projectile)
    ensures q == p.(x := q.x, y := q.y, marked := q.marked)
    ensures q.x == p.x + p.velocity.x && q.y == p.y + p.velocity.y
    ensures q.marked <==> p.marked || OffScreen(q.x, q.y, width, height)
  {
    var x := p.x + p.velocity.x;
    var y := p.y + p.velocity.y;
    p.(x := x, y := y, marked := p.marked || OffScreen(x, y, width, height))
  }

  datatype Enemy = Enemy(x: real, y: real, speed: real, health: int, lastShot: int,
                         shootInterval: real, marked: bool)

  /** The five `Math.random()` results of the Enemy constructor, in call order,
      each in [0, 1) as the browser promises. */
  predicate Draws(draw: nat -> real) {
    forall i: nat :: i < 5 ==> 0.0 <= draw(i) < 1.0
  }

  /** On one of the four edges, SpawnMargin outside the canvas, at a position
      within the canvas's extent along that edge. */
  predicate OnEdge(x: real, y: real, width: real, height: real) {
    || ((x == -SpawnMargin || x == width + SpawnMargin) && 0.0 <= y <= height)
    || ((y == -SpawnMargin || y == height + SpawnMargin) && 0.0 <= x <= width)
  }

  /** `new Enemy()` at time `now`: first a side pair (left/right or top/bottom),
      then for left/right the side and the height, for top/bottom the width and
      the side; then the speed and the fire interval. */
  function NewEnemy(draw: nat -> real, width: real, height: real, now: int): (e: Enemy)
    ensures e.health == EnemyHealth && !e.marked && e.lastShot == now
    ensures Draws(draw) && width >= 0.0 && height >= 0.0 ==>
              && OnEdge(e.x, e.y, width, height)
              && OffScreen(e.x, e.y, width, height)
              && 1.0 <= e.speed < 2.0
              && 2000.0 <= e.shootInterval < 4000.0
  {
    var sideways := draw(0) < 0.5;
    var x := if sideways then (if draw(1) < 0.5 then -SpawnMargin else width + SpawnMargin)
             else draw(1) * width;
    var y := if sideways then draw(2) * height
             else (if draw(2) < 0.5 then -SpawnMargin else height + SpawnMargin);
    assert Draws(draw) ==> 0.0 <= draw(1) < 1.0 && 0.0 <= draw(2) < 1.0;
    SpreadBound(draw(1), width);
    SpreadBound(draw(2), height);
    Enemy(x, y, 1.0 + draw(3), EnemyHealth, now, 2000.0 + draw(4) * 2000.0, false)
  }

  /** A draw in [0, 1) scaled by a non-negative extent stays within the extent. */
  lemma SpreadBound(d: real, extent: real)
    ensures 0.0 <= d < 1.0 && extent >= 0.0 ==> 0.0 <= d * extent <= extent
  {
    if 0.0 <= d < 1.0 && extent >= 0.0 {
      assert d * extent <= 1.0 * extent;
    }
  }

  /** Whether the enemy's own fire timer has run out at `now` (a strict test). */
  predicate ShotDue(e: Enemy, now: int) {
    (now - e.lastShot) as real > e.shootInterval
  }

  /** `Enemy.update`: step `speed` towards the player's current position, then
      fire a hostile projectile at the player when the timer has run out and
      restart the timer. Health and the deletion flag play no part: an enemy
      already flagged still moves and may still fire. */
  function EnemyStep(e: Enemy, target: Player, now: int, direction: Vec -> Vec): (r: (Enemy, seq<Projectile>))
    ensures r.0 == e.(x := r.0.x, y := r.0.y, lastShot := r.0.lastShot)
    ensures var u := direction(Vec(target.x - e.x, target.y - e.y));
            r.0.x == e.x + u.x * e.speed && r.0.y == e.y + u.y * e.speed
    ensures Unit(direction(Vec(target.x - e.x, target.y - e.y))) ==>
              NormSq(Vec(r.0.x - e.x, r.0.y - e.y)) == e.speed * e.speed
    ensures |r.1| == (if ShotDue(e, now) then 1 else 0)
    ensures ShotDue(e, now) ==> r.0.lastShot == now && r.1[0].isEnemy && !r.1[0].marked
                                && r.1[0].x == r.0.x && r.1[0].y == r.0.y
    ensures ShotDue(e, now) ==> r.1[0] == Launch(r.0.x, r.0.y, target.x, target.y, true, direction)
    ensures !ShotDue(e, now) ==> r.0.lastShot == e.lastShot
  {
    var u := direction(Vec(target.x - e.x, target.y - e.y));
    var moved := e.(x := e.x + u.x * e.speed, y := e.y + u.y * e.speed);
    assert NormSq(Vec(moved.x - e.x, moved.y - e.y)) == NormSq(u) * e.speed * e.speed;
    if ShotDue(moved, now) then
      (moved.(lastShot := now), [Launch(moved.x, moved.y, target.x, target.y, true, direction)])
    else
      (moved, [])
  }

  /** An enemy's shots are more than its own interval apart: right after a
      shot at t0, a step at t1 fires again exactly when t1 - t0 exceeds the
      interval, wherever the player has gone meanwhile. */
  lemma EnemyShotSpacing(e: Enemy, p0: Player, p1: Player, t0: int, t1: int, direction: Vec -> Vec)
    requires ShotDue(e, t0)
    ensures var f := EnemyStep(e, p0, t0, direction).0;
            |EnemyStep(f, p1, t1, direction).1| == if (t1 - t0) as real > e.shootInterval then 1 else 0
  {
  }

  /** The three colours of particle: heal, damage, and hit/explosion. */
  datatype Color = HealGreen | DamageRed | ImpactRed

  /** A decorative particle; `alpha` is its opacity in hundredths. */
  datatype Particle = Particle(x: real, y: real, color: Color, alpha: int)

  /** `n` fresh, fully opaque particles at (x, y). */
  function Burst(n: nat, x: real, y: real, color: Color): (ps: seq<Particle>)
    ensures |ps| == n
    ensures forall i :: 0 <= i < n ==> ps[i] == Particle(x, y, color, FullAlpha)
  {
    seq(n, _ => Particle(x, y, color, FullAlpha))
  }

  /** The cull test `p.alpha <= 0`. */
  predicate Faded(p: Particle) {
    p.alpha <= 0
  }

  /** `Particle.update`: the opacity drops by 0.02. */
  function Dim(p: Particle): (d: Particle)
    ensures d == p.(alpha := d.alpha)
    ensures d.alpha == p.alpha - FadeStep < p.alpha
    ensures Faded(p) ==> Faded(d)
  {
    p.(alpha := p.alpha - FadeStep)
  }

  /** A fresh particle stays visible for exactly FullAlpha / FadeStep updates. */
  lemma {:induction false} Lifespan(p: Particle, k: nat)
    requires p.alpha == FullAlpha
    ensures DimTimes(p, k).alpha == FullAlpha - FadeStep * k
    ensures Faded(DimTimes(p, k)) <==> k >= 50
  {
    if k > 0 {
      Lifespan(p, k - 1);
    }
  }

  function DimTimes(p: Particle, k: nat): Particle {
    if k == 0 then p else Dim(DimTimes(p, k - 1))
  }
}
