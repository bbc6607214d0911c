/** `checkCollisions` (game.js:290-348) as specification functions. The pass
    walks every projectile; a friendly one is tested against EVERY enemy in
    list order (it does not stop at the first hit, and an enemy already flagged
    in this pass is still tested), a hostile one against the player; then
    every enemy is tested against the player. Each function below covers a
    prefix of one of these loops, so that the loops of `World.CheckCollisions`
    can state what they have done so far. `kills` counts the bandage-drop
    draws consumed: `drop(i)` is the `Math.random()` result of the i-th hit
    that leaves an enemy at zero health or below. */
module Collisions {
  import opened Geometry
  import opened Entities
  import opened Session

  /** The three uses of the hit rule (game.js:297, 334, 344); `hypot` is
      `Math.hypot` as the browser computes it, applied to the offset between
      the two centres. */
  predicate ProjectileHitsEnemy(p: Projectile, e: Enemy, hypot: Vec -> real) {
    HitAt(hypot(Vec(p.x - e.x, p.y - e.y)), EnemyRadius, ProjectileRadius)
  }

  predicate ProjectileHitsPlayer(p: Projectile, pl: Player, hypot: Vec -> real) {
    HitAt(hypot(Vec(p.x - pl.x, p.y - pl.y)), PlayerRadius, ProjectileRadius)
  }

  predicate EnemyTouchesPlayer(e: Enemy, pl: Player, hypot: Vec -> real) {
    HitAt(hypot(Vec(e.x - pl.x, e.y - pl.y)), PlayerRadius, EnemyRadius)
  }

  /** The state of a pass in progress, with the number of drop draws used. */
  datatype Pass = Pass(s: State, kills: nat)

  /** How many of the first n drop draws grant a bandage (`Math.random() < 0.2`). */
  function DropCount(drop: nat -> real, n: nat): nat {
    if n == 0 then 0 else DropCount(drop, n - 1) + (if drop(n - 1) < DropChance then 1 else 0)
  }

  /** What a collision pass may not change about a projectile: everything but
      its deletion flag. */
  function Shapes(ps: seq<Projectile>): (r: seq<Projectile>)
    ensures |r| == |ps|
  {
    seq(|ps|, i requires 0 <= i < |ps| => ps[i].(marked := false))
  }

  /** What a collision pass may not change about an enemy: everything but its
      health and its deletion flag. */
  function Bodies(es: seq<Enemy>): (r: seq<Enemy>)
    ensures |r| == |es|
  {
    seq(|es|, i requires 0 <= i < |es| => es[i].(health := 0, marked := false))
  }

  /** What a collision pass may not change about the session as a whole:
      everything but the three lists, the player's health and bandages, the
      score and the running flag. */
  function Rest(s: State): State {
    s.(projectiles := [], enemies := [], particles := [],
       player := s.player.(health := 0, bandages := 0), score := 0, active := false)
  }

  /** A collision pass moves nothing and changes no list's length: it may only
      flag projectiles, lower and flag enemies, add particles, change the
      player's health and bandages, the score and the running flag. */
  predicate Framed(s: State, r: State) {
    Rest(r) == Rest(s) && Shapes(r.projectiles) == Shapes(s.projectiles) && Bodies(r.enemies) == Bodies(s.enemies)
  }

  /** No list changes its length. */
  predicate Sized(s: State, r: State) {
    |r.projectiles| == |s.projectiles| && |r.enemies| == |s.enemies|
  }

  /** Every kill so far earned KillScore, and every drop draw below DropChance
      one bandage. */
  predicate Tallied(a: Pass, b: Pass, drop: nat -> real) {
    && a.kills <= b.kills
    && b.s.score - KillScore * b.kills == a.s.score - KillScore * a.kills
    && b.s.player.bandages - DropCount(drop, b.kills) == a.s.player.bandages - DropCount(drop, a.kills)
  }

  /** Friendly projectile k hits enemy j (game.js:299-327): ten health off and
      three impact particles; if that leaves the enemy at zero or below it is
      flagged, the score rises by 100, fifteen explosion particles appear and
      the next drop draw decides a bandage; the projectile is flagged either
      way. What this adds up to is stated by `CollisionLaws.HitEnemyLaw`. */
  function HitEnemy(a: Pass, k: nat, j: nat, drop: nat -> real): (b: Pass)
    requires k < |a.s.projectiles| && j < |a.s.enemies|
    ensures Sized(a.s, b.s)
  {
    var s := a.s;
    var p := s.projectiles[k];
    var e := s.enemies[j].(health := s.enemies[j].health - ShotDamage);
    var down := e.health <= 0;
    var bonus := if down && drop(a.kills) < DropChance then 1 else 0;
    Pass(s.(projectiles := s.projectiles[k := p.(marked := true)],
            enemies := s.enemies[j := e.(marked := e.marked || down)],
            score := s.score + (if down then KillScore else 0),
            particles := s.particles + Burst(ImpactBurst, p.x, p.y, ImpactRed)
                         + (if down then Burst(ExplosionBurst, e.x, e.y, ImpactRed) else []),
            player := s.player.(bandages := s.player.bandages + bonus)),
         a.kills + (if down then 1 else 0))
  }

  /** Friendly projectile k tested against enemy j (game.js:296-298). */
  function FriendlyStep(a: Pass, k: nat, j: nat, hypot: Vec -> real, drop: nat -> real): (b: Pass)
    requires k < |a.s.projectiles| && j < |a.s.enemies|
    ensures Sized(a.s, b.s)
  {
    if ProjectileHitsEnemy(a.s.projectiles[k], a.s.enemies[j], hypot) then HitEnemy(a, k, j, drop) else a
  }

  /** Friendly projectile k tested against enemies 0 .. j-1 (game.js:295-329). */
  function FriendlyScan(a: Pass, k: nat, j: nat, hypot: Vec -> real, drop: nat -> real): (b: Pass)
    requires k < |a.s.projectiles| && j <= |a.s.enemies|
    ensures Sized(a.s, b.s)
    decreases j
  {
    if j == 0 then a else FriendlyStep(FriendlyScan(a, k, j - 1, hypot, drop), k, j - 1, hypot, drop)
  }

  /** Hostile projectile k tested against the player (game.js:331-337): ten
      damage to the player and the projectile flagged. */
  function HostileCheck(a: Pass, k: nat, hypot: Vec -> real): (b: Pass)
    requires k < |a.s.projectiles|
    ensures Sized(a.s, b.s)
  {
    var p := a.s.projectiles[k];
    if ProjectileHitsPlayer(p, a.s.player, hypot) then
      var hurt := TakeDamage(a.s, HostileShotDamage);
      Pass(hurt.(projectiles := hurt.projectiles[k := p.(marked := true)]), a.kills)
    else a
  }

  /** Projectile k tested against what it can hit: every enemy if it is
      friendly, the player if it is hostile. */
  function ProjectileStepPass(a: Pass, k: nat, hypot: Vec -> real, drop: nat -> real): (b: Pass)
    requires k < |a.s.projectiles|
    ensures Sized(a.s, b.s)
  {
    if !a.s.projectiles[k].isEnemy then FriendlyScan(a, k, |a.s.enemies|, hypot, drop)
    else HostileCheck(a, k, hypot)
  }

  /** Projectiles 0 .. k-1 processed in order (game.js:292-339). */
  function ProjectileScan(a: Pass, k: nat, hypot: Vec -> real, drop: nat -> real): (b: Pass)
    requires k <= |a.s.projectiles|
    ensures Sized(a.s, b.s)
    decreases k
  {
    if k == 0 then a
    else ProjectileStepPass(ProjectileScan(a, k - 1, hypot, drop), k - 1, hypot, drop)
  }

  /** Enemies 0 .. j-1 tested against the player, one point of damage each
      (game.js:342-347). */
  function ContactScan(s: State, j: nat, hypot: Vec -> real): (r: State)
    requires j <= |s.enemies|
    ensures Sized(s, r)
    decreases j
  {
    if j == 0 then s
    else
      var t := ContactScan(s, j - 1, hypot);
      if EnemyTouchesPlayer(t.enemies[j - 1], t.player, hypot) then TakeDamage(t, ContactDamage) else t
  }

  /** The whole pass with its drop-draw count. */
  function CollidePass(s: State, hypot: Vec -> real, drop: nat -> real): (b: Pass)
    ensures Sized(s, b.s)
  {
    var b := ProjectileScan(Pass(s, 0), |s.projectiles|, hypot, drop);
    Pass(ContactScan(b.s, |s.enemies|, hypot), b.kills)
  }

  /** `checkCollisions`. */
  function Collide(s: State, hypot: Vec -> real, drop: nat -> real): (r: State)
    ensures Sized(s, r)
  {
    CollidePass(s, hypot, drop).s
  }
}
