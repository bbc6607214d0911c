/** One frame of the game (`update`, game.js:350-403) as a function on the
    session, phase by phase: the player's own update (movement, the clamp to
    the canvas and the 'e' heal key), the player's fire with its cooldown,
    the projectile update and filter, the spawn counter, the enemy update and
    filter, the particle cull, and the collision pass. What the host supplies
    to a frame (the clock, the touch controls, trigonometry, `Math.hypot` and
    the `Math.random()` streams) arrives as one `Host` value. */
module Rules {
  import opened Geometry
  import opened Seqs
  import opened Entities
  import opened Session
  import opened Collisions
  import opened CollisionLaws

  /** Milliseconds that must pass, strictly, between two friendly shots (game.js:370). */
  const FireCooldown: int := 200
  /** One enemy per this many frames (game.js:285). */
  const SpawnPeriod: int := 100
  /** How far ahead of the player the aim stick places the target (game.js:375-376). */
  const AimReach: real := 100.0

  /** One on-screen joystick: its deflection and whether a finger is on it. */
  datatype Stick = Stick(x: real, y: real, active: bool)

  /** `mobileInput`: the movement stick, the aim stick and the fire flag. */
  datatype MobileInput = MobileInput(move: Stick, aim: Stick, shooting: bool)

  /** What one frame reads from outside the game: the `Date.now()` of the
      frame, the touch controls, the heading `direction` that `Math.atan2`
      followed by `Math.cos`/`Math.sin` yields for a displacement, the
      distance `hypot` that `Math.hypot` yields, the `Math.random()` results
      of an Enemy constructor (`spawnDraw`, in call order) and those of the
      bandage drops of the collision pass (`dropDraw`, one per kill). */
  datatype Host = Host(now: int, mobile: MobileInput, direction: Vec -> Vec, hypot: Vec -> real,
                       spawnDraw: nat -> real, dropDraw: nat -> real)

  // ---------------------------------------------------------------------
  // The player's update (game.js:81-121)

  /** One keyboard axis: +1 for the positive key (or its arrow), -1 for the
      negative one, 0 for both or neither. */
  function Axis(keys: map<string, bool>, minus: string, minusArrow: string, plus: string, plusArrow: string): (d: real)
    ensures d == 1.0 || d == 0.0 || d == -1.0
    ensures d == 1.0 <==> (Pressed(keys, plus) || Pressed(keys, plusArrow)) && !(Pressed(keys, minus) || Pressed(keys, minusArrow))
    ensures d == -1.0 <==> (Pressed(keys, minus) || Pressed(keys, minusArrow)) && !(Pressed(keys, plus) || Pressed(keys, plusArrow))
  {
    (if Pressed(keys, plus) || Pressed(keys, plusArrow) then 1.0 else 0.0)
      - (if Pressed(keys, minus) || Pressed(keys, minusArrow) then 1.0 else 0.0)
  }

  /** The movement direction of one frame: the movement stick's deflection
      while a finger is on it; otherwise the keyboard's, with a diagonal
      divided by `Math.hypot(1, 1)` so that it is no longer than a straight
      step. */
  function Heading(keys: map<string, bool>, move: Stick): (v: Vec)
    ensures move.active ==> v == Vec(move.x, move.y)
    ensures !move.active ==> NormSq(v) <= 1.0
    ensures !move.active && v.x != 0.0 && v.y != 0.0 ==> v.x * v.x == v.y * v.y < 0.5
    ensures !move.active ==>
              var dx := Axis(keys, "a", "arrowleft", "d", "arrowright");
              var dy := Axis(keys, "w", "arrowup", "s", "arrowdown");
              v == if dx != 0.0 && dy != 0.0 then Vec(dx / DiagonalLength, dy / DiagonalLength) else Vec(dx, dy)
  {
    if move.active then Vec(move.x, move.y)
    else
      var dx := Axis(keys, "a", "arrowleft", "d", "arrowright");
      var dy := Axis(keys, "w", "arrowup", "s", "arrowdown");
      if dx != 0.0 && dy != 0.0 then
        DiagonalBound(dx, dy);
        Vec(dx / DiagonalLength, dy / DiagonalLength)
      else Vec(dx, dy)
  }

  /** A diagonal keyboard step, divided by the browser's `Math.hypot(1, 1)`,
      is a touch shorter than one. */
  lemma DiagonalBound(dx: real, dy: real)
    requires (dx == 1.0 || dx == -1.0) && (dy == 1.0 || dy == -1.0)
    ensures NormSq(Vec(dx / DiagonalLength, dy / DiagonalLength)) <= 1.0
    ensures (dx / DiagonalLength) * (dx / DiagonalLength) == (dy / DiagonalLength) * (dy / DiagonalLength) < 0.5
  {
    var q := 1.0 / DiagonalLength;
    assert DiagonalLength * DiagonalLength > 2.0;
    assert dx / DiagonalLength == dx * q && dy / DiagonalLength == dy * q;
    assert (dx * q) * (dx * q) == q * q && (dy * q) * (dy * q) == q * q;
    assert q * q * (DiagonalLength * DiagonalLength) == 1.0;
  }

  /** The movement part of `Player.update`: step by the heading times the
      speed (no step for a zero heading), then clamp the centre to
      [radius, size - radius] on each axis. On a canvas at least one player
      wide and tall the player ends inside it, one radius clear of each edge,
      exactly where the step took it unless that was past the margin. */
  function Walk(p: Player, v: Vec, width: real, height: real): (q: Player)
    ensures q == p.(x := q.x, y := q.y)
    ensures q.x == Clamp(PlayerRadius, width - PlayerRadius, p.x + v.x * PlayerSpeed)
    ensures q.y == Clamp(PlayerRadius, height - PlayerRadius, p.y + v.y * PlayerSpeed)
    ensures width >= 2.0 * PlayerRadius ==> PlayerRadius <= q.x <= width - PlayerRadius
    ensures height >= 2.0 * PlayerRadius ==> PlayerRadius <= q.y <= height - PlayerRadius
    ensures var x := p.x + v.x * PlayerSpeed;
            PlayerRadius <= x <= width - PlayerRadius ==> q.x == x
    ensures var y := p.y + v.y * PlayerSpeed;
            PlayerRadius <= y <= height - PlayerRadius ==> q.y == y
  {
    var moved := if v.x != 0.0 || v.y != 0.0
                 then p.(x := p.x + v.x * PlayerSpeed, y := p.y + v.y * PlayerSpeed)
                 else p;
    moved.(x := Clamp(PlayerRadius, width - PlayerRadius, moved.x),
           y := Clamp(PlayerRadius, height - PlayerRadius, moved.y))
  }

  /** `Player.update`: walk, then, if 'e' is held, try a bandage and release
      'e'. The position obeys Walk's bounds; the key is released; at most one
      bandage is used, and exactly when 'e' was held with a bandage in hand
      and health below the maximum; the shot timer, the lists and the session
      flags are untouched. */
  function PlayerStep(s: State, move: Stick): (r: State)
    ensures r == s.(player := r.player, keys := r.keys, particles := r.particles)
    ensures r.player == Walk(s.player, Heading(s.keys, move), s.width, s.height)
                          .(health := r.player.health, bandages := r.player.bandages)
    ensures !Pressed(r.keys, "e")
    ensures r.keys == if Pressed(s.keys, "e") then s.keys["e" := false] else s.keys
    ensures var healed := Pressed(s.keys, "e") && s.player.bandages > 0 && s.player.health < MaxHealth;
            && r.player.bandages == s.player.bandages - (if healed then 1 else 0)
            && r.player.health == s.player.health + (if healed then IntMin(BandageHeal, MaxHealth - s.player.health) else 0)
            && r.particles == s.particles + (if healed then Burst(HealBurst, r.player.x, r.player.y, HealGreen) else [])
    ensures Inv(s) ==> Inv(r)
  {
    var t := s.(player := Walk(s.player, Heading(s.keys, move), s.width, s.height));
    if Pressed(s.keys, "e") then
      var u := UseBandage(t);
      u.(keys := u.keys["e" := false])
    else t
  }

  /** On a canvas at least one player wide and tall, the player ends every
      update inside it, one radius clear of each edge. */
  lemma StaysOnCanvas(s: State, move: Stick)
    requires s.width >= 2.0 * PlayerRadius && s.height >= 2.0 * PlayerRadius
    ensures var p := PlayerStep(s, move).player;
            && PlayerRadius <= p.x <= s.width - PlayerRadius
            && PlayerRadius <= p.y <= s.height - PlayerRadius
  {
    var w := Walk(s.player, Heading(s.keys, move), s.width, s.height);
    assert PlayerStep(s, move).player.x == w.x && PlayerStep(s, move).player.y == w.y;
  }

  /** Without a finger on the stick, a frame moves the player at most its
      speed, diagonals included. */
  lemma KeyboardStep(s: State, move: Stick)
    requires !move.active
    ensures NormSq(Scale(Heading(s.keys, move), PlayerSpeed)) <= PlayerSpeed * PlayerSpeed
  {
    SpeedBound(Heading(s.keys, move));
  }

  /** A heading no longer than one, scaled by the speed, is no longer than
      the speed. */
  lemma SpeedBound(v: Vec)
    requires NormSq(v) <= 1.0
    ensures NormSq(Scale(v, PlayerSpeed)) <= PlayerSpeed * PlayerSpeed
  {
    assert NormSq(Scale(v, PlayerSpeed)) == PlayerSpeed * PlayerSpeed * NormSq(v);
  }

  /** Holding 'e' uses at most one bandage: the first update releases the key,
      so the next update without a new key press heals no more. */
  lemma OneBandagePerPress(s: State, m1: Stick, m2: Stick)
    ensures var r := PlayerStep(PlayerStep(s, m1), m2);
            && r.player.bandages >= s.player.bandages - 1
            && !Pressed(r.keys, "e")
  {
    var t := PlayerStep(s, m1);
    assert !Pressed(t.keys, "e");
  }

  // ---------------------------------------------------------------------
  // The player's fire (game.js:355-384)

  /** The mouse button or the fire flag is down, in a running game. */
  predicate Triggered(s: State, mobile: MobileInput) {
    (s.mouse.down || mobile.shooting) && s.active
  }

  /** More than FireCooldown milliseconds since the last friendly shot. */
  predicate Cooled(p: Player, now: int) {
    now - p.lastShotTime > FireCooldown
  }

  /** The target of a shot: AimReach ahead of the player along the aim stick
      while a finger is on it, otherwise the mouse position. */
  function Target(s: State, aim: Stick): (t: Vec)
    ensures aim.active ==> t.x - s.player.x == aim.x * AimReach && t.y - s.player.y == aim.y * AimReach
    ensures !aim.active ==> t == Vec(s.mouse.x, s.mouse.y)
  {
    if aim.active then Vec(s.player.x + aim.x * AimReach, s.player.y + aim.y * AimReach)
    else Vec(s.mouse.x, s.mouse.y)
  }

  /** The friendly shot: when triggered and cooled, a friendly projectile
      leaves the player's centre towards the target and the shot time is
      stamped; otherwise nothing happens. */
  function Fire(s: State, now: int, mobile: MobileInput, direction: Vec -> Vec): (r: State)
    ensures Triggered(s, mobile) && Cooled(s.player, now) ==>
              && |r.projectiles| == |s.projectiles| + 1
              && r.projectiles[..|s.projectiles|] == s.projectiles
              && r.projectiles[|s.projectiles|] ==
                   Launch(s.player.x, s.player.y, Target(s, mobile.aim).x, Target(s, mobile.aim).y, false, direction)
              && r == s.(projectiles := r.projectiles, player := s.player.(lastShotTime := now))
    ensures !(Triggered(s, mobile) && Cooled(s.player, now)) ==> r == s
    ensures Inv(s) ==> Inv(r)
  {
    if Triggered(s, mobile) && Cooled(s.player, now) then
      var aim := Target(s, mobile.aim);
      var shot := Launch(s.player.x, s.player.y, aim.x, aim.y, false, direction);
      assert (s.projectiles + [shot])[..|s.projectiles|] == s.projectiles;
      s.(projectiles := s.projectiles + [shot], player := s.player.(lastShotTime := now))
    else s
  }

  /** Two friendly shots are always more than FireCooldown apart: right after
      a shot at t0, no frame at any t1 with t1 - t0 <= FireCooldown fires,
      whatever the input; and once that time has passed, a trigger fires. */
  lemma ShotSpacing(s: State, t0: int, t1: int, m0: MobileInput, m1: MobileInput, direction: Vec -> Vec)
    requires Triggered(s, m0) && Cooled(s.player, t0)
    ensures var r := Fire(s, t0, m0, direction);
            && (t1 - t0 <= FireCooldown ==> Fire(r, t1, m1, direction) == r)
            && (t1 - t0 > FireCooldown && Triggered(r, m1) ==>
                  |Fire(r, t1, m1, direction).projectiles| == |r.projectiles| + 1)
  {
  }

  // ---------------------------------------------------------------------
  // Projectiles (game.js:387-388)

  /** The deletion flag is clear. */
  predicate Unflagged(p: Projectile) {
    !p.marked
  }

  predicate Standing(e: Enemy) {
    !e.marked
  }

  /** `projectiles.forEach(p => p.update())`. */
  function Advance(ps: seq<Projectile>, width: real, height: real): (qs: seq<Projectile>)
    ensures |qs| == |ps|
    ensures forall i :: 0 <= i < |ps| ==> qs[i] == ProjectileStep(ps[i], width, height)
  {
    seq(|ps|, i requires 0 <= i < |ps| => ProjectileStep(ps[i], width, height))
  }

  /** Every projectile moves, then the flagged ones are dropped, in order. */
  function MoveProjectiles(s: State): (r: State)
    ensures r == s.(projectiles := r.projectiles)
    ensures forall i :: 0 <= i < |r.projectiles| ==> !r.projectiles[i].marked
    ensures r.projectiles == Filter(Advance(s.projectiles, s.width, s.height), Unflagged)
  {
    s.(projectiles := Filter(Advance(s.projectiles, s.width, s.height), Unflagged))
  }

  /** A projectile comes through the projectile update, moved by its
      velocity, exactly when it was not flagged already and its new position
      is on the canvas. */
  lemma ProjectileFate(s: State, i: nat)
    requires i < |s.projectiles|
    ensures var q := ProjectileStep(s.projectiles[i], s.width, s.height);
            q in MoveProjectiles(s).projectiles <==>
              !s.projectiles[i].marked && !OffScreen(q.x, q.y, s.width, s.height)
  {
    var ps := Advance(s.projectiles, s.width, s.height);
    FilterMembership(ps, Unflagged, ps[i]);
  }

  /** A projectile that the update leaves on the canvas and unflagged keeps
      its velocity and kind, and so does every survivor: the update only
      moves and drops. */
  lemma ProjectileSurvivors(s: State, q: Projectile)
    requires q in MoveProjectiles(s).projectiles
    ensures exists i :: 0 <= i < |s.projectiles| && q == ProjectileStep(s.projectiles[i], s.width, s.height)
  {
    var ps := Advance(s.projectiles, s.width, s.height);
    FilterMembership(ps, Unflagged, q);
    var i :| 0 <= i < |ps| && ps[i] == q;
  }

  // ---------------------------------------------------------------------
  // Spawning (game.js:283-288)

  /** `spawnEnemies`: the counter goes up, and on every multiple of
      SpawnPeriod one new enemy joins the end of the list. */
  function Spawn(s: State, now: int, draw: nat -> real): (r: State)
    ensures r == s.(spawnTimer := r.spawnTimer, enemies := r.enemies)
    ensures r.spawnTimer == s.spawnTimer + 1
    ensures |r.enemies| == |s.enemies| + (if r.spawnTimer % SpawnPeriod == 0 then 1 else 0)
    ensures r.enemies[..|s.enemies|] == s.enemies
    ensures |r.enemies| > |s.enemies| ==> r.enemies[|s.enemies|] == NewEnemy(draw, s.width, s.height, now)
  {
    var t := s.spawnTimer + 1;
    var es := if t % SpawnPeriod == 0 then s.enemies + [NewEnemy(draw, s.width, s.height, now)] else s.enemies;
    assert es[..|s.enemies|] == s.enemies;
    s.(spawnTimer := t, enemies := es)
  }

  /** n frames of spawning (with one draw stream for all, which is enough to
      count them). */
  function SpawnRun(s: State, n: nat, now: int, draw: nat -> real): State
    decreases n
  {
    if n == 0 then s else Spawn(SpawnRun(s, n - 1, now, draw), now, draw)
  }

  /** How many of the counter values t+1 .. t+n are multiples of SpawnPeriod. */
  function Multiples(t: int, n: nat): nat
    decreases n
  {
    if n == 0 then 0 else Multiples(t, n - 1) + (if (t + n) % SpawnPeriod == 0 then 1 else 0)
  }

  /** n frames add one enemy per multiple of SpawnPeriod the counter reaches. */
  lemma {:induction false} SpawnCount(s: State, n: nat, now: int, draw: nat -> real)
    ensures SpawnRun(s, n, now, draw).spawnTimer == s.spawnTimer + n
    ensures |SpawnRun(s, n, now, draw).enemies| == |s.enemies| + Multiples(s.spawnTimer, n)
    decreases n
  {
    if n > 0 {
      SpawnCount(s, n - 1, now, draw);
    }
  }

  /** Counting from t >= 0, n steps reach exactly (t + n) / 100 - t / 100
      multiples of 100. */
  lemma {:induction false} MultiplesClosed(t: int, n: nat)
    requires t >= 0
    ensures Multiples(t, n) == (t + n) / SpawnPeriod - t / SpawnPeriod
    decreases n
  {
    if n > 0 {
      MultiplesClosed(t, n - 1);
      var u := t + n;
      assert u / SpawnPeriod == (u - 1) / SpawnPeriod + (if u % SpawnPeriod == 0 then 1 else 0);
    }
  }

  /** Hence any hundred consecutive frames spawn exactly one enemy. */
  lemma SpawnCadence(s: State, now: int, draw: nat -> real)
    requires s.spawnTimer >= 0
    ensures |SpawnRun(s, SpawnPeriod as nat, now, draw).enemies| == |s.enemies| + 1
  {
    SpawnCount(s, SpawnPeriod as nat, now, draw);
    MultiplesClosed(s.spawnTimer, SpawnPeriod as nat);
    assert (s.spawnTimer + SpawnPeriod) / SpawnPeriod == s.spawnTimer / SpawnPeriod + 1;
  }

  // ---------------------------------------------------------------------
  // Enemies (game.js:390-392)

  /** `enemies.forEach(e => e.update())`: every enemy in list order steps
      towards the player, and the shots fired are collected in that order. */
  function Pursue(es: seq<Enemy>, target: Player, now: int, direction: Vec -> Vec): (r: (seq<Enemy>, seq<Projectile>))
    ensures |r.0| == |es|
    decreases |es|
  {
    if es == [] then ([], [])
    else
      var head := Pursue(es[..|es| - 1], target, now, direction);
      var step := EnemyStep(es[|es| - 1], target, now, direction);
      (head.0 + [step.0], head.1 + step.1)
  }

  /** Every enemy moves and may fire, its shots are appended to the
      projectiles, and then the flagged enemies are dropped, in order. */
  function MoveEnemies(s: State, now: int, direction: Vec -> Vec): (r: State)
    ensures r == s.(enemies := r.enemies, projectiles := r.projectiles)
    ensures forall i :: 0 <= i < |r.enemies| ==> !r.enemies[i].marked
    ensures |r.projectiles| >= |s.projectiles| && r.projectiles[..|s.projectiles|] == s.projectiles
    ensures var moved := Pursue(s.enemies, s.player, now, direction);
            r.enemies == Filter(moved.0, Standing) && r.projectiles == s.projectiles + moved.1
  {
    var moved := Pursue(s.enemies, s.player, now, direction);
    assert (s.projectiles + moved.1)[..|s.projectiles|] == s.projectiles;
    s.(enemies := Filter(moved.0, Standing), projectiles := s.projectiles + moved.1)
  }

  /** An enemy comes through the enemy update, moved by its own step,
      exactly when it was not flagged; its position and health play no
      part. */
  lemma EnemyFate(s: State, i: nat, now: int, direction: Vec -> Vec)
    requires i < |s.enemies|
    ensures var step := EnemyStep(s.enemies[i], s.player, now, direction).0;
            step in MoveEnemies(s, now, direction).enemies <==> !s.enemies[i].marked
  {
    var moved := Pursue(s.enemies, s.player, now, direction);
    PursueAt(s.enemies, s.player, now, direction, i);
    FilterMembership(moved.0, Standing, moved.0[i]);
  }

  /** With no enemy flagged, the enemy update loses none: the list is the
      enemies' own steps, in order. */
  lemma NoneFlaggedNoneLost(s: State, now: int, direction: Vec -> Vec)
    requires forall i :: 0 <= i < |s.enemies| ==> !s.enemies[i].marked
    ensures var r := MoveEnemies(s, now, direction).enemies;
            && |r| == |s.enemies|
            && forall i :: 0 <= i < |r| ==> r[i] == EnemyStep(s.enemies[i], s.player, now, direction).0
  {
    var moved := Pursue(s.enemies, s.player, now, direction);
    forall i | 0 <= i < |s.enemies|
      ensures moved.0[i] == EnemyStep(s.enemies[i], s.player, now, direction).0
    {
      PursueAt(s.enemies, s.player, now, direction, i);
    }
    FilterKeepsAll(moved.0, Standing);
  }

  /** Enemy i's own step within the list: the other enemies' steps do not
      affect it. */
  lemma {:induction false} PursueAt(es: seq<Enemy>, target: Player, now: int, direction: Vec -> Vec, i: nat)
    requires i < |es|
    ensures Pursue(es, target, now, direction).0[i] == EnemyStep(es[i], target, now, direction).0
    decreases |es|
  {
    if i < |es| - 1 {
      PursueAt(es[..|es| - 1], target, now, direction, i);
    }
  }

  /** The shots of a frame are the shots of each enemy in list order: an
      enemy that fires puts exactly its own projectile in the list. */
  lemma {:induction false} PursueShots(es: seq<Enemy>, target: Player, now: int, direction: Vec -> Vec, i: nat)
    requires i < |es| && ShotDue(es[i], now)
    ensures EnemyStep(es[i], target, now, direction).1[0] in Pursue(es, target, now, direction).1
    decreases |es|
  {
    if i < |es| - 1 {
      PursueShots(es[..|es| - 1], target, now, direction, i);
    }
  }

  /** The number of shots is the number of enemies whose timer has run out. */
  lemma {:induction false} PursueShotCount(es: seq<Enemy>, target: Player, now: int, direction: Vec -> Vec)
    ensures |Pursue(es, target, now, direction).1| == CountIf(es, e => ShotDue(e, now))
    decreases |es|
  {
    if es != [] {
      PursueShotCount(es[..|es| - 1], target, now, direction);
    }
  }

  /** An enemy flagged by the previous frame's collision pass still acts in
      this frame before it is dropped: it moves, and when its timer has run
      out it fires a hostile projectile that stays in play; then it is gone. */
  lemma FlaggedStillFires(s: State, i: nat, now: int, direction: Vec -> Vec)
    requires i < |s.enemies| && s.enemies[i].marked && ShotDue(s.enemies[i], now)
    ensures var step := EnemyStep(s.enemies[i], s.player, now, direction);
            var r := MoveEnemies(s, now, direction);
            && step.1[0] in r.projectiles
            && step.1[0].isEnemy
            && step.0 !in r.enemies
  {
    var step := EnemyStep(s.enemies[i], s.player, now, direction);
    var moved := Pursue(s.enemies, s.player, now, direction);
    PursueShots(s.enemies, s.player, now, direction, i);
    FilterMembership(moved.0, Standing, step.0);
  }

  // ---------------------------------------------------------------------
  // Particles (game.js:394-400)

  /** `particles.forEach((p, index) => ...)` with `splice` inside: a faded
      particle is removed, which shifts its successor into the visited slot,
      so the successor is skipped this frame (neither dimmed nor tested);
      every other visited particle is dimmed. */
  function Cull(ps: seq<Particle>): (r: seq<Particle>)
    ensures |r| <= |ps|
    decreases |ps|
  {
    if ps == [] then []
    else if Faded(ps[0]) then (if |ps| == 1 then [] else [ps[1]] + Cull(ps[2..]))
    else [Dim(ps[0])] + Cull(ps[1..])
  }

  /** With no faded particle, the cull removes nothing and dims every one. */
  lemma {:induction false} CullNoneFaded(ps: seq<Particle>)
    requires forall i :: 0 <= i < |ps| ==> !Faded(ps[i])
    ensures |Cull(ps)| == |ps|
    ensures forall i :: 0 <= i < |ps| ==> Cull(ps)[i] == Dim(ps[i])
    decreases |ps|
  {
    if ps != [] {
      CullNoneFaded(ps[1..]);
      assert forall i :: 1 <= i < |ps| ==> Cull(ps)[i] == Cull(ps[1..])[i - 1];
    }
  }

  /** With every particle faded, the cull removes only every other one: the
      ones at odd positions survive, untouched, and half (rounded down) of
      the list is left. */
  lemma {:induction false} CullAllFaded(ps: seq<Particle>)
    requires forall i :: 0 <= i < |ps| ==> Faded(ps[i])
    ensures |Cull(ps)| == |ps| / 2
    ensures forall i :: 0 <= i < |ps| / 2 ==> Cull(ps)[i] == ps[2 * i + 1]
    decreases |ps|
  {
    if |ps| >= 2 {
      CullAllFaded(ps[2..]);
      assert forall i :: 1 <= i < |ps| / 2 ==> Cull(ps)[i] == Cull(ps[2..])[i - 1];
    }
  }

  /** A frame removes at most half of the particles, rounded up. */
  lemma {:induction false} CullKeepsHalf(ps: seq<Particle>)
    ensures |ps| / 2 <= |Cull(ps)|
    decreases |ps|
  {
    if ps != [] {
      if Faded(ps[0]) {
        if |ps| > 1 {
          CullKeepsHalf(ps[2..]);
        }
      } else {
        CullKeepsHalf(ps[1..]);
      }
    }
  }

  // ---------------------------------------------------------------------
  // The frame

  /** `update`: nothing once the game is over; otherwise the phases in
      source order. `paused` is not consulted: pausing works by no longer
      scheduling frames. */
  function Tick(s: State, h: Host): (r: State)
    ensures !s.active ==> r == s
    ensures r.width == s.width && r.height == s.height
    ensures r.score >= s.score
  {
    if !s.active then s
    else
      CollideFrame(Moved(s, h), h.hypot, h.dropDraw);
      CollideTally(Moved(s, h), h.hypot, h.dropDraw);
      Collide(Moved(s, h), h.hypot, h.dropDraw)
  }

  /** The session before the collision pass of a running frame. */
  function Moved(s: State, h: Host): (r: State)
    ensures r.active == s.active && r.paused == s.paused && r.spawnTimer == s.spawnTimer + 1
    ensures r.score == s.score
    ensures forall i :: 0 <= i < |r.enemies| ==> !r.enemies[i].marked
    ensures Inv(s) ==> Inv(r)
  {
    var s1 := PlayerStep(s, h.mobile.move);
    var s2 := Fire(s1, h.now, h.mobile, h.direction);
    var s3 := MoveProjectiles(s2);
    var s4 := Spawn(s3, h.now, h.spawnDraw);
    var s5 := MoveEnemies(s4, h.now, h.direction);
    s5.(particles := Cull(s5.particles))
  }

  /** A frame keeps the invariant, and once the game is over a frame
      changes nothing. */
  lemma TickInv(s: State, h: Host)
    ensures Inv(s) ==> Inv(Tick(s, h))
    ensures !s.active ==> Tick(s, h) == s
  {
    if s.active {
      CollideInv(Moved(s, h), h.hypot, h.dropDraw);
    }
  }

  /** `update` does not look at `paused`: called on a paused running
      session it still advances the spawn counter, and it leaves the flag
      as it was. */
  lemma PausedFrameRuns(s: State, h: Host)
    requires s.active && s.paused
    ensures Tick(s, h).spawnTimer == s.spawnTimer + 1 && Tick(s, h).paused
  {
    CollideFrame(Moved(s, h), h.hypot, h.dropDraw);
  }

  /** An enemy flagged at the end of a frame was brought to zero health or
      below in that frame's collision pass; it stays in the list until the
      next frame's enemy filter. */
  lemma FlaggedAfterTick(s: State, h: Host, m: nat)
    requires s.active && m < |Tick(s, h).enemies|
    ensures Tick(s, h).enemies[m].marked ==> Tick(s, h).enemies[m].health <= 0
  {
    CollideEnemy(Moved(s, h), m, h.hypot, h.dropDraw);
  }
}
