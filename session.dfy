/** The game session as one value: the `game` object (canvas size, flags, score,
    key map, mouse), the player, the three entity lists and the spawn counter;
    and the rules that act on the player's resources and on the lifecycle
    flags: `useBandage`, `takeDamage`, `endGame`, `togglePause` and `init`. */
module Session {
  import opened Geometry
  import opened Entities

  // Scoring and damage (game.js:290-348)
  const ShotDamage: int := 10
  const HostileShotDamage: int := 10
  const ContactDamage: int := 1
  const KillScore: int := 100
  const DropChance: real := 0.2
  // Particle bursts (game.js:153, 170, 302, 314)
  const HealBurst: nat := 10
  const DamageBurst: nat := 5
  const ImpactBurst: nat := 3
  const ExplosionBurst: nat := 15

  datatype Mouse = Mouse(x: real, y: real, down: bool)

  datatype State = State(
    width: real, height: real,
    active: bool, paused: bool, score: int,
    keys: map<string, bool>, mouse: Mouse,
    player: Player,
    projectiles: seq<Projectile>, enemies: seq<Enemy>, particles: seq<Particle>,
    spawnTimer: int)

  /** What holds between ticks: health within [0, MaxHealth], no negative
      bandage count, a score made of whole kills, a running game only with a
      living player, and a spawn counter that has only ever counted up. */
  predicate Inv(s: State) {
    && 0 <= s.player.health <= MaxHealth
    && s.player.bandages >= 0
    && s.score >= 0 && s.score % KillScore == 0
    && (s.active ==> s.player.health > 0)
    && s.spawnTimer >= 0
  }

  /** `game.keys[k]` is truthy: the key was pressed and not yet released. */
  predicate Pressed(keys: map<string, bool>, k: string) {
    k in keys && keys[k]
  }

  function IntMin(a: int, b: int): int {
    if a <= b then a else b
  }

  function IntMax(a: int, b: int): int {
    if a >= b then a else b
  }

  /** `Player.useBandage`: only with a bandage in hand and health below the
      maximum; then one bandage is spent, health rises by 25 but never past the
      maximum, and ten green particles appear on the player. */
  function UseBandage(s: State): (r: State)
    ensures !(s.player.bandages > 0 && s.player.health < MaxHealth) ==> r == s
    ensures s.player.bandages > 0 && s.player.health < MaxHealth ==>
              && r.player == s.player.(bandages := s.player.bandages - 1, health := r.player.health)
              && r.player.health - s.player.health == IntMin(BandageHeal, MaxHealth - s.player.health)
              && r == s.(player := r.player,
                         particles := s.particles + Burst(HealBurst, s.player.x, s.player.y, HealGreen))
    ensures Inv(s) ==> Inv(r)
  {
    if s.player.bandages > 0 && s.player.health < MaxHealth then
      var p := s.player.(bandages := s.player.bandages - 1,
                         health := IntMin(MaxHealth, s.player.health + BandageHeal));
      s.(player := p, particles := s.particles + Burst(HealBurst, p.x, p.y, HealGreen))
    else
      s
  }

  /** `endGame`: the session stops; its DOM report is not modelled. */
  function EndGame(s: State): (r: State)
    ensures !r.active && r == s.(active := r.active)
  {
    s.(active := false)
  }

  /** `Player.takeDamage(amount)`: health never drops below zero, and the game
      ends exactly when the blow brings health to zero or below; five red
      particles appear on the player either way. */
  function TakeDamage(s: State, amount: int): (r: State)
    ensures r == s.(player := r.player, active := r.active,
                    particles := s.particles + Burst(DamageBurst, s.player.x, s.player.y, DamageRed))
    ensures r.player == s.player.(health := r.player.health)
    ensures r.player.health == IntMax(0, s.player.health - amount)
    ensures r.active <==> s.active && s.player.health - amount > 0
    ensures Inv(s) && amount >= 0 ==> Inv(r)
  {
    var health := s.player.health - amount;
    s.(player := s.player.(health := if health <= 0 then 0 else health),
       active := if health <= 0 then EndGame(s).active else s.active,
       particles := s.particles + Burst(DamageBurst, s.player.x, s.player.y, DamageRed))
  }

  /** `togglePause`: nothing happens once the game is over; otherwise the
      paused flag flips and nothing else changes. */
  function TogglePause(s: State): (r: State)
    ensures !s.active ==> r == s
    ensures s.active ==> r.paused == !s.paused && r == s.(paused := r.paused)
  {
    if !s.active then s else s.(paused := !s.paused)
  }

  /** `init`: a fresh player in the middle of the canvas with full health, two
      bandages and a cleared shot timer; no projectiles, enemies or particles;
      score 0; running and not paused. The canvas size, the input state and
      the spawn counter carry over. */
  function Init(s: State): (r: State)
    ensures s.spawnTimer >= 0 ==> Inv(r)
    ensures r.active && !r.paused && r.score == 0
    ensures r.projectiles == [] && r.enemies == [] && r.particles == []
    ensures r.player.health == MaxHealth && r.player.bandages == StartBandages && r.player.lastShotTime == 0
    ensures r.player.x == s.width / 2.0 && r.player.y == s.height / 2.0
    ensures r.width == s.width && r.height == s.height && r.keys == s.keys && r.mouse == s.mouse
    ensures r.spawnTimer == s.spawnTimer
  {
    s.(player := NewPlayer(s.width, s.height), projectiles := [], enemies := [], particles := [],
       score := 0, active := true, paused := false)
  }

  /** The session as the page loads it: the `game` literal and the module-level
      lists and counter (game.js:5-13, 261-265), followed by `init()`. */
  function Boot(width: real, height: real): (r: State)
    ensures Inv(r) && r.spawnTimer == 0 && r.keys == map[] && r.mouse == Mouse(0.0, 0.0, false)
  {
    Init(State(width, height, true, false, 0, map[], Mouse(0.0, 0.0, false),
               NewPlayer(width, height), [], [], [], 0))
  }
}
