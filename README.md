# Arena shooter: the game state and its rules, verified

This is a Dafny model of the game logic in `game.js`, a single-file browser arcade shooter.

The player:
- walks the canvas with the keyboard or a touch stick;
- shoots at the mouse or along an aim stick, at most once every 200 ms;
- heals with bandages.

Enemies spawn on the canvas edges every 100 frames. They walk towards the player and fire on their own timers.

One collision pass per frame does three things:
- friendly shots take 10 health off every enemy they touch;
- enemy shots take 10 health off the player;
- every enemy touching the player takes 1 health.

An enemy brought to zero is flagged for deletion. It scores 100 points and drops a bandage one time in five. At zero health the game ends.

The model has these modules:
- **Geometry** (`geometry.dfy`): vectors, the clamp and the circle hit rule.
- **Seqs** (`seqs.dfy`): the order-keeping `filter`.
- **Entities** (`entities.dfy`): the player, projectile, enemy and particle as values. This includes their constructors and their own `update` rules.
- **Session** (`session.dfy`): the whole game state as one value, `State`, with the invariant `Inv`. It also holds `useBandage`, `takeDamage`, `endGame`, `togglePause` and `init`.
- **Collisions** (`collisions.dfy`): `checkCollisions` as prefix functions, one per loop level. A friendly projectile is tested against every enemy; it does not stop at the first hit.
- **CollisionLaws** (`collision_laws.dfy`): what one pass adds up to, in closed form. That is:
  - health lost per enemy and by the player;
  - which entities end up flagged;
  - score and bandages per kill;
  - nothing moves.
- **Rules** (`rules.dfy`): each phase of `update` in source order, and the whole frame `Tick`.
- **Engine** (`world.dfy`): class `World`. Its fields are the module-level state of the game (`game.*`, `player` and the three lists, plus `spawnTimer`), updated in place. Each method's loops follow the source's loops. Each method is proved to leave `Snap()` equal to the matching function of Session, Rules or Collisions, applied to the state it started from. So every lemma about those functions holds of the object.

Some inputs come from the host; the model takes them as parameters (`Rules.Host`):
- **Time.** `Date.now()` is one `now` per frame.
- **Random draws.** `Math.random()` results for an enemy's constructor are `spawnDraw`. Those for the bandage drops of one collision pass are `dropDraw`: the k-th kill uses `dropDraw(k)`.
- **Aim and distance.** `direction` stands for the heading that `Math.atan2` followed by `Math.cos`/`Math.sin` gives. `hypot` stands for `Math.hypot`.
- **Controls.** The touch-control state is a parameter too.

Two conventions:
- Integers are unbounded. Health, bandages, score, timers and the spawn counter in the source are small integers held in doubles, so no wrap-around arises.
- `spawnTimer` is never negative, so JavaScript's `%` and Dafny's `%` agree on it.

Where the code may surprise a reader, the model follows the code:
- A friendly projectile damages every enemy it overlaps in the pass, not only the first.
- An enemy flagged by a collision pass stays in the list until the next frame's enemy filter. Before that filter it still moves and may still fire (`Rules.FlaggedStillFires`).
- `update` does not look at `paused`. Pausing works only by no longer scheduling frames (`Rules.PausedFrameRuns`).
- The particle `splice` inside `forEach` skips the particle after each removed one (`Rules.Cull`).

## Model

| member | source | states |
|---|---|---|
| Geometry.Clamp | game.js:113-114 | `Math.max(lo, Math.min(hi, v))` lies in [lo, hi] when that is non-empty, is v when v is inside, lo below it, hi above it, and lo for an empty interval |
| Geometry.HitRule | game.js:297 | for an exact distance (non-negative, squaring to dx²+dy²) the test `dist - rA - rB < 1` holds iff dx²+dy² < (rA+rB+1)² |
| Seqs.Filter | game.js:388 | `filter(p => !p.markedForDeletion)`: the filtered list has as many elements as satisfy the test, and every element kept satisfies it (with `FilterMembership`, exactly the elements that pass, in order) |
| Seqs.FilterConcat | game.js:392 | filtering a concatenation filters each part, so survivors keep their relative order |
| Seqs.FilterMembership | game.js:392 | an element survives the filter iff it was in the list and passes the test |
| Entities.Launch | game.js:179-194 | a new projectile starts at its origin, unflagged, with the given side, and its velocity is 10 times the heading `direction` gives for the offset from origin to target; with a unit heading its speed is exactly 10 |
| Entities.ProjectileStep | game.js:196-204 | a projectile moves by its velocity and nothing else changes but the flag, which is set iff it was set or the new position is outside [0,width]×[0,height] |
| Entities.NewEnemy | game.js:215-234 | a new enemy has 30 health, is unflagged, its timer starts now; with draws in [0,1) it sits on an edge 30 outside the canvas, speed in [1,2), interval in [2000,4000) |
| Entities.EnemyStep | game.js:236-248 | an enemy moves by `speed` times the heading `direction` gives for the offset to the player (a step of length exactly `speed` for a unit heading); it fires iff `now - lastShot > shootInterval`, and then exactly one shot: the hostile projectile launched from its new position at the player, and restarts its timer; otherwise the timer is unchanged; nothing else about it changes |
| Entities.EnemyShotSpacing | game.js:244-247 | right after an enemy fires at t0, its next step at t1 fires iff t1 - t0 exceeds its interval |
| Entities.NewPlayer | game.js:69-79 | `new Player()` with its shot timer then set to 0 (game.js:269-270): 100 health, 2 bandages, shot timer 0, at the canvas centre, which on a canvas at least 40 wide and tall is one radius clear of each edge |
| Entities.Burst | game.js:153-158 | a burst of n particles has n fresh, fully opaque particles at the given point |
| Entities.Dim | game.js:60-66 | an update lowers the opacity by exactly 2 hundredths and changes nothing else; position is not modelled as moving, so a particle stays where it was created; a faded particle stays faded |
| Entities.Lifespan | game.js:60-66 | a fresh particle's opacity after k updates is 100 - 2k hundredths, and it has faded iff k ≥ 50 |
| Session.UseBandage | game.js:147-160 | nothing changes unless bandages > 0 and health < 100; then one bandage is spent, health rises by min(25, 100 - health), ten heal particles appear, nothing else changes; the invariant is kept |
| Session.TakeDamage | game.js:162-176 | health becomes max(0, health - amount); the game stops iff that blow leaves no health; five damage particles appear; nothing else changes; the invariant is kept |
| Session.EndGame | game.js:429-431 | the game stops and nothing else changes |
| Session.TogglePause | game.js:444-446 | nothing changes once the game is over; otherwise only `paused` flips |
| Session.Init | game.js:268-279 | a running, unpaused game with score 0, no projectiles, enemies or particles, a centred player with 100 health, 2 bandages and shot timer 0; canvas, input and spawn counter carry over; the invariant holds |
| Session.Boot | game.js:5-13 | the session as the page starts it satisfies the invariant, with the spawn counter at 0 and no keys down |
| Collisions.HitEnemy | game.js:297-327 | no list changes length (its whole effect: CollisionLaws.HitEnemyLaw) |
| Collisions.FriendlyStep | game.js:296-298 | one test of a friendly projectile against one enemy changes no list's length (its effect: CollisionLaws.FriendlyStepLaw) |
| Collisions.FriendlyScan | game.js:295-329 | testing a friendly projectile against the first j enemies changes no list's length |
| Collisions.HostileCheck | game.js:331-337 | the hostile test changes no list's length (its effect: CollisionLaws.HostileLaw) |
| Collisions.ProjectileStepPass | game.js:292-338 | testing one projectile (against every enemy if friendly, the player if hostile) changes no list's length (its effect: CollisionLaws.StepEnemy, StepMark, StepPlayer) |
| Collisions.ProjectileScan | game.js:292-339 | processing the first k projectiles changes no list's length |
| Collisions.ContactScan | game.js:342-347 | the contact loop changes no list's length |
| Collisions.CollidePass | game.js:290-348 | the pass with its drop-draw count changes no list's length (its tally: CollisionLaws.CollideTally, CollideKills) |
| Collisions.Collide | game.js:290-348 | the collision pass changes no list's length |
| CollisionLaws.HitEnemyLaw | game.js:297-327 | a hit takes exactly 10 off that enemy, flags it iff it was flagged or is now at 0 or below, and then (only then) adds exactly 100 to the score, uses one drop draw and grants a bandage iff that draw is below 0.2; 3 impact particles are appended at the projectile, then (only on a kill) 15 explosion particles at the enemy; the projectile is flagged; nothing else changes |
| CollisionLaws.FriendlyStepLaw | game.js:296-297 | testing one friendly projectile against one enemy changes that enemy's health by 10 iff they overlap, flags the projectile iff they overlap (or it was flagged), and moves nothing |
| CollisionLaws.FriendlyStepTally | game.js:309-325 | one test keeps score and bandages in step with kills and drop draws, leaves the player's health and the running flag, and keeps the invariant |
| CollisionLaws.HostileLaw | game.js:331-337 | an overlapping hostile projectile deals `takeDamage(10)` and is flagged; otherwise nothing changes; enemies and score are untouched |
| CollisionLaws.TargetsWitness | game.js:295-297 | a friendly projectile has a target iff some enemy overlaps it |
| CollisionLaws.FriendlyScanEnemy | game.js:295-329 | a friendly projectile is tested against every enemy: each one it overlaps loses exactly 10 and is flagged if that leaves it at 0 or below; the others are untouched |
| CollisionLaws.CollideFrame | game.js:290-348 | a pass moves nothing and changes nothing but flags, enemy health, particles, the player's health and bandages, the score and the running flag |
| CollisionLaws.CollideTally | game.js:309-325 | after a pass, score = old score + 100 × kills and bandages = old bandages + number of drop draws below 0.2 |
| CollisionLaws.FriendlyScanKills | game.js:295-327 | a friendly projectile's scan uses one drop draw per enemy its hit leaves at 0 or below |
| CollisionLaws.StepKills | game.js:292-338 | testing one projectile uses one draw per enemy it fells if friendly, none if hostile |
| CollisionLaws.ScanFelled | game.js:292-327 | when one projectile adds to each enemy's own kill count what it fells of that enemy, it adds the sum to the total |
| CollisionLaws.ScanFelledOne | game.js:292-327 | within the loop a projectile adds to an enemy's own kill count exactly when it is friendly and its hit leaves that enemy, as it then stands, at 0 or below |
| CollisionLaws.ScanFelledAll | game.js:292-327 | within the loop a projectile adds to the kills of all enemies exactly the number it fells |
| CollisionLaws.ScanKillsStep | game.js:292-339 | each projectile of the loop adds to the drop draws used what it adds to the enemies' kill counts |
| CollisionLaws.ScanKills | game.js:292-339 | over the projectile loop, the drop draws used are the per-enemy kill counts summed over the enemies |
| CollisionLaws.NoKillsYet | game.js:292 | before any projectile no enemy accounts for a kill |
| CollisionLaws.CollideKills | game.js:292-327 | the kills of a pass, hence its score (+100 each) and its drop draws, are, summed over the enemies, the friendly hits that leave each enemy, counted down 10 per hit from its health before the pass, at 0 or below |
| CollisionLaws.DownsOnce | game.js:299-310 | an enemy with health left accounts for a kill iff the pass's hits bring it to 0 or below, and for at most one unless a later hit takes it to -10 or lower |
| CollisionLaws.KillFlags | game.js:299-310 | an unflagged enemy with health left is flagged by a pass iff it accounts for a kill, and accounts for exactly one when not overkilled; so without overkill the kills are the newly flagged enemies |
| CollisionLaws.CollideInv | game.js:290-348 | a pass keeps the invariant |
| CollisionLaws.CollideMark | game.js:292-339 | after a pass a projectile is flagged iff it was flagged or hit something it is tested against (the player if hostile, some enemy if friendly) |
| CollisionLaws.CollideEnemy | game.js:292-330 | after a pass each enemy has lost exactly 10 per friendly projectile overlapping it, and is flagged iff it was flagged or was hit and is at 0 or below |
| CollisionLaws.CollidePlayer | game.js:331-347 | after a pass the player's health is max(0, health - 10 × hostile hits - 1 × touching enemies), and the game runs on iff that leaves health |
| CollisionLaws.ThirdShotDowns | game.js:299-310 | a fresh enemy (30 health) is flagged by a pass iff at least three friendly projectiles overlap it |
| CollisionLaws.Overkill | game.js:295-327 | two friendly projectiles overlapping one enemy at 10 health both hit it: the pass scores 200, spends two drop draws, leaves the enemy at -10 and flagged |
| CollisionLaws.ExactHits | game.js:297 | with an exact `hypot`, each of the three collision tests is the one circle test with its own two radii |
| Rules.Axis | game.js:87-90 | a keyboard axis is +1 iff only its positive key (or arrow) is held, -1 iff only its negative one, else 0 |
| Rules.Heading | game.js:84-110 | the stick's deflection while it is active; otherwise the two keyboard axes (`Axis`), both divided by `Math.hypot(1, 1)` when both are non-zero; that direction has length at most 1, a diagonal having equal components with squares below 1/2 |
| Rules.DiagonalBound | game.js:103-105 | a diagonal divided by the double `Math.hypot(1, 1)` is no longer than 1 |
| Rules.Walk | game.js:100-114 | only the position changes: each coordinate is the stepped coordinate (old + heading × 5) clamped to [20, size - 20]; so on a canvas at least 40 wide and tall the player ends one radius clear of each edge, exactly at the stepped position when that is inside the margin |
| Rules.PlayerStep | game.js:81-121 | the player walks; 'e' is released; a bandage is used (one, with its heal of min(25, 100 - health) and ten heal particles at the player's new position) iff 'e' was held with a bandage in hand and health below 100; nothing else changes; the invariant is kept |
| Rules.StaysOnCanvas | game.js:113-114 | on a canvas at least 40 wide and tall the player ends every update one radius clear of each edge |
| Rules.KeyboardStep | game.js:100-111 | without the stick a frame moves the player at most its speed, diagonals included |
| Rules.OneBandagePerPress | game.js:117-120 | two updates with one press use at most one bandage and leave 'e' released |
| Rules.Target | game.js:373-380 | with the aim stick active the target lies 100 × the stick's deflection from the player; otherwise it is the mouse position |
| Rules.Fire | game.js:355-384 | when triggered in a running game with more than 200 ms since the last shot, one friendly projectile towards the target is appended and the shot time is stamped; otherwise nothing changes; the invariant is kept |
| Rules.ShotSpacing | game.js:370-383 | right after a shot at t0 no frame at t1 ≤ t0 + 200 fires, and once more than 200 ms have passed a trigger fires |
| Rules.Advance | game.js:387 | every projectile is stepped in place by `ProjectileStep`, none added or dropped |
| Rules.MoveProjectiles | game.js:387-388 | the projectile phase steps every projectile and then keeps exactly the unflagged ones, in order; none left is flagged, and nothing else changes |
| Rules.ProjectileFate | game.js:387-388 | a projectile's step survives iff it was unflagged and its new position is on the canvas |
| Rules.ProjectileSurvivors | game.js:387-388 | every surviving projectile is the step of one that was there |
| Rules.Spawn | game.js:283-288 | the counter rises by one, and one `new Enemy()` is appended exactly when the new count is a multiple of 100 |
| Rules.SpawnCount | game.js:283-288 | n frames raise the counter by n and add one enemy per multiple of 100 reached |
| Rules.MultiplesClosed | game.js:285 | from t ≥ 0, n steps reach (t + n) / 100 - t / 100 multiples of 100 |
| Rules.SpawnCadence | game.js:283-288 | any 100 consecutive frames spawn exactly one enemy |
| Rules.Pursue | game.js:391 | every enemy steps, none added or dropped |
| Rules.MoveEnemies | game.js:391-392 | the enemy phase steps every enemy and keeps exactly the unflagged ones, in order, and appends the shots fired to the old projectiles; none left is flagged, and nothing else changes |
| Rules.EnemyFate | game.js:391-392 | an enemy's step survives the enemy phase iff the enemy was unflagged |
| Rules.NoneFlaggedNoneLost | game.js:391-392 | with no enemy flagged, the phase keeps every enemy, each moved by its own step, in order |
| Rules.PursueAt | game.js:391 | each enemy's step within the list is its own step alone |
| Rules.PursueShots | game.js:391 | an enemy that is due to fire adds its shot to the list of new shots |
| Rules.PursueShotCount | game.js:391 | the phase adds exactly one shot per enemy whose timer has run out |
| Rules.FlaggedStillFires | game.js:391-392 | an enemy flagged in the previous frame still moves and, when due, fires a shot that stays in play before it is dropped |
| Rules.Cull | game.js:394-400 | the particle phase never lengthens the list |
| Rules.CullNoneFaded | game.js:394-400 | with no faded particle every particle is dimmed and none removed |
| Rules.CullAllFaded | game.js:394-400 | with every particle faded only those at odd positions survive, untouched: half the list, rounded down |
| Rules.CullKeepsHalf | game.js:394-400 | the particle phase removes at most half the particles, rounded up |
| Rules.Moved | game.js:350-400 | the phases before the collision pass keep the flags and the score, raise the counter by one, leave no enemy flagged, and keep the invariant |
| Rules.Tick | game.js:350-403 | a frame changes nothing once the game is over, never changes the canvas size, and never lowers the score |
| Rules.TickInv | game.js:350-402 | a frame keeps the invariant, and once the game is over a frame changes nothing |
| Rules.PausedFrameRuns | game.js:350-351 | a frame on a paused running game still runs (the counter rises) and leaves it paused |
| Rules.FlaggedAfterTick | game.js:299-310 | an enemy flagged at the end of a frame has health at 0 or below |
| Engine.World.constructor | game.js:5-13 | the new object holds the session as the page starts it, and is valid |
| Engine.World.Init | game.js:268-279 | the object's new state is `Session.Init` of its old one |
| Engine.World.EndGame | game.js:429-431 | the object's new state is `Session.EndGame` of its old one |
| Engine.World.TogglePause | game.js:444-446 | the object's new state is `Session.TogglePause` of its old one |
| Engine.World.Emit | game.js:153-158 | the loop appends exactly the burst of n particles |
| Engine.World.UseBandage | game.js:147-160 | the object's new state is `Session.UseBandage` of its old one |
| Engine.World.TakeDamage | game.js:162-176 | the object's new state is `Session.TakeDamage` of its old one |
| Engine.World.Move | game.js:100-114 | the player's new value is `Walk` of its old one |
| Engine.World.UpdatePlayer | game.js:81-121 | the object's new state is `Rules.PlayerStep` of its old one |
| Engine.World.Fire | game.js:355-384 | the object's new state is `Rules.Fire` of its old one |
| Engine.World.UpdateProjectiles | game.js:387-388 | the loop steps every projectile in place, then the filter; the new state is `Rules.MoveProjectiles` of the old one |
| Engine.World.SpawnEnemies | game.js:283-288 | the object's new state is `Rules.Spawn` of its old one |
| Engine.World.UpdateEnemy | game.js:236-248 | enemy i's slot becomes its `EnemyStep` and its shot, if any, is pushed onto the projectiles |
| Engine.World.PursueAll | game.js:391 | the loop leaves every enemy stepped in place and their shots appended in list order |
| Engine.World.UpdateEnemies | game.js:391-392 | the object's new state is `Rules.MoveEnemies` of its old one |
| Engine.World.UpdateParticles | game.js:394-400 | the splice-in-loop leaves the list as `Rules.Cull` of the old one |
| Engine.SpliceFaded | game.js:396-397 | splicing out a faded particle leaves the pass's outcome unchanged, resumed one index on |
| Engine.World.HitEnemy | game.js:299-327 | the in-place hit leaves the object and the draw count as `Collisions.HitEnemy` gives them |
| Engine.World.Strike | game.js:296-298 | one test of a friendly projectile against one enemy leaves the object and the draw count as `Collisions.FriendlyStep` gives them |
| Engine.World.Volley | game.js:295-329 | the inner loop leaves the object as `Collisions.FriendlyScan` over every enemy gives it |
| Engine.World.CheckProjectile | game.js:293-338 | one projectile's tests leave the object as `Collisions.ProjectileStepPass` gives it |
| Engine.World.CheckContacts | game.js:342-347 | the contact loop leaves the object as `Collisions.ContactScan` gives it |
| Engine.World.CheckCollisions | game.js:290-348 | the object's new state is `Collisions.Collide` of its old one |
| Engine.World.Update | game.js:350-403 | the object's new state is `Rules.Tick` of its old one, and a valid object stays valid |

## Left out

- Drawing: every `draw()` method, the trail clear, `updateUI` and the page edits of `endGame`, `init` and `togglePause`. They only produce output.
- Scheduling: `loop`, `requestAnimationFrame` and `cancelAnimationFrame`. One frame is one call of `World.Update`. The frame that `init()` runs at once through `loop()` is not part of `World.Init`.
- Event listeners, window resizing, `setupMobileControls` and the joystick geometry. The key map, the mouse and the touch-control state are plain inputs. The touch bandage button calls `useBandage` directly, which is the same as `World.UseBandage`.
- Floating point: positions and velocities are exact reals. `Math.atan2`/`Math.cos`/`Math.sin` are the `direction` parameter and `Math.hypot` is the `hypot` parameter. The diagonal step uses the double value of `Math.hypot(1, 1)`.
- Particle motion: the random velocity, the friction and the drift they cause (game.js:61-64) are not modelled; a particle stays where it was created. Opacity is an integer count of hundredths: 100, falling by 2 per update.
- Time: `Date.now()` is read once per frame. The source reads it once for the player's shot (game.js:369), once in each enemy's update (game.js:243) and once in each Enemy constructor (game.js:232, the new enemy's fire timer), and these readings may differ by a few milliseconds.
- Randomness: the model keeps separate streams for enemy construction and bandage drops. The draws for particle velocities are not modelled. In the source all of them come from one `Math.random` sequence.
- Aliasing: entities are values inside the lists. The source never shares an entity between lists or holds one elsewhere, so in-place field writes are modelled as writes to a list slot.
