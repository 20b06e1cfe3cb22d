# Tower defense core in Dafny

This project models the game logic of `TowerDefenseFrame.java`, a Swing tower
defense game. Enemies walk a fixed path of ten waypoints towards a base. Towers
on twelve fixed slots shoot bullets at them. Attack bullets deal damage.
Freeze bullets set the enemy's `congelado` flag. An enemy that comes within 100
units of the base deals it 10 damage and dies. When the base's health drops to
zero or below, the game ends. A wave manager adds one more enemy with every
wave.

The model has two layers:

- **Value-level rules.** Modules `BaseRules`, `EnemyRules`, `BulletRules`,
  `TowerRules`, `WaveRules`, `SlotRules` and `WorldRules` state each operation
  as a function over datatypes. Lemmas prove what the game promises about those
  functions.
- **Heap-level classes.** Module `Game` holds the Java classes `Base`,
  `Enemigo`, `Torre`, `WaveManager`, `GamePanel` and `TowerDefenseFrame`.
  Their methods change fields as the Java methods do. Each method that has a
  value-level rule is proved against it; the rest (`WaveManager.Start`, `Stop`
  and `Reset`, `GamePanel.AddTorre` and `SetJuegoActivo`) state the fields they
  set and frame everything else.

`Path` holds the waypoints (`camino`) and the integer interpolation of the
walk. `Common` holds Java's truncating integer division (`TruncDiv`), exact
squared distances, and the subsequence facts used for list removal.

Enemies are objects shared by the roster, their own walking thread and every
tower. The bullet and tick specifications are therefore generic in the enemy
identity, and they read the enemies' fields from a map from identity to
`EnemyView`. The class methods tie the heap to that map.

An enemy's thread (`Enemigo.run`) is modelled as a state machine over the
datatype `Phase`:

- `AtGuard(i, step)`: about to test `juegoActivo && !congelado && vivo`.
- `AfterMove(i, step)`: about to test `congelado`.
- `Finished`: `run` has returned.

`Enemigo.Step` performs one transition. Other threads may run between any two
steps. `Enemigo.Run` steps until the walk is over. `AdvanceProgresses` proves
that the walk always terminates.

A bullet (`Bala`) is a value. Only the tower that owns it holds it, and its one
mutator (`mover`) runs only inside `updateBullets`.

Behaviour of the code that the model keeps as written:

- Base health is not clamped at zero. It can go negative.
- `resetGame` creates the new base with 1000 health. The first base has 100.
- `enemiesPerWave` survives `resetGame`, because `WaveManager.reset` keeps the
  same object.
- `WaveManager.reset` replaces the scheduler but does not start it. After a
  reset no waves are scheduled.
- `resetGame` does not reset the tower slot index. Once twelve towers have
  been placed, later placements do nothing, even after a reset.
- `updateBullets` removes only enemies that its own hit killed. An enemy that
  died by reaching the base stays in the roster.
- An enemy whose `congelado` flag is already set when its next move begins
  stops walking for good, since the `else` branch returns. It pauses only when
  the freeze arrives during the move. In both cases it stays alive and in the
  roster.
- A freeze bullet is used up even on an enemy that is already frozen.
- A tower aims at the first live enemy in range, in roster order. The velocity
  is the displacement divided by 10, rounded toward zero.

## Model

| member | source | states |
|---|---|---|
| Common.TruncDiv | TowerDefenseFrame.java:205-206 | Java's `int` division: the quotient times the divisor lies between 0 and the dividend, less than one divisor away from it, for either sign |
| Path.ConsecutiveWaypointsDiffer | TowerDefenseFrame.java:240-250 | no two consecutive waypoints of `camino` coincide |
| Path.Lerp | TowerDefenseFrame.java:320-321 | one coordinate at move s of n, `a + (b - a) * s / n` with truncating division; `LerpEnds`, `LerpUnitMove`, `LerpBetween` and `LerpFullSlope` state its properties |
| Path.PathPoint | TowerDefenseFrame.java:320-321 | the position at move s of segment i, from `Lerp` on both coordinates; `PathPointEnds`, `PathPointUnitMove`, `PathPointOnSegment` and `PathPointDominantAxis` state its properties |
| Path.Steps | TowerDefenseFrame.java:317 | a segment's move count is positive, at least each coordinate's distance, and equal to one of them: the larger coordinate distance |
| Path.LerpEnds | TowerDefenseFrame.java:320-321 | with truncating division, the interpolation yields the start at move 0 and the end at the last move |
| Path.LerpUnitMove | TowerDefenseFrame.java:320-321 | consecutive moves change a coordinate by at most 1, always toward the end point |
| Path.LerpBetween | TowerDefenseFrame.java:320-321 | every interpolated coordinate lies between the segment's end values |
| Path.LerpFullSlope | TowerDefenseFrame.java:320-321 | when the coordinate's distance equals the move count, move s is exactly s units from the start, towards the end |
| Path.PathPointEnds | TowerDefenseFrame.java:312-321 | move 0 of segment i is waypoint i-1 and move `steps` is waypoint i |
| Path.PathPointUnitMove | TowerDefenseFrame.java:317-321 | an enemy moves at most one unit per axis per step |
| Path.PathPointOnSegment | TowerDefenseFrame.java:317-321 | every position an enemy takes lies on the segment between the two waypoints |
| Path.PathPointDominantAxis | TowerDefenseFrame.java:317-321 | on each segment the coordinate with the larger distance advances by exactly one unit per move, towards the segment's end |
| BaseRules.RecibirDano | TowerDefenseFrame.java:40-53 | inactive game: no change and no game over; otherwise health drops by the damage unclamped, the game stays active exactly while health is positive, and game over is reported exactly when this call ended the game |
| BaseRules.InactiveIgnoresDamage | TowerDefenseFrame.java:41-43 | once the game is inactive, any sequence of damage calls changes nothing |
| BaseRules.GameOverAtMostOnce | TowerDefenseFrame.java:40-53 | over any sequence of damage calls game over fires at most once, leaves the game inactive, and never fires from an inactive start |
| BaseRules.GameOverExactlyWhenDepleted | TowerDefenseFrame.java:44-49 | with non-negative damages on a live base, game over fires iff the total damage reaches the health; below that the base is active with health reduced by the total |
| BaseRules.ThreeStrikesFromInitialBase | TowerDefenseFrame.java:416 | three 10-damage strikes on the initial 100-health base leave 70 and the game active |
| EnemyRules.Spawn | TowerDefenseFrame.java:258-262 | a new enemy's state: the given health, alive, not frozen, at `camino[0]`; `Game.Enemigo.constructor` and `Game.GamePanel.AddEnemigo` produce it |
| EnemyRules.Damaged | TowerDefenseFrame.java:272-279 | health drops by the damage; the enemy is alive afterwards iff it was alive and health is positive; position and freeze are unchanged |
| EnemyRules.NextPhase | TowerDefenseFrame.java:312-318 | the loop headers after a move lead to a valid phase, and a dead enemy's walk is finished |
| EnemyRules.Advance | TowerDefenseFrame.java:310-347 | one step never changes health or revives; a strike kills the enemy and ends the walk; the phase stays valid |
| EnemyRules.FinishedIsFinal | TowerDefenseFrame.java:310-347 | after `run` has returned, steps change nothing |
| EnemyRules.GuardFailureEndsWalk | TowerDefenseFrame.java:319-331 | an inactive game, a set freeze flag or a dead enemy at the guard ends the walk with no change |
| EnemyRules.GuardPassMoves | TowerDefenseFrame.java:319-327 | past the guard the enemy moves to the interpolated point, and strikes iff that point is within 100 units of the base; without a strike it lives on to the freeze check |
| EnemyRules.AfterMoveClearsFreeze | TowerDefenseFrame.java:333-337 | after a move a pending freeze is cleared without moving the enemy and the loop advances |
| EnemyRules.AdvanceProgresses | TowerDefenseFrame.java:310-347 | every step of an unfinished walk lowers the bound, so `run` terminates whatever other threads do between steps |
| EnemyRules.StartMeasure | TowerDefenseFrame.java:240-250 | a walk along `camino` takes at most 8818 steps |
| EnemyRules.DeathIsFinal | TowerDefenseFrame.java:272-279 | neither a step nor damage revives a dead enemy |
| BulletRules.Mover | TowerDefenseFrame.java:92-95 | one move of a bullet by its velocity; `TravelIsStraight` states where repeated moves take it |
| BulletRules.TravelIsStraight | TowerDefenseFrame.java:92-95 | after k moves a bullet is at its start plus k times its velocity, with velocity and payload unchanged |
| BulletRules.Impacto | TowerDefenseFrame.java:103-106 | a hit means a squared distance below 100, which is `hypot < 10` on integer coordinates; `FirstHit` uses it |
| BulletRules.Struck | TowerDefenseFrame.java:172-176 | a freeze bullet sets `congelado`, any other deals its damage as `Damaged`; `HitEffect` and `PayloadsStayApart` state its effect within a pass |
| BulletRules.FirstHit | TowerDefenseFrame.java:168-171 | the index found is the first live enemy in roster order within 10 units of the bullet; none means no live enemy is within 10 |
| BulletRules.BulletStep | TowerDefenseFrame.java:165-182 | a moved bullet is dropped iff it hits some live enemy; the roster only loses entries; a miss keeps the bullet and changes nothing else |
| BulletRules.UpdateSpec | TowerDefenseFrame.java:163-185 | the whole pass, bullet by bullet in list order; its contract says every recorded enemy keeps a state and the roster stays covered; `UpdateKeepsBulletOrder`, `UpdateShrinksRoster`, `UpdateNeverHeals`, `PayloadsStayApart`, `RemovedEnemiesAreDead`, `UpdateNeverRevives` and `UpdateTouchesOnlyRoster` state what it does |
| BulletRules.HitEffect | TowerDefenseFrame.java:171-181 | a hit affects only the first live enemy touched: a freeze only sets `congelado`, an attack only deals its damage, and the enemy leaves the roster iff the hit killed it |
| BulletRules.UpdateKeepsBulletOrder | TowerDefenseFrame.java:164-177 | the surviving bullets are the moved bullets in their original order, never more of them |
| BulletRules.UpdateShrinksRoster | TowerDefenseFrame.java:177-180 | the roster only loses enemies and keeps its order |
| BulletRules.UpdateNeverHeals | TowerDefenseFrame.java:171-176 | with non-negative bullet damage no enemy's health grows |
| BulletRules.PayloadsStayApart | TowerDefenseFrame.java:172-176 | freeze bullets never change health, attack bullets never set `congelado` |
| BulletRules.RemovedEnemiesAreDead | TowerDefenseFrame.java:177-180 | an enemy leaves the roster only dead, and an enemy already dead on entry is never removed |
| BulletRules.UpdateNeverRevives | TowerDefenseFrame.java:163-185 | no dead enemy comes back to life during the pass |
| BulletRules.UpdateTouchesOnlyRoster | TowerDefenseFrame.java:163-185 | enemies not on the roster keep their state |
| TowerRules.NewTower | TowerDefenseFrame.java:194-197 | a new tower: damage 20 for the attack kind and 0 for the freeze kind, range 200, no bullets, shot time 0; `Game.Torre.constructor` produces it, and the freeze constructor is at lines 216-219 |
| TowerRules.Qualifies | TowerDefenseFrame.java:204 | a target is live and within range, as a squared-distance test matching `hypot <= rango`; `FirstTarget` and `Fire` use it |
| TowerRules.CooledDown | TowerDefenseFrame.java:202 | the strict cooldown test `now - lastShotTime > shotInterval`; `Fire` and `CooldownAllowsOneShot` state its effect |
| TowerRules.FirstTarget | TowerDefenseFrame.java:203-204 | the index found is the first live enemy in roster order within the tower's range; none means there is no such enemy |
| TowerRules.Shot | TowerDefenseFrame.java:205-207 | the bullet starts at the tower, its velocity is the displacement to the target divided by 10 toward zero (pointing at the target), and it carries the tower's damage or the freeze |
| TowerRules.Fire | TowerDefenseFrame.java:200-213 | once the cooldown has passed and a target exists, exactly one bullet is appended, aimed at the first target, and the shot time becomes now; otherwise nothing changes; only bullets and shot time ever change |
| TowerRules.CooldownAllowsOneShot | TowerDefenseFrame.java:202-208 | two shots within one interval add exactly one bullet |
| TowerRules.AttackTowerExample | TowerDefenseFrame.java:194-213 | an attack tower fires a 20-damage bullet at 15 units per tick at an enemy 150 units away, and nothing at one 300 units away |
| WaveRules.LaunchWave | TowerDefenseFrame.java:368-382 | one launch: with the permit free, one spawn per enemy of the wave and the wave one larger; with it held, nothing; `LaunchesGrowLinearly`, `GameWaves` and `HeldGateSkips` state what repeated launches do |
| WaveRules.LaunchesGrowLinearly | TowerDefenseFrame.java:368-382 | with the permit free, k launches from wave size n request n + (n+1) + ... + (n+k-1) spawns and leave size n+k with the permit free |
| WaveRules.GameWaves | TowerDefenseFrame.java:354 | from the initial 5, the k-th wave has 4+k enemies |
| WaveRules.HeldGateSkips | TowerDefenseFrame.java:369-381 | while the permit is held, launches are skipped and not queued |
| SlotRules.PlacementsTakeSlotsInOrder | TowerDefenseFrame.java:558-559 | for any slot list, consecutive presses take the slots in order and stop after the last |
| SlotRules.NoSlotUsedTwice | TowerDefenseFrame.java:539-545 | from a fresh frame n presses place min(n, 12) towers on pairwise distinct slots |
| WorldRules.TickSpec | TowerDefenseFrame.java:434-437 | one tick over the towers in list order; its contract says every tower and enemy keeps a recorded state; `TickShrinksRoster`, `TickNeverRevives` and `TickTouchesOnlyListedTowers` state what it does |
| WorldRules.TickShrinksRoster | TowerDefenseFrame.java:434-437 | a tick only removes enemies from the roster and keeps its order |
| WorldRules.TickNeverRevives | TowerDefenseFrame.java:434-437 | no enemy revives during a tick, and none leaves the roster alive |
| WorldRules.TickTouchesOnlyListedTowers | TowerDefenseFrame.java:434-437 | unlisted towers are untouched, and a tower gains at most one bullet per appearance in the list |
| Game.Base.constructor | TowerDefenseFrame.java:23-27 | the base has the given health and position |
| Game.Base.RecibirDano | TowerDefenseFrame.java:40-53 | the base's health, the game flag and the game-over report are as `BaseRules.RecibirDano` gives them |
| Game.Enemigo.constructor | TowerDefenseFrame.java:258-263 | a new enemy is alive, not frozen, at the first waypoint, with the given health and its walk not begun |
| Game.Enemigo.RecibirDano | TowerDefenseFrame.java:272-279 | the enemy's state becomes `Damaged` of the old one |
| Game.Enemigo.Congelar | TowerDefenseFrame.java:281-283 | only `congelado` changes, to true |
| Game.Enemigo.Step | TowerDefenseFrame.java:310-347 | the enemy and its phase become what `Advance` gives; a strike deals the base 10 damage as `BaseRules.RecibirDano` gives it; without one the base and game flag are unchanged |
| Game.Enemigo.Run | TowerDefenseFrame.java:310-347 | the walk finishes, health is unchanged and a dead enemy stays dead; either it never struck and the base and game flag are as before with no game over, or it struck once, is dead, and the base, flag and game-over report are what `BaseRules.RecibirDano` gives for 10 damage |
| Game.ScanHit | TowerDefenseFrame.java:168-171 | the inner scan stops at `FirstHit`'s index, or at the end when there is no hit |
| Game.Strike | TowerDefenseFrame.java:172-176 | the hit enemy is frozen or damaged as `Struck` says |
| Game.Hit | TowerDefenseFrame.java:171-180 | the hit enemy gets `Struck`'s state and is removed from the roster iff that left it dead; other enemies are untouched |
| Game.Torre.constructor | TowerDefenseFrame.java:126-138 | a new tower has the kind's damage (20 or 0), range 200, no bullets and shot time 0 |
| Game.Torre.UpdateBullets | TowerDefenseFrame.java:163-185 | the bullets, the roster and every enemy's state become what `UpdateSpec` gives |
| Game.Torre.MoveBullet | TowerDefenseFrame.java:165-182 | one pass of the outer loop performs `BulletStep` on the bullet at index i, leaving the others in place |
| Game.Torre.Disparar | TowerDefenseFrame.java:200-235 | the tower's state becomes `Fire` of the old one on the roster's states |
| Game.Sweep | TowerDefenseFrame.java:435 | `updateBullets` inside the tick gives `UpdateSpec`'s bullets, roster and states, and leaves enemies off the roster untouched |
| Game.TowerStep | TowerDefenseFrame.java:435-436 | the loop body gives `UpdateSpec`'s roster and states, and the tower becomes `Fire` of its updated state on the new roster |
| Game.Turn | TowerDefenseFrame.java:434-437 | one iteration of the tick loop performs `TickSpec`'s first step from tower i, and the other towers keep their states |
| Game.RunTowers | TowerDefenseFrame.java:434-437 | the tick loop leaves the roster, the towers and the enemies as `TickSpec` gives them |
| Game.WaveManager.constructor | TowerDefenseFrame.java:354-362 | a new manager has wave size 5, the permit free and nothing scheduled |
| Game.WaveManager.Start | TowerDefenseFrame.java:364-366 | the waves are scheduled |
| Game.WaveManager.LaunchWave | TowerDefenseFrame.java:368-382 | the permit and wave size become what `WaveRules.LaunchWave` gives, and exactly that many fresh enemies are appended to the panel's roster, each spawned at the path's start |
| Game.WaveManager.Stop | TowerDefenseFrame.java:384-393 | the waves are no longer scheduled |
| Game.WaveManager.Reset | TowerDefenseFrame.java:395-398 | the waves are not scheduled afterwards |
| Game.GamePanel.constructor | TowerDefenseFrame.java:411-426 | empty lists, a fresh base with 100 health at (750, 50), the game active, the timer running, and a fresh manager with wave size 5 scheduled |
| Game.GamePanel.UpdateGame | TowerDefenseFrame.java:428-439 | inactive game: the timer stops and nothing else changes; active game: roster, towers and enemies become what `TickSpec` gives |
| Game.GamePanel.AddTorre | TowerDefenseFrame.java:441-444 | the tower is appended to the list |
| Game.GamePanel.AddEnemigo | TowerDefenseFrame.java:446-450 | one fresh enemy with 100 health at the path's start is appended to the roster |
| Game.GamePanel.ResetGame | TowerDefenseFrame.java:512-526 | empty lists, a fresh base with 1000 health, the game active, the timer running, no waves scheduled, wave size kept |
| Game.GamePanel.SetJuegoActivo | TowerDefenseFrame.java:532-534 | the game-active flag becomes the argument; `IsJuegoActivo` (lines 528-530) returns the flag, `Base.RecibirDano` reads it through `IsJuegoActivo` and clears it through `SetJuegoActivo` (lines 41, 49), and `Enemigo.Step` reads it through `IsJuegoActivo` (line 319) |
| Game.TowerDefenseFrame.constructor | TowerDefenseFrame.java:538-545 | a fresh panel with empty lists and the game active, a fresh base with 100 health at (750, 50), the timer running, a fresh wave manager with waves scheduled, the permit free and wave size 5, and slot index 0 |
| Game.TowerDefenseFrame.AddAttackTower | TowerDefenseFrame.java:556-562 | while a slot is left, an attack tower with interval 1000 is placed on the next slot and the index moves on; otherwise nothing changes |
| Game.TowerDefenseFrame.AddFreezeTower | TowerDefenseFrame.java:564-570 | the same with a freeze tower and interval 2000 |
| Game.TowerDefenseFrame.AddTower | TowerDefenseFrame.java:558-561 | the shared body of the two buttons, as `SlotRules.Place` says |
| Game.TowerDefenseFrame.SpawnEnemy | TowerDefenseFrame.java:552-553 | one fresh enemy is appended to the panel's roster |

## Left out

- Threads, `Thread.sleep`, the 10 ms step delay and the 500 ms freeze pause. These are concurrency and timing. Interleaving with other threads is represented only by the fact that towers can act between any two `Enemigo.Step` calls.
- Game.Enemigo.Run: runs the walk with no other thread stepping in between. It states termination, unchanged health, final death, and the base, game flag and game-over report (untouched, or one 10-damage strike), but not the positions visited; `Step` states those, one step at a time.
- `Thread.currentThread().interrupt()` in `recibirDaño` (line 277) and the `InterruptedException` handler. It interrupts the thread that called `recibirDaño`: the event dispatch thread, where the Swing timer's listener (`updateGame`, line 422) and `paintComponent` (line 473) run. It does not interrupt the enemy's thread.
- The `SwingUtilities.invokeLater` calls: repaints, the deferred `resetGame` after game over, and the deferred `addEnemigo` of each wave. Game over is reported by the `gameOver` result. Each wave's spawns are performed directly in `LaunchWave`.
- `JOptionPane` dialogs, `System.out.println` logging, rendering (`draw`, `paintComponent`, `drawPathWithImage`, `showBaseHealth`) and image loading. These are I/O.
- The null base when image loading fails in the `GamePanel` constructor (lines 413-421). The model always creates the base.
- The `updateBullets` call inside `paintComponent` (line 473). It depends on when Swing repaints.
- The scheduler's and timer's firing times. `WaveManager.scheduled` and `GamePanel.timerRunning` record only whether each runs. `System.currentTimeMillis()` is the parameter `now`.
- Game.GamePanel.UpdateGame: one clock reading `now` serves every tower of a tick, through `RunTowers` and `TickSpec`. In the source each `disparar` reads `System.currentTimeMillis()` itself (lines 201 and 223), so towers later in the list may see a later time.
- The semaphore as a lock across threads. It is the boolean `gateFree`, which is always free when a launch starts in a sequential model. `HeldGateSkips` states the held case.
- The panel back-references of `Base` and `WaveManager`. These are passed as method parameters.
- Java's 32-bit `int` and 64-bit `long` overflow. All integers are unbounded, so wrap-around is not captured.
- `Math.hypot` on doubles. It is replaced by the exact integer comparison of squared distances.
- The `Bala` image field and bullets' object identity. Bullets are values.
