# Arena battle core of `ttv`, modelled in Dafny

`ttv` is a small Twitch arena game. Chat users spawn "guys" into an arena. The guys gather on a circle and fight in waves.

This project models the discrete core of that game and proves its properties:

- **The wave scheduler** (`process_attacks` in `src/main.rs`), in module `Combat`.
  - While the battle runs, a swing timer counts down at three times game speed.
  - When the timer runs out, every pending attack takes one point of health from its target, and guys with no health left are removed.
  - Then a new wave is assigned:
    - a pairing parked in the queue is retried first;
    - otherwise a target is drawn at random with weight equal to its *effective health* (health minus attacks already aimed at it), and the attacker is the first guy nearest to the target among the other guys with effective health left;
    - a pairing whose attacker is already busy is parked in the queue and ends the pass;
    - the pass also ends when some effective health reaches zero or no attacker is available.
  - The timer then restarts at one unit.
- **The arena circle** (`find_circle` in `src/main.rs`), in module `ArenaCircle`. Its centre is the spawn-weighted mean of the positions. Its radius is the largest, over all guys, of (distance to the centre plus one guy diameter) times that guy's spawn ramp. So the guy that sets the radius is the one with the largest scaled value, not necessarily the farthest one.
- **The spawn ramp** of `update` (`src/main.rs`), which moves every guy's fade-in towards one.
- **Spawning a chat user** (`spawn_guy` in `src/app/spawn.rs`), in module `Spawn`.
  - The guy gets the next id and health `initial_health + level * health_increase_per_level`, with `max_health` equal to it.
  - It starts with zero velocity and a spawn ramp of zero.
  - Its position comes from at most fifty random candidates:
    - candidates closer than the minimum distance to an existing guy are dropped;
    - of the rest, the first one nearest the circle's centre is taken;
    - if every candidate is dropped, the camera centre is used.
- **Library choices**, in module `Selection`: rand's `choose_weighted` (`WeightedPick`) and `Iterator::min_by_key` over a filtered sequence (`FirstMin`).

Modelling decisions:

- **The game state.** The game state struct (`Test`) is the class `Combat.Arena`. The application state of `spawn.rs` is the class `Spawn.State`.
- **Guy collections.** The id-keyed `Collection<Guy>` is a sequence with distinct ids, kept in iteration order. `insert` appends.
- **Numbers.** Positions and times are reals. `f32` rounding is not modelled.
- **Distances.** They are compared through squared distances (`Geometry.Dist2`). These order points exactly as Euclidean lengths do. `len < d` becomes `d > 0 && Dist2 < d * d`.
- **The circle's radius.** It needs an actual length, so the length function is the parameter `len`.
- **Randomness.** It is a parameter throughout.
  - The battle gets `draw: nat -> nat`. The k-th fresh target of a pass uses the roll `draw(k) % total_weight`.
  - `spawn_guy` gets its candidate points as a sequence.
  - The user's level, looked up in the database by the source, is a parameter.
  - So is `State::MIN_DISTANCE`, a constant of the application state that is not part of this model.

What the source does and the model follows:

- **The timer restarts even with no attack.** After an assignment pass the timer always restarts at `Some(1.0)`, even when the pass committed no attack (`src/main.rs:209`). An idle battle therefore re-runs the assignment pass once per swing instead of every frame. The model follows the code.
- **The health subtractions and the id lookups in the battle never panic or wrap.** This covers the unsigned health subtractions and the unwrapped lookups by id in `process_attacks`. It does not cover the right-click removal, which is under "## Left out" and can still cause a panic. Nor does it cover the `i32` id counter, also under "## Left out". The source subtracts from unsigned healths (`src/main.rs:146`, `src/main.rs:167`) and unwraps lookups by id. A lookup of a removed guy would panic. An unsigned subtraction below zero would panic in a build with overflow checks and wrap silently in a release build. Either would happen if a guy were targeted more times than it has health, or if a pending attack named a removed guy. The invariant `Combat.Inv` rules out both. It also guarantees that a queued pairing's attacker and target survive the damage step, because both have health to spare beyond the pending attacks. So the queued attack never names a removed guy as long as guys are only removed by the damage step.

## Model

| member | source | states |
|---|---|---|
| Selection.WeightedPick | src/main.rs:175-177 | for a roll below the total weight: the index whose cumulative-weight interval contains the roll, whose weight is therefore positive |
| Selection.WeightedPickUnique | src/main.rs:175-177 | the cumulative intervals are disjoint: any index whose interval holds the roll is the one picked |
| Selection.WeightedPickOdds | src/main.rs:175-177 | exactly `weights[i]` of the `Sum(weights)` equally likely rolls pick index `i`, so targets are drawn in proportion to effective health |
| Selection.FirstMin | src/main.rs:181-185 | none iff the filter keeps nothing; otherwise a kept index whose key is no larger than any kept key, and strictly smaller than every earlier kept key (`min_by_key` returns the first minimum) |
| Combat.Count | src/main.rs:166-168 | the number of pending attacks aimed at a guy: how much the loop subtracts from its entry in the `healths` map |
| Combat.Weights | src/main.rs:162-168 | the `healths` map read in guy order, the weights passed to `choose_weighted`: one entry per guy, equal to its health less the pending attacks on it |
| Combat.EffectiveHealths | src/main.rs:162-168 | the map's keys are exactly the guys' ids, and each value is the guy's health minus the pending attacks aimed at it |
| Combat.Nearest | src/main.rs:181-185 | none iff no other guy has effective health left; otherwise another guy with effective health left, no farther from the target than any such guy and strictly nearer than every earlier one |
| Combat.Choose | src/main.rs:171-186 | none iff some effective health is zero or fewer than two guys remain; otherwise target and attacker differ and both have effective health, the target's cumulative interval holds the roll, and the attacker is the first nearest other guy |
| Combat.FreshAttack | src/main.rs:162-194 | no fresh pairing iff some guy's pending attacks use up all its health or fewer than two guys remain; a fresh pairing has attacker different from target, both with health to spare |
| Combat.FreshPairing | src/main.rs:162-194 | the loop body's map-building and choice compute exactly the fresh pairing `FreshAttack` specifies |
| Combat.Assign | src/main.rs:158-208 | the labelled assignment loop as a function: retry the queued pairing or draw a fresh one with roll `draw(k)`; commit it if its attacker is idle, park it in the queue and stop if not, stop with none left |
| Combat.Attacking | src/main.rs:196-199 | whether the attacker already has a pending attack, which decides between committing a pairing and queueing it |
| Combat.CommitKeepsWave | src/main.rs:195-207 | committing a committable pairing of an idle attacker keeps the wave well formed and shrinks the set of idle guys |
| Combat.AssignKeepsWave | src/main.rs:158-208 | the assignment loop keeps every attack between two distinct present guys, no attacker twice, nobody targeted beyond its health, and a queued pairing exists only when its attacker is already busy |
| Combat.AssignExtends | src/main.rs:195-207 | the loop only appends to the pending attacks |
| Combat.AssignStopsForAReason | src/main.rs:171-190 | the loop ends with an empty queue only when some guy's effective health is zero or fewer than two guys remain |
| Combat.QueuedFirst | src/main.rs:159-160 | a queued pairing is consumed before any fresh draw and becomes the first attack of the new wave |
| Combat.ScheduleAttacks | src/main.rs:158-208 | the imperative loop ends with exactly the wave the assignment function `Assign` describes |
| Combat.IndexOf | src/main.rs:146 | the lookup by id finds a guy carrying that id |
| Combat.Hurt | src/main.rs:145-147 | one guy after the drain: one point of health less per attack aimed at it, all other fields unchanged |
| Combat.Damaged | src/main.rs:145-147 | every guy after the drain, in order: same length, each guy with its damage applied and nothing else changed |
| Combat.LandAttacks | src/main.rs:145-147 | the drain loop leaves every guy with its health reduced by exactly the number of attacks aimed at it, all else unchanged |
| Combat.Alive | src/main.rs:148 | a guy survives `retain` iff it was present and has health left |
| Combat.DamageStep | src/main.rs:145-148 | after the damage step: ids stay distinct, all survivors have health, every guy not fully consumed survives with exactly its damage applied, every fully consumed guy is gone, and nothing else appears |
| Combat.SurvivorsKeepIds | src/main.rs:148 | the damage step introduces no id at or beyond the next free id |
| Combat.DamageKeepsQueue | src/main.rs:145-160 | after the damage step the queued pairing still names two live guys with health to spare |
| Combat.DamageConserved | src/main.rs:145-148 | a wave removes exactly one point of health per landed attack from the total health of the population |
| Combat.Tick | src/main.rs:138-210 | one call of `process_attacks` as a function of the state: off means unchanged, a positive timer only counts down, otherwise the attacks land (if the timer ran out), the assignment loop runs and the timer restarts at 1.0 |
| Combat.TickWhenIdle | src/main.rs:139-141 | with the battle off, `process_attacks` changes nothing |
| Combat.TickWhileCounting | src/main.rs:142-154 | while the timer stays positive only the timer changes, by `delta_time * 3` |
| Combat.TickKeepsInv | src/main.rs:138-210 | every call keeps the battle invariant: distinct ids, live and positive-health guys, attacks only between present distinct guys, no duplicate attacker, nobody over-targeted, no timer means no pending work |
| Combat.TickKeepsValid | src/main.rs:138-210 | every call keeps the invariant and adds no id at or beyond the next free id |
| Combat.TickAfterSwing | src/main.rs:142-209 | when the timer runs out the attacks land first, the timer restarts at 1.0, and a queued pairing is the first new attack |
| Combat.TickSchedules | src/main.rs:158-209 | whenever at least two guys take part in an assignment pass, at least one attack is committed |
| Combat.TickDamage | src/main.rs:142-149 | when the timer runs out the population loses exactly as much health as there were pending attacks |
| Combat.Step | src/main.rs:138-210 | the imperative `process_attacks` on a copy of the state produces exactly the next state `Tick` describes |
| Combat.RampUp | src/main.rs:341 | the minimum of the old ramp plus `delta_time` and one: never above either, equal to one of them, and never decreasing |
| Combat.RosterKeepsWave | src/main.rs:340-342 | changing guys without changing their ids or healths keeps the wave well formed |
| Combat.AddKeepsInv | src/main.rs:308-326 | adding a guy with the next id and positive health keeps the invariant and the id bound |
| Combat.Arena.constructor | src/main.rs:51-72 | a new game has no guys, next id 0, the battle off, no timer, no attacks and no queue |
| Combat.Arena.ToggleBattle | src/main.rs:327-329 | space flips only the battle switch and keeps the invariant |
| Combat.Arena.SpawnAt | src/main.rs:308-326 | the S key appends exactly one guy with the old next id, five health, zero velocity and ramp zero, and increments the next id |
| Combat.Arena.ProcessAttacks | src/main.rs:138-210 | the game state becomes `Tick` of the old state and keeps the invariant; the next id is unchanged |
| Combat.Arena.AdvanceSpawnRamps | src/main.rs:340-342 | every guy's ramp becomes `RampUp` of its old ramp, nothing else changes, and the invariant is kept |
| ArenaCircle.SpawnTotal | src/main.rs:76-79 | `sum_spawns`: the sum of the spawn ramps, accumulated guy by guy |
| ArenaCircle.WeightedTotal | src/main.rs:75-78 | `sum`: the sum of the positions scaled by their spawn ramps, accumulated guy by guy |
| ArenaCircle.Centroid | src/main.rs:85 | `sum / sum_spawns`, component by component, defined only when the ramps do not sum to zero |
| ArenaCircle.Reaches | src/main.rs:90 | what one guy asks of the radius: its distance to the centre plus one guy diameter, times its spawn ramp |
| ArenaCircle.Reach | src/main.rs:86-93 | the radius is at least every guy's reach and equals some guy's reach (the maximum) |
| ArenaCircle.FindCircle | src/main.rs:74-95 | no circle iff the spawn ramps sum to zero; otherwise the centre is the weighted total divided by the ramp total, and the radius is the largest reach about it |
| ArenaCircle.MomentSplits | src/main.rs:76-85 | the weighted sum of offsets from a point is the weighted total less the point times the ramp total |
| ArenaCircle.CentroidBalances | src/main.rs:85 | the chosen centre is the one and only point about which the spawn-weighted offsets cancel out |
| ArenaCircle.FullySpawnedTotals | src/main.rs:76-79 | with every ramp at one, the ramp total is the number of guys and the weighted total is the plain sum of positions |
| ArenaCircle.FullySpawnedCentroid | src/main.rs:76-85 | with every ramp at one, the centre is the ordinary average position |
| ArenaCircle.CircleHoldsSpawnedGuys | src/main.rs:86-93 | every fully spawned guy lies, with its whole body, inside the circle |
| ArenaCircle.RadiusAtLeastDiameter | src/main.rs:86-93 | for a non-negative length, the radius is at least one guy diameter once someone has fully spawned |
| Spawn.Health | src/app/spawn.rs:6-7 | the new guy's health, `initial_health + level * health_increase_per_level` |
| Spawn.TooClose | src/app/spawn.rs:32 | a guy stands closer than the minimum distance to the candidate, decided on squared distances |
| Spawn.Clear | src/app/spawn.rs:30-37 | the candidate survives the filter: no existing guy is too close to it |
| Spawn.Tried | src/app/spawn.rs:29 | at most fifty candidates are looked at, and fewer only when fewer exist |
| Spawn.Choice | src/app/spawn.rs:29-38 | none iff every tried candidate is too close to some guy; otherwise a tried candidate clear of every guy, no farther from the circle's centre than any clear one and strictly nearer than every earlier clear one |
| Spawn.SpawnPosition | src/app/spawn.rs:14-39 | the camera centre when every tried candidate is blocked; otherwise a tried candidate clear of every guy and nearest the circle's centre among the clear ones |
| Spawn.OnlyFiftyTried | src/app/spawn.rs:29 | candidates after the fiftieth never affect the position |
| Spawn.ChoiceUnique | src/app/spawn.rs:38 | the first clear nearest candidate is unique |
| Spawn.SpawnSeparation | src/app/spawn.rs:30-39 | unless the fallback was used, the newcomer stands at least the minimum distance from every guy already there |
| Spawn.State.SpawnGuy | src/app/spawn.rs:4-44 | appends exactly one guy, with the old next id, the level's health (never below the initial health) as both health and maximum, the chosen position, zero velocity and ramp zero; increments the next id; keeps ids distinct and below the next id |

## Left out

- `process_movement` (steering and separation), the circle and camera smoothing in `update`, `draw`, `main` and the chat command handling are not part of this model.
- Mouse handling in `handle_event` is left out:
  - a left click heals a guy under the cursor or spawns one there;
  - a right click removes guys under the cursor.
  The right-click removal bypasses the damage step, so it can remove a guy named by a pending or queued attack. The invariant `Combat.Inv` does not hold across it.
- Combat.Arena.SpawnAt: the S key's position on a circle around the camera at a random angle is the parameter `position`, because the trigonometry and the random angle are not modelled.
- Combat.Arena.SpawnAt: `next_id + 1` (`src/main.rs:310`) is computed without the source's `i32` width, so overflow is not modelled. At `i32::MAX` the source panics in a build with overflow checks and wraps to a negative id in a release build.
- Combat.Arena.ProcessAttacks: the `println!` logging of each queued or committed pairing (`src/main.rs:201`, `src/main.rs:205`) is left out, because it is console output only.
- Combat.Arena.ProcessAttacks: computes the new state on local copies of its fields and writes them back once at the end. The source updates the fields in place. Only the final state is observable.
- Spawn.State.SpawnGuy: the skin (`find_skin`) and the sound effect are left out, so the `random` flag, which only affects the skin, is not a parameter. The candidate points are taken as given. Their distribution (uniform radius within the camera's half field of view, uniform angle) is not modelled.
- Spawn.State.SpawnGuy: `initial_health + level * health_increase_per_level` and `next_id + 1` are computed without the source's integer widths, so overflow is not modelled.
- Spawn.State.constructor: the application state's constructor is not part of this model. This one only starts an empty arena with the given settings.
- ArenaCircle.FindCircle: `.len()` is the parameter `len`, so facts that need a real Euclidean length (such as the circle containing a guy's body) hold for whichever length function is supplied.
- The iteration order of the id-keyed `Collection<Guy>` is not fixed by the source. The model fixes it as insertion order, with `insert` appending. The tie-breaks of `Combat.Nearest` and `Spawn.Choice` (first nearest), the order of the weighted pick, and the `old(guys) + [g]` of `Combat.Arena.SpawnAt` and `Spawn.State.SpawnGuy` are relative to that chosen order.
- `f32` rounding, NaN and infinities are not modelled. Neither are the panics of `r32` on NaN.
