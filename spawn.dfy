/**
 * `State::spawn_guy` (src/app/spawn.rs:4-44): a chat user joins the fight. The new guy gets the
 * next id, health that grows with the user's level, no velocity, a spawn ramp of zero, and a
 * place found by rejection sampling: of at most fifty random candidate points, those closer
 * than the minimum distance to some guy are dropped and the first one nearest the arena
 * circle's centre is taken; when every candidate is dropped the guy appears at the camera
 * centre.
 *
 * The random candidates, the user's level (looked up in the database) and the minimum
 * distance (a constant of the application state) come in as parameters.
 */
module Spawn {
  import opened Wrappers
  import opened Geometry
  import opened Selection

  type Id = int

  /** The application's guy: the battle guy plus a name and a maximum health. */
  datatype Guy = Guy(
    id: Id,
    name: string,
    position: Vec2,
    velocity: Vec2,
    health: nat,
    maxHealth: nat,
    spawn: real)

  /** The two health settings of the configuration file. */
  datatype Config = Config(initialHealth: nat, healthIncreasePerLevel: nat)

  /** How many random candidate positions are tried (`.take(50)`). */
  const CandidateLimit: nat := 50

  /** Starting health for a user of the given level. */
  function Health(config: Config, level: nat): nat {
    config.initialHealth + level * config.healthIncreasePerLevel
  }

  /** `(a - b).len() < d`, decided on squared lengths (a length is never negative). */
  predicate TooClose(a: Vec2, b: Vec2, d: real) {
    d > 0.0 && Dist2(a, b) < d * d
  }

  /** The candidate survives the filter: no guy stands closer than `d`. */
  predicate Clear(guys: seq<Guy>, pos: Vec2, d: real) {
    forall i :: 0 <= i < |guys| ==> !TooClose(guys[i].position, pos, d)
  }

  /** How many of the candidates are looked at. */
  function Tried(candidates: seq<Vec2>): (n: nat)
    ensures n <= CandidateLimit && n <= |candidates|
    ensures n == CandidateLimit || n == |candidates|
  {
    if |candidates| < CandidateLimit then |candidates| else CandidateLimit
  }

  /**
   * The index of the position taken: among the first `Tried` candidates, the first of the
   * clear ones closest to `center`; none when no tried candidate is clear.
   */
  function Choice(guys: seq<Guy>, candidates: seq<Vec2>, center: Vec2, d: real): (r: Option<nat>)
    ensures r.None? <==> forall i :: 0 <= i < Tried(candidates) ==> !Clear(guys, candidates[i], d)
    ensures r.Some? ==> r.value < Tried(candidates) && Clear(guys, candidates[r.value], d)
    ensures r.Some? ==> forall j :: 0 <= j < Tried(candidates) && Clear(guys, candidates[j], d) ==>
      Dist2(candidates[r.value], center) <= Dist2(candidates[j], center)
    ensures r.Some? ==> forall j :: 0 <= j < r.value && Clear(guys, candidates[j], d) ==>
      Dist2(candidates[r.value], center) < Dist2(candidates[j], center)
  {
    var n := Tried(candidates);
    var keep := seq(n, i requires 0 <= i < n => Clear(guys, candidates[i], d));
    var keys := seq(n, i requires 0 <= i < n => Dist2(candidates[i], center));
    assert forall i :: 0 <= i < n ==> keep[i] == Clear(guys, candidates[i], d) && keys[i] == Dist2(candidates[i], center);
    FirstMin(keys, keep)
  }

  /** The position the new guy gets: the chosen candidate, or `fallback` when there is none. */
  function SpawnPosition(guys: seq<Guy>, candidates: seq<Vec2>, center: Vec2, fallback: Vec2, d: real): (p: Vec2)
    ensures (forall i :: 0 <= i < Tried(candidates) ==> !Clear(guys, candidates[i], d)) ==> p == fallback
    ensures (exists i :: 0 <= i < Tried(candidates) && Clear(guys, candidates[i], d)) ==>
      Clear(guys, p, d) && p in candidates[..Tried(candidates)]
    ensures forall j :: 0 <= j < Tried(candidates) && Clear(guys, candidates[j], d) ==>
      Dist2(p, center) <= Dist2(candidates[j], center)
  {
    match Choice(guys, candidates, center, d)
    case None => fallback
    case Some(i) => candidates[i]
  }

  /** Candidates after the fiftieth are never looked at. */
  lemma OnlyFiftyTried(guys: seq<Guy>, candidates: seq<Vec2>, more: seq<Vec2>, center: Vec2, fallback: Vec2, d: real)
    requires |candidates| >= CandidateLimit
    ensures SpawnPosition(guys, candidates + more, center, fallback, d)
         == SpawnPosition(guys, candidates, center, fallback, d)
  {
    var n := CandidateLimit;
    assert forall i :: 0 <= i < n ==> (candidates + more)[i] == candidates[i];
    var c1 := Choice(guys, candidates + more, center, d);
    var c2 := Choice(guys, candidates, center, d);
    if c1.Some? && c2.Some? {
      ChoiceUnique(guys, candidates, center, d, c1.value, c2.value);
    }
  }

  /** Two indices that are both the first clear minimum are the same index. */
  lemma ChoiceUnique(guys: seq<Guy>, candidates: seq<Vec2>, center: Vec2, d: real, i: nat, j: nat)
    requires i < Tried(candidates) && j < Tried(candidates)
    requires Clear(guys, candidates[i], d) && Clear(guys, candidates[j], d)
    requires forall k :: 0 <= k < Tried(candidates) && Clear(guys, candidates[k], d) ==>
      Dist2(candidates[i], center) <= Dist2(candidates[k], center)
    requires forall k :: 0 <= k < i && Clear(guys, candidates[k], d) ==>
      Dist2(candidates[i], center) < Dist2(candidates[k], center)
    requires forall k :: 0 <= k < Tried(candidates) && Clear(guys, candidates[k], d) ==>
      Dist2(candidates[j], center) <= Dist2(candidates[k], center)
    requires forall k :: 0 <= k < j && Clear(guys, candidates[k], d) ==>
      Dist2(candidates[j], center) < Dist2(candidates[k], center)
    ensures i == j
  {
  }

  /** Ids are distinct. */
  ghost predicate DistinctIds(guys: seq<Guy>) {
    forall i, j :: 0 <= i < j < |guys| ==> guys[i].id != guys[j].id
  }

  /** The part of the application state `spawn_guy` reads and writes. */
  class State {
    const config: Config
    /** `State::MIN_DISTANCE`. */
    const minDistance: real
    var guys: seq<Guy>
    var nextId: Id
    var circle: Circle
    var cameraCenter: Vec2

    /** Ids are distinct and all below the next one handed out. */
    ghost predicate Valid()
      reads this
    {
      DistinctIds(guys) && forall i :: 0 <= i < |guys| ==> guys[i].id < nextId
    }

    /** An empty arena. */
    constructor (config: Config, minDistance: real, circle: Circle, cameraCenter: Vec2)
      ensures Valid()
      ensures this.config == config && this.minDistance == minDistance
      ensures guys == [] && nextId == 0 && this.circle == circle && this.cameraCenter == cameraCenter
    {
      this.config := config;
      this.minDistance := minDistance;
      guys := [];
      nextId := 0;
      this.circle := circle;
      this.cameraCenter := cameraCenter;
    }

    /**
     * `spawn_guy(name, random)` for a user of the given level, with `candidates` standing for
     * the random points drawn around the camera.
     */
    method SpawnGuy(name: string, level: nat, candidates: seq<Vec2>)
      requires Valid()
      modifies this
      ensures Valid()
      ensures nextId == old(nextId) + 1
      ensures guys == old(guys) + [Guy(
        old(nextId),
        name,
        SpawnPosition(old(guys), candidates, circle.center, cameraCenter, minDistance),
        Zero,
        Health(config, level),
        Health(config, level),
        0.0)]
      ensures guys[|guys| - 1].health == guys[|guys| - 1].maxHealth >= config.initialHealth
      ensures circle == old(circle) && cameraCenter == old(cameraCenter)
    {
      var health := Health(config, level);
      assert level * config.healthIncreasePerLevel >= 0;
      var id := nextId;
      nextId := nextId + 1;
      var position := SpawnPosition(guys, candidates, circle.center, cameraCenter, minDistance);
      guys := guys + [Guy(id, name, position, Zero, health, health, 0.0)];
    }
  }

  /**
   * The separation a spawn promises: when some tried candidate was clear, the newcomer stands at
   * least the minimum distance from every guy already there; otherwise it is at the camera centre.
   */
  lemma SpawnSeparation(guys: seq<Guy>, candidates: seq<Vec2>, center: Vec2, camera: Vec2, d: real)
    requires d > 0.0
    ensures var p := SpawnPosition(guys, candidates, center, camera, d);
      if Choice(guys, candidates, center, d).Some? then
        forall i :: 0 <= i < |guys| ==> Dist2(guys[i].position, p) >= d * d
      else
        p == camera
  {
  }
}
