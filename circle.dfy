/**
 * `Test::find_circle` (src/main.rs:74-95): the arena circle the guys gather on. Its centre is
 * the spawn-weighted mean of the positions, so guys still fading in pull on it only partly.
 * Its radius is the largest, over all guys, of (distance to the centre plus one guy diameter)
 * times that guy's spawn ramp, so a far guy that has barely spawned in can count for less
 * than a nearer one that has fully spawned. There is no circle while the spawn ramps sum to zero.
 *
 * `.len()` needs a square root; it is taken as the parameter `len`, so the radius is exact
 * for whatever length function the caller supplies.
 */
module ArenaCircle {
  import opened Wrappers
  import opened Geometry
  import opened Combat

  /** `Test::GUY_RADIUS`. */
  const GuyRadius: real := 1.0

  /** The sum of the spawn ramps, `sum_spawns`. */
  function SpawnTotal(guys: seq<Guy>): real {
    if |guys| == 0 then 0.0 else SpawnTotal(guys[..|guys| - 1]) + guys[|guys| - 1].spawn
  }

  /** The sum of the positions weighted by spawn ramp, `sum`. */
  function WeightedTotal(guys: seq<Guy>): Vec2 {
    if |guys| == 0 then Zero
    else Add(WeightedTotal(guys[..|guys| - 1]), Scale(guys[|guys| - 1].position, guys[|guys| - 1].spawn))
  }

  /** `sum / sum_spawns`, component by component. */
  function Centroid(guys: seq<Guy>): Vec2
    requires SpawnTotal(guys) != 0.0
  {
    Vec2(WeightedTotal(guys).x / SpawnTotal(guys), WeightedTotal(guys).y / SpawnTotal(guys))
  }

  /** What one guy asks of the radius: its distance to the centre plus one guy diameter, times its spawn ramp. */
  function Reaches(g: Guy, center: Vec2, len: Vec2 -> real): real {
    (len(Sub(g.position, center)) + GuyRadius * 2.0) * g.spawn
  }

  /** The largest reach over a non-empty roster (`.map(..).max().unwrap()`). */
  function Reach(guys: seq<Guy>, center: Vec2, len: Vec2 -> real): (r: real)
    requires |guys| > 0
    ensures forall i :: 0 <= i < |guys| ==> Reaches(guys[i], center, len) <= r
    ensures exists i :: 0 <= i < |guys| && Reaches(guys[i], center, len) == r
  {
    var last := Reaches(guys[|guys| - 1], center, len);
    if |guys| == 1 then last
    else
      var rest := Reach(guys[..|guys| - 1], center, len);
      assert forall i :: 0 <= i < |guys| - 1 ==> guys[..|guys| - 1][i] == guys[i];
      if rest < last then last else rest
  }

  /**
   * `find_circle`: one pass summing the weighted positions and the spawn ramps, no circle when
   * the ramps sum to zero, otherwise the weighted mean as centre and the largest reach as radius.
   */
  method FindCircle(guys: seq<Guy>, len: Vec2 -> real) returns (c: Option<Circle>)
    ensures c.None? <==> SpawnTotal(guys) == 0.0
    ensures c.Some? ==> SpawnTotal(guys) != 0.0 && |guys| > 0
    ensures c.Some? ==> c.value.center == Centroid(guys)
    ensures c.Some? ==> c.value.radius == Reach(guys, Centroid(guys), len)
  {
    var sum := Zero;
    var sumSpawns := 0.0;
    for i := 0 to |guys|
      invariant sum == WeightedTotal(guys[..i])
      invariant sumSpawns == SpawnTotal(guys[..i])
    {
      assert guys[..i + 1][..i] == guys[..i];
      sum := Add(sum, Scale(guys[i].position, guys[i].spawn));
      sumSpawns := sumSpawns + guys[i].spawn;
    }
    assert guys[..|guys|] == guys;
    if sumSpawns == 0.0 {
      return None;
    }
    var center := Vec2(sum.x / sumSpawns, sum.y / sumSpawns);
    c := Some(Circle(center, Reach(guys, center, len)));
  }

  // ---------------------------------------------------------------------------
  // What the centre means
  // ---------------------------------------------------------------------------

  /** The spawn-weighted sum of the offsets from `c`. */
  function Moment(guys: seq<Guy>, c: Vec2): Vec2 {
    if |guys| == 0 then Zero
    else
      var g := guys[|guys| - 1];
      Add(Moment(guys[..|guys| - 1], c), Scale(Sub(g.position, c), g.spawn))
  }

  /** The moment about `c` is the weighted total less `c` counted once per unit of spawn. */
  lemma {:induction false} MomentSplits(guys: seq<Guy>, c: Vec2)
    ensures Moment(guys, c) == Sub(WeightedTotal(guys), Scale(c, SpawnTotal(guys)))
  {
    if |guys| > 0 {
      var g := guys[|guys| - 1];
      var rest := guys[..|guys| - 1];
      MomentSplits(rest, c);
      SplitStep(Moment(rest, c), WeightedTotal(rest), SpawnTotal(rest), c, g.position, g.spawn);
    }
  }

  /** The step of `MomentSplits`: adding one guy's weighted offset keeps the split. */
  lemma SplitStep(m: Vec2, w: Vec2, t: real, c: Vec2, p: Vec2, s: real)
    requires m == Sub(w, Scale(c, t))
    ensures Add(m, Scale(Sub(p, c), s)) == Sub(Add(w, Scale(p, s)), Scale(c, t + s))
  {
    Shift(m.x, w.x, t, c.x, p.x, s);
    Shift(m.y, w.y, t, c.y, p.y, s);
  }

  /** One component of `SplitStep`. */
  lemma Shift(m: real, w: real, t: real, c: real, p: real, s: real)
    requires m == w - c * t
    ensures m + (p - c) * s == (w + p * s) - c * (t + s)
  {
    assert (p - c) * s == p * s - c * s;
    assert c * (t + s) == c * t + c * s;
  }

  /**
   * The centre `find_circle` picks is the one and only point about which the spawn-weighted
   * offsets of all guys cancel out.
   */
  lemma CentroidBalances(guys: seq<Guy>, c: Vec2)
    requires SpawnTotal(guys) != 0.0
    ensures Moment(guys, c) == Zero <==> c == Centroid(guys)
  {
    var s := SpawnTotal(guys);
    var w := WeightedTotal(guys);
    MomentSplits(guys, c);
    Balance(w, s, c);
  }

  /** Taking `c` away `s` times from `w` leaves nothing exactly when `c` is `w / s`. */
  lemma Balance(w: Vec2, s: real, c: Vec2)
    requires s != 0.0
    ensures Sub(w, Scale(c, s)) == Zero <==> c == Vec2(w.x / s, w.y / s)
  {
    Quotient(w.x, s, c.x);
    Quotient(w.y, s, c.y);
  }

  /** Division by a non-zero real undoes multiplication. */
  lemma Quotient(w: real, s: real, x: real)
    requires s != 0.0
    ensures w - x * s == 0.0 <==> x == w / s
  {
    if x == w / s {
      assert x * s == w;
    }
  }

  /** The plain sum of the positions. */
  function PositionTotal(guys: seq<Guy>): Vec2 {
    if |guys| == 0 then Zero else Add(PositionTotal(guys[..|guys| - 1]), guys[|guys| - 1].position)
  }

  /** With every guy fully spawned in the weights are all one. */
  lemma {:induction false} FullySpawnedTotals(guys: seq<Guy>)
    requires forall i :: 0 <= i < |guys| ==> guys[i].spawn == 1.0
    ensures SpawnTotal(guys) == |guys| as real
    ensures WeightedTotal(guys) == PositionTotal(guys)
  {
    if |guys| > 0 {
      FullySpawnedTotals(guys[..|guys| - 1]);
    }
  }

  /** Once everyone has spawned in, the centre is the ordinary average of the positions. */
  lemma FullySpawnedCentroid(guys: seq<Guy>)
    requires |guys| > 0
    requires forall i :: 0 <= i < |guys| ==> guys[i].spawn == 1.0
    ensures SpawnTotal(guys) != 0.0
    ensures Centroid(guys) == Vec2(PositionTotal(guys).x / |guys| as real, PositionTotal(guys).y / |guys| as real)
  {
    FullySpawnedTotals(guys);
  }

  // ---------------------------------------------------------------------------
  // What the radius means
  // ---------------------------------------------------------------------------

  /**
   * With a length function that is never negative, the circle holds every fully spawned guy
   * whole: its centre lies within `radius - 2 * GUY_RADIUS` of the circle's centre.
   */
  lemma CircleHoldsSpawnedGuys(guys: seq<Guy>, len: Vec2 -> real, i: nat)
    requires SpawnTotal(guys) != 0.0 && i < |guys|
    requires guys[i].spawn == 1.0
    ensures |guys| > 0
    ensures len(Sub(guys[i].position, Centroid(guys))) + GuyRadius * 2.0
      <= Reach(guys, Centroid(guys), len)
  {
  }

  /** The radius is never less than the reach of any one guy, so never below the diameter of a spawned one. */
  lemma RadiusAtLeastDiameter(guys: seq<Guy>, len: Vec2 -> real, i: nat)
    requires SpawnTotal(guys) != 0.0 && i < |guys|
    requires guys[i].spawn == 1.0
    requires forall v :: len(v) >= 0.0
    ensures |guys| > 0
    ensures GuyRadius * 2.0 <= Reach(guys, Centroid(guys), len)
  {
    CircleHoldsSpawnedGuys(guys, len, i);
  }
}
