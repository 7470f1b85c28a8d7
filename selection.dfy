/**
 * The two library choices the battle logic relies on:
 * a weighted random pick (rand's `choose_weighted`, which draws a uniform roll below the
 * total weight and returns the index whose cumulative-weight interval holds it) and
 * `Iterator::min_by_key` over a filtered sequence (the first element with the least key).
 */
module Selection {
  import opened Wrappers

  /** Sum of a sequence of weights. */
  function Sum(s: seq<nat>): nat {
    if s == [] then 0 else s[0] + Sum(s[1..])
  }

  lemma {:induction false} SumSplit(s: seq<nat>, i: nat)
    requires i < |s|
    ensures Sum(s[..i + 1]) == Sum(s[..i]) + s[i]
  {
    if i == 0 {
      assert s[..1] == [s[0]];
      assert s[..1][1..] == [];
    } else {
      assert s[..i + 1][1..] == s[1..][..i];
      assert s[..i][1..] == s[1..][..i - 1];
      SumSplit(s[1..], i - 1);
    }
  }

  lemma {:induction false} SumPrefixMonotone(s: seq<nat>, i: nat, j: nat)
    requires i <= j <= |s|
    ensures Sum(s[..i]) <= Sum(s[..j])
    decreases j - i
  {
    if i < j {
      SumSplit(s, j - 1);
      SumPrefixMonotone(s, i, j - 1);
    }
  }

  /**
   * The index a roll in [0, Sum(weights)) selects: the one whose cumulative interval
   * [Sum(weights[..i]), Sum(weights[..i]) + weights[i]) contains the roll.
   */
  function WeightedPick(weights: seq<nat>, roll: nat): (i: nat)
    requires roll < Sum(weights)
    ensures i < |weights|
    ensures Sum(weights[..i]) <= roll < Sum(weights[..i]) + weights[i]
    ensures weights[i] > 0
  {
    if roll < weights[0] then
      assert weights[..0] == [];
      0
    else
      var j := WeightedPick(weights[1..], roll - weights[0]);
      assert weights[..j + 1][1..] == weights[1..][..j];
      j + 1
  }

  /** The cumulative intervals are disjoint, so the interval property determines the pick. */
  lemma {:induction false} WeightedPickUnique(weights: seq<nat>, roll: nat, i: nat)
    requires i < |weights|
    requires Sum(weights[..i]) <= roll < Sum(weights[..i]) + weights[i]
    ensures roll < Sum(weights)
    ensures WeightedPick(weights, roll) == i
  {
    SumSplit(weights, i);
    SumPrefixMonotone(weights, i + 1, |weights|);
    assert weights[..|weights|] == weights;
    var p := WeightedPick(weights, roll);
    if p < i {
      SumSplit(weights, p);
      SumPrefixMonotone(weights, p + 1, i);
    } else if i < p {
      SumPrefixMonotone(weights, i + 1, p);
    }
  }

  /** The rolls lo, lo + 1, ..., hi - 1. */
  function Rolls(lo: nat, hi: nat): (s: set<nat>)
    ensures forall r :: r in s <==> lo <= r < hi
    ensures |s| == if lo <= hi then hi - lo else 0
    decreases hi
  {
    if hi <= lo then {} else Rolls(lo, hi - 1) + {hi - 1}
  }

  /** The rolls that select index i: those in [0, Sum(weights)) whose pick is i. */
  function Hits(weights: seq<nat>, i: nat): set<nat> {
    set r | r in Rolls(0, Sum(weights)) && WeightedPick(weights, r) == i
  }

  /** The rolls selecting index i are exactly those of its cumulative interval. */
  lemma {:induction false} HitsAreInterval(weights: seq<nat>, i: nat)
    requires i < |weights|
    ensures Hits(weights, i) == Rolls(Sum(weights[..i]), Sum(weights[..i]) + weights[i])
  {
    var lo := Sum(weights[..i]);
    var band := Rolls(lo, lo + weights[i]);
    forall r | r in band ensures r in Hits(weights, i) {
      WeightedPickUnique(weights, r, i);
    }
  }

  /**
   * Exactly weights[i] of the Sum(weights) equally likely rolls select index i: the pick is
   * weighted by the weights.
   */
  lemma {:induction false} WeightedPickOdds(weights: seq<nat>, i: nat)
    requires i < |weights|
    ensures |Hits(weights, i)| == weights[i]
  {
    HitsAreInterval(weights, i);
  }

  /**
   * `min_by_key` over the elements kept by a filter: the first kept index whose key is
   * least, or None when the filter keeps nothing.
   */
  function FirstMin(keys: seq<real>, keep: seq<bool>): (r: Option<nat>)
    requires |keys| == |keep|
    ensures r.None? <==> forall i :: 0 <= i < |keep| ==> !keep[i]
    ensures r.Some? ==> r.value < |keys| && keep[r.value]
    ensures r.Some? ==> forall i :: 0 <= i < |keys| && keep[i] ==> keys[r.value] <= keys[i]
    ensures r.Some? ==> forall i :: 0 <= i < r.value && keep[i] ==> keys[r.value] < keys[i]
  {
    if |keys| == 0 then None
    else
      var rest := FirstMin(keys[1..], keep[1..]);
      if keep[0] && (rest.None? || keys[0] <= keys[rest.value + 1]) then Some(0)
      else if rest.None? then None
      else Some(rest.value + 1)
  }
}
