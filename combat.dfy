/**
 * The discrete battle logic of the arena (src/main.rs): guys, attacks, the wave scheduler
 * `process_attacks` and the spawn-ramp bookkeeping of `update`. The game's state struct
 * (`Test` in the source) is the class `Arena`.
 */
module Combat {
  import opened Wrappers
  import opened Geometry
  import opened Selection

  type Id = int

  /** The swing timer counts down three times faster than game time. */
  const SwingRate: real := 3.0
  /** The swing timer restarts at one unit after every assignment pass. */
  const SwingDuration: real := 1.0
  /** Health of a guy spawned from the keyboard. */
  const StartingHealth: nat := 5

  datatype Guy = Guy(id: Id, health: nat, velocity: Vec2, position: Vec2, spawn: real)

  datatype Attack = Attack(attackerId: Id, targetId: Id)

  /** The state `process_attacks` reads and writes. */
  datatype BattleState = BattleState(
    guys: seq<Guy>,
    processBattle: bool,
    nextAttack: Option<real>,
    attacks: seq<Attack>,
    queuedAttack: Option<Attack>)

  // ---------------------------------------------------------------------------
  // Guys and attacks

  /** A collection keyed by id holds each id at most once. */
  ghost predicate DistinctIds(guys: seq<Guy>) {
    forall i, j :: 0 <= i < j < |guys| ==> guys[i].id != guys[j].id
  }

  predicate HasId(guys: seq<Guy>, id: Id) {
    exists i :: 0 <= i < |guys| && guys[i].id == id
  }

  ghost function IdSet(guys: seq<Guy>): set<Id> {
    set i | 0 <= i < |guys| :: guys[i].id
  }

  /** Number of pending attacks aimed at `id`. */
  function Count(attacks: seq<Attack>, id: Id): nat {
    if attacks == [] then 0
    else Count(attacks[..|attacks| - 1], id) + (if attacks[|attacks| - 1].targetId == id then 1 else 0)
  }

  lemma CountAppend(attacks: seq<Attack>, a: Attack, id: Id)
    ensures Count(attacks + [a], id) == Count(attacks, id) + (if a.targetId == id then 1 else 0)
  {
    assert (attacks + [a])[..|attacks|] == attacks;
  }

  lemma {:induction false} CountPrefix(attacks: seq<Attack>, i: nat, id: Id)
    requires i < |attacks|
    ensures Count(attacks[..i + 1], id) == Count(attacks[..i], id) + (if attacks[i].targetId == id then 1 else 0)
    ensures Count(attacks[..i + 1], id) <= Count(attacks, id)
    decreases |attacks| - i
  {
    assert attacks[..i + 1][..i] == attacks[..i];
    if i + 1 < |attacks| {
      CountPrefix(attacks, i + 1, id);
    } else {
      assert attacks[..i + 1] == attacks;
    }
  }

  lemma {:induction false} CountAbsent(attacks: seq<Attack>, id: Id)
    requires forall j :: 0 <= j < |attacks| ==> attacks[j].targetId != id
    ensures Count(attacks, id) == 0
  {
    if attacks != [] {
      CountAbsent(attacks[..|attacks| - 1], id);
    }
  }

  /** Whether `id` already has an attack in the list (`attacks.iter().any(..)`). */
  predicate Attacking(attacks: seq<Attack>, id: Id) {
    exists j :: 0 <= j < |attacks| && attacks[j].attackerId == id
  }

  ghost function AttackerSet(attacks: seq<Attack>): set<Id> {
    set j | 0 <= j < |attacks| :: attacks[j].attackerId
  }

  ghost predicate NoDupAttackers(attacks: seq<Attack>) {
    forall i, j :: 0 <= i < j < |attacks| ==> attacks[i].attackerId != attacks[j].attackerId
  }

  /** Some guy with this id still has health not already claimed by pending attacks. */
  ghost predicate Spare(guys: seq<Guy>, attacks: seq<Attack>, id: Id) {
    exists i :: 0 <= i < |guys| && guys[i].id == id && Count(attacks, id) < guys[i].health
  }

  /** A pairing that may be committed on top of `attacks`. */
  ghost predicate PairingOk(guys: seq<Guy>, attacks: seq<Attack>, a: Attack) {
    a.attackerId != a.targetId && Spare(guys, attacks, a.attackerId) && Spare(guys, attacks, a.targetId)
  }

  /**
   * What the scheduler keeps true of one wave: attacks refer to live guys, nobody attacks
   * itself or twice, no guy is the target of more attacks than its health, and the queued
   * pairing (if any) is still committable.
   */
  ghost predicate WaveOk(guys: seq<Guy>, attacks: seq<Attack>, queued: Option<Attack>) {
    && DistinctIds(guys)
    && (forall i :: 0 <= i < |guys| ==> Count(attacks, guys[i].id) <= guys[i].health)
    && (forall j :: 0 <= j < |attacks| ==>
          HasId(guys, attacks[j].attackerId) && HasId(guys, attacks[j].targetId)
          && attacks[j].attackerId != attacks[j].targetId)
    && NoDupAttackers(attacks)
    && (queued.Some? ==> PairingOk(guys, attacks, queued.value))
  }

  /** The invariant of the whole battle state between ticks. */
  ghost predicate Inv(b: BattleState) {
    && WaveOk(b.guys, b.attacks, b.queuedAttack)
    && (forall i :: 0 <= i < |b.guys| ==> b.guys[i].health > 0 && 0.0 <= b.guys[i].spawn <= 1.0)
    && (b.nextAttack.None? ==> b.attacks == [] && b.queuedAttack.None?)
  }

  // ---------------------------------------------------------------------------
  // Effective health and the choice of one pairing

  /** Health left once the pending attacks land, one entry per guy (the `healths` map). */
  function Weights(guys: seq<Guy>, attacks: seq<Attack>): (w: seq<nat>)
    requires forall i :: 0 <= i < |guys| ==> Count(attacks, guys[i].id) <= guys[i].health
    ensures |w| == |guys|
    ensures forall i :: 0 <= i < |guys| ==> w[i] + Count(attacks, guys[i].id) == guys[i].health
  {
    seq(|guys|, i requires 0 <= i < |guys| => guys[i].health - Count(attacks, guys[i].id))
  }

  /**
   * The effective healths the source builds in a map: every guy's health, minus one per
   * pending attack on it.
   */
  method EffectiveHealths(guys: seq<Guy>, attacks: seq<Attack>) returns (healths: map<Id, nat>)
    requires DistinctIds(guys)
    requires forall j :: 0 <= j < |attacks| ==> HasId(guys, attacks[j].targetId)
    requires forall i :: 0 <= i < |guys| ==> Count(attacks, guys[i].id) <= guys[i].health
    ensures healths.Keys == IdSet(guys)
    ensures forall i :: 0 <= i < |guys| ==> healths[guys[i].id] == guys[i].health - Count(attacks, guys[i].id)
  {
    healths := map[];
    for i := 0 to |guys|
      invariant healths.Keys == IdSet(guys[..i])
      invariant forall j :: 0 <= j < i ==> healths[guys[j].id] == guys[j].health
    {
      healths := healths[guys[i].id := guys[i].health];
      IdSetGrows(guys, i);
    }
    assert guys[..|guys|] == guys;
    for n := 0 to |attacks|
      invariant healths.Keys == IdSet(guys)
      invariant forall j :: 0 <= j < |guys| ==> healths[guys[j].id] == guys[j].health - Count(attacks[..n], guys[j].id)
    {
      var t := attacks[n].targetId;
      DrainStep(guys, attacks, healths, n);
      healths := healths[t := healths[t] - 1];
    }
    assert attacks[..|attacks|] == attacks;
  }

  /** The ids of a longer prefix are those of the shorter one and the next guy's. */
  lemma IdSetGrows(guys: seq<Guy>, i: nat)
    requires i < |guys|
    ensures IdSet(guys[..i + 1]) == IdSet(guys[..i]) + {guys[i].id}
  {
    assert forall j :: 0 <= j < i ==> guys[..i + 1][j] == guys[..i][j];
  }

  /** One pass of the second loop of `EffectiveHealths`: the target still has health to lose. */
  lemma DrainStep(guys: seq<Guy>, attacks: seq<Attack>, healths: map<Id, nat>, n: nat)
    requires n < |attacks| && HasId(guys, attacks[n].targetId)
    requires forall i :: 0 <= i < |guys| ==> Count(attacks, guys[i].id) <= guys[i].health
    requires healths.Keys == IdSet(guys)
    requires forall j :: 0 <= j < |guys| ==> healths[guys[j].id] == guys[j].health - Count(attacks[..n], guys[j].id)
    ensures attacks[n].targetId in healths && healths[attacks[n].targetId] > 0
    ensures var h := healths[attacks[n].targetId := healths[attacks[n].targetId] - 1];
      && h.Keys == IdSet(guys)
      && forall j :: 0 <= j < |guys| ==> h[guys[j].id] == guys[j].health - Count(attacks[..n + 1], guys[j].id)
  {
    var t := attacks[n].targetId;
    var k :| 0 <= k < |guys| && guys[k].id == t;
    CountPrefix(attacks, n, t);
    forall j | 0 <= j < |guys|
      ensures Count(attacks[..n + 1], guys[j].id) == Count(attacks[..n], guys[j].id) + (if guys[j].id == t then 1 else 0)
    {
      CountPrefix(attacks, n, guys[j].id);
    }
  }

  /** Indices of the chosen target and attacker in the guy list. */
  datatype Pick = Pick(target: nat, attacker: nat)

  /**
   * The attacker for target index t (src/main.rs:181-185): among the other guys with
   * effective health left, the first one nearest to the target.
   */
  function Nearest(guys: seq<Guy>, healths: seq<nat>, t: nat): (r: Option<nat>)
    requires |healths| == |guys| && t < |guys|
    ensures r.None? <==> forall j :: 0 <= j < |guys| ==> guys[j].id == guys[t].id || healths[j] == 0
    ensures r.Some? ==> r.value < |guys| && guys[r.value].id != guys[t].id && healths[r.value] != 0
    ensures r.Some? ==> forall j :: 0 <= j < |guys| && guys[j].id != guys[t].id && healths[j] != 0 ==>
      Dist2(guys[r.value].position, guys[t].position) <= Dist2(guys[j].position, guys[t].position)
    ensures r.Some? ==> forall j :: 0 <= j < r.value && guys[j].id != guys[t].id && healths[j] != 0 ==>
      Dist2(guys[r.value].position, guys[t].position) < Dist2(guys[j].position, guys[t].position)
  {
    var keep := seq(|guys|, j requires 0 <= j < |guys| => guys[j].id != guys[t].id && healths[j] != 0);
    var keys := seq(|guys|, j requires 0 <= j < |guys| => Dist2(guys[j].position, guys[t].position));
    assert forall j :: 0 <= j < |guys| ==>
      keep[j] == (guys[j].id != guys[t].id && healths[j] != 0)
      && keys[j] == Dist2(guys[j].position, guys[t].position);
    FirstMin(keys, keep)
  }

  /**
   * One fresh pairing (src/main.rs:170-194): none when some effective health is zero or
   * fewer than two guys are left; otherwise the target is the one the roll selects by
   * effective health and the attacker the first other guy nearest to it.
   */
  function Choose(guys: seq<Guy>, healths: seq<nat>, roll: nat): (r: Option<Pick>)
    requires |healths| == |guys|
    requires DistinctIds(guys)
    ensures r.None? <==> 0 in healths || |guys| <= 1
    ensures r.Some? ==>
      var t, a := r.value.target, r.value.attacker;
      && t < |guys| && a < |guys| && a != t
      && healths[t] > 0 && healths[a] > 0
      && Sum(healths[..t]) <= roll % Sum(healths) < Sum(healths[..t]) + healths[t]
      && (forall j :: 0 <= j < |guys| && j != t ==>
            Dist2(guys[a].position, guys[t].position) <= Dist2(guys[j].position, guys[t].position))
      && (forall j :: 0 <= j < a && j != t ==>
            Dist2(guys[a].position, guys[t].position) < Dist2(guys[j].position, guys[t].position))
  {
    if 0 in healths then None
    else if Sum(healths) == 0 then None
    else
      var t := WeightedPick(healths, roll % Sum(healths));
      assert forall j :: 0 <= j < |guys| ==> healths[j] != 0 by {
        forall j | 0 <= j < |guys| ensures healths[j] != 0 { assert healths[j] in healths; }
      }
      assert forall j :: 0 <= j < |guys| ==> (guys[j].id != guys[t].id <==> j != t);
      assert |guys| >= 2 ==> guys[if t == 0 then 1 else 0].id != guys[t].id;
      match Nearest(guys, healths, t)
      case None => None
      case Some(a) => Some(Pick(t, a))
  }

  /** The fresh pairing as an attack between ids. */
  function FreshAttack(guys: seq<Guy>, attacks: seq<Attack>, roll: nat): (r: Option<Attack>)
    requires DistinctIds(guys)
    requires forall i :: 0 <= i < |guys| ==> Count(attacks, guys[i].id) <= guys[i].health
    ensures r.None? <==>
      (exists i :: 0 <= i < |guys| && Count(attacks, guys[i].id) == guys[i].health) || |guys| <= 1
    ensures r.Some? ==> PairingOk(guys, attacks, r.value)
  {
    var w := Weights(guys, attacks);
    assert 0 in w <==> exists i :: 0 <= i < |guys| && Count(attacks, guys[i].id) == guys[i].health by {
      if 0 in w { var i :| 0 <= i < |w| && w[i] == 0; assert Count(attacks, guys[i].id) == guys[i].health; }
      if exists i :: 0 <= i < |guys| && Count(attacks, guys[i].id) == guys[i].health {
        var i :| 0 <= i < |guys| && Count(attacks, guys[i].id) == guys[i].health;
        assert w[i] == 0;
      }
    }
    match Choose(guys, w, roll)
    case None => None
    case Some(p) =>
      assert guys[p.attacker].id != guys[p.target].id;
      Some(Attack(guys[p.attacker].id, guys[p.target].id))
  }

  // ---------------------------------------------------------------------------
  // The assignment loop

  datatype Wave = Wave(attacks: seq<Attack>, queued: Option<Attack>)

  /** Committing a committable pairing by an idle attacker keeps the wave and uses up that attacker. */
  lemma CommitKeepsWave(guys: seq<Guy>, attacks: seq<Attack>, c: Attack)
    requires WaveOk(guys, attacks, Some(c))
    requires !Attacking(attacks, c.attackerId)
    ensures WaveOk(guys, attacks + [c], None)
    ensures IdSet(guys) - AttackerSet(attacks + [c]) < IdSet(guys) - AttackerSet(attacks)
  {
    var at :| 0 <= at < |guys| && guys[at].id == c.attackerId && Count(attacks, c.attackerId) < guys[at].health;
    var tt :| 0 <= tt < |guys| && guys[tt].id == c.targetId && Count(attacks, c.targetId) < guys[tt].health;
    CommitCounts(guys, attacks, c, tt);
    CommitRefs(guys, attacks, c, at, tt);
    CommitNoDup(attacks, c);
    CommitShrinks(guys, attacks, c, at);
  }

  /** The target of the new attack had health to spare, so nobody becomes over-targeted. */
  lemma CommitCounts(guys: seq<Guy>, attacks: seq<Attack>, c: Attack, tt: nat)
    requires DistinctIds(guys)
    requires forall i :: 0 <= i < |guys| ==> Count(attacks, guys[i].id) <= guys[i].health
    requires tt < |guys| && guys[tt].id == c.targetId && Count(attacks, c.targetId) < guys[tt].health
    ensures forall i :: 0 <= i < |guys| ==> Count(attacks + [c], guys[i].id) <= guys[i].health
  {
    forall i | 0 <= i < |guys| ensures Count(attacks + [c], guys[i].id) <= guys[i].health {
      CountAppend(attacks, c, guys[i].id);
    }
  }

  /** The new attack is between two distinct present guys, like the old ones. */
  lemma CommitRefs(guys: seq<Guy>, attacks: seq<Attack>, c: Attack, at: nat, tt: nat)
    requires forall j :: 0 <= j < |attacks| ==>
      HasId(guys, attacks[j].attackerId) && HasId(guys, attacks[j].targetId)
      && attacks[j].attackerId != attacks[j].targetId
    requires at < |guys| && tt < |guys| && guys[at].id == c.attackerId && guys[tt].id == c.targetId
    requires c.attackerId != c.targetId
    ensures forall j :: 0 <= j < |attacks + [c]| ==>
      HasId(guys, (attacks + [c])[j].attackerId) && HasId(guys, (attacks + [c])[j].targetId)
      && (attacks + [c])[j].attackerId != (attacks + [c])[j].targetId
  {
    var a' := attacks + [c];
    forall j | 0 <= j < |a'|
      ensures HasId(guys, a'[j].attackerId) && HasId(guys, a'[j].targetId) && a'[j].attackerId != a'[j].targetId
    {
      if j == |attacks| {
        assert guys[at].id == a'[j].attackerId;
        assert guys[tt].id == a'[j].targetId;
      } else {
        assert a'[j] == attacks[j];
      }
    }
  }

  /** An idle attacker added to the list does not appear twice. */
  lemma CommitNoDup(attacks: seq<Attack>, c: Attack)
    requires NoDupAttackers(attacks) && !Attacking(attacks, c.attackerId)
    ensures NoDupAttackers(attacks + [c])
  {
    var a' := attacks + [c];
    forall i, j | 0 <= i < j < |a'| ensures a'[i].attackerId != a'[j].attackerId {
      assert a'[i] == attacks[i];
      if j < |attacks| { assert a'[j] == attacks[j]; }
    }
  }

  /** The idle guys, present but not yet attacking, lose the new attacker. */
  lemma CommitShrinks(guys: seq<Guy>, attacks: seq<Attack>, c: Attack, at: nat)
    requires at < |guys| && guys[at].id == c.attackerId && !Attacking(attacks, c.attackerId)
    ensures IdSet(guys) - AttackerSet(attacks + [c]) < IdSet(guys) - AttackerSet(attacks)
  {
    var a' := attacks + [c];
    assert AttackerSet(a') == AttackerSet(attacks) + {c.attackerId} by {
      assert a'[|attacks|] == c;
      forall x | x in AttackerSet(a') ensures x in AttackerSet(attacks) + {c.attackerId} {
        var j :| 0 <= j < |a'| && a'[j].attackerId == x;
        if j < |attacks| { assert attacks[j] == a'[j]; }
      }
      forall x | x in AttackerSet(attacks) ensures x in AttackerSet(a') {
        var j :| 0 <= j < |attacks| && attacks[j].attackerId == x;
        assert a'[j] == attacks[j];
      }
    }
    assert c.attackerId in IdSet(guys);
  }

  /**
   * The assignment loop of `process_attacks` (src/main.rs:158-208): retry the queued pairing
   * first, otherwise draw a fresh one with roll `draw(k)`; commit pairings whose attacker is
   * idle, and park a conflicting one in the queue and stop.
   */
  ghost function Assign(guys: seq<Guy>, attacks: seq<Attack>, queued: Option<Attack>, draw: nat -> nat, k: nat): Wave
    requires WaveOk(guys, attacks, queued)
    decreases IdSet(guys) - AttackerSet(attacks)
  {
    var next := if queued.Some? then queued else FreshAttack(guys, attacks, draw(k));
    var k' := if queued.Some? then k else k + 1;
    match next
    case None => Wave(attacks, None)
    case Some(c) =>
      if Attacking(attacks, c.attackerId) then Wave(attacks, Some(c))
      else
        CommitKeepsWave(guys, attacks, c);
        Assign(guys, attacks + [c], None, draw, k')
  }

  /** The loop keeps the wave well formed; a queued result is a genuine conflict. */
  lemma {:induction false} AssignKeepsWave(guys: seq<Guy>, attacks: seq<Attack>, queued: Option<Attack>, draw: nat -> nat, k: nat)
    requires WaveOk(guys, attacks, queued)
    ensures var w := Assign(guys, attacks, queued, draw, k);
      && WaveOk(guys, w.attacks, w.queued)
      && (w.queued.Some? ==> Attacking(w.attacks, w.queued.value.attackerId))
    decreases IdSet(guys) - AttackerSet(attacks)
  {
    var next := if queued.Some? then queued else FreshAttack(guys, attacks, draw(k));
    var k' := if queued.Some? then k else k + 1;
    if next.Some? && !Attacking(attacks, next.value.attackerId) {
      CommitKeepsWave(guys, attacks, next.value);
      AssignKeepsWave(guys, attacks + [next.value], None, draw, k');
    }
  }

  /** Committed attacks are only ever appended. */
  lemma {:induction false} AssignExtends(guys: seq<Guy>, attacks: seq<Attack>, queued: Option<Attack>, draw: nat -> nat, k: nat)
    requires WaveOk(guys, attacks, queued)
    ensures attacks <= Assign(guys, attacks, queued, draw, k).attacks
    decreases IdSet(guys) - AttackerSet(attacks)
  {
    var next := if queued.Some? then queued else FreshAttack(guys, attacks, draw(k));
    var k' := if queued.Some? then k else k + 1;
    if next.Some? && !Attacking(attacks, next.value.attackerId) {
      CommitKeepsWave(guys, attacks, next.value);
      AssignExtends(guys, attacks + [next.value], None, draw, k');
    }
  }

  /**
   * The loop stops with an empty queue only when no fresh pairing exists: some guy's
   * effective health is zero, or fewer than two guys are left.
   */
  lemma {:induction false} AssignStopsForAReason(guys: seq<Guy>, attacks: seq<Attack>, queued: Option<Attack>, draw: nat -> nat, k: nat)
    requires WaveOk(guys, attacks, queued)
    ensures var w := Assign(guys, attacks, queued, draw, k);
      w.queued.None? ==>
        (exists i :: 0 <= i < |guys| && Count(w.attacks, guys[i].id) == guys[i].health) || |guys| <= 1
    decreases IdSet(guys) - AttackerSet(attacks)
  {
    var next := if queued.Some? then queued else FreshAttack(guys, attacks, draw(k));
    var k' := if queued.Some? then k else k + 1;
    if next.Some? && !Attacking(attacks, next.value.attackerId) {
      CommitKeepsWave(guys, attacks, next.value);
      AssignStopsForAReason(guys, attacks + [next.value], None, draw, k');
    }
  }

  /** A queued pairing is retried before any fresh one and, with no attack pending, committed first. */
  lemma QueuedFirst(guys: seq<Guy>, q: Attack, draw: nat -> nat, k: nat)
    requires WaveOk(guys, [], Some(q))
    ensures var w := Assign(guys, [], Some(q), draw, k);
      |w.attacks| >= 1 && w.attacks[0] == q
  {
    CommitKeepsWave(guys, [], q);
    AssignExtends(guys, [q], None, draw, k);
  }

  // ---------------------------------------------------------------------------
  // The damage step

  /** One guy after the pending attacks land: one point less per attack aimed at it. */
  function Hurt(g: Guy, attacks: seq<Attack>): (h: Guy)
    requires Count(attacks, g.id) <= g.health
    ensures h == g.(health := h.health)
    ensures h.health + Count(attacks, g.id) == g.health
  {
    g.(health := g.health - Count(attacks, g.id))
  }

  /** Every guy after the pending attacks land. */
  function Damaged(guys: seq<Guy>, attacks: seq<Attack>): (d: seq<Guy>)
    requires forall i :: 0 <= i < |guys| ==> Count(attacks, guys[i].id) <= guys[i].health
    ensures |d| == |guys|
    ensures forall i :: 0 <= i < |guys| ==>
      d[i] == guys[i].(health := d[i].health) && d[i].health + Count(attacks, guys[i].id) == guys[i].health
  {
    seq(|guys|, i requires 0 <= i < |guys| => Hurt(guys[i], attacks))
  }

  /** `guys.retain(|guy| guy.health > 0)`: the guys with health left, in order. */
  function Alive(guys: seq<Guy>): (s: seq<Guy>)
    ensures forall g :: g in s <==> g in guys && g.health > 0
  {
    if guys == [] then []
    else if guys[0].health > 0 then [guys[0]] + Alive(guys[1..])
    else Alive(guys[1..])
  }

  lemma {:induction false} AliveKeepsDistinct(guys: seq<Guy>)
    requires DistinctIds(guys)
    ensures DistinctIds(Alive(guys))
  {
    if guys != [] {
      AliveKeepsDistinct(guys[1..]);
      if guys[0].health > 0 {
        var s := Alive(guys[1..]);
        forall j | 0 <= j < |s| ensures s[j].id != guys[0].id {
          assert s[j] in guys[1..];
        }
        assert Alive(guys) == [guys[0]] + s;
      }
    }
  }

  /**
   * The damage step (src/main.rs:145-148): each guy loses exactly one health per attack aimed
   * at it, guys whose health reaches zero are removed, and the survivors are otherwise
   * unchanged.
   */
  lemma DamageStep(guys: seq<Guy>, attacks: seq<Attack>)
    requires DistinctIds(guys)
    requires forall i :: 0 <= i < |guys| ==> Count(attacks, guys[i].id) <= guys[i].health
    ensures var s := Alive(Damaged(guys, attacks));
      && DistinctIds(s)
      && (forall h :: h in s ==> h.health > 0)
      && (forall i :: 0 <= i < |guys| && Count(attacks, guys[i].id) < guys[i].health ==>
            Hurt(guys[i], attacks) in s)
      && (forall i :: 0 <= i < |guys| && Count(attacks, guys[i].id) == guys[i].health ==>
            !HasId(s, guys[i].id))
      && (forall h :: h in s ==> exists i :: 0 <= i < |guys| && h == Hurt(guys[i], attacks))
  {
    var d := Damaged(guys, attacks);
    var s := Alive(d);
    assert DistinctIds(d);
    AliveKeepsDistinct(d);
    forall i | 0 <= i < |guys| && Count(attacks, guys[i].id) < guys[i].health
      ensures Hurt(guys[i], attacks) in s
    {
      assert d[i] in d;
    }
    forall h | h in s ensures exists i :: 0 <= i < |guys| && h == Hurt(guys[i], attacks) {
      var i :| 0 <= i < |d| && d[i] == h;
    }
    forall i | 0 <= i < |guys| && Count(attacks, guys[i].id) == guys[i].health
      ensures !HasId(s, guys[i].id)
    {
      forall j | 0 <= j < |s| ensures s[j].id != guys[i].id {
        assert s[j] in s;
        var m :| 0 <= m < |d| && d[m] == s[j];
        assert m != i;
      }
    }
  }

  /** After the damage step the queued pairing's attacker and target are still alive. */
  lemma DamageKeepsQueue(b: BattleState)
    requires Inv(b)
    ensures var s := Alive(Damaged(b.guys, b.attacks));
      && WaveOk(s, [], b.queuedAttack)
      && (forall i :: 0 <= i < |s| ==> s[i].health > 0 && 0.0 <= s[i].spawn <= 1.0)
  {
    var s := Alive(Damaged(b.guys, b.attacks));
    SurvivorsHealthy(b.guys, b.attacks);
    if b.queuedAttack.Some? {
      SpareSurvives(b.guys, b.attacks, b.queuedAttack.value.attackerId);
      SpareSurvives(b.guys, b.attacks, b.queuedAttack.value.targetId);
    }
    EmptyWave(s, b.queuedAttack);
  }

  /** With no attack pending, distinct ids and a committable queue are all a wave needs. */
  lemma EmptyWave(guys: seq<Guy>, queued: Option<Attack>)
    requires DistinctIds(guys)
    requires queued.Some? ==> PairingOk(guys, [], queued.value)
    ensures WaveOk(guys, [], queued)
  {
  }

  /** The survivors of the damage step keep distinct ids, positive health and their spawn ramps. */
  lemma SurvivorsHealthy(guys: seq<Guy>, attacks: seq<Attack>)
    requires DistinctIds(guys)
    requires forall i :: 0 <= i < |guys| ==> Count(attacks, guys[i].id) <= guys[i].health
    requires forall i :: 0 <= i < |guys| ==> 0.0 <= guys[i].spawn <= 1.0
    ensures var s := Alive(Damaged(guys, attacks));
      && DistinctIds(s)
      && forall i :: 0 <= i < |s| ==> s[i].health > 0 && 0.0 <= s[i].spawn <= 1.0
  {
    var s := Alive(Damaged(guys, attacks));
    DamageStep(guys, attacks);
    forall i | 0 <= i < |s| ensures s[i].health > 0 && 0.0 <= s[i].spawn <= 1.0 {
      assert s[i] in s;
    }
  }

  /** A guy with health to spare beyond the pending attacks is still there after they land. */
  lemma SpareSurvives(guys: seq<Guy>, attacks: seq<Attack>, id: Id)
    requires DistinctIds(guys)
    requires forall i :: 0 <= i < |guys| ==> Count(attacks, guys[i].id) <= guys[i].health
    requires Spare(guys, attacks, id)
    ensures Spare(Alive(Damaged(guys, attacks)), [], id)
  {
    var s := Alive(Damaged(guys, attacks));
    DamageStep(guys, attacks);
    var i :| 0 <= i < |guys| && guys[i].id == id && Count(attacks, id) < guys[i].health;
    var h := Hurt(guys[i], attacks);
    assert h in s;
    var j :| 0 <= j < |s| && s[j] == h;
  }

  // ---------------------------------------------------------------------------
  // One call of process_attacks

  /**
   * `process_attacks(delta_time)` as a function of the state: off means no change; a running
   * timer counts down and, once it reaches zero, the pending attacks land; with no timer
   * left the assignment loop runs and the timer restarts.
   */
  ghost function Tick(b: BattleState, dt: real, draw: nat -> nat): BattleState
    requires Inv(b)
  {
    if !b.processBattle then b
    else if b.nextAttack.Some? && b.nextAttack.value - dt * SwingRate > 0.0 then
      b.(nextAttack := Some(b.nextAttack.value - dt * SwingRate))
    else
      var guys := if b.nextAttack.Some? then Alive(Damaged(b.guys, b.attacks)) else b.guys;
      var attacks: seq<Attack> := if b.nextAttack.Some? then [] else b.attacks;
      DamageKeepsQueue(b);
      var w := Assign(guys, attacks, b.queuedAttack, draw, 0);
      BattleState(guys, true, Some(SwingDuration), w.attacks, w.queued)
  }

  /** With the battle off nothing changes (src/main.rs:139-141). */
  lemma TickWhenIdle(b: BattleState, dt: real, draw: nat -> nat)
    requires Inv(b) && !b.processBattle
    ensures Tick(b, dt, draw) == b
  {
  }

  /** While the timer is still positive only the timer moves (src/main.rs:142-154). */
  lemma TickWhileCounting(b: BattleState, dt: real, draw: nat -> nat)
    requires Inv(b) && b.processBattle
    requires b.nextAttack.Some? && b.nextAttack.value - dt * SwingRate > 0.0
    ensures var r := Tick(b, dt, draw);
      && r.guys == b.guys && r.attacks == b.attacks && r.queuedAttack == b.queuedAttack
      && r.nextAttack == Some(b.nextAttack.value - dt * SwingRate)
  {
  }

  /**
   * Every tick keeps the invariant: in particular no attacker appears twice, no attack or
   * queued pairing refers to a removed guy, and nobody is over-targeted.
   */
  lemma TickKeepsInv(b: BattleState, dt: real, draw: nat -> nat)
    requires Inv(b)
    ensures Inv(Tick(b, dt, draw))
  {
    if b.processBattle && !(b.nextAttack.Some? && b.nextAttack.value - dt * SwingRate > 0.0) {
      var guys := if b.nextAttack.Some? then Alive(Damaged(b.guys, b.attacks)) else b.guys;
      var attacks: seq<Attack> := if b.nextAttack.Some? then [] else b.attacks;
      DamageKeepsQueue(b);
      AssignKeepsWave(guys, attacks, b.queuedAttack, draw, 0);
    }
  }

  /**
   * When the timer elapses the pending attacks land and are cleared before rescheduling, the
   * timer restarts at one unit, and a queued pairing becomes the first new attack
   * (src/main.rs:144-149, 159-160, 209).
   */
  lemma TickAfterSwing(b: BattleState, dt: real, draw: nat -> nat)
    requires Inv(b) && b.processBattle
    requires !(b.nextAttack.Some? && b.nextAttack.value - dt * SwingRate > 0.0)
    ensures var r := Tick(b, dt, draw);
      && r.guys == (if b.nextAttack.Some? then Alive(Damaged(b.guys, b.attacks)) else b.guys)
      && r.nextAttack == Some(SwingDuration)
      && (b.queuedAttack.Some? ==> |r.attacks| >= 1 && r.attacks[0] == b.queuedAttack.value)
  {
    var guys := if b.nextAttack.Some? then Alive(Damaged(b.guys, b.attacks)) else b.guys;
    DamageKeepsQueue(b);
    if b.queuedAttack.Some? {
      QueuedFirst(guys, b.queuedAttack.value, draw, 0);
    }
  }

  /**
   * A tick in which at least two guys take part in the assignment loop commits at least one
   * attack, so the wave that follows removes at least one point of health.
   */
  lemma TickSchedules(b: BattleState, dt: real, draw: nat -> nat)
    requires Inv(b) && b.processBattle
    requires !(b.nextAttack.Some? && b.nextAttack.value - dt * SwingRate > 0.0)
    requires |if b.nextAttack.Some? then Alive(Damaged(b.guys, b.attacks)) else b.guys| >= 2
    ensures |Tick(b, dt, draw).attacks| >= 1
  {
    var guys := if b.nextAttack.Some? then Alive(Damaged(b.guys, b.attacks)) else b.guys;
    DamageKeepsQueue(b);
    AssignSchedules(guys, b.queuedAttack, draw);
  }

  /** From an empty wave, two or more guys with health left always give at least one attack. */
  lemma AssignSchedules(guys: seq<Guy>, queued: Option<Attack>, draw: nat -> nat)
    requires WaveOk(guys, [], queued)
    requires |guys| >= 2 && forall i :: 0 <= i < |guys| ==> guys[i].health > 0
    ensures |Assign(guys, [], queued, draw, 0).attacks| >= 1
  {
    if queued.Some? {
      QueuedFirst(guys, queued.value, draw, 0);
    } else {
      assert forall i :: 0 <= i < |guys| ==> Count([], guys[i].id) < guys[i].health;
      var c := FreshAttack(guys, [], draw(0));
      CommitKeepsWave(guys, [], c.value);
      AssignExtends(guys, [c.value], None, draw, 1);
    }
  }

  // ---------------------------------------------------------------------------
  // Health is conserved through the damage step

  function TotalHealth(guys: seq<Guy>): nat {
    if guys == [] then 0 else guys[0].health + TotalHealth(guys[1..])
  }

  /** Number of guys carrying this id. */
  function Occurrences(guys: seq<Guy>, id: Id): nat {
    if guys == [] then 0 else (if guys[0].id == id then 1 else 0) + Occurrences(guys[1..], id)
  }

  /** Attacks aimed at the guys of the list, counted guy by guy. */
  function TotalCount(guys: seq<Guy>, attacks: seq<Attack>): nat {
    if guys == [] then 0 else Count(attacks, guys[0].id) + TotalCount(guys[1..], attacks)
  }

  lemma {:induction false} TotalAlive(guys: seq<Guy>)
    ensures TotalHealth(Alive(guys)) == TotalHealth(guys)
  {
    if guys != [] {
      TotalAlive(guys[1..]);
      if guys[0].health > 0 {
        assert ([guys[0]] + Alive(guys[1..]))[1..] == Alive(guys[1..]);
      }
    }
  }

  lemma {:induction false} TotalDamaged(guys: seq<Guy>, attacks: seq<Attack>)
    requires forall i :: 0 <= i < |guys| ==> Count(attacks, guys[i].id) <= guys[i].health
    ensures TotalHealth(Damaged(guys, attacks)) + TotalCount(guys, attacks) == TotalHealth(guys)
  {
    if guys != [] {
      assert Damaged(guys, attacks)[1..] == Damaged(guys[1..], attacks);
      TotalDamaged(guys[1..], attacks);
    }
  }

  lemma {:induction false} TotalCountAppend(guys: seq<Guy>, attacks: seq<Attack>, a: Attack)
    ensures TotalCount(guys, attacks + [a]) == TotalCount(guys, attacks) + Occurrences(guys, a.targetId)
  {
    if guys != [] {
      CountAppend(attacks, a, guys[0].id);
      TotalCountAppend(guys[1..], attacks, a);
    }
  }

  lemma {:induction false} OccurrencesOfId(guys: seq<Guy>, id: Id)
    requires DistinctIds(guys)
    ensures Occurrences(guys, id) == if HasId(guys, id) then 1 else 0
  {
    if guys != [] {
      OccurrencesOfId(guys[1..], id);
      if guys[0].id == id {
        assert !HasId(guys[1..], id) by {
          forall j | 0 <= j < |guys| - 1 ensures guys[1..][j].id != id {
            assert guys[1..][j] == guys[j + 1];
          }
        }
      } else if HasId(guys, id) {
        var j :| 0 <= j < |guys| && guys[j].id == id;
        assert guys[1..][j - 1].id == id;
      }
    }
  }

  lemma {:induction false} TotalCountIsLength(guys: seq<Guy>, attacks: seq<Attack>)
    requires DistinctIds(guys)
    requires forall j :: 0 <= j < |attacks| ==> HasId(guys, attacks[j].targetId)
    ensures TotalCount(guys, attacks) == |attacks|
  {
    if attacks == [] {
      TotalCountEmpty(guys);
    } else {
      var init := attacks[..|attacks| - 1];
      var a := attacks[|attacks| - 1];
      assert init + [a] == attacks;
      TotalCountIsLength(guys, init);
      TotalCountAppend(guys, init, a);
      OccurrencesOfId(guys, a.targetId);
    }
  }

  lemma {:induction false} TotalCountEmpty(guys: seq<Guy>)
    ensures TotalCount(guys, []) == 0
  {
    if guys != [] {
      TotalCountEmpty(guys[1..]);
    }
  }

  /**
   * Damage atomicity (src/main.rs:145-148): a wave removes exactly one point of health per
   * attack from the population, counting the removed guys' last points.
   */
  lemma DamageConserved(guys: seq<Guy>, attacks: seq<Attack>)
    requires WaveOk(guys, attacks, None)
    ensures TotalHealth(Alive(Damaged(guys, attacks))) == TotalHealth(guys) - |attacks|
  {
    TotalAlive(Damaged(guys, attacks));
    TotalDamaged(guys, attacks);
    TotalCountIsLength(guys, attacks);
  }

  /** When the timer elapses the population loses exactly as much health as attacks landed. */
  lemma TickDamage(b: BattleState, dt: real, draw: nat -> nat)
    requires Inv(b) && b.processBattle
    requires b.nextAttack.Some? && b.nextAttack.value - dt * SwingRate <= 0.0
    ensures TotalHealth(Tick(b, dt, draw).guys) == TotalHealth(b.guys) - |b.attacks|
  {
    DamageConserved(b.guys, b.attacks);
  }

  // ---------------------------------------------------------------------------
  // Spawn ramp

  /** One update of a guy's spawn ramp (src/main.rs:341): advanced by dt, capped at one. */
  function RampUp(spawn: real, dt: real): (r: real)
    ensures r <= 1.0
    ensures r == 1.0 || r == spawn + dt
    ensures r <= spawn + dt
    ensures spawn <= 1.0 && dt >= 0.0 ==> spawn <= r
  {
    if spawn + dt < 1.0 then spawn + dt else 1.0
  }

  /** Two guy lists with the same ids and healths, index by index. */
  ghost predicate SameRoster(g1: seq<Guy>, g2: seq<Guy>) {
    |g1| == |g2| && forall i :: 0 <= i < |g1| ==> g1[i].id == g2[i].id && g1[i].health == g2[i].health
  }

  lemma RosterKeepsWave(g1: seq<Guy>, g2: seq<Guy>, attacks: seq<Attack>, queued: Option<Attack>)
    requires WaveOk(g1, attacks, queued) && SameRoster(g1, g2)
    ensures WaveOk(g2, attacks, queued)
  {
    forall id | HasId(g1, id) ensures HasId(g2, id) {
      var i :| 0 <= i < |g1| && g1[i].id == id;
      assert g2[i].id == id;
    }
    forall id | Spare(g1, attacks, id) ensures Spare(g2, attacks, id) {
      var i :| 0 <= i < |g1| && g1[i].id == id && Count(attacks, id) < g1[i].health;
      assert g2[i].id == id;
    }
  }

  /** Index of the guy with this id (`guys.get_mut(&id).unwrap()`). */
  function IndexOf(guys: seq<Guy>, id: Id): (i: nat)
    requires HasId(guys, id)
    ensures i < |guys| && guys[i].id == id
  {
    if guys[0].id == id then 0
    else
      assert HasId(guys[1..], id) by {
        var j :| 0 <= j < |guys| && guys[j].id == id;
        assert guys[1..][j - 1].id == id;
      }
      1 + IndexOf(guys[1..], id)
  }

  /**
   * The drain loop of the damage step (src/main.rs:145-147): each pending attack takes one
   * point of health from its target.
   */
  method LandAttacks(guys: seq<Guy>, attacks: seq<Attack>) returns (hurt: seq<Guy>)
    requires WaveOk(guys, attacks, None)
    ensures hurt == Damaged(guys, attacks)
  {
    hurt := guys;
    var n := 0;
    while n < |attacks|
      invariant 0 <= n <= |attacks|
      invariant |hurt| == |guys|
      invariant forall j :: 0 <= j < |hurt| ==>
        hurt[j] == guys[j].(health := hurt[j].health) && hurt[j].health + Count(attacks[..n], guys[j].id) == guys[j].health
    {
      var t := attacks[n].targetId;
      assert HasId(hurt, t) by {
        var i :| 0 <= i < |guys| && guys[i].id == t;
        assert hurt[i].id == t;
      }
      var j := IndexOf(hurt, t);
      CountPrefix(attacks, n, t);
      hurt := hurt[j := hurt[j].(health := hurt[j].health - 1)];
      forall m | 0 <= m < |hurt|
        ensures hurt[m] == guys[m].(health := hurt[m].health)
        ensures hurt[m].health + Count(attacks[..n + 1], guys[m].id) == guys[m].health
      {
        CountPrefix(attacks, n, guys[m].id);
        assert m != j ==> guys[m].id != t;
      }
      n := n + 1;
    }
    assert attacks[..|attacks|] == attacks;
  }

  /**
   * One fresh pairing as the loop body computes it (src/main.rs:162-194): the effective
   * healths, then the weighted target and the nearest attacker.
   */
  method FreshPairing(guys: seq<Guy>, attacks: seq<Attack>, roll: nat) returns (r: Option<Attack>)
    requires WaveOk(guys, attacks, None)
    ensures r == FreshAttack(guys, attacks, roll)
  {
    var healths := EffectiveHealths(guys, attacks);
    var weights := seq(|guys|, i requires 0 <= i < |guys| => healths[guys[i].id]);
    assert weights == Weights(guys, attacks);
    var pick := Choose(guys, weights, roll);
    if pick.None? {
      return None;
    }
    r := Some(Attack(guys[pick.value.attacker].id, guys[pick.value.target].id));
  }

  /**
   * The assignment loop (src/main.rs:158-208), run until it stops; `draw(k)` is the roll
   * for the k-th fresh target.
   */
  method ScheduleAttacks(guys: seq<Guy>, attacks: seq<Attack>, queued: Option<Attack>, draw: nat -> nat)
    returns (attacks': seq<Attack>, queued': Option<Attack>)
    requires WaveOk(guys, attacks, queued)
    ensures Wave(attacks', queued') == Assign(guys, attacks, queued, draw, 0)
  {
    attacks', queued' := attacks, queued;
    var k := 0;
    while true
      invariant WaveOk(guys, attacks', queued')
      invariant Assign(guys, attacks', queued', draw, k) == Assign(guys, attacks, queued, draw, 0)
      decreases IdSet(guys) - AttackerSet(attacks')
    {
      var newAttack: Attack;
      if queued'.Some? {
        newAttack := queued'.value;
        queued' := None;
      } else {
        var candidate := FreshPairing(guys, attacks', draw(k));
        k := k + 1;
        if candidate.None? {
          break;
        }
        newAttack := candidate.value;
      }
      if Attacking(attacks', newAttack.attackerId) {
        queued' := Some(newAttack);
        break;
      }
      CommitKeepsWave(guys, attacks', newAttack);
      attacks' := attacks' + [newAttack];
    }
  }

  /** Adding a fresh guy with an unused id keeps the invariant. */
  lemma AddKeepsInv(b: BattleState, g: Guy, nextId: Id)
    requires Inv(b) && forall i :: 0 <= i < |b.guys| ==> b.guys[i].id < nextId
    requires g.id == nextId && g.health > 0 && 0.0 <= g.spawn <= 1.0
    ensures Inv(b.(guys := b.guys + [g]))
    ensures forall i :: 0 <= i < |b.guys| + 1 ==> (b.guys + [g])[i].id < nextId + 1
  {
    var gs := b.guys + [g];
    assert forall i :: 0 <= i < |b.guys| ==> gs[i] == b.guys[i];
    assert gs[|b.guys|] == g;
    AppendKeepsWave(b.guys, b.attacks, b.queuedAttack, g);
  }

  /** A guy whose id nobody holds joins a wave without disturbing it. */
  lemma AppendKeepsWave(guys: seq<Guy>, attacks: seq<Attack>, queued: Option<Attack>, g: Guy)
    requires WaveOk(guys, attacks, queued)
    requires forall i :: 0 <= i < |guys| ==> guys[i].id != g.id
    ensures WaveOk(guys + [g], attacks, queued)
  {
    var gs := guys + [g];
    assert forall i :: 0 <= i < |guys| ==> gs[i] == guys[i];
    assert gs[|guys|] == g;
    forall j | 0 <= j < |attacks| ensures attacks[j].targetId != g.id {
      var i :| 0 <= i < |guys| && guys[i].id == attacks[j].targetId;
    }
    CountAbsent(attacks, g.id);
    forall x | HasId(guys, x) ensures HasId(gs, x) {
      var i :| 0 <= i < |guys| && guys[i].id == x;
      assert gs[i].id == x;
    }
    forall x | Spare(guys, attacks, x) ensures Spare(gs, attacks, x) {
      var i :| 0 <= i < |guys| && guys[i].id == x && Count(attacks, x) < guys[i].health;
      assert gs[i].id == x;
    }
  }

  // ---------------------------------------------------------------------------
  // The game state

  /**
   * One call of `process_attacks(delta_time)` on a copy of the battle state: count the timer
   * down; once it runs out land every pending attack and drop the dead; then, with no timer
   * running, fill the next wave and restart the timer at one swing.
   */
  method Step(b: BattleState, dt: real, draw: nat -> nat) returns (r: BattleState)
    requires Inv(b)
    ensures r == Tick(b, dt, draw)
  {
    if !b.processBattle {
      return b;
    }
    var roster, timer, pending, queued := b.guys, b.nextAttack, b.attacks, b.queuedAttack;
    if timer.Some? {
      var time := timer.value - dt * SwingRate;
      timer := Some(time);
      if time <= 0.0 {
        var hurt := LandAttacks(roster, pending);
        DamageKeepsQueue(b);
        pending := [];
        roster := Alive(hurt);
        timer := None;
      }
    }
    if timer.None? {
      pending, queued := ScheduleAttacks(roster, pending, queued, draw);
      timer := Some(SwingDuration);
    }
    r := BattleState(roster, true, timer, pending, queued);
  }

  /** A tick keeps the invariant and introduces no id at or beyond the next free one. */
  lemma TickKeepsValid(b: BattleState, dt: real, draw: nat -> nat, nextId: Id)
    requires Inv(b) && forall i :: 0 <= i < |b.guys| ==> b.guys[i].id < nextId
    ensures Inv(Tick(b, dt, draw))
    ensures forall i :: 0 <= i < |Tick(b, dt, draw).guys| ==> Tick(b, dt, draw).guys[i].id < nextId
  {
    TickKeepsInv(b, dt, draw);
    TickKeepsIds(b, dt, draw, nextId);
  }

  /** A tick introduces no id at or beyond the bound. */
  lemma TickKeepsIds(b: BattleState, dt: real, draw: nat -> nat, bound: Id)
    requires Inv(b) && forall i :: 0 <= i < |b.guys| ==> b.guys[i].id < bound
    ensures forall i :: 0 <= i < |Tick(b, dt, draw).guys| ==> Tick(b, dt, draw).guys[i].id < bound
  {
    var r := Tick(b, dt, draw);
    if b.processBattle && b.nextAttack.Some? && b.nextAttack.value - dt * SwingRate <= 0.0 {
      SurvivorsKeepIds(b.guys, b.attacks, bound);
      assert r.guys == Alive(Damaged(b.guys, b.attacks));
    } else {
      assert r.guys == b.guys;
    }
  }

  /** The battle part of the game state (`Test` in src/main.rs). */
  class Arena {
    var guys: seq<Guy>
    var nextId: Id
    var processBattle: bool
    var nextAttack: Option<real>
    var attacks: seq<Attack>
    var queuedAttack: Option<Attack>

    function State(): BattleState
      reads this
    {
      BattleState(guys, processBattle, nextAttack, attacks, queuedAttack)
    }

    ghost predicate Valid()
      reads this
    {
      Inv(State()) && forall i :: 0 <= i < |guys| ==> guys[i].id < nextId
    }

    /** `Test::new`: no guys, battle off, no timer, no attacks. */
    constructor ()
      ensures Valid()
      ensures State() == BattleState([], false, None, [], None) && nextId == 0
    {
      guys := [];
      nextId := 0;
      processBattle := false;
      nextAttack := None;
      attacks := [];
      queuedAttack := None;
    }

    /** The space key switches the battle on or off. */
    method ToggleBattle()
      requires Valid()
      modifies this
      ensures Valid()
      ensures State() == old(State()).(processBattle := !old(processBattle)) && nextId == old(nextId)
    {
      processBattle := !processBattle;
    }

    /** The S key: a new guy with the next id, five health, at rest and not yet spawned in. */
    method SpawnAt(position: Vec2)
      requires Valid()
      modifies this
      ensures Valid()
      ensures nextId == old(nextId) + 1
      ensures State() == old(State()).(guys := old(guys) + [Guy(old(nextId), StartingHealth, Zero, position, 0.0)])
    {
      AddKeepsInv(State(), Guy(nextId, StartingHealth, Zero, position, 0.0), nextId);
      guys := guys + [Guy(nextId, StartingHealth, Zero, position, 0.0)];
      nextId := nextId + 1;
    }

    /**
     * `process_attacks(delta_time)` with the random source injected: `draw(k)` is the k-th
     * roll used for a fresh target.
     */
    method ProcessAttacks(dt: real, draw: nat -> nat)
      requires Valid()
      modifies this
      ensures Valid()
      ensures State() == Tick(old(State()), dt, draw) && nextId == old(nextId)
    {
      var r := Step(State(), dt, draw);
      TickKeepsValid(old(State()), dt, draw, nextId);
      guys, nextAttack, attacks, queuedAttack := r.guys, r.nextAttack, r.attacks, r.queuedAttack;
    }

    /** The spawn-ramp loop of `update` (src/main.rs:340-342). */
    method AdvanceSpawnRamps(dt: real)
      requires Valid() && dt >= 0.0
      modifies this
      ensures Valid()
      ensures |guys| == |old(guys)|
      ensures forall i :: 0 <= i < |guys| ==>
        guys[i] == old(guys[i]).(spawn := RampUp(old(guys[i]).spawn, dt))
      ensures nextId == old(nextId) && processBattle == old(processBattle) && nextAttack == old(nextAttack)
      ensures attacks == old(attacks) && queuedAttack == old(queuedAttack)
    {
      var gs := guys;
      for i := 0 to |gs|
        invariant |gs| == |guys|
        invariant forall j :: 0 <= j < i ==> gs[j] == guys[j].(spawn := RampUp(guys[j].spawn, dt))
        invariant forall j :: i <= j < |gs| ==> gs[j] == guys[j]
      {
        gs := gs[i := gs[i].(spawn := RampUp(gs[i].spawn, dt))];
      }
      RosterKeepsWave(guys, gs, attacks, queuedAttack);
      guys := gs;
    }
  }

  /** Survivors of a damage step keep ids that were already below the id counter. */
  lemma SurvivorsKeepIds(guys: seq<Guy>, attacks: seq<Attack>, bound: Id)
    requires DistinctIds(guys)
    requires forall i :: 0 <= i < |guys| ==> Count(attacks, guys[i].id) <= guys[i].health
    requires forall i :: 0 <= i < |guys| ==> guys[i].id < bound
    ensures var s := Alive(Damaged(guys, attacks)); forall i :: 0 <= i < |s| ==> s[i].id < bound
  {
    var s := Alive(Damaged(guys, attacks));
    DamageStep(guys, attacks);
    forall i | 0 <= i < |s| ensures s[i].id < bound {
      assert s[i] in s;
    }
  }
}
