/**
 * model/model_route.go, weightedShuffleAttempts: weighted random order without replacement, with the draws as inputs.
 */
module WeightedShuffle {
  import opened Routes
  import opened RouteScoring

  datatype Attempt = Attempt(route: ModelRoute, valueScore: real, contribution: real)

  /** `rand.Float64` yields 0 but never 1. */
  type Unit = x: real | 0.0 <= x < 1.0 witness 0.0

  /** One round's randomness: the uniform draw, and the index for pools without positive weight. */
  datatype Draw = Draw(unit: Unit, index: nat)

  function Weight(a: Attempt): (w: real)
    ensures w >= 0.0
  {
    if a.contribution > 0.0 then a.contribution else 0.0
  }

  /** The weight of the first i attempts. */
  function Prefix(pool: seq<Attempt>, i: nat): (w: real)
    requires i <= |pool|
    ensures w >= 0.0
  {
    if i == 0 then 0.0 else Prefix(pool, i - 1) + Weight(pool[i - 1])
  }

  function Total(pool: seq<Attempt>): real {
    Prefix(pool, |pool|)
  }

  /** The first index whose prefix reaches the pick; 0 when none does. */
  function Reached(pool: seq<Attempt>, pick: real, from: nat): (i: nat)
    requires pool != [] && from <= |pool|
    ensures i < |pool|
    decreases |pool| - from
  {
    if from == |pool| then 0
    else if pick <= Prefix(pool, from + 1) then from
    else Reached(pool, pick, from + 1)
  }

  function Selected(pool: seq<Attempt>, d: Draw): (i: nat)
    requires pool != []
    ensures i < |pool|
  {
    if Total(pool) > 0.0 then Reached(pool, Pick(d, Total(pool)), 0) else d.index % |pool|
  }

  function Pick(d: Draw, totalWeight: real): real {
    d.unit * totalWeight
  }

  function Without(pool: seq<Attempt>, i: nat): (rest: seq<Attempt>)
    requires i < |pool|
    ensures |rest| == |pool| - 1
  {
    pool[..i] + pool[i + 1..]
  }

  function Shuffle(pool: seq<Attempt>, draws: seq<Draw>): seq<Attempt>
    requires |draws| == |pool|
    decreases |pool|
  {
    if pool == [] then []
    else
      var i := Selected(pool, draws[0]);
      [pool[i]] + Shuffle(Without(pool, i), draws[1..])
  }

  /** One round: add up the weights, draw, and walk to the attempt the pick falls on. */
  method SelectIndex(pool: seq<Attempt>, d: Draw) returns (selectedIdx: nat)
    requires pool != []
    ensures selectedIdx == Selected(pool, d)
  {
    hide Pick;
    var totalWeight := 0.0;
    for i := 0 to |pool|
      invariant totalWeight == Prefix(pool, i)
    {
      if pool[i].contribution > 0.0 {
        totalWeight := totalWeight + pool[i].contribution;
      }
    }
    selectedIdx := 0;
    if totalWeight > 0.0 {
      var pick := Pick(d, totalWeight);
      var acc := 0.0;
      var i := 0;
      while i < |pool|
        invariant 0 <= i <= |pool| && acc == Prefix(pool, i) && selectedIdx == 0
        invariant Reached(pool, pick, 0) == Reached(pool, pick, i)
      {
        var weight := pool[i].contribution;
        if weight < 0.0 {
          weight := 0.0;
        }
        acc := acc + weight;
        if pick <= acc {
          selectedIdx := i;
          break;
        }
        i := i + 1;
      }
    } else {
      selectedIdx := d.index % |pool|;
    }
  }

  /** The pool shrinks by the selected attempt until nothing is left. */
  method WeightedShuffleAttempts(attempts: seq<Attempt>, draws: seq<Draw>) returns (ordered: seq<Attempt>)
    requires |draws| == |attempts|
    ensures ordered == Shuffle(attempts, draws)
  {
    hide Selected;
    var pool := attempts;
    ordered := [];
    var round := 0;
    while |pool| > 0
      invariant |draws| == round + |pool|
      invariant ordered + Shuffle(pool, draws[round..]) == Shuffle(attempts, draws)
      decreases |pool|
    {
      var selectedIdx := SelectIndex(pool, draws[round]);
      assert draws[round..][0] == draws[round] && draws[round..][1..] == draws[round + 1..];
      ordered := ordered + [pool[selectedIdx]];
      pool := Without(pool, selectedIdx);
      round := round + 1;
    }
  }

  // ---------------------------------------------------------------- permutation

  lemma {:induction false} ShufflePermutes(pool: seq<Attempt>, draws: seq<Draw>)
    requires |draws| == |pool|
    ensures multiset(Shuffle(pool, draws)) == multiset(pool)
    ensures |Shuffle(pool, draws)| == |pool|
    decreases |pool|
  {
    if pool != [] {
      var i := Selected(pool, draws[0]);
      ShufflePermutes(Without(pool, i), draws[1..]);
      assert pool == pool[..i] + [pool[i]] + pool[i + 1..];
    }
  }

  // ---------------------------------------------------------------- selection probability

  lemma {:induction false} PrefixMonotone(pool: seq<Attempt>, i: nat, j: nat)
    requires i <= j <= |pool|
    ensures Prefix(pool, i) <= Prefix(pool, j)
    decreases j
  {
    if i < j {
      PrefixMonotone(pool, i, j - 1);
    }
  }

  lemma {:induction false} ReachedInterval(pool: seq<Attempt>, pick: real, from: nat)
    requires pool != [] && from <= |pool| && Prefix(pool, from) < pick <= Total(pool)
    ensures var i := Reached(pool, pick, from);
            from <= i && Prefix(pool, i) < pick <= Prefix(pool, i + 1)
    decreases |pool| - from
  {
    if from < |pool| && pick > Prefix(pool, from + 1) {
      ReachedInterval(pool, pick, from + 1);
    }
  }

  lemma ReachedIff(pool: seq<Attempt>, pick: real, i: nat)
    requires i < |pool| && 0.0 < pick <= Total(pool)
    ensures Reached(pool, pick, 0) == i <==> Prefix(pool, i) < pick <= Prefix(pool, i + 1)
  {
    ReachedInterval(pool, pick, 0);
    var j := Reached(pool, pick, 0);
    if j < i {
      PrefixMonotone(pool, j + 1, i);
    } else if i < j {
      PrefixMonotone(pool, i + 1, j);
    }
  }

  lemma IntervalScaled(lo: real, hi: real, total: real, d: Draw)
    requires total > 0.0
    ensures lo < Pick(d, total) <= hi <==> lo / total < d.unit <= hi / total
  {
    QuotientOrder(lo, total, d.unit, 1.0);
    QuotientOrder(hi, total, d.unit, 1.0);
    assert d.unit / 1.0 == d.unit;
  }

  lemma PrefixStep(pool: seq<Attempt>, i: nat)
    requires i < |pool|
    ensures Prefix(pool, i + 1) == Prefix(pool, i) + Weight(pool[i])
  {
  }

  lemma UnitScaled(unit: real, total: real)
    requires 0.0 < unit < 1.0 && total > 0.0
    ensures 0.0 < unit * total <= total
  {
    Scale(total, unit, 1.0);
  }

  lemma PickRange(d: Draw, total: real)
    requires d.unit > 0.0 && total > 0.0
    ensures 0.0 < Pick(d, total) <= total
  {
    UnitScaled(d.unit, total);
  }

  lemma SelectedIff(pool: seq<Attempt>, d: Draw, i: nat)
    requires i < |pool| && Total(pool) > 0.0 && d.unit > 0.0
    ensures Selected(pool, d) == i <==> Prefix(pool, i) < Pick(d, Total(pool)) <= Prefix(pool, i + 1)
  {
    hide Prefix, Reached, Pick;
    PickRange(d, Total(pool));
    ReachedIff(pool, Pick(d, Total(pool)), i);
  }

  /**
   * An attempt is selected exactly when the draw falls into its half-open interval of (0,1), whose length is
   * the attempt's share of the total weight.
   */
  lemma SelectionShare(pool: seq<Attempt>, d: Draw, i: nat)
    requires i < |pool| && Total(pool) > 0.0 && d.unit > 0.0
    ensures Selected(pool, d) == i <==> Prefix(pool, i) / Total(pool) < d.unit <= Prefix(pool, i + 1) / Total(pool)
    ensures Prefix(pool, i + 1) / Total(pool) - Prefix(pool, i) / Total(pool) == Weight(pool[i]) / Total(pool)
  {
    hide Prefix, Selected, Weight, Total, Pick;
    SelectedIff(pool, d, i);
    IntervalScaled(Prefix(pool, i), Prefix(pool, i + 1), Total(pool), d);
    PrefixStep(pool, i);
    SumQuotient(Prefix(pool, i), Weight(pool[i]), Total(pool));
  }

  lemma SumQuotient(x: real, y: real, total: real)
    requires total > 0.0
    ensures (x + y) / total == x / total + y / total
  {
  }

  // ---------------------------------------------------------------- positive contributions first

  ghost predicate PositivesFirst(s: seq<Attempt>) {
    forall i, j :: 0 <= i < j < |s| && s[j].contribution > 0.0 ==> s[i].contribution > 0.0
  }

  /** A round goes astray when the draw is exactly 0 while the pool's head has no weight but another attempt has. */
  predicate Astray(pool: seq<Attempt>, d: Draw) {
    pool != [] && Total(pool) > 0.0 && d.unit == 0.0 && pool[0].contribution <= 0.0
  }

  ghost predicate NeverAstray(pool: seq<Attempt>, draws: seq<Draw>)
    requires |draws| == |pool|
    decreases |pool|
  {
    pool == [] || (!Astray(pool, draws[0]) && NeverAstray(Without(pool, Selected(pool, draws[0])), draws[1..]))
  }

  lemma {:induction false} NoWeight(pool: seq<Attempt>, n: nat)
    requires n <= |pool|
    ensures Prefix(pool, n) > 0.0 <==> exists j :: 0 <= j < n && pool[j].contribution > 0.0
  {
    if n > 0 {
      NoWeight(pool, n - 1);
    }
  }

  /** The draw 0, which the generator may yield, takes the head whatever its weight. */
  lemma ZeroTakesHead(pool: seq<Attempt>, d: Draw)
    requires pool != [] && Total(pool) > 0.0 && d.unit == 0.0
    ensures Selected(pool, d) == 0
  {
    assert Pick(d, Total(pool)) == 0.0;
  }

  lemma SelectedPositive(pool: seq<Attempt>, d: Draw)
    requires pool != [] && Total(pool) > 0.0
    ensures pool[Selected(pool, d)].contribution > 0.0 <==> !Astray(pool, d)
  {
    hide Selected, Prefix;
    if d.unit > 0.0 {
      SelectedIff(pool, d, Selected(pool, d));
      PrefixStep(pool, Selected(pool, d));
    } else {
      ZeroTakesHead(pool, d);
    }
  }

  /** Positive contributions all come before the others exactly when no round goes astray. */
  lemma {:induction false} PositivesFirstIff(pool: seq<Attempt>, draws: seq<Draw>)
    requires |draws| == |pool|
    ensures PositivesFirst(Shuffle(pool, draws)) <==> NeverAstray(pool, draws)
    decreases |pool|
  {
    hide Selected, Total, Prefix;
    if pool != [] {
      var i := Selected(pool, draws[0]);
      var rest := Without(pool, i);
      var tail := Shuffle(rest, draws[1..]);
      PositivesFirstIff(rest, draws[1..]);
      ShufflePermutes(rest, draws[1..]);
      assert Shuffle(pool, draws) == [pool[i]] + tail;
      HeadFirst(pool[i], tail);
      assert (exists a :: a in tail && a.contribution > 0.0) <==> (exists a :: a in rest && a.contribution > 0.0) by {
        assert forall a :: a in tail <==> a in multiset(tail);
        assert forall a :: a in rest <==> a in multiset(rest);
      }
      WeightLeft(pool, draws[0], i);
    }
  }

  lemma HeadFirst(head: Attempt, tail: seq<Attempt>)
    ensures PositivesFirst([head] + tail)
       <==> PositivesFirst(tail) && (head.contribution > 0.0 || !exists a :: a in tail && a.contribution > 0.0)
  {
    var s := [head] + tail;
    if PositivesFirst(s) {
      forall i, j | 0 <= i < j < |tail| && tail[j].contribution > 0.0 ensures tail[i].contribution > 0.0 {
        assert s[j + 1] == tail[j] && s[i + 1] == tail[i];
      }
      forall a | a in tail && a.contribution > 0.0 ensures head.contribution > 0.0 {
        var j :| 0 <= j < |tail| && tail[j] == a;
        assert s[j + 1] == a && s[0] == head;
      }
    }
  }

  lemma WeightLeft(pool: seq<Attempt>, d: Draw, i: nat)
    requires pool != [] && i == Selected(pool, d)
    ensures Astray(pool, d)
       <==> pool[i].contribution <= 0.0 && exists a :: a in Without(pool, i) && a.contribution > 0.0
  {
    hide Selected, Reached;
    NoWeight(pool, |pool|);
    if Total(pool) > 0.0 {
      SelectedPositive(pool, d);
      if pool[i].contribution <= 0.0 {
        var j :| 0 <= j < |pool| && pool[j].contribution > 0.0;
        assert pool[j] in Without(pool, i) by {
          assert if j < i then Without(pool, i)[j] == pool[j] else Without(pool, i)[j - 1] == pool[j];
        }
      }
    } else {
      assert forall a :: a in Without(pool, i) ==> a in pool;
    }
  }

  /** Draws strictly inside (0,1) never go astray, so they put every positive contribution first. */
  lemma {:induction false} InnerDrawsPutPositivesFirst(pool: seq<Attempt>, draws: seq<Draw>)
    requires |draws| == |pool| && forall d :: d in draws ==> d.unit > 0.0
    ensures PositivesFirst(Shuffle(pool, draws))
  {
    InnerDrawsStay(pool, draws);
    PositivesFirstIff(pool, draws);
  }

  lemma {:induction false} InnerDrawsStay(pool: seq<Attempt>, draws: seq<Draw>)
    requires |draws| == |pool| && forall d :: d in draws ==> d.unit > 0.0
    ensures NeverAstray(pool, draws)
    decreases |pool|
  {
    if pool != [] {
      assert draws[0] in draws && forall d :: d in draws[1..] ==> d in draws;
      InnerDrawsStay(Without(pool, Selected(pool, draws[0])), draws[1..]);
    }
  }

  /** A pool and draws that the source may meet and that put a weightless attempt in front of a weighted one. */
  lemma MisorderedExample() returns (pool: seq<Attempt>, draws: seq<Draw>)
    ensures |draws| == |pool| && !PositivesFirst(Shuffle(pool, draws))
  {
    var light := Attempt(ModelRoute(1, "m", 1, 1, true, 0, -10), 0.5, 0.0);
    var heavy := Attempt(ModelRoute(2, "m", 2, 1, true, 0, 10), 0.5, 20.0);
    pool, draws := [light, heavy], [Draw(0.0, 0), Draw(0.0, 0)];
    NoWeight(pool, 2);
    assert pool[1].contribution > 0.0;
    PositivesFirstIff(pool, draws);
  }
}
