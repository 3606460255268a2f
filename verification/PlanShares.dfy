/**
 * model/model_route.go, BuildRouteAttemptsByPriority, read from outside: what share of a tier's traffic a route gets,
 * said in terms of its weight, its score and its health alone.
 */
module PlanShares {
  import opened Routes
  import opened RouteScoring
  import opened WeightedShuffle
  import opened RoutePlan
  import Tokens = ProviderTokens

  /** A route without a metric scores nothing. */
  ghost function ScoreOf(l: Lookups, r: ModelRoute): real {
    if r.id in l.metrics then l.metrics[r.id].valueScore else 0.0
  }

  /** A route without a metric counts as healthy; a multiplier that is not positive counts as 0.0001. */
  ghost function HealthOf(l: Lookups, r: ModelRoute): real {
    if r.id !in l.metrics then 1.0
    else if l.metrics[r.id].healthMultiplier > 0.0 then l.metrics[r.id].healthMultiplier
    else 0.0001
  }

  /** `best` is the best score of the tier, or 0 if none is positive. */
  ghost predicate BestScore(tier: seq<Attempt>, best: real) {
    && best >= 0.0 && (forall a :: a in tier ==> a.valueScore <= best)
    && (best == 0.0 || exists a :: a in tier && a.valueScore == best)
  }

  /** How weight and score mix, for a score of at most `best`. */
  ghost function Mix(l: Lookups, score: real, best: real): real {
    if best <= 0.0 then 1.0
    else
      var part := if score > 0.0 then score / best else 0.0;
      if l.baseWeightFactor <= 0.0 && l.valueScoreFactor <= 0.0 then 0.2 + part * 0.8
      else if l.baseWeightFactor <= 0.0 then part * l.valueScoreFactor
      else if l.valueScoreFactor <= 0.0 then l.baseWeightFactor
      else l.baseWeightFactor + part * l.valueScoreFactor
  }

  lemma {:induction false} MaxScoreMeaning(routes: seq<ModelRoute>, l: Lookups)
    ensures MaxScore(routes, l) >= 0.0
    ensures forall r :: r in routes ==> ScoreOf(l, r) <= MaxScore(routes, l)
    ensures MaxScore(routes, l) == 0.0 || exists r :: r in routes && ScoreOf(l, r) == MaxScore(routes, l)
  {
    if routes != [] {
      var init, last := routes[..|routes| - 1], routes[|routes| - 1];
      MaxScoreMeaning(init, l);
      assert routes == init + [last];
      assert last in routes;
    }
  }

  /** A route is planned exactly when it is a candidate, its provider and token are on, and nothing keeps it out. */
  lemma InPlanIff(plan: Plan, candidates: seq<ModelRoute>, l: Lookups, rand: (int, nat) -> Draw, r: ModelRoute)
    requires IsPlan(plan, candidates, l, rand)
    ensures r in PlanRoutes(plan)
       <==> && r in candidates && r.providerId in l.providers && r.tokenId in l.tokens
            && l.providers[r.providerId].status == 1 && l.providers[r.providerId].eligible
            && l.tokens[r.tokenId].status == 1 && Tokens.IsUsableKey(l.tokens[r.tokenId].key.skKey)
            && (if r.id in l.metrics then l.metrics[r.id].suppressedUntil <= l.now else 0 <= l.now)
  {
    hide Tokens.IsUsableKey, Tokens.IsKeyReady, EligibleAt, PlanRoutes;
    EligibleAtMembers(candidates, l, Priorities(candidates), r);
    assert r in PlanRoutes(plan) <==> r in multiset(PlanRoutes(plan));
    assert r in EligibleCandidates(candidates, l) <==> r in multiset(EligibleCandidates(candidates, l));
    if r.tokenId in l.tokens {
      Tokens.ReadyIff(l.tokens[r.tokenId].key);
    }
  }

  /** The tier's attempts are those of its eligible routes, weighed against their best score. */
  lemma TierOf(plan: Plan, candidates: seq<ModelRoute>, l: Lookups, rand: (int, nat) -> Draw, t: nat)
      returns (routes: seq<ModelRoute>)
    requires IsPlan(plan, candidates, l, rand) && t < |plan|
    ensures plan[t] != []
    ensures plan[t] == Shuffle(TierAttempts(routes, l), TierDraws(rand, plan[t][0].route.priority, |routes|))
    ensures multiset(plan[t]) == multiset(TierAttempts(routes, l))
    ensures forall r :: r in routes <==> r in candidates && r.priority == plan[t][0].route.priority && Eligible(r, l)
  {
    hide Eligible, EligibleAt, Shuffle, TierAttempts, PlanRoutes;
    var p := plan[t][0].route.priority;
    routes := EligibleAt(candidates, l, {p});
    ShufflePermutes(TierAttempts(routes, l), TierDraws(rand, p, |TierAttempts(routes, l)|));
    forall r ensures r in routes <==> r in candidates && r.priority == p && Eligible(r, l) {
      EligibleAtMembers(candidates, l, {p}, r);
    }
    AttemptsMatch(routes, l);
  }

  lemma AttemptsMatch(routes: seq<ModelRoute>, l: Lookups)
    ensures |TierAttempts(routes, l)| == |routes|
    ensures forall i :: 0 <= i < |routes| ==>
              TierAttempts(routes, l)[i]
              == Attempt(routes[i], ScoreOf(l, routes[i]), PlannedContribution(routes[i], l, MaxScore(routes, l)))
  {
    hide PlannedContribution, MaxScore;
  }

  lemma BestIsMax(routes: seq<ModelRoute>, l: Lookups, tier: seq<Attempt>, best: real)
    requires multiset(tier) == multiset(TierAttempts(routes, l)) && BestScore(tier, best)
    ensures best == MaxScore(routes, l)
  {
    hide PlannedContribution, MaxScore, TierAttempts;
    AttemptsMatch(routes, l);
    MaxScoreMeaning(routes, l);
    var attempts := TierAttempts(routes, l);
    forall i | 0 <= i < |routes| ensures ScoreOf(l, routes[i]) <= best {
      assert attempts[i] in attempts && attempts[i] in multiset(tier) && attempts[i] in tier;
    }
    if a :| a in tier && a.valueScore == best {
      assert a in multiset(tier) && a in attempts;
      var i :| 0 <= i < |attempts| && attempts[i] == a;
      assert routes[i] in routes;
    }
  }

  lemma NormalIsPart(score: real, best: real)
    requires best > 0.0 && score <= best
    ensures Normal(score, best) == if score > 0.0 then score / best else 0.0
  {
    QuotientOrder(score, best, 1.0, 1.0);
    QuotientOrder(score, best, 0.0, 1.0);
    QuotientOrder(0.0, 1.0, score, best);
  }

  lemma MixIsBlend(l: Lookups, score: real, best: real)
    requires best > 0.0 && score <= best
    ensures Blend(Factors(l.baseWeightFactor, l.valueScoreFactor), Normal(score, best)) == Mix(l, score, best)
  {
    NormalIsPart(score, best);
    hide Normal;
  }

  lemma BaseFormula(weight: int, l: Lookups, score: real, best: real)
    requires score <= best
    ensures ComputeRouteContribution(weight, score, best, l.baseWeightFactor, l.valueScoreFactor)
         == if weight <= -10 then 0.0 else (weight + 10) as real * Mix(l, score, best)
  {
    if best > 0.0 {
      MixIsBlend(l, score, best);
      hide Mix;
    }
    hide Blend, Factors, Normal;
  }

  lemma ContributionFormula(r: ModelRoute, l: Lookups, best: real)
    requires ScoreOf(l, r) <= best
    ensures PlannedContribution(r, l, best)
         == (if r.weight <= -10 then 0.0 else (r.weight + 10) as real * Mix(l, ScoreOf(l, r), best)) * HealthOf(l, r)
  {
    hide ComputeRouteContribution, Mix;
    BaseFormula(r.weight, l, ScoreOf(l, r), best);
  }

  /**
   * The weight an attempt enters the shuffle with: its route's weight plus 10, times the mix of the two factors at
   * its part of the tier's best score, times its health.
   */
  lemma AttemptWeight(plan: Plan, candidates: seq<ModelRoute>, l: Lookups, rand: (int, nat) -> Draw, t: nat,
                      a: Attempt, best: real)
    requires IsPlan(plan, candidates, l, rand) && t < |plan| && a in plan[t] && BestScore(plan[t], best)
    ensures a.valueScore == ScoreOf(l, a.route)
    ensures a.contribution
         == (if a.route.weight <= -10 then 0.0 else (a.route.weight + 10) as real * Mix(l, a.valueScore, best))
            * HealthOf(l, a.route)
  {
    hide *;
    var routes := TierOf(plan, candidates, l, rand, t);
    BestIsMax(routes, l, plan[t], best);
    var i := AttemptAt(routes, l, plan[t], a);
    AtMost(plan[t], a, best);
    ContributionFormula(routes[i], l, best);
  }

  lemma AttemptAt(routes: seq<ModelRoute>, l: Lookups, tier: seq<Attempt>, a: Attempt) returns (i: nat)
    requires multiset(tier) == multiset(TierAttempts(routes, l)) && a in tier
    ensures i < |routes|
    ensures a == Attempt(routes[i], ScoreOf(l, routes[i]), PlannedContribution(routes[i], l, MaxScore(routes, l)))
  {
    hide PlannedContribution, MaxScore, TierAttempts;
    AttemptsMatch(routes, l);
    var attempts := TierAttempts(routes, l);
    assert a in multiset(tier) && a in attempts;
    i :| 0 <= i < |attempts| && attempts[i] == a;
  }

  lemma AtMost(tier: seq<Attempt>, a: Attempt, best: real)
    requires BestScore(tier, best) && a in tier
    ensures a.valueScore <= best
  {
  }

  lemma BestExists(tier: seq<Attempt>) returns (best: real)
    ensures BestScore(tier, best)
  {
    best := 0.0;
    for i := 0 to |tier|
      invariant BestScore(tier[..i], best)
    {
      assert tier[..i + 1] == tier[..i] + [tier[i]];
      if tier[i].valueScore > best {
        best := tier[i].valueScore;
        assert tier[i] in tier[..i + 1];
      }
    }
    assert tier[..|tier|] == tier;
  }

  lemma Cross(k: real, m: real, n: real)
    ensures (k * m) * n == (k * n) * m
  {
  }

  /** Same weight and score: the shares are in the ratio of the health multipliers. */
  lemma HealthRatio(plan: Plan, candidates: seq<ModelRoute>, l: Lookups, rand: (int, nat) -> Draw, t: nat,
                    a: Attempt, b: Attempt)
    requires IsPlan(plan, candidates, l, rand) && t < |plan| && a in plan[t] && b in plan[t]
    requires a.route.weight == b.route.weight && a.valueScore == b.valueScore
    ensures a.contribution * HealthOf(l, b.route) == b.contribution * HealthOf(l, a.route)
  {
    hide IsPlan, HealthOf, Mix;
    var best := BestExists(plan[t]);
    AttemptWeight(plan, candidates, l, rand, t, a, best);
    AttemptWeight(plan, candidates, l, rand, t, b, best);
    var k := if a.route.weight <= -10 then 0.0 else (a.route.weight + 10) as real * Mix(l, a.valueScore, best);
    Cross(k, HealthOf(l, a.route), HealthOf(l, b.route));
  }

  /** Same score and health: the shares are in the ratio of the weights, each plus 10. */
  lemma WeightRatio(plan: Plan, candidates: seq<ModelRoute>, l: Lookups, rand: (int, nat) -> Draw, t: nat,
                    a: Attempt, b: Attempt)
    requires IsPlan(plan, candidates, l, rand) && t < |plan| && a in plan[t] && b in plan[t]
    requires a.valueScore == b.valueScore && HealthOf(l, a.route) == HealthOf(l, b.route)
    requires a.route.weight >= -10 && b.route.weight >= -10
    ensures a.contribution * (b.route.weight + 10) as real == b.contribution * (a.route.weight + 10) as real
  {
    hide IsPlan, HealthOf, Mix;
    var best := BestExists(plan[t]);
    AttemptWeight(plan, candidates, l, rand, t, a, best);
    AttemptWeight(plan, candidates, l, rand, t, b, best);
    var m, h := Mix(l, a.valueScore, best), HealthOf(l, a.route);
    var x, y := (a.route.weight + 10) as real, (b.route.weight + 10) as real;
    Zero(m, h);
    assert a.contribution == (x * m) * h && b.contribution == (y * m) * h;
    Swap(x, y, m, h);
  }

  lemma Zero(m: real, h: real)
    ensures (0.0 * m) * h == 0.0 == 0.0 * h
  {
  }

  lemma Swap(x: real, y: real, m: real, h: real)
    ensures ((x * m) * h) * y == ((y * m) * h) * x
  {
    var k := m * h;
    assert (x * m) * h == x * k && (y * m) * h == y * k;
    assert (x * k) * y == (y * k) * x;
  }

  lemma MixGrows(l: Lookups, score: real, better: real, best: real)
    requires score <= better <= best
    ensures 0.0 <= Mix(l, score, best) <= Mix(l, better, best)
    ensures best > 0.0 && l.valueScoreFactor > 0.0 && 0.0 <= score < better ==>
              Mix(l, score, best) < Mix(l, better, best)
  {
    if best > 0.0 {
      var x, y := if score > 0.0 then score / best else 0.0, if better > 0.0 then better / best else 0.0;
      QuotientOrder(score, best, better, best);
      QuotientOrder(0.0, 1.0, better, best);
      QuotientOrder(0.0, 1.0, score, best);
      Scale(best, score, better);
      assert 0.0 <= x <= y;
      if l.valueScoreFactor > 0.0 {
        Scale(l.valueScoreFactor, x, y);
        Scale(l.valueScoreFactor, 0.0, x);
      }
    }
  }

  /**
   * Same weight and health: a better score never contributes less, and more, once the score counts and the route
   * carries any weight.
   */
  lemma BetterScoreMore(plan: Plan, candidates: seq<ModelRoute>, l: Lookups, rand: (int, nat) -> Draw, t: nat,
                        a: Attempt, b: Attempt)
    requires IsPlan(plan, candidates, l, rand) && t < |plan| && a in plan[t] && b in plan[t]
    requires a.route.weight == b.route.weight && HealthOf(l, a.route) == HealthOf(l, b.route)
    requires a.valueScore <= b.valueScore
    ensures a.contribution <= b.contribution
    ensures l.valueScoreFactor > 0.0 && 0.0 <= a.valueScore < b.valueScore && a.route.weight > -10 ==>
              a.contribution < b.contribution
  {
    hide IsPlan, Mix;
    var best := BestExists(plan[t]);
    AttemptWeight(plan, candidates, l, rand, t, a, best);
    AttemptWeight(plan, candidates, l, rand, t, b, best);
    MixGrows(l, a.valueScore, b.valueScore, best);
    var h := HealthOf(l, a.route);
    assert h > 0.0;
    hide HealthOf;
    if a.route.weight > -10 {
      var x, m, n := (a.route.weight + 10) as real, Mix(l, a.valueScore, best), Mix(l, b.valueScore, best);
      Scale(x, m, n);
      Scale(h, x * m, x * n);
    }
  }

  /** What is left of the pool after k rounds, and what becomes of it. */
  lemma {:induction false} ShuffleTail(pool: seq<Attempt>, draws: seq<Draw>, k: nat) returns (rest: seq<Attempt>)
    requires |draws| == |pool| && k < |pool|
    ensures |Shuffle(pool, draws)| == |pool| && |rest| == |pool| - k
    ensures Shuffle(pool, draws)[k..] == Shuffle(rest, draws[k..])
    ensures Shuffle(pool, draws)[k] == rest[Selected(rest, draws[k])]
    decreases k
  {
    hide Selected, Without;
    ShufflePermutes(pool, draws);
    if k == 0 {
      rest := pool;
      assert draws[0..] == draws && Shuffle(pool, draws)[0..] == Shuffle(pool, draws);
    } else {
      var i := Selected(pool, draws[0]);
      rest := ShuffleTail(Without(pool, i), draws[1..], k - 1);
      assert draws[1..][k - 1..] == draws[k..] && draws[1..][k - 1] == draws[k];
      assert Shuffle(pool, draws)[k..] == Shuffle(Without(pool, i), draws[1..])[k - 1..];
    }
  }

  /** The attempt is picked whose part of (0,1) the draw falls into, a part as long as its share of the pool. */
  ghost predicate PickedByShare(pool: seq<Attempt>, unit: real, picked: Attempt) {
    Total(pool) > 0.0 && unit > 0.0 ==>
      exists i :: 0 <= i < |pool| && picked == pool[i]
                  && Prefix(pool, i) / Total(pool) < unit <= Prefix(pool, i + 1) / Total(pool)
                  && Prefix(pool, i + 1) / Total(pool) - Prefix(pool, i) / Total(pool) == Weight(pool[i]) / Total(pool)
  }

  lemma PickIsShare(pool: seq<Attempt>, d: Draw)
    requires pool != []
    ensures PickedByShare(pool, d.unit, pool[Selected(pool, d)])
  {
    hide Prefix, Selected, Weight, Total;
    if Total(pool) > 0.0 && d.unit > 0.0 {
      SelectionShare(pool, d, Selected(pool, d));
    }
  }

  /**
   * Who a tier's traffic goes to: the k-th attempt is picked from those not tried before it, by the tier's k-th draw,
   * and each of them stands the chance of its share of their contributions.
   */
  lemma EveryPick(plan: Plan, candidates: seq<ModelRoute>, l: Lookups, rand: (int, nat) -> Draw, t: nat, k: nat)
      returns (pool: seq<Attempt>)
    requires IsPlan(plan, candidates, l, rand) && t < |plan| && k < |plan[t]|
    ensures multiset(pool) == multiset(plan[t][k..])
    ensures PickedByShare(pool, rand(plan[t][0].route.priority, k).unit, plan[t][k])
  {
    hide IsPlan, TierAttempts, Eligible, Selected, PickedByShare, Shuffle;
    var routes := TierOf(plan, candidates, l, rand, t);
    var attempts := TierAttempts(routes, l);
    AttemptsMatch(routes, l);
    var p := plan[t][0].route.priority;
    var draws := TierDraws(rand, p, |routes|);
    assert |multiset(attempts)| == |attempts| && |multiset(plan[t])| == |plan[t]|;
    pool := ShuffleTail(attempts, draws, k);
    ShufflePermutes(pool, draws[k..]);
    assert draws[k] == rand(p, k);
    PickIsShare(pool, draws[k]);
  }
}
