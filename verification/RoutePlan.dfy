/** model/model_route.go, BuildRouteAttemptsByPriority: the retry plan over the candidate routes. */
module RoutePlan {
  import opened Text
  import opened Wrappers
  import opened Sorting
  import opened Routes
  import opened RouteScoring
  import opened WeightedShuffle
  import Tokens = ProviderTokens

  const STATUS_ENABLED := 1

  /** A provider row; `eligible` is its IsRouteEligibleAt at the time of planning. */
  datatype Provider = Provider(status: int, eligible: bool)

  datatype Metric = Metric(valueScore: real, healthMultiplier: real, suppressedUntil: int)

  /** Everything the planner looks up beside the candidates. */
  datatype Lookups = Lookups(
    providers: map<int, Provider>,
    tokens: map<int, Tokens.TokenRow>,
    metrics: map<int, Metric>,
    now: int,
    baseWeightFactor: real,
    valueScoreFactor: real)

  datatype PlanError = InvalidModel | NoRoute

  type Plan = seq<seq<Attempt>>

  /** A missing metric reads as the zero value. */
  function MetricOf(l: Lookups, id: int): Metric {
    if id in l.metrics then l.metrics[id] else Metric(0.0, 0.0, 0)
  }

  predicate Eligible(r: ModelRoute, l: Lookups) {
    && r.providerId in l.providers && r.tokenId in l.tokens
    && l.providers[r.providerId].status == STATUS_ENABLED && l.tokens[r.tokenId].status == STATUS_ENABLED
    && Tokens.CanParticipateInRouting(l.tokens[r.tokenId])
    && l.providers[r.providerId].eligible
    && MetricOf(l, r.id).suppressedUntil <= l.now
  }

  /** The eligible candidates of the given priorities, in candidate order. */
  function EligibleAt(candidates: seq<ModelRoute>, l: Lookups, priorities: set<int>): seq<ModelRoute> {
    if candidates == [] then []
    else
      var init, r := EligibleAt(candidates[..|candidates| - 1], l, priorities), candidates[|candidates| - 1];
      if r.priority in priorities && Eligible(r, l) then init + [r] else init
  }

  function MaxScore(routes: seq<ModelRoute>, l: Lookups): real {
    if routes == [] then 0.0
    else
      var m := MaxScore(routes[..|routes| - 1], l);
      var score := MetricOf(l, routes[|routes| - 1].id).valueScore;
      if score > m then score else m
  }

  /** The attempt's contribution; a multiplier that is not positive is replaced by a tiny one. */
  function PlannedContribution(r: ModelRoute, l: Lookups, max: real): real {
    var score := MetricOf(l, r.id).valueScore;
    var base := ComputeRouteContribution(r.weight, score, max, l.baseWeightFactor, l.valueScoreFactor);
    var multiplier := if r.id in l.metrics then l.metrics[r.id].healthMultiplier else 1.0;
    base * (if multiplier <= 0.0 then 0.0001 else multiplier)
  }

  function TierAttempts(routes: seq<ModelRoute>, l: Lookups): seq<Attempt> {
    var max := MaxScore(routes, l);
    seq(|routes|, i requires 0 <= i < |routes| =>
      Attempt(routes[i], MetricOf(l, routes[i].id).valueScore, PlannedContribution(routes[i], l, max)))
  }

  /** The draws of one tier; `rand` gives the draw of a tier's round. */
  function TierDraws(rand: (int, nat) -> Draw, priority: int, n: nat): (d: seq<Draw>)
    ensures |d| == n
  {
    seq(n, i requires 0 <= i < n => rand(priority, i))
  }

  function Tier(candidates: seq<ModelRoute>, l: Lookups, rand: (int, nat) -> Draw, priority: int): seq<Attempt> {
    var attempts := TierAttempts(EligibleAt(candidates, l, {priority}), l);
    Shuffle(attempts, TierDraws(rand, priority, |attempts|))
  }

  /** The shuffled non-empty tiers of the given priorities, in that order. */
  function PlanAlong(candidates: seq<ModelRoute>, l: Lookups, rand: (int, nat) -> Draw, priorities: seq<int>): Plan {
    if priorities == [] then []
    else
      var init := PlanAlong(candidates, l, rand, priorities[..|priorities| - 1]);
      var tier := Tier(candidates, l, rand, priorities[|priorities| - 1]);
      if tier == [] then init else init + [tier]
  }

  predicate Above(a: int, b: int) {
    a > b
  }

  function Priorities(candidates: seq<ModelRoute>): set<int> {
    set r | r in candidates :: r.priority
  }

  /** The tests a route of the tier has to pass, in the order the planner makes them. */
  method Participates(route: ModelRoute, l: Lookups) returns (ok: bool)
    ensures ok == Eligible(route, l)
  {
    if route.providerId !in l.providers || route.tokenId !in l.tokens {
      return false;
    }
    var provider, token := l.providers[route.providerId], l.tokens[route.tokenId];
    if provider.status != STATUS_ENABLED || token.status != STATUS_ENABLED {
      return false;
    }
    if !Tokens.CanParticipateInRouting(token) {
      return false;
    }
    if !provider.eligible {
      return false;
    }
    var suppressedUntil := 0;
    if route.id in l.metrics {
      suppressedUntil := l.metrics[route.id].suppressedUntil;
    }
    ok := suppressedUntil <= l.now;
  }

  /** One attempt's weight. */
  method Weigh(route: ModelRoute, l: Lookups, maxScore: real) returns (contribution: real)
    ensures contribution == PlannedContribution(route, l, maxScore)
  {
    hide ComputeRouteContribution;
    var baseContribution :=
      ComputeRouteContribution(route.weight, MetricOf(l, route.id).valueScore, maxScore,
                               l.baseWeightFactor, l.valueScoreFactor);
    var healthMultiplier := 1.0;
    if route.id in l.metrics {
      healthMultiplier := l.metrics[route.id].healthMultiplier;
    }
    if healthMultiplier <= 0.0 {
      healthMultiplier := 0.0001;
    }
    contribution := baseContribution * healthMultiplier;
  }

  /** First pass over a tier: the eligible routes and the best score among them. */
  method KeepEligible(routes: seq<ModelRoute>, l: Lookups, priority: int)
        returns (kept: seq<ModelRoute>, maxScore: real)
    requires forall r :: r in routes ==> r.priority == priority
    ensures kept == EligibleAt(routes, l, {priority}) && maxScore == MaxScore(kept, l)
  {
    hide Eligible;
    kept := [];
    maxScore := 0.0;
    for i := 0 to |routes|
      invariant kept == EligibleAt(routes[..i], l, {priority})
      invariant maxScore == MaxScore(kept, l)
    {
      assert routes[..i + 1][..i] == routes[..i];
      var route := routes[i];
      assert route in routes;
      var ok := Participates(route, l);
      if !ok {
        continue;
      }
      var score := MetricOf(l, route.id).valueScore;
      if score > maxScore {
        maxScore := score;
      }
      assert (kept + [route])[..|kept|] == kept;
      kept := kept + [route];
    }
    assert routes[..|routes|] == routes;
  }

  /** One tier: filter, find the best score, weigh, shuffle. */
  method BuildTier(routes: seq<ModelRoute>, l: Lookups, rand: (int, nat) -> Draw, priority: int,
                   ghost candidates: seq<ModelRoute>)
      returns (tier: seq<Attempt>)
    requires routes == OfPriority(candidates, priority)
    ensures tier == Tier(candidates, l, rand, priority)
  {
    hide Eligible, PlannedContribution, EligibleAt, MaxScore;
    forall r | r in routes ensures r.priority == priority {
      OfPriorityMembers(candidates, priority, r);
    }
    var kept, maxScore := KeepEligible(routes, l, priority);
    EligibleOfPriority(candidates, l, priority);
    if |kept| == 0 {
      assert TierAttempts(kept, l) == [];
      return [];
    }
    var attempts: seq<Attempt> := [];
    for i := 0 to |kept|
      invariant attempts == TierAttempts(kept, l)[..i]
    {
      var score := MetricOf(l, kept[i].id).valueScore;
      var contribution := Weigh(kept[i], l, maxScore);
      attempts := attempts + [Attempt(kept[i], score, contribution)];
    }
    assert attempts == TierAttempts(kept, l);
    tier := WeightedShuffleAttempts(attempts, TierDraws(rand, priority, |attempts|));
  }

  function OfPriority(candidates: seq<ModelRoute>, priority: int): seq<ModelRoute> {
    if candidates == [] then []
    else
      var init, r := OfPriority(candidates[..|candidates| - 1], priority), candidates[|candidates| - 1];
      if r.priority == priority then init + [r] else init
  }

  lemma {:induction false} OfPriorityMembers(candidates: seq<ModelRoute>, priority: int, r: ModelRoute)
    ensures r in OfPriority(candidates, priority) <==> r in candidates && r.priority == priority
  {
    if candidates != [] {
      OfPriorityMembers(candidates[..|candidates| - 1], priority, r);
      assert candidates == candidates[..|candidates| - 1] + [candidates[|candidates| - 1]];
    }
  }

  lemma {:induction false} EligibleOfPriority(candidates: seq<ModelRoute>, l: Lookups, priority: int)
    ensures EligibleAt(OfPriority(candidates, priority), l, {priority}) == EligibleAt(candidates, l, {priority})
  {
    hide Eligible;
    if candidates != [] {
      var init, r := candidates[..|candidates| - 1], candidates[|candidates| - 1];
      EligibleOfPriority(init, l, priority);
      if r.priority == priority {
        assert (OfPriority(init, priority) + [r])[..|OfPriority(init, priority)|] == OfPriority(init, priority);
      }
    }
  }

  /** The routes by priority, and the priorities from high to low. */
  method GroupByPriority(candidates: seq<ModelRoute>)
        returns (priorities: seq<int>, routesByPriority: map<int, seq<ModelRoute>>)
    ensures StrictlySorted(Above, priorities) && forall p :: p in priorities <==> p in Priorities(candidates)
    ensures routesByPriority.Keys == Priorities(candidates)
    ensures forall p :: p in routesByPriority ==> routesByPriority[p] == OfPriority(candidates, p)
  {
    var found: seq<int>;
    found, routesByPriority := CollectPriorities(candidates);
    priorities := SortSlice(Above, found);
    SameElements(found, priorities);
    SortedDistinct(Above, priorities);
  }

  lemma NoCandidates()
    ensures Priorities([]) == {} && forall p :: OfPriority([], p) == []
  {
  }

  lemma OneMoreCandidate(candidates: seq<ModelRoute>, r: ModelRoute)
    ensures Priorities(candidates + [r]) == Priorities(candidates) + {r.priority}
    ensures forall p :: OfPriority(candidates + [r], p)
                     == if r.priority == p then OfPriority(candidates, p) + [r] else OfPriority(candidates, p)
  {
    assert (candidates + [r])[..|candidates|] == candidates;
  }

  /** The priorities in the order they are met, each with its candidates. */
  method CollectPriorities(candidates: seq<ModelRoute>)
      returns (found: seq<int>, routesByPriority: map<int, seq<ModelRoute>>)
    ensures NoDuplicates(found) && forall p :: p in found <==> p in Priorities(candidates)
    ensures routesByPriority.Keys == Priorities(candidates)
    ensures forall p :: p in routesByPriority ==> routesByPriority[p] == OfPriority(candidates, p)
  {
    hide OfPriority, Priorities;
    found, routesByPriority := [], map[];
    NoCandidates();
    for i := 0 to |candidates|
      invariant NoDuplicates(found) && forall p :: p in found <==> p in Priorities(candidates[..i])
      invariant routesByPriority.Keys == Priorities(candidates[..i])
      invariant forall p :: p in routesByPriority ==> routesByPriority[p] == OfPriority(candidates[..i], p)
      invariant forall p :: p !in routesByPriority ==> OfPriority(candidates[..i], p) == []
    {
      OneMoreCandidate(candidates[..i], candidates[i]);
      assert candidates[..i + 1] == candidates[..i] + [candidates[i]];
      var p := candidates[i].priority;
      if p !in routesByPriority {
        found := found + [p];
      }
      var soFar := if p in routesByPriority then routesByPriority[p] else [];
      routesByPriority := routesByPriority[p := soFar + [candidates[i]]];
    }
    assert candidates[..|candidates|] == candidates;
  }

  method BuildRouteAttemptsByPriority(modelName: string, candidates: seq<ModelRoute>, l: Lookups,
                                      rand: (int, nat) -> Draw)
      returns (result: Result<Plan, PlanError>)
    ensures result == Err(InvalidModel) <==> TrimSpace(modelName) == []
    ensures TrimSpace(modelName) != [] ==>
              (result == Err(NoRoute) <==> forall r :: r in candidates ==> !Eligible(r, l))
    ensures result.Ok? ==> IsPlan(result.value, candidates, l, rand)
  {
    hide Eligible, Tier, IsPlan, EligibleCandidates;
    if TrimSpace(modelName) == [] {
      return Err(InvalidModel);
    }
    if |candidates| == 0 {
      return Err(NoRoute);
    }
    var priorities, routesByPriority := GroupByPriority(candidates);
    var plan: Plan := [];
    for i := 0 to |priorities|
      invariant plan == PlanAlong(candidates, l, rand, priorities[..i])
    {
      assert priorities[..i + 1][..i] == priorities[..i];
      var p := priorities[i];
      assert p in priorities;
      var tier := BuildTier(routesByPriority[p], l, rand, p, candidates);
      if |tier| == 0 {
        continue;
      }
      plan := plan + [tier];
    }
    assert priorities[..|priorities|] == priorities;
    PlanProperties(candidates, l, rand, priorities);
    AllPriorities(candidates, l, priorities);
    if |plan| == 0 {
      return Err(NoRoute);
    }
    return Ok(plan);
  }

  // ---------------------------------------------------------------- what a plan promises

  function RoutesOf(attempts: seq<Attempt>): seq<ModelRoute> {
    if attempts == [] then [] else RoutesOf(attempts[..|attempts| - 1]) + [attempts[|attempts| - 1].route]
  }

  /** The routes of the whole plan, in the order they are tried. */
  function PlanRoutes(plan: Plan): seq<ModelRoute> {
    if plan == [] then [] else PlanRoutes(plan[..|plan| - 1]) + RoutesOf(plan[|plan| - 1])
  }

  function EligibleCandidates(candidates: seq<ModelRoute>, l: Lookups): seq<ModelRoute> {
    EligibleAt(candidates, l, Priorities(candidates))
  }

  ghost predicate SamePriority(tier: seq<Attempt>, priority: int) {
    tier != [] && forall a :: a in tier ==> a.route.priority == priority
  }

  /** Every tier is the shuffle of its priority's eligible candidates, weighted as the scores say. */
  ghost predicate IsPlan(plan: Plan, candidates: seq<ModelRoute>, l: Lookups, rand: (int, nat) -> Draw) {
    && plan != []
    && (forall t :: 0 <= t < |plan| ==> plan[t] != [] && SamePriority(plan[t], plan[t][0].route.priority))
    && (forall t :: 0 <= t < |plan| && plan[t] != [] ==>
          plan[t] == Tier(candidates, l, rand, plan[t][0].route.priority))
    && (forall s, t :: 0 <= s < t < |plan| && plan[s] != [] && plan[t] != [] ==>
          plan[s][0].route.priority > plan[t][0].route.priority)
    && multiset(PlanRoutes(plan)) == multiset(EligibleCandidates(candidates, l))
  }

  lemma {:induction false} EligibleAtMembers(candidates: seq<ModelRoute>, l: Lookups, ps: set<int>, r: ModelRoute)
    ensures r in EligibleAt(candidates, l, ps) <==> r in candidates && r.priority in ps && Eligible(r, l)
  {
    hide Eligible;
    if candidates != [] {
      EligibleAtMembers(candidates[..|candidates| - 1], l, ps, r);
      assert candidates == candidates[..|candidates| - 1] + [candidates[|candidates| - 1]];
    }
  }

  lemma {:induction false} RoutesOfAppend(a: seq<Attempt>, b: seq<Attempt>)
    ensures RoutesOf(a + b) == RoutesOf(a) + RoutesOf(b)
  {
    if b == [] {
      assert a + b == a;
    } else {
      RoutesOfAppend(a, b[..|b| - 1]);
      assert (a + b)[..|a + b| - 1] == a + b[..|b| - 1];
    }
  }

  lemma RoutesWithout(pool: seq<Attempt>, i: nat)
    requires i < |pool|
    ensures multiset(RoutesOf(pool)) == multiset(RoutesOf(Without(pool, i))) + multiset{pool[i].route}
  {
    hide RoutesOf, Without;
    SplitAt(pool, i);
    MiddleRoute(pool[..i], pool[i], pool[i + 1..]);
  }

  lemma SplitAt(pool: seq<Attempt>, i: nat)
    requires i < |pool|
    ensures pool[..i] + ([pool[i]] + pool[i + 1..]) == pool
    ensures pool[..i] + pool[i + 1..] == Without(pool, i)
  {
  }

  lemma MiddleRoute(front: seq<Attempt>, a: Attempt, back: seq<Attempt>)
    ensures multiset(RoutesOf(front + ([a] + back))) == multiset(RoutesOf(front + back)) + multiset{a.route}
  {
    hide RoutesOf;
    RoutesOfAppend(front, back);
    RoutesOfAppend(front, [a] + back);
    RoutesOfAppend([a], back);
    RoutesOfOne(a);
    MultisetMiddle(RoutesOf(front), a.route, RoutesOf(back));
  }

  lemma MultisetMiddle(a: seq<ModelRoute>, x: ModelRoute, b: seq<ModelRoute>)
    ensures multiset(a + ([x] + b)) == multiset(a + b) + multiset{x}
  {
  }

  lemma RoutesOfOne(a: Attempt)
    ensures RoutesOf([a]) == [a.route]
  {
    assert [a][..0] == [];
  }

  lemma {:induction false} ShuffleRoutes(pool: seq<Attempt>, draws: seq<Draw>)
    requires |draws| == |pool|
    ensures multiset(RoutesOf(Shuffle(pool, draws))) == multiset(RoutesOf(pool))
    decreases |pool|
  {
    hide Selected, RoutesOf, Without;
    if pool != [] {
      var i := Selected(pool, draws[0]);
      ShuffleRoutes(Without(pool, i), draws[1..]);
      RoutesOfAppend([pool[i]], Shuffle(Without(pool, i), draws[1..]));
      RoutesWithout(pool, i);
      RoutesOfOne(pool[i]);
    }
  }

  lemma {:induction false} RoutesOfTier(routes: seq<ModelRoute>, l: Lookups, n: nat)
    requires n <= |routes|
    ensures RoutesOf(TierAttempts(routes, l)[..n]) == routes[..n]
  {
    hide PlannedContribution;
    if n > 0 {
      RoutesOfTier(routes, l, n - 1);
      assert TierAttempts(routes, l)[..n][..n - 1] == TierAttempts(routes, l)[..n - 1];
      assert routes[..n] == routes[..n - 1] + [routes[n - 1]];
    }
  }

  lemma TierMembers(candidates: seq<ModelRoute>, l: Lookups, p: int, tier: seq<Attempt>)
    requires multiset(tier) == multiset(TierAttempts(EligibleAt(candidates, l, {p}), l))
    ensures forall a :: a in tier ==> a.route.priority == p
  {
    hide PlannedContribution, Eligible, MaxScore;
    var routes := EligibleAt(candidates, l, {p});
    var attempts := TierAttempts(routes, l);
    forall a | a in tier ensures a.route.priority == p {
      assert a in multiset(tier) && a in attempts;
      var i :| 0 <= i < |attempts| && attempts[i] == a;
      assert routes[i] in routes;
      EligibleAtMembers(candidates, l, {p}, routes[i]);
    }
  }

  lemma TierShape(candidates: seq<ModelRoute>, l: Lookups, rand: (int, nat) -> Draw, p: int)
    ensures var tier, routes := Tier(candidates, l, rand, p), EligibleAt(candidates, l, {p});
            && multiset(RoutesOf(tier)) == multiset(routes)
            && (tier == [] <==> routes == [])
            && (tier != [] ==> SamePriority(tier, p) && tier[0].route.priority == p)
  {
    hide PlannedContribution, Shuffle, EligibleAt, RoutesOf, MaxScore;
    var routes := EligibleAt(candidates, l, {p});
    var attempts := TierAttempts(routes, l);
    var draws := TierDraws(rand, p, |attempts|);
    ShuffleRoutes(attempts, draws);
    ShufflePermutes(attempts, draws);
    RoutesOfTier(routes, l, |routes|);
    assert attempts[..|routes|] == attempts && routes[..|routes|] == routes;
    TierMembers(candidates, l, p, Shuffle(attempts, draws));
  }

  /** The eligible candidates of one more priority come on top of the others. */
  lemma {:induction false} EligibleSplit(candidates: seq<ModelRoute>, l: Lookups, ps: set<int>, p: int)
    requires p !in ps
    ensures multiset(EligibleAt(candidates, l, ps + {p}))
         == multiset(EligibleAt(candidates, l, ps)) + multiset(EligibleAt(candidates, l, {p}))
  {
    hide Eligible;
    if candidates != [] {
      EligibleSplit(candidates[..|candidates| - 1], l, ps, p);
    }
  }

  lemma {:induction false} EligibleNowhere(candidates: seq<ModelRoute>, l: Lookups)
    ensures EligibleAt(candidates, l, {}) == []
  {
    if candidates != [] {
      EligibleNowhere(candidates[..|candidates| - 1], l);
    }
  }

  ghost function Elements(ps: seq<int>): set<int> {
    set p | p in ps
  }

  ghost predicate PlanInvariant(plan: Plan, candidates: seq<ModelRoute>, l: Lookups, rand: (int, nat) -> Draw,
                                priorities: seq<int>) {
    && (forall t :: 0 <= t < |plan| ==> plan[t] != [] && plan[t][0].route.priority in priorities
                                        && SamePriority(plan[t], plan[t][0].route.priority)
                                        && plan[t] == Tier(candidates, l, rand, plan[t][0].route.priority))
    && (forall s, t :: 0 <= s < t < |plan| ==> plan[s][0].route.priority > plan[t][0].route.priority)
    && multiset(PlanRoutes(plan)) == multiset(EligibleAt(candidates, l, Elements(priorities)))
  }

  lemma RoutesStep(plan: Plan, tier: seq<Attempt>, candidates: seq<ModelRoute>, l: Lookups, rand: (int, nat) -> Draw,
                   init: seq<int>, p: int)
    requires multiset(PlanRoutes(plan)) == multiset(EligibleAt(candidates, l, Elements(init))) && p !in init
    requires tier == Tier(candidates, l, rand, p)
    ensures multiset(PlanRoutes(if tier == [] then plan else plan + [tier]))
         == multiset(EligibleAt(candidates, l, Elements(init + [p])))
  {
    hide Tier, EligibleAt, RoutesOf, SamePriority;
    TierShape(candidates, l, rand, p);
    assert Elements(init + [p]) == Elements(init) + {p};
    EligibleSplit(candidates, l, Elements(init), p);
    assert (plan + [tier])[..|plan|] == plan;
  }

  lemma InvariantStep(plan: Plan, tier: seq<Attempt>, candidates: seq<ModelRoute>, l: Lookups, rand: (int, nat) -> Draw,
                      init: seq<int>, p: int)
    requires PlanInvariant(plan, candidates, l, rand, init) && forall q :: q in init ==> q > p
    requires tier == Tier(candidates, l, rand, p)
    ensures PlanInvariant(if tier == [] then plan else plan + [tier], candidates, l, rand, init + [p])
  {
    hide Tier, EligibleAt, RoutesOf, SamePriority, PlanRoutes;
    TierShape(candidates, l, rand, p);
    RoutesStep(plan, tier, candidates, l, rand, init, p);
    if tier != [] {
      var next: Plan := plan + [tier];
      forall t | 0 <= t < |next|
        ensures next[t] != [] && next[t][0].route.priority in init + [p]
                && SamePriority(next[t], next[t][0].route.priority)
                && next[t] == Tier(candidates, l, rand, next[t][0].route.priority)
      {
        assert t < |plan| ==> next[t] == plan[t] && plan[t][0].route.priority in init;
      }
      forall s, t | 0 <= s < t < |next| ensures next[s][0].route.priority > next[t][0].route.priority {
        assert next[s] == plan[s] && plan[s][0].route.priority in init;
      }
    } else {
      assert forall q :: q in init ==> q in init + [p];
    }
  }

  lemma {:induction false} PlanAlongInvariant(candidates: seq<ModelRoute>, l: Lookups, rand: (int, nat) -> Draw,
                                              priorities: seq<int>)
    requires StrictlySorted(Above, priorities)
    ensures PlanInvariant(PlanAlong(candidates, l, rand, priorities), candidates, l, rand, priorities)
  {
    hide Tier, PlanInvariant;
    if priorities == [] {
      NothingPlanned(candidates, l, rand);
    } else {
      var init, p := priorities[..|priorities| - 1], priorities[|priorities| - 1];
      assert priorities == init + [p];
      PlanAlongInvariant(candidates, l, rand, init);
      forall q | q in init ensures q > p {
        var i :| 0 <= i < |init| && init[i] == q;
        assert Above(priorities[i], priorities[|priorities| - 1]);
      }
      InvariantStep(PlanAlong(candidates, l, rand, init), Tier(candidates, l, rand, p), candidates, l, rand, init, p);
    }
  }

  lemma NothingPlanned(candidates: seq<ModelRoute>, l: Lookups, rand: (int, nat) -> Draw)
    ensures PlanInvariant([], candidates, l, rand, [])
  {
    EligibleNowhere(candidates, l);
    assert Elements([]) == {};
  }

  lemma PlanProperties(candidates: seq<ModelRoute>, l: Lookups, rand: (int, nat) -> Draw, priorities: seq<int>)
    requires StrictlySorted(Above, priorities) && forall p :: p in priorities <==> p in Priorities(candidates)
    ensures var plan := PlanAlong(candidates, l, rand, priorities);
            && (plan != [] ==> IsPlan(plan, candidates, l, rand))
            && (plan == [] <==> EligibleCandidates(candidates, l) == [])
  {
    hide Tier, SamePriority, EligibleAt, PlanAlong, PlanRoutes;
    PlanAlongInvariant(candidates, l, rand, priorities);
    SamePriorities(candidates, priorities);
    var plan := PlanAlong(candidates, l, rand, priorities);
    var eligible := EligibleCandidates(candidates, l);
    if plan != [] {
      SomethingPlanned(plan);
    } else {
      assert PlanRoutes(plan) == [] by { NoRoutesPlanned(); }
    }
    assert |multiset(PlanRoutes(plan))| == |PlanRoutes(plan)|;
    assert |multiset(eligible)| == |eligible|;
  }

  lemma SamePriorities(candidates: seq<ModelRoute>, priorities: seq<int>)
    requires forall p :: p in priorities <==> p in Priorities(candidates)
    ensures Elements(priorities) == Priorities(candidates)
  {
    forall p ensures p in Elements(priorities) <==> p in Priorities(candidates) {
      assert p in Elements(priorities) <==> p in priorities;
    }
  }

  lemma NoRoutesPlanned()
    ensures PlanRoutes([]) == []
  {
  }

  lemma SomethingPlanned(plan: Plan)
    requires plan != [] && plan[|plan| - 1] != []
    ensures PlanRoutes(plan) != []
  {
  }

  lemma AllPriorities(candidates: seq<ModelRoute>, l: Lookups, priorities: seq<int>)
    ensures EligibleCandidates(candidates, l) == [] <==> forall r :: r in candidates ==> !Eligible(r, l)
  {
    hide Eligible;
    var eligible := EligibleCandidates(candidates, l);
    forall r ensures r in eligible <==> r in candidates && Eligible(r, l) {
      EligibleAtMembers(candidates, l, Priorities(candidates), r);
    }
    assert eligible != [] ==> eligible[0] in eligible;
  }
}
