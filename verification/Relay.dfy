/**
 * controller/relay.go, Relay: the attempts of a plan one after the other, until one succeeds, one fails for good,
 * or none is left.
 */
module Relay {
  import opened Wrappers
  import opened Text
  import opened Routes
  import opened WeightedShuffle
  import opened RoutePlan
  import opened Proxy

  /** What the outside world does with the k-th attempt. */
  type World = nat -> Exchange

  /** The attempts of a plan in the order they are made. */
  function Flat(plan: Plan): seq<Attempt> {
    if plan == [] then [] else Flat(plan[..|plan| - 1]) + plan[|plan| - 1]
  }

  /** `request_model_resolved`: the last named model among the routes attempted. */
  function ResolvedAt(flat: seq<Attempt>, n: nat): string
    requires n <= |flat|
  {
    if n == 0 then ""
    else if flat[n - 1].route.modelName != "" then flat[n - 1].route.modelName
    else ResolvedAt(flat, n - 1)
  }

  /** The context of the k-th attempt, counted from 0; the log counts from 1. */
  function PlaceAt(relayId: string, flat: seq<Attempt>, k: nat): Place
    requires k < |flat|
  {
    Place(relayId, k + 1, ResolvedAt(flat, k + 1))
  }

  /** The rows of the first n attempts. */
  ghost function RowsUpTo(relayId: string, flat: seq<Attempt>, world: World, judges: Judges, n: nat): seq<LogRow>
    requires n <= |flat|
  {
    if n == 0 then []
    else RowsUpTo(relayId, flat, world, judges, n - 1) + RowsOf(PlaceAt(relayId, flat, n - 1), world(n - 1), judges)
  }

  ghost predicate FailsRetryably(x: Exchange, judges: Judges) {
    !Succeeds(x, judges) && Retryable(x)
  }

  function StatusOr502(status: int): int {
    if status <= 0 then 502 else status
  }

  /** A run over the attempts: how many were made, what the client got, and what was logged. */
  ghost predicate IsRun(relayId: string, requested: string, flat: seq<Attempt>, world: World, judges: Judges,
                        tried: nat, written: seq<Written>, logs: seq<LogRow>)
  {
    && tried <= |flat| && (flat != [] ==> tried > 0)
    && (forall k :: 0 <= k < tried - 1 ==> FailsRetryably(world(k), judges))
    && logs == RowsUpTo(relayId, flat, world, judges, tried)
    && if tried > 0 && Succeeds(world(tried - 1), judges) then written == Output(world(tried - 1).answer)
       else if tried > 0 && !Retryable(world(tried - 1)) then
         var e := ErrorOf(PlaceAt(relayId, flat, tried - 1), world(tried - 1), judges);
         written == [ErrorJson(StatusOr502(e.statusCode), e.message, "upstream_request_failed")]
       else
         && tried == |flat|
         && written == [ErrorJson(503, ExhaustedMessage(relayId, requested, flat, world, judges),
                                  "service_unavailable")]
  }

  ghost function ExhaustedMessage(relayId: string, requested: string, flat: seq<Attempt>, world: World,
                                  judges: Judges): string {
    if flat != [] && ErrorOf(PlaceAt(relayId, flat, |flat| - 1), world(|flat| - 1), judges).message != ""
    then "all providers failed for model: " + requested
    else "no available provider for model: " + requested
  }

  /** The plan for the canonical name, or else for the requested one. */
  function PlanFor(plans: string -> Option<Plan>, requested: string, canonical: string): Option<Plan> {
    if plans(canonical).None? && !EqualFold(canonical, requested) then plans(requested) else plans(canonical)
  }

  /** Before the loop no attempt has been made; inside, all so far have failed retryably. */
  ghost predicate Trying(c: Context, relayId: string, flat: seq<Attempt>, world: World, judges: Judges, made: nat,
                         lastErr: Option<ProxyError>)
    reads c
  {
    && made <= |flat| && c.written == []
    && (forall k :: 0 <= k < made ==> FailsRetryably(world(k), judges))
    && c.place == Place(relayId, made, ResolvedAt(flat, made))
    && c.logs == RowsUpTo(relayId, flat, world, judges, made)
    && lastErr == if made == 0 then None else Some(ErrorOf(PlaceAt(relayId, flat, made - 1), world(made - 1), judges))
  }

  /** One attempt: the context it is made in, and its outcome. */
  method TryAttempt(c: Context, relayId: string, ghost flat: seq<Attempt>, world: World, judges: Judges,
                    attempt: Attempt,
                    attemptIndex: nat, ghost lastErr: Option<ProxyError>)
      returns (proxyErr: Option<ProxyError>)
    requires attemptIndex < |flat| && flat[attemptIndex] == attempt
    requires Trying(c, relayId, flat, world, judges, attemptIndex, lastErr)
    modifies c
    ensures proxyErr.None? <==> Succeeds(world(attemptIndex), judges)
    ensures proxyErr.None? ==> c.written == Output(world(attemptIndex).answer)
    ensures proxyErr.Some? ==> c.written == []
    ensures proxyErr.Some? ==>
              proxyErr.value == ErrorOf(PlaceAt(relayId, flat, attemptIndex), world(attemptIndex), judges)
    ensures proxyErr.Some? ==> proxyErr.value.retryable == Retryable(world(attemptIndex))
    ensures c.logs == RowsUpTo(relayId, flat, world, judges, attemptIndex + 1)
    ensures proxyErr.Some? && proxyErr.value.retryable ==>
              Trying(c, relayId, flat, world, judges, attemptIndex + 1, proxyErr)
  {
    hide Succeeds, ErrorOf, RowsOf, Output;
    c.place := c.place.(attemptIndex := attemptIndex + 1);
    if attempt.route.modelName != "" {
      c.place := c.place.(resolved := attempt.route.modelName);
    }
    assert c.place == PlaceAt(relayId, flat, attemptIndex);
    proxyErr := ProxyToUpstream(c, world(attemptIndex), judges);
  }

  lemma NothingLogged(relayId: string, flat: seq<Attempt>, world: World, judges: Judges)
    ensures RowsUpTo(relayId, flat, world, judges, 0) == [] && ResolvedAt(flat, 0) == ""
  {
  }

  method RunPlan(c: Context, relayId: string, requested: string, plan: Plan, world: World, judges: Judges)
        returns (ghost tried: nat)
    requires c.written == [] && c.logs == [] && c.place == Place(relayId, 0, "")
    modifies c
    ensures IsRun(relayId, requested, Flat(plan), world, judges, tried, c.written, c.logs)
  {
    hide Succeeds, ErrorOf, RowsUpTo, Output, PlaceAt;
    ghost var flat := Flat(plan);
    var lastErr: Option<ProxyError> := None;
    var attemptIndex := 0;
    NothingLogged(relayId, flat, world, judges);
    for t := 0 to |plan|
      invariant attemptIndex == |Flat(plan[..t])|
      invariant Trying(c, relayId, flat, world, judges, attemptIndex, lastErr)
    {
      var priorityGroup := plan[t];
      FlatPrefix(plan, t);
      for i := 0 to |priorityGroup|
        invariant attemptIndex == |Flat(plan[..t])| + i
        invariant Trying(c, relayId, flat, world, judges, attemptIndex, lastErr)
      {
        var attempt := priorityGroup[i];
        assert flat[attemptIndex] == attempt;
        var proxyErr := TryAttempt(c, relayId, flat, world, judges, attempt, attemptIndex, lastErr);
        attemptIndex := attemptIndex + 1;
        tried := attemptIndex;
        if proxyErr.None? {
          return;
        }
        lastErr := proxyErr;
        if !proxyErr.value.retryable {
          var status := proxyErr.value.statusCode;
          if status <= 0 {
            status := 502;
          }
          c.Write(ErrorJson(status, proxyErr.value.message, "upstream_request_failed"));
          return;
        }
      }
    }
    assert plan[..|plan|] == plan;
    tried := attemptIndex;
    var message := "no available provider for model: " + requested;
    if lastErr.Some? && lastErr.value.message != "" {
      message := "all providers failed for model: " + requested;
    }
    c.Write(ErrorJson(503, message, "service_unavailable"));
  }

  lemma {:induction false} FlatPrefix(plan: Plan, t: nat)
    requires t < |plan|
    ensures |Flat(plan[..t])| + |plan[t]| <= |Flat(plan)|
    ensures Flat(plan[..t + 1]) == Flat(plan[..t]) + plan[t]
    ensures forall i :: 0 <= i < |plan[t]| ==> Flat(plan)[|Flat(plan[..t])| + i] == plan[t][i]
  {
    assert plan[..t + 1][..t] == plan[..t];
    if t < |plan| - 1 {
      var init := plan[..|plan| - 1];
      FlatPrefix(init, t);
      assert init[..t] == plan[..t];
    } else {
      assert plan[..t + 1] == plan;
    }
  }

  /** `resolve`, `allowed` and `plans` are the catalog, the token's limits and the planner. */
  method Relay(relayId: string, extracted: string, resolve: string -> Option<string>, allowed: string -> bool,
               plans: string -> Option<Plan>, world: World, judges: Judges) returns (c: Context, ghost tried: nat)
    ensures OneErrorJson(c.written) || exists k :: Succeeds(world(k), judges) && c.written == Output(world(k).answer)
    ensures var requested := if extracted == "" then "unknown" else extracted;
            var canonical := if resolve(requested).Some? then resolve(requested).value else requested;
            if !allowed(canonical) then
              && c.written == [ErrorJson(403, "model not allowed: " + requested, "model_not_allowed")]
              && c.logs == [] && tried == 0
            else if PlanFor(plans, requested, canonical).None? then
              && c.written == [ErrorJson(503, "no available provider for model: " + requested, "service_unavailable")]
              && c.logs == [] && tried == 0
            else
              var flat := Flat(PlanFor(plans, requested, canonical).value);
              IsRun(relayId, requested, flat, world, judges, tried, c.written, c.logs)
  {
    hide IsRun, EqualFold, Succeeds, Output;
    c := new Context(relayId);
    tried := 0;
    var requestedModel := extracted;
    if requestedModel == "" {
      requestedModel := "unknown";
    }
    var canonicalModel := requestedModel;
    if resolve(requestedModel).Some? {
      canonicalModel := resolve(requestedModel).value;
    }
    if !allowed(canonicalModel) {
      c.Write(ErrorJson(403, "model not allowed: " + requestedModel, "model_not_allowed"));
      return;
    }
    var planModel := canonicalModel;
    var plan := plans(planModel);
    if plan.None? && !EqualFold(planModel, requestedModel) {
      planModel := requestedModel;
      plan := plans(planModel);
    }
    if plan.None? {
      c.Write(ErrorJson(503, "no available provider for model: " + requestedModel, "service_unavailable"));
      return;
    }
    tried := RunPlan(c, relayId, requestedModel, plan.value, world, judges);
    ExactlyOneResponse(relayId, requestedModel, Flat(plan.value), world, judges, tried, c.written, c.logs);
  }

  // ---------------------------------------------------------------- over whole runs

  ghost predicate OneErrorJson(written: seq<Written>) {
    |written| == 1 && written[0].ErrorJson?
  }

  /** The client gets exactly one response: one error, or the whole answer of the last upstream tried, in order. */
  lemma ExactlyOneResponse(relayId: string, requested: string, flat: seq<Attempt>, world: World, judges: Judges,
                           tried: nat, written: seq<Written>, logs: seq<LogRow>)
    requires IsRun(relayId, requested, flat, world, judges, tried, written, logs)
    ensures if tried > 0 && Succeeds(world(tried - 1), judges)
            then written == Output(world(tried - 1).answer) && !OneErrorJson(written)
                 && forall k :: 0 <= k < tried - 1 ==> !Succeeds(world(k), judges)
            else OneErrorJson(written) && forall k :: 0 <= k < tried ==> !Succeeds(world(k), judges)
  {
    hide AnyMeaningful, ErrorOf, RowsUpTo, ExhaustedMessage;
    if tried > 0 && Succeeds(world(tried - 1), judges) {
      assert written[0] == Head(world(tried - 1).answer.status);
    }
  }

  /** The first attempt to succeed, if its turn comes, is the one the client sees. */
  lemma FirstSuccessIsServed(relayId: string, requested: string, flat: seq<Attempt>, world: World, judges: Judges,
                             tried: nat, written: seq<Written>, logs: seq<LogRow>, k: nat)
    requires IsRun(relayId, requested, flat, world, judges, tried, written, logs) && k < |flat|
    requires Succeeds(world(k), judges) && forall j :: 0 <= j < k ==> FailsRetryably(world(j), judges)
    ensures tried == k + 1 && written == Output(world(k).answer)
  {
    hide AnyMeaningful, ErrorOf, RowsUpTo, ExhaustedMessage;
    assert tried <= k + 1 by {
      if tried > k + 1 {
        assert false;
      }
    }
  }

  /** Tiers of one priority each, from the highest down. */
  ghost predicate Tiered(plan: Plan) {
    && (forall t :: 0 <= t < |plan| ==> plan[t] != [] && SamePriority(plan[t], plan[t][0].route.priority))
    && (forall s, t :: 0 <= s < t < |plan| && plan[s] != [] && plan[t] != [] ==>
          plan[s][0].route.priority > plan[t][0].route.priority)
  }

  ghost predicate Descending(flat: seq<Attempt>) {
    forall i, j :: 0 <= i < j < |flat| ==> flat[i].route.priority >= flat[j].route.priority
  }

  lemma {:induction false} FlatMembers(plan: Plan, a: Attempt) returns (t: nat)
    requires a in Flat(plan)
    ensures t < |plan| && a in plan[t]
  {
    var last := |plan| - 1;
    if a in plan[last] {
      t := last;
    } else {
      t := FlatMembers(plan[..last], a);
    }
  }

  lemma {:induction false} FlatDescends(plan: Plan)
    requires Tiered(plan)
    ensures Descending(Flat(plan))
  {
    if plan != [] {
      var init, last := plan[..|plan| - 1], plan[|plan| - 1];
      FlatDescends(init);
      forall a | a in Flat(init) ensures a.route.priority > last[0].route.priority {
        var t := FlatMembers(init, a);
        assert plan[t] == init[t] && plan[t] != [] && SamePriority(plan[t], plan[t][0].route.priority);
      }
      assert SamePriority(last, last[0].route.priority);
      DescendingAppend(Flat(init), last, last[0].route.priority);
    }
  }

  lemma DescendingAppend(a: seq<Attempt>, b: seq<Attempt>, priority: int)
    requires Descending(a) && (forall x :: x in a ==> x.route.priority > priority) && forall x :: x in b ==>
               x.route.priority == priority
    ensures Descending(a + b)
  {
    assert forall i :: 0 <= i < |a| ==> a[i] in a;
    assert forall i :: 0 <= i < |b| ==> b[i] in b;
  }

  /** No lower tier is tried before every attempt of a higher one has failed retryably. */
  lemma HigherTiersFailedFirst(relayId: string, requested: string, plan: Plan, world: World, judges: Judges,
                               tried: nat, written: seq<Written>, logs: seq<LogRow>, k: nat, j: nat)
    requires IsRun(relayId, requested, Flat(plan), world, judges, tried, written, logs) && Tiered(plan)
    requires k < tried && j < |Flat(plan)| && Flat(plan)[j].route.priority > Flat(plan)[k].route.priority
    ensures j < k && FailsRetryably(world(j), judges)
  {
    hide Succeeds, ErrorOf, RowsUpTo, ExhaustedMessage, Flat, Tiered;
    FlatDescends(plan);
  }

  lemma {:induction false} FlatRoutes(plan: Plan)
    ensures RoutesOf(Flat(plan)) == PlanRoutes(plan)
  {
    hide RoutesOf;
    if plan != [] {
      FlatRoutes(plan[..|plan| - 1]);
      RoutesOfAppend(Flat(plan[..|plan| - 1]), plan[|plan| - 1]);
    } else {
      NoRoutes();
    }
  }

  lemma NoRoutes()
    ensures RoutesOf([]) == []
  {
  }

  /**
   * Without a success and without an attempt that fails for good, the planner's eligible candidates have all been
   * tried, each exactly once.
   */
  lemma ExhaustedTriesEverything(relayId: string, requested: string, plan: Plan, world: World, judges: Judges,
                                 tried: nat, written: seq<Written>, logs: seq<LogRow>,
                                 candidates: seq<ModelRoute>, l: Lookups, rand: (int, nat) -> Draw)
    requires IsPlan(plan, candidates, l, rand)
    requires IsRun(relayId, requested, Flat(plan), world, judges, tried, written, logs)
    requires forall k :: 0 <= k < tried ==> FailsRetryably(world(k), judges)
    ensures multiset(RoutesOf(Flat(plan)[..tried])) == multiset(EligibleCandidates(candidates, l))
    ensures Tiered(plan) && OneErrorJson(written) && written[0].status == 503
  {
    hide Succeeds, ErrorOf, RowsUpTo, ExhaustedMessage, Flat, Tier, RoutesOf, PlanRoutes, EligibleCandidates;
    assert tried > 0 ==> FailsRetryably(world(tried - 1), judges);
    assert Flat(plan)[..tried] == Flat(plan);
    FlatRoutes(plan);
  }

  // ---------------------------------------------------------------- the rows of a run

  /** Every attempt that does not end the run for good has logged one row, under its own index. */
  lemma {:induction false} RowsOfRun(relayId: string, flat: seq<Attempt>, world: World, judges: Judges, n: nat)
    requires n <= |flat| && forall k :: 0 <= k < n ==> Retryable(world(k))
    ensures var rows := RowsUpTo(relayId, flat, world, judges, n);
            && |rows| == n
            && (forall k :: 0 <= k < n ==> rows[k].attemptIndex == k + 1)
            && (forall k :: 0 <= k < n ==> RowsOf(PlaceAt(relayId, flat, k), world(k), judges) == [rows[k]])
  {
    hide RowsOf;
    if n > 0 {
      RowsOfRun(relayId, flat, world, judges, n - 1);
      OneRow(PlaceAt(relayId, flat, n - 1), world(n - 1), judges);
    }
  }

  lemma OneRow(p: Place, x: Exchange, judges: Judges)
    requires Retryable(x) && p.attemptIndex > 0
    ensures |RowsOf(p, x, judges)| == 1 && RowsOf(p, x, judges)[0].attemptIndex == p.attemptIndex
  {
    hide BuildErrorMessage, AnyMeaningful, FirstInvalid, ValidateNonStreamResponse;
  }

  /** A failed attempt's row is a failure. */
  lemma FailedRow(p: Place, x: Exchange, judges: Judges)
    requires Retryable(x) && !Succeeds(x, judges)
    ensures |RowsOf(p, x, judges)| == 1 && RowsOf(p, x, judges)[0].status == 0
  {
    hide BuildErrorMessage, AnyMeaningful, FirstInvalid, ValidateNonStreamResponse, Succeeds;
    RowTellsSuccessIff(p, x, judges);
  }

  /** The rows of a run are numbered from 1, and all but the last are failures. */
  lemma RunRowsShape(relayId: string, requested: string, flat: seq<Attempt>, world: World, judges: Judges,
                     tried: nat, written: seq<Written>, logs: seq<LogRow>)
    requires IsRun(relayId, requested, flat, world, judges, tried, written, logs)
    ensures forall k :: 0 <= k < |logs| ==> logs[k].attemptIndex == k + 1
    ensures forall k :: 0 <= k < |logs| - 1 ==> logs[k].status == 0
    ensures |logs| == if tried > 0 && !Retryable(world(tried - 1)) then tried - 1 else tried
  {
    hide Succeeds, ErrorOf, ExhaustedMessage, RowsOf;
    if tried > 0 {
      var n := if Retryable(world(tried - 1)) then tried else tried - 1;
      forall k | 0 <= k < tried - 1 ensures Retryable(world(k)) {
        assert FailsRetryably(world(k), judges);
      }
      RowsOfRun(relayId, flat, world, judges, n);
      LastRow(relayId, flat, world, judges, tried);
      assert logs == RowsUpTo(relayId, flat, world, judges, n);
      forall k | 0 <= k < |logs| - 1 ensures logs[k].status == 0 {
        assert FailsRetryably(world(k), judges);
        FailedRow(PlaceAt(relayId, flat, k), world(k), judges);
      }
    }
  }

  lemma LastRow(relayId: string, flat: seq<Attempt>, world: World, judges: Judges, tried: nat)
    requires 0 < tried <= |flat|
    ensures !Retryable(world(tried - 1)) ==>
              RowsUpTo(relayId, flat, world, judges, tried) == RowsUpTo(relayId, flat, world, judges, tried - 1)
  {
  }

  /** The client has the whole answer of an upstream, and the upstream did not break off. */
  ghost predicate ServedWhole(world: World, judges: Judges, tried: nat) {
    && tried > 0 && Succeeds(world(tried - 1), judges)
    && !(world(tried - 1).answer.stream && world(tried - 1).answer.readErr.Some?)
  }

  /** The last row of a run is a success exactly when the client was served a whole answer. */
  lemma LastRowTells(relayId: string, requested: string, flat: seq<Attempt>, world: World, judges: Judges,
                     tried: nat, written: seq<Written>, logs: seq<LogRow>)
    requires IsRun(relayId, requested, flat, world, judges, tried, written, logs) && logs != []
    ensures var last := logs[|logs| - 1];
            && (last.status == 1 <==> ServedWhole(world, judges, tried))
            && last.status == (if last.errorMessage == "" then 1 else 0)
  {
    hide Succeeds, ErrorOf, ExhaustedMessage, RowsOf;
    RunRowsShape(relayId, requested, flat, world, judges, tried, written, logs);
    var n := |logs|;
    forall k | 0 <= k < n ensures Retryable(world(k)) {
      assert k < tried - 1 ==> FailsRetryably(world(k), judges);
    }
    LastRow(relayId, flat, world, judges, tried);
    RowsOfRun(relayId, flat, world, judges, n);
    RowTells(PlaceAt(relayId, flat, n - 1), world(n - 1), judges);
    if n < tried {
      assert FailsRetryably(world(n - 1), judges);
      NotRetryableFails(world(tried - 1), judges);
    }
  }

  lemma RowTells(p: Place, x: Exchange, judges: Judges)
    requires RowsOf(p, x, judges) != []
    ensures var row := RowsOf(p, x, judges)[0];
            && row.status == (if row.errorMessage == "" then 1 else 0)
            && (row.status == 1 <==> Succeeds(x, judges) && !(x.answer.stream && x.answer.readErr.Some?))
  {
    hide RowsOf;
    RowTellsSuccessIff(p, x, judges);
    BrokenStreamRow(p, x, judges);
  }

  lemma BrokenStreamRow(p: Place, x: Exchange, judges: Judges)
    ensures RowsOf(p, x, judges) != [] && Succeeds(x, judges) && x.answer.stream && x.answer.readErr.Some?
            ==> RowsOf(p, x, judges)[0].status == 0
  {
    hide BuildErrorMessage, AnyMeaningful, FirstInvalid;
  }

  lemma NotRetryableFails(x: Exchange, judges: Judges)
    ensures !Retryable(x) ==> !Succeeds(x, judges)
  {
  }

  /** Every row of a run carries the run's own id. */
  lemma {:induction false} RowsCarryRelayId(relayId: string, flat: seq<Attempt>, world: World, judges: Judges, n: nat)
    requires n <= |flat| && TrimSpace(relayId) != ""
    ensures forall row :: row in RowsUpTo(relayId, flat, world, judges, n) ==> row.relayId == TrimSpace(relayId)
  {
    hide RowsOf, TrimSpace;
    if n > 0 {
      RowsCarryRelayId(relayId, flat, world, judges, n - 1);
      RowCarriesRelayId(PlaceAt(relayId, flat, n - 1), world(n - 1), judges);
    }
  }

  lemma RowCarriesRelayId(p: Place, x: Exchange, judges: Judges)
    requires TrimSpace(p.relayId) != ""
    ensures forall row :: row in RowsOf(p, x, judges) ==> row.relayId == TrimSpace(p.relayId)
  {
    hide BuildErrorMessage, AnyMeaningful, FirstInvalid, ValidateNonStreamResponse, TrimSpace;
  }
}
