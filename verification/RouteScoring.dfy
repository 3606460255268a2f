/** model/model_route.go: value scores, health multipliers, contributions and effective shares, over the reals. */
module RouteScoring {
  import opened Wrappers

  // ---------------------------------------------------------------- value score

  function Max0(x: real): real {
    if x < 0.0 then 0.0 else x
  }

  function ComputeRouteValueScore(unitCost: real, balance: real, recentUsage: real): real {
    var costScore := if unitCost > 0.0 then 1.0 / (1.0 + unitCost) else 0.5;
    var b, u := Max0(balance), Max0(recentUsage);
    var budget := (b + 1.0) / (b + u + 1.0);
    costScore * (if budget < 0.0 then 0.0 else budget)
  }

  lemma QuotientOrder(a: real, b: real, c: real, d: real)
    requires b > 0.0 && d > 0.0
    ensures a / b < c / d <==> a * d < c * b
    ensures a / b == c / d <==> a * d == c * b
  {
    var x, y := a / b, c / d;
    assert a == x * b && c == y * d;
    assert a * d == x * (b * d) && c * b == y * (b * d);
    var k := b * d;
    assert k > 0.0;
    if x < y { assert x * k < y * k; } else if x > y { assert x * k > y * k; }
  }

  function Budget(balance: real, recentUsage: real): real
    requires balance >= 0.0 && recentUsage >= 0.0
  {
    (balance + 1.0) / (balance + recentUsage + 1.0)
  }

  lemma BudgetFacts(balance: real, usage: real, more: real)
    requires balance >= 0.0 && 0.0 <= usage <= more
    ensures 0.0 < Budget(balance, more) <= Budget(balance, usage) <= 1.0
    ensures usage < more ==> Budget(balance, more) < Budget(balance, usage)
    ensures Budget(balance, usage) <= Budget(balance + 1.0, usage)
  {
    var b := balance + 1.0;
    QuotientOrder(b, b + usage, 1.0, 1.0);
    QuotientOrder(0.0, 1.0, b, b + more);
    QuotientOrder(b, b + more, b, b + usage);
    assert b * (b + usage) <= b * (b + more);
    if usage < more {
      assert b * (b + usage) < b * (b + more);
    }
    QuotientOrder(b, b + usage, b + 1.0, b + 1.0 + usage);
  }

  /** More balance never lowers the budget, and raises it when there has been recent use. */
  lemma BudgetRises(balance: real, richer: real, usage: real)
    requires 0.0 <= balance <= richer && usage >= 0.0
    ensures Budget(balance, usage) <= Budget(richer, usage)
    ensures balance < richer && usage > 0.0 ==> Budget(balance, usage) < Budget(richer, usage)
  {
    var a, b := balance + 1.0, richer + 1.0;
    QuotientOrder(a, a + usage, b, b + usage);
    assert a * (b + usage) == a * b + a * usage && b * (a + usage) == a * b + b * usage;
    assert a * usage <= b * usage;
    if balance < richer && usage > 0.0 { assert a * usage < b * usage; }
  }

  function CostScore(unitCost: real): (c: real)
    ensures 0.0 < c < 1.0
  {
    if unitCost > 0.0 then
      QuotientOrder(1.0, 1.0 + unitCost, 1.0, 1.0);
      QuotientOrder(0.0, 1.0, 1.0, 1.0 + unitCost);
      1.0 / (1.0 + unitCost)
    else 0.5
  }

  lemma ScoreIsProduct(unitCost: real, balance: real, usage: real)
    ensures ComputeRouteValueScore(unitCost, balance, usage) == CostScore(unitCost) * Budget(Max0(balance), Max0(usage))
    ensures 0.0 < Budget(Max0(balance), Max0(usage)) <= 1.0
  {
    BudgetFacts(Max0(balance), Max0(usage), Max0(usage));
  }

  /** Scores lie strictly between 0 and 1, whatever the inputs. */
  lemma ScoreBounds(unitCost: real, balance: real, usage: real)
    ensures 0.0 < ComputeRouteValueScore(unitCost, balance, usage) < 1.0
  {
    ScoreIsProduct(unitCost, balance, usage);
    var c, b := CostScore(unitCost), Budget(Max0(balance), Max0(usage));
    assert c * b <= c * 1.0;
    assert c * b > 0.0;
  }

  lemma CostFalls(cost: real, dearer: real)
    requires 0.0 < cost < dearer
    ensures CostScore(dearer) < CostScore(cost)
  {
    QuotientOrder(1.0, 1.0 + dearer, 1.0, 1.0 + cost);
  }

  /** Scores fall with recent use. */
  lemma ScoreFallsWithUsage(cost: real, balance: real, usage: real, more: real)
    requires 0.0 <= usage < more
    ensures ComputeRouteValueScore(cost, balance, more) < ComputeRouteValueScore(cost, balance, usage)
  {
    hide ComputeRouteValueScore, Budget, CostScore;
    ScoreIsProduct(cost, balance, more);
    ScoreIsProduct(cost, balance, usage);
    BudgetFacts(Max0(balance), usage, more);
    Scale(CostScore(cost), Budget(Max0(balance), more), Budget(Max0(balance), usage));
  }

  /** Scores rise with balance, strictly once there has been recent use. */
  lemma ScoreRisesWithBalance(cost: real, balance: real, richer: real, usage: real)
    requires 0.0 <= balance < richer && usage >= 0.0
    ensures ComputeRouteValueScore(cost, balance, usage) <= ComputeRouteValueScore(cost, richer, usage)
    ensures usage > 0.0 ==> ComputeRouteValueScore(cost, balance, usage) < ComputeRouteValueScore(cost, richer, usage)
  {
    hide ComputeRouteValueScore, Budget, CostScore;
    ScoreIsProduct(cost, balance, usage);
    ScoreIsProduct(cost, richer, usage);
    BudgetRises(balance, richer, usage);
    Scale(CostScore(cost), Budget(balance, usage), Budget(richer, usage));
  }

  /** Scores fall with the unit cost. */
  lemma ScoreFallsWithCost(cost: real, dearer: real, balance: real, usage: real)
    requires 0.0 < cost < dearer
    ensures ComputeRouteValueScore(dearer, balance, usage) < ComputeRouteValueScore(cost, balance, usage)
  {
    hide ComputeRouteValueScore, Budget, CostScore;
    ScoreIsProduct(cost, balance, usage);
    ScoreIsProduct(dearer, balance, usage);
    CostFalls(cost, dearer);
    Scale(Budget(Max0(balance), Max0(usage)), CostScore(dearer), CostScore(cost));
  }

  lemma Scale(k: real, x: real, y: real)
    requires k > 0.0
    ensures x < y ==> k * x < k * y
    ensures x <= y ==> k * x <= k * y
    ensures x <= y ==> x * k <= y * k
    ensures x < y ==> x * k < y * k
  {
  }

  // ---------------------------------------------------------------- tuning

  /** Option values as they parse: None where the text is blank, malformed, NaN or infinite. */
  datatype TuningOptions = TuningOptions(
    baseWeightFactor: Option<real>,
    valueScoreFactor: Option<real>,
    healthEnabled: Option<bool>,
    failurePenaltyAlpha: Option<real>,
    healthRewardBeta: Option<real>,
    healthMinMultiplier: Option<real>,
    healthMaxMultiplier: Option<real>,
    healthMinSamples: Option<int>,
    windows: WindowOptions)

  datatype WindowOptions = WindowOptions(
    usageWindowHours: Option<int>,
    healthWindowHours: Option<int>,
    suppressionEnabled: Option<bool>,
    invalidThreshold: Option<int>,
    invalidWindowMinutes: Option<int>,
    invalidCooldownMinutes: Option<int>)

  datatype Windows = Windows(
    usageWindowHours: int,
    healthWindowHours: int,
    suppressionEnabled: bool,
    invalidThreshold: int,
    invalidWindowMinutes: int,
    invalidCooldownMinutes: int)

  datatype Tuning = Tuning(
    baseWeightFactor: real,
    valueScoreFactor: real,
    healthEnabled: bool,
    failurePenaltyAlpha: real,
    healthRewardBeta: real,
    healthMinMultiplier: real,
    healthMaxMultiplier: real,
    healthMinSamples: int,
    windows: Windows)

  function ParseFloatInRange(raw: Option<real>, fallback: real, min: real, max: real): real {
    if raw.Some? && min <= raw.value <= max then raw.value else fallback
  }

  function ParseIntInRange(raw: Option<int>, fallback: int, min: int, max: int): int {
    if raw.Some? && min <= raw.value <= max then raw.value else fallback
  }

  /** An option in range is taken, any other falls back. */
  predicate Honours(raw: Option<real>, fallback: real, max: real, loaded: real) {
    if raw.Some? && 0.0 <= raw.value <= max then loaded == raw.value else loaded == fallback
  }

  lemma ParsedHonours(raw: Option<real>, fallback: real, max: real)
    requires 0.0 <= fallback <= max
    ensures var x := ParseFloatInRange(raw, fallback, 0.0, max); Honours(raw, fallback, max, x) && 0.0 <= x <= max
    ensures ParseFloatInRange(raw, fallback, 0.0, max) == 0.0 && fallback > 0.0 ==> raw == Some(0.0)
  {
  }

  predicate HonoursInt(raw: Option<int>, fallback: int, min: int, max: int, loaded: int) {
    if raw.Some? && min <= raw.value <= max then loaded == raw.value else loaded == fallback
  }

  lemma ParsedIntHonours(raw: Option<int>, fallback: int, min: int, max: int)
    requires min <= fallback <= max
    ensures var x := ParseIntInRange(raw, fallback, min, max); HonoursInt(raw, fallback, min, max, x) && min <= x <= max
  {
  }

  /** The windows of the statistics and of the suppression after invalid responses. */
  method LoadWindows(o: WindowOptions) returns (w: Windows)
    ensures HonoursInt(o.usageWindowHours, 24, 1, 720, w.usageWindowHours)
    ensures HonoursInt(o.healthWindowHours, 6, 1, 720, w.healthWindowHours)
    ensures w.suppressionEnabled <==> o.suppressionEnabled == Some(true)
    ensures HonoursInt(o.invalidThreshold, 3, 1, 1000, w.invalidThreshold)
    ensures HonoursInt(o.invalidWindowMinutes, 10, 1, 1440, w.invalidWindowMinutes)
    ensures HonoursInt(o.invalidCooldownMinutes, 15, 1, 1440, w.invalidCooldownMinutes)
  {
    w := Windows(
      ParseIntInRange(o.usageWindowHours, 24, 1, 720),
      ParseIntInRange(o.healthWindowHours, 6, 1, 720),
      if o.suppressionEnabled.Some? then o.suppressionEnabled.value else false,
      ParseIntInRange(o.invalidThreshold, 3, 1, 1000),
      ParseIntInRange(o.invalidWindowMinutes, 10, 1, 1440),
      ParseIntInRange(o.invalidCooldownMinutes, 15, 1, 1440));
  }

  /** The loader, corrections included. */
  method LoadTuning(o: TuningOptions) returns (config: Tuning)
    ensures Loaded(config)
    ensures o.baseWeightFactor == Some(0.0) && o.valueScoreFactor == Some(0.0) ==>
              config.baseWeightFactor == 0.2 && config.valueScoreFactor == 0.8
    ensures !(o.baseWeightFactor == Some(0.0) && o.valueScoreFactor == Some(0.0)) ==>
              && Honours(o.baseWeightFactor, 0.2, 10.0, config.baseWeightFactor)
              && Honours(o.valueScoreFactor, 0.8, 10.0, config.valueScoreFactor)
    ensures config.healthEnabled <==> o.healthEnabled == Some(true)
    ensures Honours(o.failurePenaltyAlpha, 4.0, 20.0, config.failurePenaltyAlpha)
    ensures Honours(o.healthRewardBeta, 0.08, 2.0, config.healthRewardBeta)
    ensures Honours(o.healthMinMultiplier, 0.05, 10.0, config.healthMinMultiplier)
    ensures var parsed := ParseFloatInRange(o.healthMaxMultiplier, 1.12, 0.0, 10.0);
            config.healthMaxMultiplier
            == if parsed < config.healthMinMultiplier then config.healthMinMultiplier else parsed
    ensures HonoursInt(o.healthMinSamples, 5, 1, 1000, config.healthMinSamples)
    ensures HonoursInt(o.windows.usageWindowHours, 24, 1, 720, config.windows.usageWindowHours)
    ensures HonoursInt(o.windows.healthWindowHours, 6, 1, 720, config.windows.healthWindowHours)
    ensures config.windows.suppressionEnabled <==> o.windows.suppressionEnabled == Some(true)
    ensures HonoursInt(o.windows.invalidThreshold, 3, 1, 1000, config.windows.invalidThreshold)
    ensures HonoursInt(o.windows.invalidWindowMinutes, 10, 1, 1440, config.windows.invalidWindowMinutes)
    ensures HonoursInt(o.windows.invalidCooldownMinutes, 15, 1, 1440, config.windows.invalidCooldownMinutes)
  {
    hide ParseFloatInRange, Honours, HonoursInt;
    ParsedIntHonours(o.healthMinSamples, 5, 1, 1000);
    var windows := LoadWindows(o.windows);
    ParsedHonours(o.baseWeightFactor, 0.2, 10.0);
    ParsedHonours(o.valueScoreFactor, 0.8, 10.0);
    ParsedHonours(o.failurePenaltyAlpha, 4.0, 20.0);
    ParsedHonours(o.healthRewardBeta, 0.08, 2.0);
    ParsedHonours(o.healthMinMultiplier, 0.05, 10.0);
    ParsedHonours(o.healthMaxMultiplier, 1.12, 10.0);
    var base := ParseFloatInRange(o.baseWeightFactor, 0.2, 0.0, 10.0);
    var score := ParseFloatInRange(o.valueScoreFactor, 0.8, 0.0, 10.0);
    if base == 0.0 && score == 0.0 {
      base, score := 0.2, 0.8;
    }
    var low := ParseFloatInRange(o.healthMinMultiplier, 0.05, 0.0, 10.0);
    var high := ParseFloatInRange(o.healthMaxMultiplier, 1.12, 0.0, 10.0);
    if high < low {
      high := low;
    }
    config := Tuning(
      base,
      score,
      if o.healthEnabled.Some? then o.healthEnabled.value else false,
      ParseFloatInRange(o.failurePenaltyAlpha, 4.0, 0.0, 20.0),
      ParseFloatInRange(o.healthRewardBeta, 0.08, 0.0, 2.0),
      low,
      high,
      ParseIntInRange(o.healthMinSamples, 5, 1, 1000),
      windows);
  }

  /** What every loaded configuration satisfies. */
  predicate Loaded(config: Tuning) {
    && 0.0 <= config.baseWeightFactor <= 10.0 && 0.0 <= config.valueScoreFactor <= 10.0
    && config.baseWeightFactor + config.valueScoreFactor > 0.0
    && 0.0 <= config.failurePenaltyAlpha <= 20.0 && 0.0 <= config.healthRewardBeta <= 2.0
    && 0.0 <= config.healthMinMultiplier <= config.healthMaxMultiplier <= 10.0
    && 1 <= config.healthMinSamples <= 1000
  }

  // ---------------------------------------------------------------- health

  datatype HealthStats = HealthStats(sampleCount: int, avgLatencyMs: real, successRate: real, failRate: real)

  function Clamp01(x: real): real {
    if x < 0.0 then 0.0 else if x > 1.0 then 1.0 else x
  }

  function LatencyScore(avgLatencyMs: real): real {
    Clamp01(if avgLatencyMs <= 1500.0 then 1.0
            else if avgLatencyMs >= 10000.0 then 0.0
            else 1.0 - (avgLatencyMs - 1500.0) / 8500.0)
  }

  /** The exponential is only known to map non-positive numbers into (0,1]. */
  ghost predicate ExpLike(exp: real -> real) {
    forall x :: x <= 0.0 ==> 0.0 < exp(x) <= 1.0
  }

  function Confidence(sampleCount: int): real {
    if sampleCount as real / 50.0 < 1.0 then sampleCount as real / 50.0 else 1.0
  }

  function HealthScore(stat: HealthStats): real {
    Clamp01(stat.successRate) * 0.75 + LatencyScore(stat.avgLatencyMs) * 0.25
  }

  function Penalty(alpha: real, failRate: real, exp: real -> real): real {
    exp(Times(-alpha, Clamp01(failRate)))
  }

  function Reward(beta: real, healthScore: real, confidence: real): real {
    Times(Times(beta, healthScore), confidence)
  }

  function Times(x: real, y: real): real {
    x * y
  }

  function Rewarded(penalty: real, reward: real): real {
    penalty * (1.0 + reward)
  }

  function RawMultiplier(stat: HealthStats, config: Tuning, exp: real -> real): real {
    Rewarded(Penalty(config.failurePenaltyAlpha, stat.failRate, exp),
             Reward(config.healthRewardBeta, HealthScore(stat), Confidence(stat.sampleCount)))
  }

  predicate HealthApplies(stat: HealthStats, config: Tuning) {
    config.healthEnabled && stat.sampleCount >= config.healthMinSamples
  }

  function FinalizeRouteHealthStat(stat: HealthStats, config: Tuning, exp: real -> real): real {
    if !HealthApplies(stat, config) then 1.0
    else
      var raw := RawMultiplier(stat, config, exp);
      var floored := if raw < config.healthMinMultiplier then config.healthMinMultiplier else raw;
      if floored > config.healthMaxMultiplier then config.healthMaxMultiplier else floored
  }

  lemma RewardedIs(penalty: real, bonus: real, reward: real)
    requires reward == 1.0 + bonus
    ensures penalty * reward == Rewarded(penalty, bonus)
  {
  }

  lemma FactorsAre(config: Tuning, exp: real -> real, rate: real, failRate: real, healthScore: real, confidence: real)
    requires failRate == Clamp01(rate)
    ensures exp(-config.failurePenaltyAlpha * failRate) == Penalty(config.failurePenaltyAlpha, rate, exp)
    ensures config.healthRewardBeta * healthScore * confidence
         == Reward(config.healthRewardBeta, healthScore, confidence)
  {
    hide Clamp01;
    assert -config.failurePenaltyAlpha * failRate == Times(-config.failurePenaltyAlpha, failRate);
  }

  /** The multiplier as the source computes it. */
  method FinalizeHealth(stat: HealthStats, config: Tuning, exp: real -> real) returns (multiplier: real)
    ensures multiplier == FinalizeRouteHealthStat(stat, config, exp)
  {
    if !config.healthEnabled {
      return 1.0;
    }
    if stat.sampleCount < config.healthMinSamples {
      return 1.0;
    }
    var failRate := stat.failRate;
    if failRate < 0.0 {
      failRate := 0.0;
    }
    if failRate > 1.0 {
      failRate := 1.0;
    }
    var successRate := stat.successRate;
    if successRate < 0.0 {
      successRate := 0.0;
    }
    if successRate > 1.0 {
      successRate := 1.0;
    }
    var latencyScore := 1.0;
    if stat.avgLatencyMs > 0.0 {
      if stat.avgLatencyMs <= 1500.0 {
        latencyScore := 1.0;
      } else if stat.avgLatencyMs >= 10000.0 {
        latencyScore := 0.0;
      } else {
        latencyScore := 1.0 - (stat.avgLatencyMs - 1500.0) / (10000.0 - 1500.0);
      }
    }
    if latencyScore < 0.0 {
      latencyScore := 0.0;
    }
    if latencyScore > 1.0 {
      latencyScore := 1.0;
    }
    var confidence := stat.sampleCount as real / 50.0;
    if confidence > 1.0 {
      confidence := 1.0;
    }
    var healthScore := successRate * 0.75 + latencyScore * 0.25;
    assert failRate == Clamp01(stat.failRate);
    assert healthScore == HealthScore(stat) && confidence == Confidence(stat.sampleCount);
    hide HealthScore, Confidence, LatencyScore, Clamp01;
    var penalty := exp(-config.failurePenaltyAlpha * failRate);
    var bonus := config.healthRewardBeta * healthScore * confidence;
    var reward := 1.0 + bonus;
    multiplier := penalty * reward;
    RewardedIs(penalty, bonus, reward);
    FactorsAre(config, exp, stat.failRate, failRate, healthScore, confidence);
    assert multiplier == RawMultiplier(stat, config, exp) by {
      hide Penalty, Reward, Rewarded;
    }
    if multiplier < config.healthMinMultiplier {
      multiplier := config.healthMinMultiplier;
    }
    if multiplier > config.healthMaxMultiplier {
      multiplier := config.healthMaxMultiplier;
    }
  }

  /** No worse in any respect, and seen at least as often. */
  predicate NoWorse(a: HealthStats, b: HealthStats) {
    && a.failRate <= b.failRate && a.successRate >= b.successRate && a.avgLatencyMs <= b.avgLatencyMs
    && a.sampleCount >= b.sampleCount
  }

  ghost predicate Grows(exp: real -> real) {
    forall x, y :: x <= y <= 0.0 ==> exp(x) <= exp(y)
  }

  lemma LatencyOrder(fast: real, slow: real)
    requires fast <= slow
    ensures 0.0 <= LatencyScore(slow) <= LatencyScore(fast) <= 1.0
  {
  }

  lemma NegativeTimes(k: real, x: real, y: real)
    requires k >= 0.0 && 0.0 <= x <= y
    ensures Times(-k, y) <= Times(-k, x) <= 0.0
  {
    if k > 0.0 {
      Scale(k, x, y);
      Scale(k, 0.0, x);
    }
    Negated(k, x);
    Negated(k, y);
  }

  lemma Negated(k: real, x: real)
    ensures Times(-k, x) == -(k * x)
  {
  }

  lemma PenaltyOrder(alpha: real, rate: real, worse: real, exp: real -> real)
    requires alpha >= 0.0 && rate <= worse && ExpLike(exp) && Grows(exp)
    ensures 0.0 < Penalty(alpha, worse, exp) <= Penalty(alpha, rate, exp)
  {
    PenaltyRange(alpha, worse, exp);
    var x, y := Clamp01(rate), Clamp01(worse);
    NegativeTimes(alpha, x, y);
    assert exp(Times(-alpha, y)) <= exp(Times(-alpha, x));
  }

  lemma TimesUp(a: real, b: real, c: real, d: real)
    requires 0.0 <= a <= b && 0.0 <= c <= d
    ensures 0.0 <= Times(a, c) <= Times(b, d)
  {
    assert a * c <= b * c && b * c <= b * d;
  }

  /** Among routes the multiplier applies to, one that does no worse in any respect never gets a smaller one. */
  lemma HealthMonotone(a: HealthStats, b: HealthStats, config: Tuning, exp: real -> real)
    requires Loaded(config) && ExpLike(exp) && Grows(exp) && NoWorse(a, b) && HealthApplies(b, config)
    ensures FinalizeRouteHealthStat(b, config, exp) <= FinalizeRouteHealthStat(a, config, exp)
  {
    UnitScores(a);
    UnitScores(b);
    ScoresOrder(a, b);
    PenaltyOrder(config.failurePenaltyAlpha, a.failRate, b.failRate, exp);
    hide HealthScore, Confidence, Penalty, Times, ExpLike, Grows, Rewarded;
    var beta := config.healthRewardBeta;
    TimesUp(beta, beta, HealthScore(b), HealthScore(a));
    TimesUp(Times(beta, HealthScore(b)), Times(beta, HealthScore(a)),
            Confidence(b.sampleCount), Confidence(a.sampleCount));
    RewardedUp(Penalty(config.failurePenaltyAlpha, b.failRate, exp),
               Penalty(config.failurePenaltyAlpha, a.failRate, exp),
               Reward(beta, HealthScore(b), Confidence(b.sampleCount)),
               Reward(beta, HealthScore(a), Confidence(a.sampleCount)));
  }

  lemma ScoresOrder(a: HealthStats, b: HealthStats)
    requires NoWorse(a, b)
    ensures HealthScore(b) <= HealthScore(a) && Confidence(b.sampleCount) <= Confidence(a.sampleCount)
  {
    LatencyOrder(a.avgLatencyMs, b.avgLatencyMs);
    hide LatencyScore;
  }

  lemma RewardedUp(p: real, q: real, r: real, s: real)
    requires 0.0 <= p <= q && 0.0 <= r <= s
    ensures Rewarded(p, r) <= Rewarded(q, s)
  {
    assert p * (1.0 + r) <= q * (1.0 + r) && q * (1.0 + r) <= q * (1.0 + s);
  }

  lemma UnitScores(stat: HealthStats)
    ensures 0.0 <= HealthScore(stat) <= 1.0
    ensures stat.sampleCount >= 1 ==> 0.0 < Confidence(stat.sampleCount) <= 1.0
  {
  }

  lemma PenaltyRange(alpha: real, failRate: real, exp: real -> real)
    requires alpha >= 0.0 && ExpLike(exp)
    ensures 0.0 < Penalty(alpha, failRate, exp) <= 1.0
  {
    BoundedProduct(alpha, Clamp01(failRate));
    assert Times(-alpha, Clamp01(failRate)) == -(alpha * Clamp01(failRate));
  }

  lemma BoundedTimes(k: real, x: real)
    requires k >= 0.0 && 0.0 <= x <= 1.0
    ensures 0.0 <= Times(k, x) <= k
  {
    BoundedProduct(k, x);
  }

  lemma RewardRange(beta: real, h: real, c: real)
    requires beta >= 0.0 && 0.0 <= h <= 1.0 && 0.0 <= c <= 1.0
    ensures 0.0 <= Reward(beta, h, c) <= beta
  {
    hide Times;
    BoundedTimes(beta, h);
    BoundedTimes(Times(beta, h), c);
  }

  lemma RawMultiplierBounds(stat: HealthStats, config: Tuning, exp: real -> real)
    requires Loaded(config) && ExpLike(exp) && stat.sampleCount >= 1
    ensures 0.0 < RawMultiplier(stat, config, exp) <= 1.0 + config.healthRewardBeta
  {
    hide HealthScore, Confidence, Penalty, Reward, Rewarded, ExpLike;
    UnitScores(stat);
    PenaltyRange(config.failurePenaltyAlpha, stat.failRate, exp);
    RewardRange(config.healthRewardBeta, HealthScore(stat), Confidence(stat.sampleCount));
    RewardedRange(Penalty(config.failurePenaltyAlpha, stat.failRate, exp),
                  Reward(config.healthRewardBeta, HealthScore(stat), Confidence(stat.sampleCount)),
                  config.healthRewardBeta);
  }

  lemma RewardedRange(penalty: real, reward: real, beta: real)
    requires 0.0 < penalty <= 1.0 && 0.0 <= reward <= beta
    ensures 0.0 < Rewarded(penalty, reward) <= 1.0 + beta
  {
    Scale(1.0 + reward, penalty, 1.0);
    Scale(1.0 + reward, 0.0, penalty);
  }

  /** Applied multipliers stay within the configured bounds, and vanish only when the upper bound does. */
  lemma HealthMultiplierBounds(stat: HealthStats, config: Tuning, exp: real -> real)
    requires Loaded(config) && ExpLike(exp)
    ensures var m := FinalizeRouteHealthStat(stat, config, exp);
            if HealthApplies(stat, config) then config.healthMinMultiplier <= m <= config.healthMaxMultiplier
            else m == 1.0
    ensures FinalizeRouteHealthStat(stat, config, exp) <= 0.0
       <==> HealthApplies(stat, config) && config.healthMaxMultiplier == 0.0
  {
    hide RawMultiplier;
    if HealthApplies(stat, config) {
      RawMultiplierBounds(stat, config, exp);
    }
  }

  lemma BoundedProduct(k: real, x: real)
    requires k >= 0.0 && 0.0 <= x <= 1.0
    ensures 0.0 <= k * x <= k
  {
    assert k * x <= k * 1.0;
  }

  // ---------------------------------------------------------------- contribution

  /** The two factors, or the defaults when neither is positive. */
  function Factors(baseFactor: real, scoreFactor: real): (f: (real, real))
    ensures f.0 >= 0.0 && f.1 >= 0.0 && f.0 + f.1 > 0.0
    ensures f.0 == 0.0 <==> baseFactor <= 0.0 && scoreFactor > 0.0
  {
    var b0, v0 := Max0(baseFactor), Max0(scoreFactor);
    if b0 == 0.0 && v0 == 0.0 then (0.2, 0.8) else (b0, v0)
  }

  function Normal(score: real, max: real): real
    requires max > 0.0
  {
    Clamp01(score / max)
  }

  function Blend(f: (real, real), normal: real): real {
    f.0 + normal * f.1
  }

  function ComputeRouteContribution(weight: int, valueScore: real, maxValueScore: real, baseFactor: real,
                                    scoreFactor: real): real {
    var base := (weight + 10) as real;
    if base <= 0.0 then 0.0
    else if maxValueScore <= 0.0 then base
    else Times(base, Blend(Factors(baseFactor, scoreFactor), Normal(valueScore, maxValueScore)))
  }

  lemma NormalOrder(score: real, better: real, max: real)
    requires max > 0.0 && score <= better
    ensures 0.0 <= Normal(score, max) <= Normal(better, max) <= 1.0
    ensures Normal(score, max) == 0.0 <==> score <= 0.0
  {
    QuotientOrder(better, max, score, max);
    Scale(max, score, better);
    QuotientOrder(0.0, 1.0, score, max);
  }

  lemma BlendOrder(f: (real, real), n: real, m: real)
    requires f.0 >= 0.0 && f.1 >= 0.0 && f.0 + f.1 > 0.0 && 0.0 <= n <= m
    ensures 0.0 <= Blend(f, n) <= Blend(f, m)
    ensures Blend(f, n) == 0.0 <==> f.0 == 0.0 && n == 0.0
  {
    if f.1 > 0.0 {
      Scale(f.1, n, m);
      Scale(f.1, 0.0, n);
    }
  }

  lemma TimesOrder(k: real, x: real, y: real)
    requires k > 0.0 && 0.0 <= x <= y
    ensures 0.0 <= Times(k, x) <= Times(k, y)
    ensures Times(k, x) == 0.0 <==> x == 0.0
  {
    Scale(k, x, y);
    Scale(k, 0.0, x);
  }

  /**
   * Contributions are never negative. They vanish exactly for routes weighted down to nothing, or when only
   * the score counts and the route has none.
   */
  lemma ContributionSign(weight: int, valueScore: real, maxValueScore: real, baseFactor: real, scoreFactor: real)
    ensures var c := ComputeRouteContribution(weight, valueScore, maxValueScore, baseFactor, scoreFactor);
            && c >= 0.0
            && (c == 0.0
                <==> weight <= -10
                     || (maxValueScore > 0.0 && baseFactor <= 0.0 && scoreFactor > 0.0 && valueScore <= 0.0))
  {
    hide Normal, Blend, Times, Factors;
    var base := (weight + 10) as real;
    if base > 0.0 && maxValueScore > 0.0 {
      var f, n := Factors(baseFactor, scoreFactor), Normal(valueScore, maxValueScore);
      NormalOrder(valueScore, valueScore, maxValueScore);
      BlendOrder(f, n, n);
      TimesOrder(base, Blend(f, n), Blend(f, n));
    }
  }

  /** Within a tier a better score never contributes less. */
  lemma ContributionMonotone(weight: int, score: real, better: real, max: real, baseFactor: real, scoreFactor: real)
    requires score <= better
    ensures ComputeRouteContribution(weight, score, max, baseFactor, scoreFactor)
         <= ComputeRouteContribution(weight, better, max, baseFactor, scoreFactor)
  {
    hide Normal, Blend, Times, Factors;
    var base := (weight + 10) as real;
    if base > 0.0 && max > 0.0 {
      var f := Factors(baseFactor, scoreFactor);
      NormalOrder(score, better, max);
      BlendOrder(f, Normal(score, max), Normal(better, max));
      TimesOrder(base, Blend(f, Normal(score, max)), Blend(f, Normal(better, max)));
    }
  }
}
