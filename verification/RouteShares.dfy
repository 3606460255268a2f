/**
 * model/model_route.go, GetModelRouteOverview: the effective share of every route within its (model, priority) group.
 */
module RouteShares {
  import opened Text
  import opened Wrappers
  import opened RouteScoring

  /** An overview row with its score, multiplier and suppression already computed. */
  datatype Item = Item(
    id: int,
    modelName: string,
    priority: int,
    weight: int,
    enabled: bool,
    suppressed: bool,
    valueScore: real,
    healthMultiplier: real)

  function GroupKey(item: Item): string {
    item.modelName + ['#'] + Itoa(item.priority)
  }

  /** The textual group key stands for the pair of model name and priority. */
  lemma GroupKeyInjective(i: Item, j: Item)
    ensures GroupKey(i) == GroupKey(j) <==> i.modelName == j.modelName && i.priority == j.priority
  {
    NumberedNameInjective(i.modelName, i.priority, j.modelName, j.priority, '#');
  }

  predicate Counted(item: Item) {
    item.enabled && !item.suppressed
  }

  function GroupMax(items: seq<Item>, key: string): (m: real)
    ensures m >= 0.0
    ensures forall i :: i in items && GroupKey(i) == key ==> i.valueScore <= m
  {
    if items == [] then 0.0
    else
      var n := |items| - 1;
      assert items == items[..n] + [items[n]];
      var m := GroupMax(items[..n], key);
      if GroupKey(items[n]) == key && items[n].valueScore > m then items[n].valueScore else m
  }

  /** The contribution the shares are computed from; a score that is not positive counts as none. */
  function ShareContribution(item: Item, max: real, config: Tuning): real {
    var score := if item.valueScore > 0.0 then item.valueScore else 0.0;
    var c := ComputeRouteContribution(item.weight, score, max, config.baseWeightFactor, config.valueScoreFactor);
    if item.healthMultiplier > 0.0 then c * item.healthMultiplier else c
  }

  lemma ShareContributionSign(item: Item, max: real, config: Tuning)
    ensures ShareContribution(item, max, config) >= 0.0
  {
    var score := if item.valueScore > 0.0 then item.valueScore else 0.0;
    ContributionSign(item.weight, score, max, config.baseWeightFactor, config.valueScoreFactor);
    var c := ComputeRouteContribution(item.weight, score, max, config.baseWeightFactor, config.valueScoreFactor);
    if item.healthMultiplier > 0.0 { Scale(item.healthMultiplier, 0.0, c); }
  }

  function ContributionIn(items: seq<Item>, item: Item, config: Tuning): real {
    ShareContribution(item, GroupMax(items, GroupKey(item)), config)
  }

  /** The sum of the counted contributions of a group over the first n items. */
  function GroupSum(items: seq<Item>, n: nat, key: string, config: Tuning): real
    requires n <= |items|
  {
    if n == 0 then 0.0
    else GroupSum(items, n - 1, key, config)
         + (if Counted(items[n - 1]) && GroupKey(items[n - 1]) == key
            then ContributionIn(items, items[n - 1], config) else 0.0)
  }

  function Share(items: seq<Item>, i: nat, config: Tuning): Option<real>
    requires i < |items|
  {
    var total := GroupSum(items, |items|, GroupKey(items[i]), config);
    var c := ContributionIn(items, items[i], config);
    if !Counted(items[i]) || total <= 0.0 || c <= 0.0 then None else Some(Percent(c, total))
  }

  function Percent(c: real, total: real): real
    requires total > 0.0
  {
    c / total * 100.0
  }

  function ValueAt<K>(m: map<K, real>, k: K): real {
    if k in m then m[k] else 0.0
  }

  /** First loop: the best score of every group. */
  method GroupMaxima(items: seq<Item>) returns (groupMaxScore: map<string, real>)
    ensures forall k :: ValueAt(groupMaxScore, k) == GroupMax(items, k)
  {
    hide GroupKey;
    groupMaxScore := map[];
    for i := 0 to |items|
      invariant forall k :: ValueAt(groupMaxScore, k) == GroupMax(items[..i], k)
    {
      assert items[..i + 1][..i] == items[..i];
      var key := GroupKey(items[i]);
      if items[i].valueScore > ValueAt(groupMaxScore, key) {
        groupMaxScore := groupMaxScore[key := items[i].valueScore];
      }
    }
    assert items[..|items|] == items;
  }

  ghost predicate Ids(items: seq<Item>) {
    forall i, j :: 0 <= i < j < |items| ==> items[i].id != items[j].id
  }

  method ContributionOf(item: Item, max: real, config: Tuning) returns (contribution: real)
    ensures contribution == ShareContribution(item, max, config)
  {
    hide ComputeRouteContribution;
    var score := if item.valueScore > 0.0 then item.valueScore else 0.0;
    contribution := ComputeRouteContribution(item.weight, score, max, config.baseWeightFactor, config.valueScoreFactor);
    if item.healthMultiplier > 0.0 {
      contribution := contribution * item.healthMultiplier;
    }
  }

  /** Second loop: every counted contribution, and their sum per group. */
  method Contributions(items: seq<Item>, config: Tuning, groupMaxScore: map<string, real>)
      returns (routeContribution: map<int, real>, shareSum: map<string, real>)
    requires Ids(items) && forall k :: ValueAt(groupMaxScore, k) == GroupMax(items, k)
    ensures forall k :: ValueAt(shareSum, k) == GroupSum(items, |items|, k, config)
    ensures forall j :: 0 <= j < |items| && Counted(items[j]) ==>
              && items[j].id in routeContribution
              && routeContribution[items[j].id] == ContributionIn(items, items[j], config)
  {
    hide ShareContribution, GroupKey, GroupMax;
    routeContribution, shareSum := map[], map[];
    for i := 0 to |items|
      invariant forall k :: ValueAt(shareSum, k) == GroupSum(items, i, k, config)
      invariant forall j :: 0 <= j < i && Counted(items[j]) ==>
                  && items[j].id in routeContribution
                  && routeContribution[items[j].id] == ContributionIn(items, items[j], config)
    {
      var item := items[i];
      if !item.enabled || item.suppressed {
        continue;
      }
      var key := GroupKey(item);
      var contribution := ContributionOf(item, ValueAt(groupMaxScore, key), config);
      routeContribution := routeContribution[item.id := contribution];
      shareSum := shareSum[key := ValueAt(shareSum, key) + contribution];
    }
  }

  /** The three loops of the overview. */
  method EffectiveShares(items: seq<Item>, config: Tuning) returns (shares: seq<Option<real>>)
    requires Ids(items)
    ensures |shares| == |items| && forall i :: 0 <= i < |items| ==> shares[i] == Share(items, i, config)
  {
    hide ContributionIn, GroupKey, GroupMax, Percent;
    var groupMaxScore := GroupMaxima(items);
    var routeContribution, shareSum := Contributions(items, config, groupMaxScore);
    shares := [];
    for i := 0 to |items|
      invariant |shares| == i && forall j :: 0 <= j < i ==> shares[j] == Share(items, j, config)
    {
      if !items[i].enabled || items[i].suppressed {
        shares := shares + [None];
        continue;
      }
      var contribution := routeContribution[items[i].id];
      var total := ValueAt(shareSum, GroupKey(items[i]));
      if total <= 0.0 || contribution <= 0.0 {
        shares := shares + [None];
        continue;
      }
      shares := shares + [Some(Percent(contribution, total))];
    }
  }

  /** The non-nil shares of a group, summed over the first n items. */
  function ShareSum(items: seq<Item>, n: nat, key: string, config: Tuning): real
    requires n <= |items|
  {
    if n == 0 then 0.0
    else
      var s := Share(items, n - 1, config);
      ShareSum(items, n - 1, key, config) + (if GroupKey(items[n - 1]) == key && s.Some? then s.value else 0.0)
  }

  lemma {:induction false} PartialShares(items: seq<Item>, n: nat, key: string, config: Tuning)
    requires n <= |items| && GroupSum(items, |items|, key, config) > 0.0
    ensures ShareSum(items, n, key, config)
         == Percent(GroupSum(items, n, key, config), GroupSum(items, |items|, key, config))
  {
    hide ContributionIn, GroupKey, Percent;
    var total := GroupSum(items, |items|, key, config);
    PercentFacts(0.0, 0.0, total);
    if n > 0 {
      PartialShares(items, n - 1, key, config);
      var c := ContributionIn(items, items[n - 1], config);
      ContributionInSign(items, items[n - 1], config);
      PercentFacts(GroupSum(items, n - 1, key, config), c, total);
    }
  }

  lemma PercentFacts(x: real, y: real, total: real)
    requires total > 0.0
    ensures Percent(x + y, total) == Percent(x, total) + Percent(y, total)
    ensures Percent(0.0, total) == 0.0 && Percent(total, total) == 100.0
  {
    assert (x + y) / total == x / total + y / total;
  }

  lemma ContributionInSign(items: seq<Item>, item: Item, config: Tuning)
    ensures ContributionIn(items, item, config) >= 0.0
  {
    ShareContributionSign(item, GroupMax(items, GroupKey(item)), config);
  }

  /** In every group with a positive total the shares add up to exactly 100; in any other group there are none. */
  lemma SharesSumToHundred(items: seq<Item>, key: string, config: Tuning)
    ensures var total := GroupSum(items, |items|, key, config);
            if total > 0.0 then ShareSum(items, |items|, key, config) == 100.0
            else forall i :: 0 <= i < |items| && GroupKey(items[i]) == key ==> Share(items, i, config) == None
  {
    hide ContributionIn, GroupKey, Percent;
    var total := GroupSum(items, |items|, key, config);
    if total > 0.0 {
      PartialShares(items, |items|, key, config);
      PercentFacts(total, 0.0, total);
    }
  }

  /** A counted route is left without a share exactly when it contributes nothing. */
  lemma ShareMissingIff(items: seq<Item>, i: nat, config: Tuning)
    requires i < |items| && Counted(items[i])
    ensures Share(items, i, config) == None <==> ContributionIn(items, items[i], config) == 0.0
  {
    hide ContributionIn, GroupKey;
    ContributionInSign(items, items[i], config);
    SumDominates(items, |items|, i, config);
  }

  lemma {:induction false} SumDominates(items: seq<Item>, n: nat, i: nat, config: Tuning)
    requires i < n <= |items| && Counted(items[i])
    ensures GroupSum(items, n, GroupKey(items[i]), config) >= ContributionIn(items, items[i], config)
  {
    hide ContributionIn, GroupKey;
    SumSign(items, n - 1, GroupKey(items[i]), config);
    ContributionInSign(items, items[n - 1], config);
    if i < n - 1 {
      SumDominates(items, n - 1, i, config);
    }
  }

  lemma {:induction false} SumSign(items: seq<Item>, n: nat, key: string, config: Tuning)
    requires n <= |items|
    ensures GroupSum(items, n, key, config) >= 0.0
  {
    hide ContributionIn, GroupKey;
    if n > 0 {
      SumSign(items, n - 1, key, config);
      ContributionInSign(items, items[n - 1], config);
    }
  }
}
