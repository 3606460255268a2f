# NewAPI-Gateway: a Dafny model of the routing, relay and bookkeeping cores

NewAPI-Gateway relays LLM requests to several upstream providers. This project models, in Dafny, what happens
between an incoming model name and the one response the client gets, and what the gateway remembers about it:
names and aliases, the model catalog, the routing index, the retry plan, the relay with its streaming commit, the
usage log, the caches, the rate limiter, the failure alert, the backup retries, the token sync and the route
rebuild. Tables are sequences and maps; clocks, random draws, upstream answers and the order in which Go walks a
map are inputs or arbitrary choices; floats are reals.

The modules, from the bottom up:

- `Text`, `Sorting`, `Wrappers`, `Routes`: strings, `sort` and map walks, options and results, the route row.
- `ModelAlias`, `ProviderAlias`: normalized names, version keys, alias tables.
- `CatalogIndex`, `ModelCatalog`, `CatalogNames`: the catalog's look-ups against a scan, how the catalog is built, and
  which routes it lists together under which name.
- `RouteIndex`, `Candidates`: the snapshot's hash indexes against the per-route matcher, and who the candidates are.
- `RouteScoring`, `RouteShares`, `WeightedShuffle`, `RoutePlan`, `PlanShares`: scores, shares, shuffle, plan, and what
  share of a tier a route gets.
- `Proxy`, `Relay`, `UsageLogs`: one attempt, the whole run, and the rows it leaves.
- `SnapshotCache`, `MetricCache`, `RateLimiter`: the concurrent stores.
- `FailureAlert`, `AlertOverlap`, `BackupRetry`, `RetryOverlap`: the alert and the retry queue over unbounded runs, one
  step after the other and with overlapping steps.
- `ProviderTokens`, `TokenSync`, `RouteRebuild`: key states, token reconciliation, route rebuild.

## Where the code falls short of the law one would expect

Each has a lemma with a concrete input, and a lemma that says for all inputs exactly when the law holds.

- For a maximum that is not negative, the limiter is a sliding-window counter of that maximum exactly when it is at
  least 1 and the duration is at most the expiration plus one second (`RateLimiter.PlainWindowIff`;
  `RateLimiter.ForgottenExample`, `RateLimiter.FirstRequestUnderZero`). The comment at common/constants.go:68-69 asks for
  one second less.
- A random draw of exactly 0 can put an attempt without weight before one with weight
  (`WeightedShuffle.PositivesFirstIff`, `WeightedShuffle.MisorderedExample`).
- A model name with a comma can share the metric cache key of other names (`MetricCache.KeyMeaning`,
  `MetricCache.CommaNamesCollide`).
- Two alias sources that differ only in outer white space make the cleaned alias table depend on the map walk
  (`ProviderAlias.CleaningDeterministicIff`, `ProviderAlias.ClashExample`).
- Going from an alias target to its source and back can end at another model when two sources differ by case
  (`ProviderAlias.AliasRoundTripIff`, `ProviderAlias.RoundTripExample`).
- `NormalizeModelName` is idempotent on exactly the names whose first pass leaves no rule to apply
  (`ModelAlias.NormalizeIdempotentIff`, `ModelAlias.NotIdempotentExample`).
- A rebuild matches old settings by the trimmed name, and of several old rows the last one wins
  (`RouteRebuild.SettingsKeptIff`, `RouteRebuild.SettingsLostExample`).
- The token paging loop ends exactly at the first page that is an error, blank, short under no total, or brings the
  distinct ids to the total it announces; there need not be one (`TokenSync.StillReadingIff`, `TokenSync.PagingExample`).
- Retry passes may overlap. Then a final status, the bound on failed uploads and the order of retry times can all be
  lost (`RetryOverlap.FinalStaysInRunsIff`, `RetryOverlap.StatusKeptInRunsIff`,
  `RetryOverlap.FailuresBoundedIff`, `RetryOverlap.RetryTimeIncreasesInRunsIff`; whole runs in `RetryOverlap.OverlapLosesFinalStatus`,
  `RetryOverlap.OverlapLosesFailures`, `RetryOverlap.OverlapTurnsTimeBack`).
- Failure alerts may overlap, and then one burst can notify twice (`AlertOverlap.NotifiesOnceIff`,
  `AlertOverlap.TwiceExample`).
- A stream that breaks off after its commit is logged as failed although the client got its lines
  (`Proxy.RowTellsSuccessIff`, `Proxy.BrokenStreamExample`).

## Model

| member | source | states |
|---|---|---|
| Text.TrimSpaceCuts | common/model_alias.go:18-18 | Trimming cuts white space off both ends, and nothing else. |
| Text.LowerCharMeaning | common/model_alias.go:18-18 | Lowering changes exactly the 26 capitals, each to its small letter. |
| Text.LessMeaning | model/model_catalog.go:81-92 | A string is less than another exactly when it is a proper prefix, or smaller at the first place where they differ. |
| ModelAlias.ComputeNormalizedName | common/model_alias.go:17-43 | The step-by-step rewriting computes the composed rules: at most six labels, then tag, compact date, ISO date and `-latest`, once each in this order. |
| ModelAlias.NormalizeIgnoresCaseAndSpace | common/model_alias.go:17-43 | Names that differ only in case or outer white space normalize alike. |
| ModelAlias.NormalizeFixesIff | common/model_alias.go:17-43 | A name is left alone exactly when it is trimmed and lower-case and no rewriting rule applies: prefix, slash, label, tag, dates, `-latest`. |
| ModelAlias.NormalizeIdempotentIff | common/model_alias.go:17-43 | A second pass changes nothing exactly when the first has left no rule to apply. |
| ModelAlias.NormalizeNotIdempotent | common/model_alias.go:33-41 | A whole family (a dated name followed by `-latest`) on which a second pass strips more. |
| ModelAlias.NotIdempotentExample | common/model_alias.go:39-41 | `a-20250101-latest` needs two passes. |
| ModelAlias.AffixesRemoved | common/model_alias.go:22-41 | The prefix and the suffix rule remove their affix once where it is there, and nothing else. |
| ModelAlias.LastSlashRule | common/model_alias.go:23-25 | What follows the last slash is kept; a name that ends in its only slash, or has none, is kept whole. |
| ModelAlias.LabelRemoved | common/model_alias.go:13-27 | A leading label in any of the six bracket pairs goes, with its brackets. |
| ModelAlias.LabelFound | common/model_alias.go:13-27 | Whatever the label rule removes is a non-empty label in one of the six bracket pairs. |
| ModelAlias.CompactDateRemoved | common/model_alias.go:10-39 | A separator and eight digits at the end go. |
| ModelAlias.CompactDateFound | common/model_alias.go:10-39 | Nothing else is removed by that rule. |
| ModelAlias.ISODateRemoved | common/model_alias.go:11-40 | A final `-20YY-MM-DD` goes. |
| ModelAlias.ISODateFound | common/model_alias.go:11-40 | Nothing else is removed by that rule. |
| ModelAlias.NormalizedIsLower | common/model_alias.go:17-43 | A normal form is in lower case, since no rule brings in a character. |
| ModelAlias.ComputeVersionKey | common/model_alias.go:45-64 | The loop over split pieces yields the specified key, whatever permutation the unstable sort leaves of equal tokens. |
| ModelAlias.KeyTokensMeaning | common/model_alias.go:45-64 | Replacing dots and splitting on runs gives exactly the lower-cased, trimmed, non-empty pieces between single `-`, `_`, `.`. |
| ModelAlias.TokensOfPieces | common/model_alias.go:45-57 | The tokens of a name, piece by piece between single `-`, `_` and `.`: each piece lower-cased and trimmed, blank ones dropped. |
| ModelAlias.VersionKeyCanonical | common/model_alias.go:45-64 | Two names share a key if and only if they have the same multiset of tokens. |
| ModelAlias.VersionKeyIdempotent | common/model_alias.go:45-64 | The key of a key is the key: splitting undoes joining and sorting settles. |
| ModelAlias.VersionKeyIgnoresCaseAndSpace | common/model_alias.go:45-64 | Case and outer white space never reach the key. |
| ProviderAlias.NormalizeMapping | model/provider_alias_mapping.go:20-31 | The cleaned keys are exactly the trimmed usable sources, each with the trimmed target of one of its sources: the last on the walk. |
| ProviderAlias.CleaningDeterministicIff | model/provider_alias_mapping.go:20-31 | All walks give the same cleaned table if and only if no two usable sources trim to one name with different targets. |
| ProviderAlias.ClashExample | model/provider_alias_mapping.go:20-31 | `" a"` and `"a"` with different targets: two walks, two tables. |
| ProviderAlias.BuildLookup | model/provider_alias_mapping.go:57-81 | The loop over sorted sources yields the forward look-up whose answers ResolveMeaning characterizes. |
| ProviderAlias.BuildReverseLookup | model/provider_alias_mapping.go:83-116 | Likewise for the reverse look-up and ResolveByTargetMeaning. |
| ProviderAlias.ResolveMeaning | model/provider_alias_mapping.go:57-81 | An answer is the target of the greatest source with the same folded name, or without one of the greatest with the same normalized name; no answer means neither exists. |
| ProviderAlias.ResolveByTargetMeaning | model/provider_alias_mapping.go:83-116 | The reverse answer is the least source whose target has the same folded name, else the same normalized name; no answer means neither exists. |
| ProviderAlias.AliasRoundTripIff | model/provider_alias_mapping.go:118-154 | Going from a target to its source and back gives the same model exactly when the greatest source of that folded name has such a target. |
| ProviderAlias.AliasRoundTrip | model/provider_alias_mapping.go:118-154 | The round trip never fails where no two sources differ by case or outer white space only. |
| ProviderAlias.RoundTripExample | model/provider_alias_mapping.go:118-154 | With sources `A` for `x` and `a` for `y`, the target `x` leads to `A`, and `A` to `y`. |
| CatalogIndex.Snapshot.RegisterLookup | model/model_catalog.go:154-176 | One candidate enters each index under its folded, normalized and version key unless the key is taken or blank. |
| CatalogIndex.Snapshot.Append | model/model_catalog.go:320-349 | Appending an entry registers its canonical name, aliases and targets for its own position. |
| CatalogIndex.ResolveIsScan | model/model_catalog.go:209-236 | The hash indexes answer like a scan: canonical name first, then the first entry with an exact, normalized or version match. |
| CatalogIndex.ListedNameResolves | model/model_catalog.go:209-236 | Every name an entry lists resolves, to an entry that has that name, up to case. |
| CatalogIndex.ResolveCanonical | model/model_catalog.go:209-236 | Resolving any entry's canonical name gives that entry. |
| CatalogIndex.ResolveFixpoint | model/model_catalog.go:209-236 | Resolving the canonical name of whatever a name resolved to returns the same entry. |
| ModelCatalog.TextBeforeIsOrder | model/model_catalog.go:78-94 | The text comparison is a strict weak order, so sorting by it is meaningful. |
| ModelCatalog.CompareMeaning | model/model_catalog.go:78-94 | The comparison is negative exactly when the folded trimmed name, or at a tie the trimmed name, is the smaller string. |
| ModelCatalog.Bucket.AddRouteTarget | model/model_catalog.go:44-53 | The bucket keeps, for every folded name ever added, the least spelling, and forgets no fold. |
| ModelCatalog.Bucket.AddAlias | model/model_catalog.go:55-64 | The same for aliases. |
| ModelCatalog.Bucket.AddCandidate | model/model_catalog.go:66-76 | The same for candidates, least by rank and then by text. |
| ModelCatalog.Bucket.ChooseCanonicalName | model/model_catalog.go:96-123 | The name of the least candidate ever added; without candidates the first alias, without aliases the first target. |
| ModelCatalog.SortedMapValues | model/model_catalog.go:125-142 | The values in text order, each once. |
| ModelCatalog.FillSemanticBuckets | model/model_catalog.go:244-281 | One bucket per semantic key, holding exactly the targets, aliases and candidates of the routes of that key; which routes share a key is CatalogNames.PlainRoutesShareIff. |
| ModelCatalog.MergeBuckets | model/model_catalog.go:287-318 | Buckets with the same folded canonical name are united, for any walk over the buckets. |
| ModelCatalog.CanonicalIsAlias | model/model_catalog.go:288-318 | The canonical name of a bucket is one of its aliases, so the fallback spelling does not depend on the walk. |
| ModelCatalog.BuildModelCatalogSnapshot | model/model_catalog.go:238-352 | The build yields a catalog of the route set, and its indexes are those of its entries; CatalogNames says which routes share an entry and under which name. |
| ModelCatalog.CatalogUnique | model/model_catalog.go:238-352 | A route set has only one catalog, so no map walk shows in it. |
| ModelCatalog.CatalogIgnoresRouteOrder | model/model_catalog.go:238-352 | Permuting the route list leaves the catalog unchanged. |
| ModelCatalog.CanonicalNamesIncrease | model/model_catalog.go:320-349 | The folded canonical names are strictly increasing. |
| ModelCatalog.TargetsAreRoutes | model/model_catalog.go:238-352 | Every target is the trimmed name of an enabled route. |
| ModelCatalog.RouteTargetsPartition | model/model_catalog.go:238-352 | Every named enabled route is a target, up to case, of exactly one entry. |
| ModelCatalog.EntryHasTarget | model/model_catalog.go:238-352 | No entry is without a target. |
| CatalogNames.CanonicalNames | model/model_catalog.go:96-123 | The name chosen for a route is the first alias source among the named routes alike to it; without one their normal form; without that the first spelling. |
| CatalogNames.NameUnique | model/model_catalog.go:96-123 | Every named enabled route has exactly one such name. |
| CatalogNames.SharesEntryIff | model/model_catalog.go:238-352 | Two named enabled routes are listed in one entry if and only if the names so chosen for them differ by case at most. |
| CatalogNames.EntryNamed | model/model_catalog.go:287-326 | The canonical name of an entry is the first of the names so chosen for the routes it lists. |
| CatalogNames.PlainRoutesShareIff | model/model_catalog.go:252-262 | Among routes without alias sources, two are listed in one entry if and only if their names normalize alike, a name without a normal form standing with its folded self. |
| RouteIndex.IndexBuilder.Add | model/model_route_cache.go:202-230 | After each route the five indexes list, under every key, exactly the routes seen with that relation, in order. |
| RouteIndex.BuildAliasLookups | model/model_route_cache.go:167-179 | Both alias look-ups exist for exactly the providers with an enabled route and a row. |
| RouteIndex.BuildRoutingStaticSnapshot | model/model_route_cache.go:118-235 | The snapshot is that of its routes and providers: indexes, alias look-ups and catalog together. |
| RouteIndex.MatcherMeaning | model/model_route.go:399-428 | The matcher keeps a route of the same family or one the provider's alias names, and no other. |
| RouteIndex.GetCandidateRoutesByModel | model/model_route_cache.go:237-332 | The index look-up returns exactly the routes the linear scan keeps, each once, by priority descending and id ascending; which those are is Candidates.CandidateIff. |
| RouteIndex.CandidateListUnique | model/model_route_cache.go:237-332 | There is only one such list, whatever order the maps are walked in. |
| RouteIndex.CandidatesIgnoreTableOrder | model/model_route_cache.go:118-332 | Snapshots of permuted tables answer with the same candidates. |
| RouteIndex.ListedModelsAreRoutable | controller/relay.go:113-132 | The candidates of a listed canonical name hold every enabled route named in its targets, and there is at least one. |
| Candidates.CandidateIff | model/model_route_cache.go:252-317 | A route is a candidate if and only if it is enabled and its name has an exact, normalized or version-key match with the request or a target of its catalog entry, or its own provider maps the request to a name that folds or normalizes alike. |
| Candidates.VersionMatchIsCandidate | model/model_route_cache.go:264-269 | A route whose normal form has the same tokens as that of the request, in whatever order, is always a candidate. |
| Candidates.CandidatesInOrder | model/model_route_cache.go:322-330 | Candidates come by priority from high to low, and within a priority by id. |
| RouteScoring.ScoreBounds | model/model_route.go:653-670 | Value scores lie strictly between 0 and 1 for every cost, balance and usage. |
| RouteScoring.ScoreFallsWithUsage | model/model_route.go:653-670 | More recent usage strictly lowers the score. |
| RouteScoring.ScoreRisesWithBalance | model/model_route.go:653-670 | More balance raises the score, strictly once there is usage. |
| RouteScoring.ScoreFallsWithCost | model/model_route.go:653-670 | A dearer route scores strictly lower. |
| RouteScoring.LoadTuning | model/model_route.go:672-781 | Every option in range is taken and any other falls back, windows and suppression included; only two zero factors and a maximum below the minimum are changed, so the result is always in range. |
| RouteScoring.HealthMultiplierBounds | model/model_route.go:1058-1119 | With loaded tuning the multiplier lies between minimum and maximum when it applies and is 1 otherwise. |
| RouteScoring.FinalizeHealth | model/model_route.go:1058-1119 | The clamping and weighing, step by step, yield the specified multiplier. |
| RouteScoring.HealthMonotone | model/model_route.go:1058-1119 | Where the multiplier applies, a route that does no worse in failures, successes and latency, over no fewer samples, never gets a smaller one. |
| RouteScoring.ContributionSign | model/model_route.go:820-848 | Contributions are never negative, and zero exactly for weights of -10 or less or a score-only factor without score. |
| RouteScoring.ContributionMonotone | model/model_route.go:820-848 | A better score never contributes less. |
| RouteShares.GroupKeyInjective | model/model_route.go:1371-1374 | Group keys coincide only for the same model and priority. |
| RouteShares.EffectiveShares | model/model_route.go:1352-1437 | The three loops over maps give every item the share of its own group. |
| RouteShares.SharesSumToHundred | model/model_route.go:1397-1435 | In a group with a positive total the present shares sum to exactly 100; otherwise every share is missing. |
| RouteShares.ShareMissingIff | model/model_route.go:1421-1435 | An enabled, unsuppressed item lacks a share exactly when it contributes nothing. |
| WeightedShuffle.WeightedShuffleAttempts | model/model_route.go:571-607 | The shrinking pool yields the shuffle that the lemmas below are about. |
| WeightedShuffle.SelectIndex | model/model_route.go:579-602 | The two inner loops, with the uniform fallback for a pool without weight, select the specified index. |
| WeightedShuffle.ShufflePermutes | model/model_route.go:571-607 | The result is a permutation for every sequence of draws. |
| WeightedShuffle.SelectedIff | model/model_route.go:579-602 | Index i is taken if and only if the pick lies in (prefix weight i, prefix weight i+1]. |
| WeightedShuffle.SelectionShare | model/model_route.go:579-602 | As a share of the draw, that interval is exactly as long as the weight's share of the total. |
| WeightedShuffle.ZeroTakesHead | model/model_route.go:579-602 | A draw of 0 takes the head of the pool, even one without weight. |
| WeightedShuffle.PositivesFirstIff | model/model_route.go:571-607 | Attempts with weight come first if and only if no draw of 0 meets a weightless head before one with weight. |
| WeightedShuffle.InnerDrawsPutPositivesFirst | model/model_route.go:571-607 | With draws strictly inside (0,1) every positive attempt precedes every non-positive one. |
| WeightedShuffle.MisorderedExample | model/model_route.go:571-607 | A concrete pool and draw of 0 that misorder. |
| RoutePlan.GroupByPriority | model/model_route.go:290-301 | Priorities strictly decreasing, each with its candidates in order. |
| RoutePlan.Participates | model/model_route.go:309-328 | A route passes exactly with an enabled provider and token, a ready key, an eligible provider and no suppression past now. |
| RoutePlan.Weigh | model/model_route.go:343-357 | The contribution times the health multiplier, which is 1 without a metric and 0.0001 where it is not positive. |
| RoutePlan.BuildTier | model/model_route.go:303-357 | A tier is the shuffle of the eligible candidates of its priority, weighted against the tier's best score and by health; how is PlanShares.AttemptWeight. |
| RoutePlan.TierShape | model/model_route.go:303-357 | A tier holds each eligible candidate of its priority once, and is empty only if there is none. |
| RoutePlan.PlanProperties | model/model_route.go:290-365 | Groups are non-empty and strictly decreasing in priority, and the flattened plan is a permutation of exactly the eligible candidates. |
| RoutePlan.BuildRouteAttemptsByPriority | model/model_route.go:240-366 | The builder fails on a blank model, and otherwise exactly when no candidate is eligible; its plan is the specified one, with the shares PlanShares tells. |
| PlanShares.AttemptWeight | model/model_route.go:340-357 | In every plan an attempt weighs its route's weight plus 10, times the base factor plus the score factor at its part of the tier's best score, times its positive health multiplier. |
| PlanShares.HealthRatio | model/model_route.go:350-357 | Two attempts of a tier with the same weight and score contribute in the ratio of their health multipliers. |
| PlanShares.WeightRatio | model/model_route.go:820-848 | Two attempts of a tier with the same score and health contribute in the ratio of their weights plus 10. |
| PlanShares.BetterScoreMore | model/model_route.go:820-848 | With the same weight and health a better score never contributes less, and more once the score counts and the weight is above -10. |
| PlanShares.EveryPick | model/model_route.go:571-607 | The k-th attempt of a tier is picked from those not tried before it, as the one into whose part of (0,1) the tier's k-th draw falls, a part as long as its share of their contributions. |
| PlanShares.InPlanIff | model/model_route.go:309-328 | A route is planned if and only if it is a candidate with an enabled, eligible provider, an enabled token with a usable key, and no suppression past now. |
| Proxy.FirstInvalidMeaning | service/proxy.go:416-423 | The reason and category reported are those of the first broken or error line. |
| Proxy.SucceedsIff | service/proxy.go:519-590 | Over the raw answer: an attempt is served if and only if the status is below 400 and, under enforcement, some `data:` line, or the whole body read, has an actionable payload. |
| Proxy.StreamRowTells | service/proxy.go:441-509 | Over the raw lines: status, category and reason of a stream's row, from the end of reading, the first line that does not parse or is an error envelope, or the lack of an actionable payload. |
| Proxy.BodyRowTells | service/proxy.go:272-356 | The same for a whole body: not read, empty, unparsable, an error envelope, without output, or fine. |
| Proxy.OtherRowTells | service/proxy.go:130-241 | Without an answer, or with a status of 400 or above, the one row is a failure of its category with the upstream's status; an attempt that stops the retries has none. |
| Proxy.Context.LogUsage | service/proxy.go:877-944 | One row with status 0 exactly for an error message, the trimmed relay id or a legacy one, and the attempt number. |
| Proxy.ScanStream | service/proxy.go:371-436 | Commit happens exactly without enforcement or at a meaningful line, which SucceedsIff spells out; then every line scanned is sent, in order, and otherwise nothing. |
| Proxy.ProxyStreamResponse | service/proxy.go:358-509 | Returns no error if and only if it committed; an error has written nothing; exactly one row is logged, with what StreamRowTells says. |
| Proxy.ProxyNonStreamResponse | service/proxy.go:272-356 | Head and body are written exactly on success; an error has written nothing; exactly one row is logged. |
| Proxy.ProxyToUpstream | service/proxy.go:38-241 | Per attempt: success writes the whole answer, failure nothing, and only trouble on the gateway's own side is not retryable and not logged. |
| Proxy.BuildErrorMessage | service/proxy.go:1043-1058 | Error messages are never empty, start with the trimmed base, end with the note while both fit, and never exceed 20000 characters and the mark. |
| Proxy.RowTellsSuccessIff | service/proxy.go:441-474 | A row's status tells whether the attempt succeeded, except exactly for streams that broke off after the commit. |
| Proxy.BrokenStreamExample | service/proxy.go:441-474 | A meaningful line, then a read error: served to the client, logged as failed. |
| Relay.TryAttempt | controller/relay.go:64-95 | One attempt in its context: index, sticky resolved model, and outcome. |
| Relay.RunPlan | controller/relay.go:60-107 | The nested loop over the plan is a run: a prefix of the flattened plan, all but the last failing retryably, then one response. |
| Relay.Relay | controller/relay.go:17-108 | The handler: 403 for a model not allowed, 503 without a plan for the canonical or requested name, else a run; always one error or the whole output of one attempt that succeeded. |
| Relay.ExactlyOneResponse | controller/relay.go:64-107 | The client gets one error JSON and no attempt succeeded, or all of the last upstream's answer in order and no earlier one succeeded. |
| Relay.FirstSuccessIsServed | controller/relay.go:64-107 | The first attempt to succeed after retryable failures is the one served. |
| Relay.HigherTiersFailedFirst | controller/relay.go:64-107 | No attempt is made before every attempt of a higher priority has failed retryably. |
| Relay.ExhaustedTriesEverything | controller/relay.go:64-107 | A run that only failed retryably has tried every eligible candidate exactly once and answers 503. |
| Relay.RunRowsShape | service/proxy.go:909-944 | A run logs rows numbered from 1, one per attempt except one that ends the retries, and all but the last are failures. |
| Relay.LastRowTells | service/proxy.go:877-951 | The last row is a success exactly when the client was served a whole, unbroken answer. |
| Relay.RowsCarryRelayId | service/proxy.go:953-959 | Every row of a run carries the run's own trimmed id. |
| UsageLogs.SelectRequestRepresentative | model/usage_log.go:300-316 | The greatest success of a group, or without one the greatest attempt. |
| UsageLogs.CompareMeaning | model/usage_log.go:242-271 | The three-way comparison is the order by attempt index, then time, then id. |
| UsageLogs.SameRequestIff | model/usage_log.go:216-227 | Two rows are one request if and only if they have the same relay id, or, both without, the same request id, or, both without either, are the same row. |
| UsageLogs.RepresentativeUnique | model/usage_log.go:237-267 | The representative does not depend on the order of the rows. |
| UsageLogs.CollapseUsageLogsByRequest | model/usage_log.go:318-353 | The list holds the shown representative of every group key, as many rows as keys, newest first. |
| UsageLogs.OneRowPerRequest | model/usage_log.go:318-353 | As many rows as keys, and a row is listed exactly when it is the representative of a key. |
| UsageLogs.CollapseIgnoresOrder | model/usage_log.go:318-353 | Any order of the rows collapses to the same list. |
| UsageLogs.ShowRow | model/usage_log.go:342-345 | A representative is shown as it is, except for a made-up relay id where it has none. |
| UsageLogs.RunIsAGroup | model/usage_log.go:216-227 | In the whole log, the rows of a run, and no others, form the group of its relay id. |
| UsageLogs.RunShowsLastAttempt | model/usage_log.go:300-316 | In the whole log, in whatever order the rows of a relay run land, the row shown for its id is the run's last logged attempt. |
| UsageLogs.RunShownAsSuccessIff | model/usage_log.go:300-353 | In the whole log a run is shown as a success exactly when its client was served a whole, unbroken answer. |
| UsageLogs.SummarizeUsageLogs | model/usage_log.go:461-507 | Counts, sums, rounded mean latency and invalid rate of the rows; zeros without rows. |
| UsageLogs.RoundedMeanMeaning | model/usage_log.go:487-491 | The mean latency is the nearest integer, halves away from zero. |
| UsageLogs.SuccessCountIsRequests | model/usage_log.go:461-507 | The success count of the collapsed rows is the number of requests that hold a successful attempt. |
| SnapshotCache.InvAt | model/model_route_cache.go:68-116 | Lock, cache, build history, outcomes and writes keep their invariants at every state of every interleaving. |
| SnapshotCache.GetSeesFinishedWrites | model/model_route_cache.go:68-116 | A get that begins after a write has returned never hands out a part read before that write. |
| SnapshotCache.ServedIsExplained | model/model_route_cache.go:85-116 | A snapshot past its time is served if and only if that get's own rebuild failed, and never once something invalidated it; FailsIff says when a get fails instead. |
| SnapshotCache.FailsIff | model/model_route_cache.go:104-110 | A get fails if and only if its own rebuild gives up while no build stands: none was stored since the last invalidation. If one stands, that get returns it. |
| SnapshotCache.PeekServesIff | model/model_route_cache.go:86-95 | The first look serves the standing build if and only if it was less than 60 seconds old when the get began. |
| SnapshotCache.AcquireServesIff | model/model_route_cache.go:97-103 | Under the lock the standing build is served if and only if it is less than 60 seconds old at that moment; otherwise that get rebuilds. |
| SnapshotCache.StoreStands | model/model_route_cache.go:112-115 | A finished rebuild is stored, returned to its get, and stands. |
| SnapshotCache.InvalidatedForGood | model/model_route_cache.go:68-73 | Builds are only ever added, and none that stood before an invalidation stands after it. |
| SnapshotCache.PartReflectsIff | model/model_route_cache.go:118-200 | A part that a rebuild reads reflects a committed write if and only if the write came before the reading. |
| SnapshotCache.NoGetIsStuck | model/model_route_cache.go:85-116 | In every state an unfinished get can move, or waits for the one builder, which can. |
| SnapshotCache.BuildsAreApart | model/model_route_cache.go:97-114 | Two stored builds with no invalidation between them start at least 60 seconds apart: the double check prevents doubled work. |
| SnapshotCache.OneBuilder | model/model_route_cache.go:97-114 | At most one rebuild is under way, and it can always end and free the lock. |
| MetricCache.UniqueSortedInts | model/model_route_cache.go:503-518 | The distinct values, strictly increasing. |
| MetricCache.UniqueSortedStrings | model/model_route_cache.go:520-536 | The distinct trimmed non-blank names, strictly increasing. |
| MetricCache.BuildRoutingMetricCacheKey | model/model_route_cache.go:489-501 | The key depends only on the window, the token set and the trimmed name set. |
| MetricCache.KeyMeaning | model/model_route_cache.go:489-501 | For all queries: equal keys if and only if same window, same tokens and same comma-joined sorted names. |
| MetricCache.KeyIdentifiesQuery | model/model_route_cache.go:489-501 | For names without commas: equal keys if and only if the same query. |
| MetricCache.CommaNamesCollide | model/model_route_cache.go:489-501 | Two different queries with one key. |
| MetricCache.Cache.Peek | model/model_route_cache.go:375-395 | A hit is exactly an entry under the query's key that has not expired. |
| MetricCache.Cache.DeleteStale | model/model_route_cache.go:388-393 | Removes exactly the query's entry, keeping what the log says of the others. |
| MetricCache.Cache.Set | model/model_route_cache.go:397-413 | Stores the value for 15 seconds, drops what expired, evicts only when full, never more than 256 entries. |
| MetricCache.Cache.EvictIfNeeded | model/model_route_cache.go:471-478 | Makes room for one entry and removes none while there is room. |
| MetricCache.Cache.CleanupExpired | model/model_route_cache.go:455-461 | Removes exactly the expired entries, for any walk over the map. |
| MetricCache.Cache.Invalidate | model/model_route_cache.go:75-83 | Empties the cache. |
| MetricCache.HitIsLastStored | model/model_route_cache.go:375-413 | For all names, after any sequence of operations a hit is the value last stored for a query of the same window, tokens and joined names, at most 15 seconds ago, not deleted or invalidated since. |
| MetricCache.HitIsFresh | model/model_route_cache.go:375-413 | For names without commas, after any sequence of operations a hit is the value last stored for that very query, at most 15 seconds ago, not deleted or invalidated since. |
| RateLimiter.InMemoryRateLimiter.Request | common/rate-limit.go:46-70 | The answer is the one the trace so far demands, and every other key's queue stays. |
| RateLimiter.InMemoryRateLimiter.ClearExpiredItems | common/rate-limit.go:28-43 | A sweep, in any order over the keys, drops exactly the queues whose last accept is past the expiration. |
| RateLimiter.TraceInvariant | common/rate-limit.go:28-70 | After every interleaving the queue is the tail of the accept times, and lost times are displaced or expired. |
| RateLimiter.SlidingWindow | common/rate-limit.go:46-70 | A request is accepted if and only if fewer than the maximum accepts of its key lie less than the duration back. |
| RateLimiter.WindowBound | common/rate-limit.go:46-70 | No window of that length, wherever it starts, ever holds more accepts than the maximum. |
| RateLimiter.QueueBounded | common/rate-limit.go:46-70 | A queue never exceeds the maximum. |
| RateLimiter.SweepForgets | common/constants.go:68-69 | For every longer duration, a run in which a sweep forgets accepts that still count. |
| RateLimiter.ForgottenExample | common/rate-limit.go:28-43 | A limit of 1 in 62 seconds under an expiration of 60: a sweep lets a second request in. |
| RateLimiter.LimiterExactIff | common/constants.go:68-69 | The sliding-window law holds for all runs if and only if the duration is at most the expiration plus one second. |
| RateLimiter.PlainWindowIff | common/rate-limit.go:46-70 | With the maximum as given, the law holds for all runs if and only if it is at least 1 and the duration is at most the expiration plus one second. |
| RateLimiter.FirstRequestUnderZero | common/rate-limit.go:62-69 | Under a maximum of 0 the first request of a key gets in. |
| FailureAlert.AlertStore.Evaluate | service/notification.go:428-483 | The saved state and the notification are those of the provider's own evaluations, the other providers' states untouched, for evaluations that do not overlap. |
| FailureAlert.AlertStore.LogAttempt | service/proxy.go:944-950 | Insert and evaluate, in sequence, keep the evaluations those of the stored rows. |
| FailureAlert.FailureTestsAgree | model/usage_log.go:273-282 | On rows as logging writes them, the count's and the evaluation's notion of failure agree. |
| FailureAlert.FiresIff | service/notification.go:461-479 | An evaluation fires if and only if it is the first of its burst to reach the threshold. |
| FailureAlert.FiresOnce | service/notification.go:461-479 | At most one notification per burst of evaluations that do not overlap. |
| FailureAlert.BurstFiresIff | service/notification.go:461-479 | A burst notifies if and only if the count reaches the threshold somewhere in it. |
| FailureAlert.CountsOwnBurst | service/notification.go:444-449 | The count is the number of failures of the same burst inside the window: earlier bursts never count. |
| FailureAlert.BurstAlert | service/notification.go:439-493 | Both together, for every run of stored rows under a non-decreasing clock. |
| AlertOverlap.SerialIsSequential | service/notification.go:428-483 | Loads and saves that do not overlap leave the state of the evaluations made one after the other. |
| AlertOverlap.NotifiesOnceIff | service/proxy.go:944-950 | For every schedule of loads and saves in a burst: at most one notification, whatever the counts, if and only if no evaluation loads while another is under way. |
| AlertOverlap.OverlapNotifiesTwice | service/proxy.go:944-950 | For every schedule with an overlap there are counts under which the burst notifies twice. |
| AlertOverlap.TwiceExample | service/proxy.go:944-950 | Two failures that both find the threshold reached before either has saved. |
| BackupRetry.RetryBackoff | service/backup_core.go:234-249 | The doubling loop meets the closed form, and no product on the way exceeds 48 hours for bases up to 24 hours. |
| BackupRetry.CappedDoublingIff | service/backup_core.go:234-249 | The backoff is min(base * 2^k, 24h) if and only if there is a retry or the base is at most 24 hours. |
| BackupRetry.BackoffGrows | service/backup_core.go:234-249 | The backoff never shrinks from retry to retry. |
| BackupRetry.ProcessRow | service/backup_core.go:278-301 | The row written back is done, given up, or pending with one more failure and a later retry time. |
| BackupRetry.RetryQueue.Enqueue | service/backup_core.go:219-232 | A new pending row, first due one base after now; the other rows stay. |
| BackupRetry.RetryQueue.GetDue | model/backup_retry.go:36-46 | The first due rows by id, up to the limit (20 if not positive), and none skipped below the last. |
| BackupRetry.RetryQueue.ProcessBackupRetryQueue | service/backup_core.go:251-303 | A pass visits exactly the due list once each and leaves every other row, finished ones included, as it was; exactly the backup runs of uploaded rows become successes, and exactly their artifacts are removed. |
| BackupRetry.RetryAccount | service/backup_core.go:273-302 | Over any run of passes that do not overlap the status tells exactly how many uploads failed. |
| BackupRetry.FailuresBounded | service/backup_core.go:273-302 | Without overlap at most MaxRetries + 1 uploads fail, all of them exactly for a row given up; done exactly after a success. |
| BackupRetry.FinalIsAbsorbing | service/backup_core.go:273-302 | Without overlap no visit follows the one that finished a row. |
| BackupRetry.RetryTimeIncreases | service/backup_core.go:299-301 | Without overlap the retry time of a pending row strictly increases past every visit. |
| BackupRetry.VisitsAreSpaced | service/backup_core.go:299-301 | Without overlap a row rests for the n-th backoff after its n-th failure. |
| RetryOverlap.RowsAreIndependent | service/backup_core.go:273-302 | In every interleaving of passes over all rows, a row's state is that of the steps on it alone. |
| RetryOverlap.FinalStaysIff | service/backup_core.go:273-302 | Done or given up, a row keeps its status in every continuation if and only if no pass has a copy of it under way. |
| RetryOverlap.StatusKeptIff | service/backup_core.go:273-302 | Along every run, done stays exactly without a later failed upload, and given up exactly if every later upload fails without retries left. |
| RetryOverlap.FinalStaysInRunsIff | service/backup_core.go:251-303 | The same at any moment of any run from the enqueueing on. |
| RetryOverlap.StatusKeptInRunsIff | service/backup_core.go:251-303 | The same for the rest of any run, from any moment at which the row is done or given up. |
| RetryOverlap.FailuresAtMostIff | service/backup_core.go:292-298 | However the uploads under way end, failures stay within a bound if and only if failures and uploads under way together do. |
| RetryOverlap.FailuresBoundedIff | service/backup_core.go:292-298 | Over every run, at most MaxRetries + 1 uploads fail, however those under way end, if and only if every fetch came at failures plus uploads under way of MaxRetries or less. |
| RetryOverlap.RetryTimeIncreasesIff | service/backup_core.go:299-301 | However the uploads under way end, retry times increase if and only if at most one copy has retries left and its next time is past the stored one and those of the other copies. |
| RetryOverlap.RetryTimeIncreasesInRunsIff | service/backup_core.go:299-301 | The same at any moment of any run from the enqueueing on. |
| RetryOverlap.SerialRunsVisit | service/backup_core.go:251-303 | A run whose fetches never overlap is a sequence of visits to the row while it was due. |
| RetryOverlap.SerialRunsAreSafe | service/backup_core.go:251-303 | In such a run failures are counted, bounded, retry times in order, and final statuses safe. |
| RetryOverlap.OverlapLosesFinalStatus | service/backup_core.go:75-75 | Whole runs of two passes on an enqueued row: done to pending, done to given up, given up to done. |
| RetryOverlap.OverlapLosesFailures | service/backup_core.go:75-75 | Whole runs in which two failed uploads count as one, and two fail where one may. |
| RetryOverlap.OverlapTurnsTimeBack | service/backup_core.go:75-75 | A whole run in which a late write stores an earlier retry time. |
| ProviderTokens.StorageKeyIsFixed | model/provider_token.go:89-95 | A stored key is usable and stores as itself. |
| ProviderTokens.StoredIffUsable | model/provider_token.go:67-95 | A key is stored if and only if it is usable. |
| ProviderTokens.UsableIff | model/provider_token.go:62-87 | A key is usable if and only if, trimmed, it is neither blank, nor the bare prefix, nor masked. |
| ProviderTokens.StoredKey | model/provider_token.go:89-95 | A usable key is stored trimmed: as it is with the prefix, behind the prefix without. |
| ProviderTokens.ResolvedMeaning | model/provider_token.go:97-115 | What any writer stores for a key state: the key and ready, or no key, unresolved, and the reason given or found. |
| ProviderTokens.NormalizerFixpoints | model/provider_token.go:108-115 | The key-state normalizer lands in its normal form, and fixes exactly the states in normal form. |
| ProviderTokens.ProviderToken.MarkKeyReady | model/provider_token.go:139-143 | The key state becomes the stored form, ready, without reason. |
| ProviderTokens.ProviderToken.MarkKeyUnresolved | model/provider_token.go:145-149 | The key state becomes empty and unresolved, with a reason. |
| ProviderTokens.ProviderToken.PreserveReadyKeyFrom | model/provider_token.go:151-157 | A ready local key survives; otherwise nothing changes, and the answer tells which. |
| TokenSync.ReconcileProviderToken | service/sync.go:239-302 | One upstream token becomes the specified row, recovered from upstream, from the local key, or unresolved. |
| TokenSync.ReconciledReady | service/sync.go:239-302 | The row is ready if and only if upstream yields a usable key or the local row already had one. |
| TokenSync.SyncedRowTells | service/sync.go:181-302 | A synced row carries its provider's priority and weight, the listed group, status and limits, and the first usable key of the four sources, or why there is none. |
| TokenSync.TokenTable.Upsert | model/provider_token.go:265-287 | Replaces the row of the same provider and upstream id in place, keeping its id, or appends one; the rest stays. |
| TokenSync.TokenTable.DeleteNotInIds | model/provider_token.go:290-303 | Removes exactly the provider's rows that are not listed. |
| TokenSync.TokenTable.BackfillKeyState | model/provider_token.go:346-372 | Every row is normalized, and the answer tells whether any changed. |
| TokenSync.ReconcileProviderTokens | service/sync.go:304-333 | A pass over the table, whole, without its cleanup, or aborted at a token that cannot be read or stored; if it reports, ready + unresolved = total. |
| TokenSync.SyncedIdsAreListed | service/sync.go:304-333 | After a pass with cleanup the provider's local upstream ids equal the upstream list. |
| TokenSync.ListedTokensAreStored | service/sync.go:304-333 | After a whole pass over distinct tokens the table has a row for each, with those settings; a usable listed key is its key. |
| TokenSync.OtherProvidersUntouched | service/sync.go:304-333 | Rows of other providers are unchanged, in content and order. |
| TokenSync.ReadyWhileListed | service/sync.go:239-333 | Over any sequence of syncs of any providers, however each ends, a ready row stays ready while upstream still lists it. |
| TokenSync.PassesKeepNormal | model/provider_token.go:265-303 | Every row these writers leave is a fixpoint of the key-state normalizer. |
| TokenSync.SecondBackfillIdle | model/provider_token.go:346-372 | After one backfill and any syncs, a second backfill changes nothing. |
| TokenSync.FetchAllUpstreamTokens | service/sync.go:148-179 | The paging loop reads the pages in order until an error or the last page. |
| TokenSync.FetchedIds | service/sync.go:148-179 | A finished fetch has exactly the ids on the pages read, each once. |
| TokenSync.StillReadingIff | service/sync.go:148-179 | The loop is still reading if and only if no page so far is an error, blank, short under no total, or brings the distinct ids to its positive total. |
| TokenSync.TrueTotalEnds | service/sync.go:148-179 | Without errors the loop ends once a page announces no more than the distinct ids listed up to it. |
| TokenSync.PagingNeedNotEnd | service/sync.go:148-179 | A page repeated under a larger total keeps the loop reading for any number of pages. |
| TokenSync.PagingExample | service/sync.go:148-179 | One token under a total of two, again and again. |
| RouteRebuild.GroupModels | service/sync.go:498-508 | A group lists a model if and only if some price row grants it. |
| RouteRebuild.AllowedModels | service/sync.go:518-525 | The limit set admits exactly the models within the token's limits. |
| RouteRebuild.GenerateRoutes | service/sync.go:487-553 | Exactly one route per runnable token and granted model, with the token's defaults. |
| RouteRebuild.RouteTable.RebuildRoutesForProvider | model/model_route.go:1461-1507 | All or nothing: on success others' rows and one inserted row per route, on any fault the old table. |
| RouteRebuild.InsertBatches | model/model_route.go:1489-1500 | Batches of 50 insert every row exactly once, in order. |
| RouteRebuild.RebuildProviderRoutes | service/sync.go:487-553 | Generation and rebuild together, over the stored tokens and prices. |
| RouteRebuild.RebuiltTable | model/model_route.go:1461-1507 | Other providers' rows are unchanged and the provider's rows are the inserted ones. |
| RouteRebuild.GrantedRowExists | service/sync.go:487-553 | Every enabled token of the provider with a usable key has its row for each model priced for its group and within its limits. |
| RouteRebuild.NewRowSettings | service/sync.go:536-543 | A row rebuilt for a token and name without an old row is enabled and carries its token's priority and weight. |
| RouteRebuild.SettingsKeptIff | model/model_route.go:1461-1507 | The rebuilt table keeps admin-set enabled, priority and weight of every surviving (model, token) if and only if each such old row agrees with the last old row of its token and trimmed name. |
| RouteRebuild.SettingsKeptWithoutLaterChange | model/model_route.go:1461-1507 | So it does wherever no later old row of a regenerated name has other settings. |
| RouteRebuild.SettingsLostExample | model/model_route.go:1469-1481 | Two rows that differ in outer white space, of which one loses its settings. |
| RouteRebuild.MiddleRowExample | model/model_route.go:1469-1481 | A later row with other settings does no harm when an even later one restores them. |
| RouteRebuild.RebuildIdempotent | model/model_route.go:1461-1507 | A second rebuild yields the same rows up to their ids. |

## Left out

- Non-ASCII case folding and Unicode normalization: names fold by ASCII; white space is Go's `unicode.IsSpace`.
- Float rounding: arithmetic is over the reals, and `exp` enters only as a function with values in (0,1] for arguments at most 0.
- SQL, HTTP, gin contexts, headers, flushing, logging output and the parsing of requests: their results are inputs.
- gorm effects: `default:` tags and the skipping of zero fields on update; `Create` and `Updates` store the row as given.
- Balance freshness and `IsRouteEligibleAt`: a given boolean per provider at the time of planning.
- Unit costs, balances, recent usage and health samples per route: inputs of scoring and planning; their SQL aggregation is not modelled.
- JSON predicates on upstream payloads (error envelope, actionable output): a given judgement per payload.
- Usage metrics of an attempt (tokens, cost, latency): no part of what a relay run proves; the summary adds up given values.
- Provider health marks after an attempt: side effects on other tables.
- The pricing and token tables inside the snapshot: read like the other parts in SnapshotCache, not indexed in RouteIndex.
- FailureAlert.AlertStore.Evaluate: does not model a load and save with others in between; AlertOverlap does, with whatever counts the evaluations find.
- FailureAlert.AlertStore.LogAttempt: does not model inserts and evaluations of different attempts interleaving, since CountsOwnBurst is about sequential logging; AlertOverlap covers overlapping evaluations with whatever counts they find.
- MetricCache.Cache.Peek: does not model the copying of the stored map, since values here are immutable.
- Token names, quotas and the other metadata of a token row: copied verbatim by the sync.
- A store of one token row that fails halfway: a row is stored or not.
- BackupRetry.RetryQueue.ProcessBackupRetryQueue: does not model the run's remote path, error texts or the retention sweep, which are WebDAV and string plumbing.
- The backup scheduler, dumps, archives and WebDAV; the Redis limiter; sessions, users, options, CRUD handlers and the web front end: I/O, or easy.
