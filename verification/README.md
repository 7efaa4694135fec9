# Verified model of the trading back end's caches, memory, templates, sizing and indicators

This project models six components and proves properties of them over all inputs and all runs.

- `Redis.dfy`, `TaggedCache.dfy`, `TagCoverage.dfy`, `TagPrecision.dfy`, `TagCommands.dfy`: the
  cache service over a Redis key space.
  `Redis.Server` is the store and its clock; `TaggedCache.CacheService` performs each operation
  command by command and is proved equal to a function on the key space. `TagCoverage` studies
  runs of those functions: does each tag set still list, and outlive, the live keys that carry the
  tag? `TagPrecision` asks the converse, and `TagCommands` takes the operations apart into commands
  with other clients at work between them.
- `QuoteCache.dfy`, `QuoteRuns.dfy`, `QuoteGuarantees.dfy`: the two-level quote cache. `RealtimeQuoteCache` is one
  replica; `QuoteRuns` runs any number of replicas, with or without one shared second level, and
  `QuoteGuarantees` says which guarantees hold for which of these deployments. Quotes in
  a run carry their version (the position of their SetQuote) in place of prices, which the cache
  never inspects.
- `Ranking.dfy`, `StrategyMemory.dfy`, `MemoryRuns.dfy`: the bounded strategy memory, its top-n
  query, and its file. `MemoryRuns` takes file actions one at a time, with an error, a crash or a
  restart possible between any two.
- `EnvTemplate.dfy`, `EnvLaws.dfy`: `${NAME}` and `${NAME:default}` expansion. The pattern is a
  relation; a scanner and the rewriting are proved against it.
- `LotSizing.dfy`: lot sizes on a 0.01 grid under a risk budget.
- `Indicators.dfy`, `Macd.dfy`, `MacdCrossings.dfy`: the three seeded strategies.

Time is an integer and one clock serves all processes. In quote runs a set writes its first level
and, a lag later, the second level; a process that restarts with an empty first level counts as one
more replica. Prices, scores and lots are exact reals.

Where the code and its documentation or expectations differ, the code is modelled:

- The docstring of `kelly_size` gives W/|L| - (1-W)/W; the code divides the loss rate by the average win.
- A minimum lot may cost more than the risk budget, and may exceed `max_lot`: `MinimumLotOverruns`
  gives inputs, `BestLotBudget` says exactly when.
- A flat market makes the RSI 100, so the RSI strategy sells, mirrored or not.
- A sweep rewrites a shortened tag set without a deadline.
- A maximum entry count of 0 does not bound the memory, and is the only one that does not
  (`MemoryIsBounded`): 0 never evicts, and under a negative count the memory never grows.
- A tag whose writes use different times to live can lose keys from its index; `WriteKeepsCoverage`
  gives the exact condition and `ShorterTtlLosesKey` a run. With one time to live per tag it still
  can when time passes inside a write (`SlowTaggingCovers`, `SlowTaggingLosesKey`).
- Invalidating a tag can remove a live key that does not carry it, one written again without the tag
  (`RewriteLeavesListing`); `PrecisionOverRuns` gives the exact condition.
- Expanding twice can differ from expanding once (`SecondExpansionDiffers`). The inert values are
  exactly those for which it does not, in every template and under every later environment
  (`InertIsIdempotent`).
- A quote can be served after the ttl given to SetQuote, because a refill from the second level
  starts a lifetime of its own (`RefillOutlivesTtl`). It cannot exactly without a second level, or
  with one replica whose sets reach the second level at once (`HitsWithinTtl`). With any lag even
  one replica can be late: its second level outlasts its first (`LoneRefillOutlivesTtl`).
- The MACD strategy compares the previous line with the current signal line, and takes the signal
  line from the last 18 history entries only. It acts at every crossing of the two lines exactly up
  to 44 prices (`CrossingsAreCaught`, `CrossingIsMissed`), and with any number of prices it can act
  where they do not cross (`ActsWithoutCrossing`).

## Model

| member | source | states |
|---|---|---|
| `TaggedCache.KeyTexts` | backend/internal/cache/cache_service.go:169-295 | the key texts that the server sees, with and without a category, and of a tag |
| `TaggedCache.BuildKeyCollides` | backend/internal/cache/cache_service.go:290-295 | (key, category) pairs share a Redis key exactly when their joined names agree; within one category keys are distinct |
| `TaggedCache.PrefixesAreDisjoint` | backend/internal/cache/cache_service.go:169-170 | no key is both a data key and a tag key |
| `TaggedCache.TaggedItems` | backend/internal/cache/cache_service.go:167-180 | tagging changes exactly the named tag sets: each gains the key and takes the new deadline |
| `TaggedCache.CacheService.Set` | backend/internal/cache/cache_service.go:65-88 | one data key gets the value and deadline, nothing else changes, the key space stays well typed |
| `TaggedCache.CacheService.Get` | backend/internal/cache/cache_service.go:90-110 | the value under the full key, or a miss |
| `TaggedCache.CacheService.Exists` | backend/internal/cache/cache_service.go:149-159 | true exactly when the full key is live |
| `TaggedCache.CacheService.Delete` | backend/internal/cache/cache_service.go:112-121 | exactly the full key goes |
| `TaggedCache.CacheService.SetWithTags` | backend/internal/cache/cache_service.go:161-183 | the loop of SADD and EXPIRE commands has the effect that TaggedItems and the coverage lemmas are about |
| `TaggedCache.CacheService.AddTag` | backend/internal/cache/cache_service.go:168-180 | one round: the key joins one tag set, whose deadline is replaced |
| `TaggedCache.CacheService.InvalidateByTag` | backend/internal/cache/cache_service.go:185-213 | the commands remove the members and the set, or nothing when the set reads empty |
| `TaggedCache.CacheService.CleanTag` | backend/internal/cache/cache_service.go:250-281 | one round of the scan sweeps exactly one tag key |
| `TaggedCache.CacheService.ExistingKeys` | backend/internal/cache/cache_service.go:257-264 | finds exactly the live members; all were live exactly when none is missing from the list |
| `TaggedCache.CacheService.Cleanup` | backend/internal/cache/cache_service.go:244-284 | any scan order, with repeats and stale names, gives the same swept key space |
| `TaggedCache.SweepStep` | backend/internal/cache/cache_service.go:250-281 | sweeping one more tag key, or one swept before, only adds it to the swept ones |
| `TagCoverage.Perform` | backend/internal/cache/cache_service.go:65-284 | each operation of the service, performed command by command, is the step of a run that the lemmas are about |
| `TagCoverage.StepIsSound` | backend/internal/cache/cache_service.go:161-284 | every operation and clock tick keeps the key space typed and free of expired keys |
| `TagCoverage.WriteKeepsCoverage` | backend/internal/cache/cache_service.go:161-183 | a tagged write keeps the index covering exactly when no other live carrier of its tags has a later deadline |
| `TagCoverage.OtherStepsKeepCoverage` | backend/internal/cache/cache_service.go:112-284 | delete, invalidate, sweep and the passing of time never lose coverage |
| `TagCoverage.StepCovers` | backend/internal/cache/cache_service.go:112-284 | the same tag by tag: one tag stays covered exactly when no write of it undercuts a live carrier, whatever the state of the others |
| `TagCoverage.CoverageOverRuns` | backend/internal/cache/cache_service.go:161-284 | from any state that covers a tag, every state of a run covers it exactly when every write of the tag keeps deadlines, whatever happens to other tags |
| `TagCoverage.OneTtlPerTagCovers` | backend/internal/cache/cache_service.go:161-183 | one time to live for a tag keeps it covered in every reachable state |
| `TagCoverage.InvalidateIsCompleteAndFramed` | backend/internal/cache/cache_service.go:185-213 | afterwards no live key carries the tag exactly when the set listed every carrier, as coverage gives; other keys and tag sets are untouched |
| `TagCoverage.CleanupIsSound` | backend/internal/cache/cache_service.go:244-284 | data untouched, surviving sets nonempty and equal to their live part, with their deadline exactly when no reference was dead and with none otherwise; a second sweep changes nothing |
| `TagCoverage.CleanupThenInvalidate` | backend/internal/cache/cache_service.go:185-284 | an invalidation removes the same data whether or not a sweep came first |
| `TagCoverage.ShorterTtlLosesKey` | backend/internal/cache/cache_service.go:178-213 | a run with two times to live for one tag after which the invalidated tag still has a live carrier |
| `TagPrecision.StepPrecise` | backend/internal/cache/cache_service.go:161-284 | a step keeps a tag set free of live keys that do not carry the tag exactly when it is no write that takes the tag from a listed key |
| `TagPrecision.PrecisionOverRuns` | backend/internal/cache/cache_service.go:161-284 | the same for every state of a run |
| `TagPrecision.AgreeingWritesArePrecise` | backend/internal/cache/cache_service.go:161-183 | if all writes of a key agree about a tag, its set lists no live key without the tag in any reachable state |
| `TagPrecision.InvalidateIsExact` | backend/internal/cache/cache_service.go:185-213 | an invalidation removes exactly the carriers of its tag exactly when the set lists all of them and no other live key |
| `TagPrecision.InvalidateIsExactOverRuns` | backend/internal/cache/cache_service.go:161-284 | with one time to live for a tag and writes that agree about it, every invalidation at any point of any run removes exactly the carriers |
| `TagPrecision.RewriteLeavesListing` | backend/internal/cache/cache_service.go:161-213 | a key written again without the tag is removed all the same |
| `TagCommands.DropKeysCovers` | backend/internal/cache/cache_service.go:201 | the first delete of an invalidation costs no tag its coverage |
| `TagCommands.DropSetCovers` | backend/internal/cache/cache_service.go:210 | the delete of a tag set, in whatever state it finds, leaves its tag covered exactly when no live carrier is left; other tags are not affected |
| `TagCommands.AddMembersCovers` | backend/internal/cache/cache_service.go:278 | SADD, in whatever state it finds, covers the tag exactly when every live carrier is then listed and the deadline the set has by then outlasts it |
| `TagCommands.ExpireSetCovers` | backend/internal/cache/cache_service.go:178 | EXPIRE, in whatever state it finds, covers the tag exactly when every live carrier is listed and the new deadline outlasts it |
| `TagCommands.WriteIsItsCommands` | backend/internal/cache/cache_service.go:161-183 | without delay SET, SADD and EXPIRE make up a write with one tag |
| `TagCommands.LateInvalidateKeepsCoverage` | backend/internal/cache/cache_service.go:188-210 | whatever runs before and between the two deletes, the invalidated tag is covered afterwards exactly when no live carrier is left at the second |
| `TagCommands.LateInvalidateAndOtherTags` | backend/internal/cache/cache_service.go:188-210 | any other tag stays covered from the first delete to the end exactly when every write of it in between keeps deadlines |
| `TagCommands.SlowInvalidateIsComplete` | backend/internal/cache/cache_service.go:185-213 | operations may run after the member read and between the deletes: no live carrier of a covered tag survives unless the tag is written meanwhile |
| `TagCommands.LateSweepKeepsCoverage` | backend/internal/cache/cache_service.go:252-280 | whatever runs before and between the delete and the re-add, the swept tag is covered afterwards exactly when each live carrier was found or listed since and is outlasted by the deadline the set has got since |
| `TagCommands.SlowSweepKeepsCoverage` | backend/internal/cache/cache_service.go:252-280 | operations may run between member read, lookups, delete and re-add: a covered tag stays covered unless the tag is written meanwhile |
| `TagCommands.SlowTaggingCovers` | backend/internal/cache/cache_service.go:167-180 | with a delay between SADD and EXPIRE the tag is covered afterwards exactly when no carrier is left, or the set found survives the delay and its new deadline outlasts each carrier |
| `TagCommands.LateInvalidateLosesKey` | backend/internal/cache/cache_service.go:188-210 | a write landing inside an invalidation is live, carries the tag and is not indexed |
| `TagCommands.SlowTaggingLosesKey` | backend/internal/cache/cache_service.go:167-180 | with one time to live for the tag, a unit of delay between SADD and EXPIRE leaves a key unindexed for its whole life |
| `QuoteCache.UuidTextIs` | backend/internal/cache/quote_cache.go:98-104 | the text form of a UUID digit by digit (section 4 of RFC 9562) |
| `QuoteCache.UuidTextInjective` | backend/internal/cache/quote_cache.go:98-104 | different UUIDs have different text forms |
| `QuoteCache.QuoteKeyTexts` | backend/internal/cache/quote_cache.go:98-104 | the keys of a quote in both levels in full |
| `QuoteCache.KeysInjective` | backend/internal/cache/quote_cache.go:98-104 | both key builders separate all (account, symbol) pairs, whatever the symbol contains |
| `QuoteCache.RealtimeQuoteCache.GetQuote` | backend/internal/cache/quote_cache.go:60-82 | the map operations give the lookup that the run theorems are about, with and without a second level |
| `QuoteCache.RealtimeQuoteCache.SetQuote` | backend/internal/cache/quote_cache.go:84-96 | both levels take the quote with the same lifetime, the second one from a lag later; a nil quote changes nothing |
| `QuoteRuns.SetKeepsInv` | backend/internal/cache/quote_cache.go:84-96 | a set keeps all entry, freshness and order invariants of every replica |
| `QuoteRuns.GetKeepsInv` | backend/internal/cache/quote_cache.go:60-82 | so does a lookup, including its refill and lazy eviction |
| `QuoteRuns.TickKeepsInv` | backend/internal/cache/quote_cache.go:64-71 | so does the passing of time |
| `QuoteRuns.GetIsInOrder` | backend/internal/cache/quote_cache.go:60-82 | an answer is at least as new as every earlier answer to the same reader |
| `QuoteGuarantees.MonotonicReads` | backend/internal/cache/quote_cache.go:60-96 | over any run, the versions one replica reads for a pair never go backwards |
| `QuoteGuarantees.HitsAreFresh` | backend/internal/cache/quote_cache.go:60-96 | in every deployment a hit is a quote of the symbol asked for, set under that account; it comes before set time + lag + ttl + 500 ms, and at most 500 ms after it was superseded unless set time + lag + ttl is still to come |
| `QuoteGuarantees.HitsWithinTtl` | backend/internal/cache/quote_cache.go:60-96 | every hit of every run comes within the ttl given to SetQuote exactly without a second level, without replicas, or with one replica and no lag between the levels |
| `QuoteGuarantees.HitsAreLatest` | backend/internal/cache/quote_cache.go:60-96 | every hit of every run is the latest set exactly with at most one replica, whatever the lag |
| `QuoteGuarantees.MissMeansExpired` | backend/internal/cache/quote_cache.go:60-96 | every miss of every run means that the last set has expired exactly with a second level or at most one replica, whatever the lag |
| `QuoteGuarantees.GetReadsOwn` | backend/internal/cache/quote_cache.go:60-82 | a replica without a second level, or a lone one without lag, answers from its first level only: there is never anything to refill |
| `QuoteGuarantees.SecondReplicaReadsStale` | backend/internal/cache/quote_cache.go:62-69 | with two replicas a hit need not be the latest set |
| `QuoteGuarantees.SecondReplicaMissesLive` | backend/internal/cache/quote_cache.go:72-74 | with two replicas and no second level a miss need not mean that anything expired |
| `QuoteGuarantees.RefillOutlivesTtl` | backend/internal/cache/quote_cache.go:76-77 | a run of two replicas in which a refill serves a quote set for 10 ms after 508 ms |
| `QuoteGuarantees.LoneRefillOutlivesTtl` | backend/internal/cache/quote_cache.go:89-95 | a run of one replica in which a lag of 1 ms lets a quote set for 10 ms be served at its end |
| `Ranking.RankIsRanking` | strategy-service/app/memory.py:83 | the ranking is a sorted arrangement of all indices, ties by insertion |
| `Ranking.RankIsUnique` | strategy-service/app/memory.py:83 | there is only one, so any stable reverse sort returns it |
| `Ranking.TopIndicesExact` | strategy-service/app/memory.py:83 | for any n the slice selects so many distinct indices, best first, and nothing left out beats a chosen one |
| `Ranking.TopHitsScores` | strategy-service/app/memory.py:83-96 | for any n that selects something: one hit per chosen index with its entry, scores in proportion to the best one, which is 1, or unscaled if it is 0 |
| `Ranking.TopHitsExact` | strategy-service/app/memory.py:83-96 | scores that are not negative are scaled into [0, 1] and descend |
| `Ranking.TopHitsFails` | strategy-service/app/memory.py:83-86 | the maximum of nothing is taken exactly for n = 0 or n <= -size |
| `StrategyMemory.EvictionIsExact` | strategy-service/app/memory.py:62-65 | the slices keep the last MAX entries exactly for MAX >= 1, or when a negative MAX skips everything |
| `StrategyMemory.StrategyMemory.constructor` | strategy-service/app/memory.py:43-50 | a start holds exactly the entries of the main file, lists aligned, index built from them |
| `StrategyMemory.StrategyMemory.Load` | strategy-service/app/memory.py:138-149 | the appending loop rebuilds the saved entries in order |
| `StrategyMemory.StrategyMemory.RebuildIndex` | strategy-service/app/memory.py:115-120 | the index exists exactly when there are documents, built from the current ones |
| `StrategyMemory.StrategyMemory.Save` | strategy-service/app/memory.py:122-136 | what each interrupted or completed save leaves in the two files |
| `StrategyMemory.StrategyMemory.Record` | strategy-service/app/memory.py:56-68 | the three lists stay aligned and show the evicted log; index and file follow |
| `StrategyMemory.StrategyMemory.Clear` | strategy-service/app/memory.py:101-106 | everything goes, and the empty log is saved |
| `StrategyMemory.StrategyMemory.Query` | strategy-service/app/memory.py:70-96 | the loop returns the top hits over the current records by the scores of their situations, or nothing without an index |
| `MemoryRuns.SaveIsItsActions` | strategy-service/app/memory.py:122-136 | a save in one call is the sequence of file actions that the runs interleave with failures |
| `MemoryRuns.FilesChangeInOrder` | strategy-service/app/memory.py:122-136 | a save is begun by a record or clear only; then the draft is opened, finished with the whole memory and renamed, and nothing else changes a file |
| `MemoryRuns.FilesStaySound` | strategy-service/app/memory.py:132-134 | a draft about to be renamed is always the whole memory, so a torn main file is only ever one found at the start |
| `MemoryRuns.RecordRefines` | strategy-service/app/memory.py:56-65 | evicting from a view of the history gives the last entries of the longer history |
| `MemoryRuns.MemoryRefinesHistory` | strategy-service/app/memory.py:56-149 | from any main file, parsing or not, memory and file refine the unbounded history across errors, crashes and restarts |
| `MemoryRuns.RecordIsExact` | strategy-service/app/memory.py:56-68 | right after a record the memory is exactly the last MAX of everything since the last clear or load |
| `MemoryRuns.MemoryIsBounded` | strategy-service/app/memory.py:62-65 | over every run from every file the memory stays within what was loaded or MAX, whichever is larger, exactly when MAX is not 0 |
| `MemoryRuns.ZeroKeepsEverything` | strategy-service/app/memory.py:62-65 | with MAX = 0 memory and file are the whole unbounded history |
| `MemoryRuns.MainIsLastSnapshot` | strategy-service/app/memory.py:122-136 | the main file is the complete contents of memory at the last rename, whatever failed around it |
| `MemoryRuns.RestartRebuildsSnapshot` | strategy-service/app/memory.py:138-149 | a restart rebuilds exactly that snapshot; nothing is lost if the last save went through |
| `EnvTemplate.HeadIffMatch` | backend/internal/config/config.go:159 | the scanner finds exactly what the pattern allows, so at most one match starts at a position |
| `EnvTemplate.CallbackSeesGroups` | backend/internal/config/config.go:162-175 | matching the matched text again gives the same name and default |
| `EnvTemplate.ExpandIsLeftmost` | backend/internal/config/config.go:161-177 | replacing any leftmost, non-overlapping choice of matches gives the expansion |
| `EnvTemplate.LeftmostExists` | backend/internal/config/config.go:161-162 | every text has such a choice |
| `EnvLaws.ExpandInvertsRender` | backend/internal/config/config.go:161-177 | expanding the rendered text of a template is direct substitution, empty values falling back to the default |
| `EnvLaws.ValueFollowsEnvironment` | backend/internal/config/config.go:167-175 | only nonempty settings of the variable itself count; an empty setting is no setting, and then the default decides |
| `EnvLaws.HeadIffOpens` | backend/internal/config/config.go:159 | a match starts exactly at an opening that is not spoiled at once and is closed later |
| `EnvLaws.InertValuesLeaveQuiet` | backend/internal/config/config.go:161-177 | inert values leave no match, whatever unmatched openings the text contains |
| `EnvLaws.FinalIffQuiet` | backend/internal/config/config.go:161-177 | a text is left alone by every environment exactly when nothing in it matches |
| `EnvLaws.ExpandIsIdempotent` | backend/internal/config/config.go:161-177 | expanding twice is expanding once when every value put in is inert |
| `EnvLaws.PlainValuesAreInert` | backend/internal/config/config.go:172-175 | nonempty values without dollar signs and opening braces are inert |
| `EnvLaws.InertIsExact` | backend/internal/config/config.go:161-177 | exactly the inert values leave nothing to expand in any template they go into |
| `EnvLaws.InertIsIdempotent` | backend/internal/config/config.go:161-177 | exactly for the inert values does expanding any template twice, the second time under any environment, equal expanding it once |
| `EnvLaws.SecondExpansionDiffers` | backend/internal/config/config.go:161-177 | an empty value closes the text around it up to a new variable, and a second expansion under the same environment removes it |
| `LotSizing.GridFloor` | strategy-service/app/risk_sizing.py:29 | rounding gives the greatest multiple of the step below the size |
| `LotSizing.RoundLotMonotone` | strategy-service/app/risk_sizing.py:25-30 | rounding and clamping keep the order of sizes |
| `LotSizing.BestLotIsUnique` | strategy-service/app/risk_sizing.py:25-92 | what counts as the best lot leaves no choice |
| `LotSizing.LotForIsBest` | strategy-service/app/risk_sizing.py:87-92 | for any money and price per lot: an error at price 0, nothing at a negative price, else the best lot of the 0.01 grid up to 100 lots and max_lot, or the minimum lot if that is more |
| `LotSizing.BestLotBudget` | strategy-service/app/risk_sizing.py:87-92 | exactly when the lot stays within the budget, and within max_lot and 100 lots |
| `LotSizing.RiskSizeIsBest` | strategy-service/app/risk_sizing.py:68-92 | for all arguments: 0 if a guard fails, an error if a divisor is 0, else the best lot for equity * risk_pct * (1 - 2 * commission_rate) at (distance to the stop) * contract_size a lot |
| `LotSizing.RiskSizeBudget` | strategy-service/app/risk_sizing.py:68-92 | its loss at the stop is at most that money or that of the minimum lot, with the exact condition |
| `LotSizing.MinimumLotOverruns` | strategy-service/app/risk_sizing.py:68-92 | inputs whose minimum lot loses ten times the budget, and exceeds max_lot |
| `LotSizing.AtrSizeIsBest` | strategy-service/app/risk_sizing.py:125-138 | for all arguments: the minimum lot without a positive ATR, else the best lot at atr_value * atr_multiplier * contract_size a lot, or an error if that is 0 |
| `LotSizing.AtrRefinesRisk` | strategy-service/app/risk_sizing.py:125-138 | atr_size is risk_size with the stop at atr_value * atr_multiplier on either side of the entry |
| `LotSizing.RiskSizeIsMonotone` | strategy-service/app/risk_sizing.py:68-92 | grows with equity and risk, shrinks with stop distance and commission |
| `LotSizing.AtrSizeIsMonotone` | strategy-service/app/risk_sizing.py:125-138 | the same for atr_size |
| `LotSizing.KellySizeIsBest` | strategy-service/app/risk_sizing.py:173-190 | for all arguments: the minimum lot if a guard fails or nothing is staked, else the best lot for equity * kelly_fraction * expected gain at current_price * contract_size * avg_win * avg_loss a lot, or an error if the price is 0 |
| `LotSizing.KellyEdgePositive` | strategy-service/app/risk_sizing.py:176-177 | the edge is positive exactly when the expected gain is |
| `LotSizing.KellySizeIsMonotone` | strategy-service/app/risk_sizing.py:173-190 | grows with win rate, average win, fraction and equity, shrinks with average loss |
| `Indicators.MeanAffine` | backend/cmd/seed_strategy_templates/main.go:143-146 | the mean follows scaling and shifting of prices |
| `Indicators.DoubleAverageIs` | backend/cmd/seed_strategy_templates/main.go:132-158 | for all prices: the exact report, a buy or sell being the newer ten prices against the ten before them, now and one price earlier, as plain sums |
| `Indicators.DoubleAverageTurns` | backend/cmd/seed_strategy_templates/main.go:132-158 | the double-average signal is kept by scaling and shifting and swapped by mirroring |
| `Indicators.DoubleAverageSense` | backend/cmd/seed_strategy_templates/main.go:143-154 | a buy needs the newest price and the one 20 before to average above the one 10 before, a sell below |
| `Indicators.RelativeStrengthIs` | backend/cmd/seed_strategy_templates/main.go:185-228 | for all prices: the exact report, with the thresholds on the sums of the rises and of the falls among the last 15 prices |
| `Indicators.StrengthIs` | backend/cmd/seed_strategy_templates/main.go:189-194 | the index is the share of average gain in gain plus loss, in percent, with or without losses |
| `Indicators.StrengthReflects` | backend/cmd/seed_strategy_templates/main.go:189-194 | exchanging gains and losses reflects the index about 50, scaling keeps it |
| `Indicators.NetChange` | backend/cmd/seed_strategy_templates/main.go:186-190 | average gain minus average loss is the net price change of the window per period |
| `Indicators.RelativeStrengthSense` | backend/cmd/seed_strategy_templates/main.go:189-213 | outside a flat window, a buy is losses beyond 7/3 of gains and a sell the reverse |
| `Indicators.RsiTurns` | backend/cmd/seed_strategy_templates/main.go:185-194 | the index is kept by positive scaling and reflected by mirroring unless the window is flat |
| `Indicators.FlatMarketSells` | backend/cmd/seed_strategy_templates/main.go:191-213 | without any change in the window the RSI strategy sells |
| `Indicators.RelativeStrengthTurns` | backend/cmd/seed_strategy_templates/main.go:196-228 | the RSI signal follows a change of prices exactly when direction is kept, data are short or the window is not flat |
| `Macd.Ema` | backend/cmd/seed_strategy_templates/main.go:244-249 | the loop computes the average that the laws are about |
| `Macd.EmaRecurrence` | backend/cmd/seed_strategy_templates/main.go:244-249 | one more price weighs 2 against the average's period - 1, over period + 1 |
| `Macd.EmaBetween` | backend/cmd/seed_strategy_templates/main.go:244-249 | for period >= 1 the average stays between any bounds of the prices |
| `Macd.EmaBoundsExact` | backend/cmd/seed_strategy_templates/main.go:244-249 | it does so for all prices exactly when the period is at least 1 |
| `Macd.EmaAffine` | backend/cmd/seed_strategy_templates/main.go:244-249 | the average follows scaling and shifting of prices |
| `Macd.FasterIsCloser` | backend/cmd/seed_strategy_templates/main.go:244-249 | while prices never fall, a shorter period stays above a longer one and both below the last price |
| `Macd.RunMacd` | backend/cmd/seed_strategy_templates/main.go:252-287 | the loop over prefixes reports the action that MacdTurns is about |
| `Macd.HistoryEndsInLine` | backend/cmd/seed_strategy_templates/main.go:262-271 | the last history entry is the current MACD line |
| `Macd.HistoryAffine` | backend/cmd/seed_strategy_templates/main.go:267-271 | the history scales with the prices and ignores shifts |
| `Macd.MacdIs` | backend/cmd/seed_strategy_templates/main.go:252-287 | for all prices: the exact report in averages of 12, 26 and 9 and a window of 18 |
| `Macd.MacdTurns` | backend/cmd/seed_strategy_templates/main.go:252-287 | the MACD signal is kept by scaling and shifting and swapped by mirroring |
| `MacdCrossings.MacdSense` | backend/cmd/seed_strategy_templates/main.go:262-284 | a buy comes exactly when the line rises through the signal line of the current window, or when the previous line was above that signal line but not above where it has moved; sells mirror this; the line is not negative while prices never fall |
| `MacdCrossings.StartFades` | backend/cmd/seed_strategy_templates/main.go:244-249 | averages that go on over the same prices approach each other by the factor 1 - multiplier a price |
| `MacdCrossings.SignalBeforeIsPrevious` | backend/cmd/seed_strategy_templates/main.go:265-273 | the earlier signal line of that window is the one computed at the previous price up to 18 history entries, and differs afterwards by the fading rest of the entry that left the window |
| `MacdCrossings.RealisedHistory` | backend/cmd/seed_strategy_templates/main.go:262-271 | every sequence is the history of some prices, so the witnesses below are price series |
| `MacdCrossings.CrossingsAreCaught` | backend/cmd/seed_strategy_templates/main.go:262-284 | for n >= 38 prices, the strategy buys at every upward and sells at every downward crossing of line and signal line, each as computed at its own price, exactly for n <= 44 |
| `MacdCrossings.CrossingIsMissed` | backend/cmd/seed_strategy_templates/main.go:273-284 | for every n >= 45, prices at which the lines cross up, or down, and the strategy holds |
| `MacdCrossings.ActsWithoutCrossing` | backend/cmd/seed_strategy_templates/main.go:273-284 | for every n >= 38, prices at which it buys, or sells, where the lines do not cross |

## Left out

- Redis transport, contexts, timeouts, logging, `GetStats`, `Warmup`, `Close`: each command succeeds and takes effect at one instant.
- The scan cursor of `Cleanup`: its order, repeats and stale names are free, but it yields every tag key present at the start, as Redis guarantees.
- Failed commands: the ignored errors of `SetWithTags` and `Cleanup`, and a failed second-level write of `SetQuote`.
- `DeletePattern`: it depends on Redis glob matching, which is not part of this model.
- JSON and protobuf encoding: decoding an encoded value gives the value back.
- Times to live that are not positive whole numbers of the time unit: SET and EXPIRE treat them differently.
- Interleaving in whole cache runs: operations take effect one after another. `TagCommands` studies other operations inside one invalidation, one sweep and one tagging; several slow operations inside each other are not combined.
- Quote operations interleaved inside one another: each lookup is one step of a run, and so is each set together with its lag.
- Values kept by other users of the Redis server: keys without either prefix are unconstrained.
- BM25 scores and tokens: a scorer that returns one score per document is a parameter.
- Main files edited by hand so that single entries are malformed; a file that does not parse at all loads as empty.
- Default arguments of the sizing functions: every argument is passed.
- `build_situation_key` and `build_advice_text`: text formatting.
- Invalid UTF-8 in configuration text: strings are sequences of characters.
- YAML parsing and the global configuration set by `Load`.
- Rounding of floating-point arithmetic in sizing, scores and indicators: exact reals.
- The confidence, reason, risk level and rounded figures of strategy reports: constants and formatting.
- The template seeding commands, agents, adapters, services and user interface: plumbing and I/O.
