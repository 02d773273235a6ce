# Verified model of kalshi-whale-poc's stateful services

A Dafny model of the services that hold state in this paper-trading application, with proofs of what
each keeps over whole runs. Components whose source updates state in place are classes whose methods
are proved against a specification function; the properties are lemmas about those functions and about
every sequence of their steps. SQLite tables are maps or sequences, and a transaction is one atomic
step. Money, prices and clocks are exact reals.

| module | models |
|---|---|
| `InsertStore`, `UpsertStore`, `Batches` | the buffered writer of `services/capture_writer.py`: any number of submitting and flushing threads over one insert-mode or upsert-mode store |
| `CandidateLog` | the settlement pass, gate counts and unit-cost bands of `services/candidate_log.py` |
| `FaultLog`, `FaultSummary` | the deduplicating table of `services/fault_log.py`, its one-time merge run by many connections at once, and its windowed summary |
| `TokenBucket`, `HttpCalls` | the rate limiter and the retry accounting of `services/http_client.py` |
| `RetryQueue`, `CandidateLedger` | the retry protocol of `services/candidate_retry.py`, with enqueues interleaved at every await, and the claim gate of `services/candidate_ledger.py` |
| `SeriesEvaluator` | the verdict machine of `services/series_evaluator.py` |
| `KalshiFees` | fees, unit cost and exit quotes of `services/kalshi_fees.py` |
| `RiskManager`, `TradingHalt` | the kill switch of `services/risk_manager.py`, alone and in front of the broker |
| `Ledger`, `LimitOrders`, `Corrections`, `Equity`, `Restart`, `TradeHistory`, `PaperBroker` | the paper account of `services/paper_broker.py`, and the pairing of its log in `services/history/trade_analytics.py` |
| `LatencyAgg` | the bucketed 95th percentile of `services/latency_agg.py` |
| `Wrappers`, `MapSums`, `Reals` | shared helpers |

## Where the code and its description part

Each of these is a claim the source makes in a comment or docstring that the code meets only under a
condition. The condition is proved, as an equivalence where that says more.

- "Arrival order survives the retry" (`services/capture_writer.py:366`): true while flushes do not overlap
  (`InsertStore.ArrivalOrderSurvives`); two overlapping lock failures under the cap restore the order
  exactly when the later taker hands its batch back first or the two batches are alike in either order
  (`InsertStore.OverlappingRetainsOrder`).
- The upsert store's latest value wins: two overlapping flushes keep it exactly when every shared key is
  resolved or carries the same values (`UpsertStore.OverlapKeepsLatest`). A settlement pass whose flush
  did not commit gives the synchronous answer exactly when every pending row of a settling ticker is moot
  (`UpsertStore.PendingRowsDecideSettlement`).
- "Never go negative" (`services/paper_broker.py:388`): an accepted entry keeps a non-negative bankroll so exactly
  when the order fits with its fee, or is clamped and what it buys is charged none
  (`Ledger.OpenStaysNonNegativeIff`); ten contracts at 50 cents on 5 dollars end at -0.175
  (`Ledger.OpenMayGoNegative`). A run never goes below zero exactly when each of its operations is covered
  (`Ledger.NeverNegativeIffCovered`). The next entry that a debt clamps charges the debt itself as its cost and
  sets the account back to exactly zero; the whole contracts in the debt become a position of negative size, and
  the rest is forgiven (`Ledger.OpenForgivesDebt`).
- "a new open_position() can't happen until the prior one is fully closed"
  (`services/history/trade_analytics.py:85`): nothing in the broker prevents it. Open investments and realized
  gains explain the bankroll at the end of a funded run exactly when it never happened
  (`Ledger.AccountedForIffNeverOpenedOver`); buying the same ten contracts twice loses the first 5 dollars
  (`Ledger.BuyingTwiceLosesTheFirst`).
- The exposure cap (`services/paper_broker.py:390-394`): the gate tests the charge, which on a debt is negative.
  A fill is within the cap exactly when the whole contracts it buys fit: always for a sound order on a
  non-negative bankroll, never on a debt of less than one contract (`LimitOrders.FillWithinExposureIff`, `LimitOrders.FillMayExceedExposure`).
- "Guarded to ONLY ever touch a closed: trade (never an entry)" (`services/paper_broker.py:752`): an entry
  is within reach exactly when its own reason begins with "closed:" (`Corrections.EntryReasonDecidesReach`),
  which is also exactly when it makes the log misread the book (`TradeHistory.EntryReadableIff`).
- "Same effect as calling record_trade_observed() once per trade" (`services/series_evaluator.py:131`):
  true of the counts of any list of trades (`SeriesEvaluator.BulkEqualsEach`); with entries of zero trades it
  is true exactly when each of their series has a row whose backoff is not due
  (`SeriesEvaluator.ZeroCountsHarmless`).
- The daily-loss switch guards a zero baseline but not a negative one, where the comparison turns round: a
  further loss never trips it and recovering to zero does (`RiskManager.TripsOnLoss`,
  `RiskManager.NegativeBaselineInverts`).
- A limiter with a burst below one token never grants (`TokenBucket.SmallBurstStarves`).
- A pass of the retry queue that is ended by an exception in scoring or handling has already taken the
  trade out, but its counts never reach the window counters (`RetryQueue.Queue.RunPending`).
- `ORDER BY timestamp` leaves trades of one moment in any order: a restart is sure to give back the log exactly
  when its trades are at distinct moments in the order they were made (`Restart.RestartRestoresAccount`), and with
  ties in insertion order exactly when no trade was stamped before an earlier one (`Restart.LogReloadsIffInOrder`).
  The reload counts closes towards the cooldown, so a restart may lengthen it (`Restart.RestartAfterRun`).

## Model

| member | source | states |
|---|---|---|
| InsertStore.NoRowLostUncounted | services/capture_writer.py:294-455 | in every interleaving of submitters and flushing threads each submitted copy of a row is in exactly one of committed, dropped, overflowed, in flight, buffered; the two loss counters are the sizes of the lost parts and the retry counter counts the lock collisions |
| InsertStore.RetainKeepsNewestUpToCap | services/capture_writer.py:364-387 | a retained buffer never exceeds the cap, loses exactly its oldest rows past it, and loses none below it |
| InsertStore.ArrivalOrderSurvives | services/capture_writer.py:364-455 | without overlapping flushes, rows leave in the order they were submitted through any number of lock failures |
| InsertStore.OverlappingRetainsOrder | services/capture_writer.py:364-370 | two overlapping lock failures under the cap keep arrival order if and only if the later taker retains first or the two batches commute |
| InsertStore.TableIsCommittedRows | services/capture_writer.py:411-427 | the table is always the committed rows presented in commit order, whatever was retried or lost in between |
| InsertStore.PresentingOnlyAdds | services/capture_writer.py:63-68 | INSERT OR IGNORE keeps every earlier row, a unique key, and adds nothing but presented rows |
| InsertStore.PresentedIdsAreHeld | services/capture_writer.py:63-68 | every presented trade_id is held afterwards, by the first row that presented it |
| InsertStore.UnkeyedRowsAllKept | services/capture_writer.py:160-162 | rejection_events rows, which carry no key, are all kept in order |
| InsertStore.Writer.Append | services/capture_writer.py:294-299 | submit appends one row and changes nothing else |
| InsertStore.Writer.SwapOut | services/capture_writer.py:404-407 | the flush takes the whole buffer and leaves it empty |
| InsertStore.Writer.CommitBatch | services/capture_writer.py:423-427 | the row-by-row insert gives the batch insert's table |
| InsertStore.Writer.DropBatch | services/capture_writer.py:450-453 | a non-lock failure discards and counts the batch |
| InsertStore.Writer.Retain | services/capture_writer.py:364-387 | the batch goes back ahead of newer rows, trimmed to the cap; returns how many rows the trim discarded |
| InsertStore.Writer.FlushStore | services/capture_writer.py:390-455 | one whole flush ends committed, retained or dropped, and an empty buffer touches nothing |
| UpsertStore.LooksSynchronous | services/capture_writer.py:51-61 | refinement: with no overlap, no loss counted and a committed flush before each settlement, the table with the pending rows laid over it is always the table synchronous upserts would give |
| UpsertStore.PutThenUpsert | services/capture_writer.py:296-297 | collapsing a row into the dict and upserting once equals upserting every submission |
| UpsertStore.ResolvedRowsNeverOverwritten | services/capture_writer.py:114-129 | in any run whatever, a resolved row stays exactly as resolved |
| UpsertStore.RetainedYieldsToNewer | services/capture_writer.py:368-375 | after a lock failure each key has the newest submitted value |
| UpsertStore.EndingsInFull | services/capture_writer.py:371-453 | each ending of a flush moves only its own part: table, dropped count, or buffer, overflow and retry counts, the buffer cut to the newest keys under the cap |
| UpsertStore.PendingRowsDecideSettlement | services/candidate_log.py:682-687 | a settlement pass over pending rows equals the synchronous one if and only if every pending row of a settling ticker is moot |
| UpsertStore.OverlapKeepsLatest | services/capture_writer.py:403-427 | two overlapping commits out of order leave the latest values if and only if each shared key is resolved or equal |
| UpsertStore.Writer.Assign | services/capture_writer.py:294-297 | submit overwrites the key's buffered row or appends it |
| UpsertStore.Writer.SwapOut | services/capture_writer.py:404-407 | the flush takes the dict's rows and leaves it empty |
| UpsertStore.Writer.CommitBatch | services/capture_writer.py:420-427 | executemany of the upsert over the batch |
| UpsertStore.Writer.DropBatch | services/capture_writer.py:450-453 | a non-lock failure discards and counts the batch |
| UpsertStore.Writer.Retain | services/capture_writer.py:371-387 | the merged dict keeps newer values and is trimmed to the cap oldest first |
| UpsertStore.Writer.FlushStore | services/capture_writer.py:390-455 | one whole flush ends committed, retained or dropped |
| CandidateLog.Log.ResolveFromMarketResults | services/candidate_log.py:667-782 | every unresolved row and event takes the side its market's raw result says, now, and every other stays; the count is exactly the rows of the flushed table it resolved |
| CandidateLog.Log.UpdateCandidates | services/candidate_log.py:771-776 | the sequence of per-ticker updates is one settlement of all its tickers, and its row counts sum to the rows settled |
| CandidateLog.Log.UpdateEvents | services/candidate_log.py:777-781 | the same for rejection_events |
| CandidateLog.ToResolve | services/candidate_log.py:761-766 | in any dict order the list holds each ticker whose result says a side once, with that side |
| CandidateLog.VerdictIsWhatWasSaid | services/candidate_log.py:763-766 | a result settles "yes" or "no" exactly when it spells that word in either case with only spaces around it, and anything else settles nothing |
| CandidateLog.SpaceCodes | services/candidate_log.py:764 | which characters strip() removes, by code point |
| CandidateLog.SettledAsSaid | services/candidate_log.py:771-781 | settling by the verdicts is settling every row and event by what its market said |
| CandidateLog.OneCallPerTicker | services/candidate_log.py:747-757 | one call per ticker in any order, with repeats, gives both tables and the total count of one batched call |
| CandidateLog.RepeatResolvesNothing | services/candidate_log.py:771-782 | a repeated pass resolves no row and changes neither table |
| CandidateLog.RunKeepsWellFormed | services/candidate_log.py:771-776 | over every run a row is resolved exactly when it has a yes or no result and a resolution time |
| CandidateLog.GateCountsFit | services/candidate_log.py:812-825 | yes plus no counts equal resolved, and sided wins, sided, resolved and rejected counts are nested |
| CandidateLog.GateCountsRowByRow | services/candidate_log.py:812-825 | which row of a gate each count counts |
| CandidateLog.ValidateBands | services/candidate_log.py:245-253 | the adjacent comparison accepts exactly the lists of non-empty, ascending, pairwise disjoint bands |
| CandidateLog.BandIsUnique | services/candidate_log.py:224-257 | for an accepted list the first matching band is the only one |
| CandidateLog.BandsPartition | services/candidate_log.py:232-238 | every row with a cost is counted in exactly one band or as out of range |
| FaultLog.MergeIsReplay | services/fault_log.py:230-290 | the three merge statements give the table that deduplicating every insert would have given |
| FaultLog.MergeConsolidates | services/fault_log.py:230-247 | the merge keeps the total count and every exception row, leaves no duplicate, and keeps ids in order |
| FaultLog.MergedRowIsKeeper | services/fault_log.py:232-241 | a merged row is its group's earliest row but for the summed count and the greatest last_seen |
| FaultLog.NoOccurrenceLost | services/fault_log.py:211-227 | however many connections attempt the index, merge, write and prune at once, counts left plus counts pruned are the initial counts plus one per write, and an indexed table has one row per key |
| FaultLog.AttemptInFull | services/fault_log.py:211-216 | after an attempt the index is there exactly if it was or no two NULL-exception rows are duplicates; a failed attempt changes no row |
| FaultLog.ReportInFull | services/fault_log.py:344-393 | a report bumps count, last stamp and newest stack of the row with its signature and a stored message, and otherwise adds a row of its own; no other row moves |
| FaultLog.Store.AttemptIndex | services/fault_log.py:211-216 | creating the index fails exactly on NULL-exception duplicates |
| FaultLog.Store.MergeAndIndex | services/fault_log.py:217-224 | the merge and the retried index as one step |
| FaultLog.Store.Write | services/fault_log.py:344-393 | a report bumps its one conflicting row or adds a row |
| FaultLog.Store.Prune | services/fault_log.py:423-442 | only rows last seen before the cutoff go, and the result says how many |
| FaultSummary.WindowTotalIsExact | services/fault_log.py:448-516 | over every run of writes, prunes and late merges, total_occurrences plus the in-window share of rows from before the window plus what pruning deleted is exactly the initial total plus the in-window occurrences |
| FaultSummary.RetentionOutsideWindow | services/fault_log.py:423-442 | prunes at cutoffs not after the start of the window take nothing out of its total |
| FaultSummary.LifetimeTotalIsEverything | services/fault_log.py:486-489 | with no window the total is every occurrence ever but those pruned |
| FaultSummary.ActiveRowsSplit | services/fault_log.py:469-484 | active rows split into started and ongoing ones if and only if no row was last seen before the window yet first seen in it |
| FaultSummary.LastSeenNotBeforeFirst | services/fault_log.py:377-392 | non-decreasing clocks never produce such a row, through writes, prunes and merges |
| FaultSummary.RowTellsItsHistory | services/fault_log.py:349-392 | over every run each signature has at most one row, with the first stamp, stack and context since its last prune, the last stamp, the number of reports and the newest stack captured |
| TokenBucket.TokensConserved | services/http_client.py:231-238 | over any monotone run tokens stay in [0, burst], and grants plus tokens left are at most tokens before plus the refill |
| TokenBucket.PassTakesOneToken | services/http_client.py:231-238 | tokens after a pass plus the one granted, if any, are the lesser of the burst and tokens plus rate times elapsed; it is granted exactly when that is at least one |
| TokenBucket.BurstServedAtOnce | services/http_client.py:233-238 | of n passes at the moment of the last refill exactly the lesser of n and the whole tokens held are granted |
| TokenBucket.ThroughputBound | services/http_client.py:185-195 | the grants of any stretch of passes number at most burst plus rate times its length |
| TokenBucket.SleepIsExact | services/http_client.py:236-239 | a refused caller that looks again is granted if and only if it slept at least as computed and the burst holds a whole token |
| TokenBucket.GrantedBySecondPass | services/http_client.py:231-239 | with a burst of at least one, a caller holding the lock is granted by its second pass |
| TokenBucket.SmallBurstStarves | services/http_client.py:197-239 | a burst below one token never grants |
| TokenBucket.Limiter.TryTake | services/http_client.py:233-238 | one pass refills up to the burst and takes exactly one token when there is one |
| TokenBucket.Limiter.Acquire | services/http_client.py:226-241 | the loop returns at its first granted pass, every earlier one having been refused |
| HttpCalls.LayersAlwaysAgree | services/http_client.py:494-548 | however calls interleave, in sum over caller classes and endpoints: attempts are the endpoints' calls plus those cancelled or still out, the 429s agree, every call ended in a success, an error or a cancellation or is running, and every 429 was retried or was its call's last |
| HttpCalls.CallIsARun | services/http_client.py:510-548 | one call is a run of those steps |
| HttpCalls.RestOfCallCounts | services/http_client.py:512-548 | a call counts under its class one attempt for each up to the one it stops at, one 429 for each retried, and at most one error |
| HttpCalls.CallStaysInItsBuckets | services/http_client.py:377-388 | a call counts its answered attempts under its endpoint by what they were, and moves no other class or endpoint |
| HttpCalls.Telemetry.CallWithBackoff | services/http_client.py:466-548 | a call stops at its first outcome that is not a 429 it sleeps off, or its last attempt, cancellations included; the layers keep agreeing; the sleeps lie between the doubled delays and a quarter more |
| HttpCalls.Telemetry.RecordHttpAttempt | services/http_client.py:377-388 | each attempt is counted once, as exactly one of success, error, rate-limited |
| HttpCalls.BackoffIsGeometric | services/http_client.py:510-537 | the retries before attempt n + 1 wait base times 2^n - 1 in all, before jitter |
| RetryQueue.NoTradeLost | services/candidate_retry.py:85-170 | every accepted enqueue is in exactly one of pending, recovered, abandoned wherever enqueues interleave |
| RetryQueue.StepsInFull | services/candidate_retry.py:85-150 | an accepted trade is due 0.5 s later, each miss makes it due exactly its wait of 1, 2, 4, 8, 16, 30 or 30 s later, the eighth abandons it, a hit takes it out, and no other trade moves |
| RetryQueue.AbandonedOnlyAfterBudget | services/candidate_retry.py:54-55 | a trade is abandoned only at its eighth lookup and no earlier than 91.5 s after it was queued, whatever clocks the passes use |
| RetryQueue.AlwaysMissing | services/candidate_retry.py:139-150 | a trade whose lookups all miss is still queued, on schedule, after fewer than eight, and abandoned by the eighth |
| RetryQueue.LookupsBounded | services/candidate_retry.py:103-172 | lookups made plus lookups still allowed never exceed the initial budget plus eight per accepted enqueue |
| RetryQueue.Queue.Enqueue | services/candidate_retry.py:85-96 | a queued or missing trade_id changes nothing, a new one starts its schedule |
| RetryQueue.Queue.EnqueueAll | services/candidate_retry.py:85-96 | enqueues during an await disturb no queued trade |
| RetryQueue.Queue.HandleSignals | services/candidate_retry.py:151-168 | exactly the scored trade_ids not claimed before are evaluated, each once |
| RetryQueue.Queue.RetryOne | services/candidate_retry.py:130-168 | one due trade is looked up once and then dropped, rescheduled, or taken out before scoring |
| RetryQueue.Queue.RunPending | services/candidate_retry.py:103-172 | a pass looks up each due trade of its snapshot exactly once and no other, reports what it did, and adds it to the window counters unless it was ended by an exception |
| CandidateLedger.ClaimedAtMostOnce | services/candidate_ledger.py:49-64 | over any interleaving exactly the first claim of an unclaimed trade_id answers True |
| CandidateLedger.FirstClaimWins | services/candidate_ledger.py:56-61 | the row names the ticker and time of the first claim |
| CandidateLedger.ClaimNeverRestamped | services/candidate_ledger.py:49-69 | no later claim or decision changes who claimed and when |
| CandidateLedger.LastDecisionStands | services/candidate_ledger.py:67-69 | the decision recorded last stands through later claims and other decisions; one for an unclaimed trade_id leaves no trace |
| CandidateLedger.Ledger.Claim | services/candidate_ledger.py:49-64 | answers whether the row is new, and claims plus duplicates grow by one per call |
| CandidateLedger.Ledger.RecordDecision | services/candidate_ledger.py:67-69 | a decision never creates a row |
| SeriesEvaluator.BulkEqualsEach | services/series_evaluator.py:130-174 | for any list of trades at one moment, in any interleaving of series, one bulk call equals one call per trade |
| SeriesEvaluator.ZeroCountsHarmless | services/series_evaluator.py:151-174 | a bulk call that also carries zero counts equals the calls one by one if and only if each such series has a row whose backoff is not due |
| SeriesEvaluator.TradesInFull | services/series_evaluator.py:100-127 | what trades do to a row, status by status |
| SeriesEvaluator.VerdictInCounts | services/series_evaluator.py:232-261 | an observing series whose window is complete is approved exactly when it had trades and qualified >= minimum rate x trades, and otherwise rejected, one strike up; any other row is unchanged |
| SeriesEvaluator.BackoffMultiplies | services/series_evaluator.py:254 | the first backoff is the base and each further one the multiplier times the last, up to the cap |
| SeriesEvaluator.RunFits | services/series_evaluator.py:112-122 | over every run next_eligible_at is set exactly on rejected rows, at the verdict plus the backoff of its latest strike |
| SeriesEvaluator.RowsAreTallies | services/series_evaluator.py:86-99 | strike_count is the rejections since insert or reset, and trades_observed and first_seen_at are those of the current window |
| SeriesEvaluator.BackoffEscalates | services/series_evaluator.py:254-255 | backoffs never shrink and never pass the cap, with a multiplier of at least one |
| SeriesEvaluator.ApprovedIsSticky | services/series_evaluator.py:123-124 | an approved row is unchanged by anything but reset or clear |
| SeriesEvaluator.NoEndlessObservation | services/series_evaluator.py:191-200 | no row at or past the maximum window stays observing, and one without trades is rejected |
| SeriesEvaluator.IneligibleIffNotReactivated | services/series_evaluator.py:177-188 | a rejected series is filtered out exactly while a trade would not reactivate it |
| SeriesEvaluator.Evaluator.RecordTradeObserved | services/series_evaluator.py:86-127 | the per-trade update, branch by branch |
| SeriesEvaluator.Evaluator.RecordTradesObservedBulk | services/series_evaluator.py:130-174 | the loop gives the bulk table in any dict order |
| SeriesEvaluator.Evaluator.EvaluatePending | services/series_evaluator.py:191-266 | every observing row gets its verdict and no other row changes; the list names exactly the rows that left observation, their windows complete, approved exactly when they had trades and the rate reaches the minimum |
| SeriesEvaluator.Evaluator.IneligibleSeries | services/series_evaluator.py:177-188 | in every reachable table exactly the rejected series that a trade at that moment would leave rejected |
| SeriesEvaluator.Evaluator.Reset | services/series_evaluator.py:288-301 | a fresh start with no strikes, False when the series has no row |
| KalshiFees.FeeRoundsUpOnce | services/kalshi_fees.py:289-320 | a fill's fee exceeds its exact per-contract cost by less than a millionth of a dollar in all |
| KalshiFees.TakerSchedule | services/kalshi_fees.py:232-254 | the taker fee is the least millionth covering 0.07 x multiplier x contracts x p x (1 - p), nothing off the price range |
| KalshiFees.MakerSchedule | services/kalshi_fees.py:257-286 | the maker fee is the least millionth covering a quarter of that, doubled for the combo fee type, nothing where exempt |
| KalshiFees.SplittingCostsAtMostTheCeilings | services/kalshi_fees.py:232-254 | k positive fills cost at least the single fill and less than k millionths more |
| KalshiFees.FeeSymmetric | services/kalshi_fees.py:232-286 | both fees are the same at a price and its complement |
| KalshiFees.MakerNeverDearer | services/kalshi_fees.py:257-286 | the maker fee is between zero and the taker fee under every non-negative override, fee type and exemption |
| KalshiFees.ForcedExitCases | services/kalshi_fees.py:455-549 | a forced exit is the sellable quote if there is one, zero proceeds on an empty book, the fallback otherwise |
| KalshiFees.SellableExactlyWhen | services/kalshi_fees.py:375-452 | a YES position sells exactly at an inside bid, a NO position exactly at an inside ask that does not cross the bid it is checked against |
| KalshiFees.NeverADollarPerContract | services/kalshi_fees.py:375-549 | no exit quote pays a dollar a contract or less than nothing |
| RiskManager.HaltSurvives | services/risk_manager.py:102-133 | a halt survives checks and restarts until resume, reset or a check on another UTC day |
| RiskManager.TripsOnLoss | services/risk_manager.py:152-174 | exactly when the switch trips, for positive, negative and zero baselines |
| RiskManager.CheckInFull | services/risk_manager.py:152-192 | a check on a new UTC day starts over from the bankroll; then the day and baseline stand and it is halted exactly if it still was or this bankroll trips it |
| RiskManager.NewDayStartsOver | services/risk_manager.py:177-192 | under a positive limit a new day lifts any halt |
| RiskManager.DayIs86400Seconds | services/risk_manager.py:177-185 | a day number spans exactly 86400 seconds |
| RiskManager.CommandsInFull | services/risk_manager.py:187-202 | what halt, resume, reset and restart each leave |
| RiskManager.WithinExposureIff | services/risk_manager.py:138-150 | without a cap everything fits; with one, exposure plus cost up to its share of the bankroll |
| RiskManager.NegativeBaselineInverts | services/risk_manager.py:166-169 | on a negative baseline further losses never trip it and recovery to zero does |
| RiskManager.RestartRestores | services/risk_manager.py:116-122 | a reload restores the state if and only if the row has its date or is loaded on that date |
| RiskManager.Manager.Fresh | services/risk_manager.py:106-115 | the first run seeds state and row alike |
| RiskManager.Manager.Reload | services/risk_manager.py:116-122 | the stored row wins |
| RiskManager.Manager.CheckDailyLossNow | services/risk_manager.py:152-185 | rolls the day over first, then trips, persists what it changed, and answers whether trading may go on |
| RiskManager.Manager.ResetDayNow | services/risk_manager.py:187-192 | a new baseline, no halt, persisted |
| RiskManager.Manager.HaltManually | services/risk_manager.py:194-197 | halts with the reason, persisted |
| RiskManager.Manager.ResumeTrading | services/risk_manager.py:199-202 | lifts the halt, persisted |
| TradingHalt.HaltedTradesNothing | services/paper_broker.py:368-377 | from a halt on, through checks, restarts and any ledger operations that do not lift it, positions only leave the book and every new trade is a close |
| TradingHalt.UnhaltedMeetsOnlyTheCap | services/paper_broker.py:376-394 | while nothing is halted an entry is refused for the exposure cap alone |
| Ledger.LedgerConserved | services/paper_broker.py:386-417 | over every run of opens, closes, orders and corrections the bankroll is the starting bankroll less invested cost, fees and slack, plus realized profit, corrections and nothing else, less what was invested in positions opened over |
| Ledger.EntryRefusedIff | services/paper_broker.py:376-394 | an entry is refused, and then changes nothing, exactly under a halt or where its clamped cost on top of the book breaks the cap |
| Ledger.EntryInFull | services/paper_broker.py:386-433 | an accepted entry is charged the cost asked or all there is, gets the whole contracts that buys and their fee, and stamps position, trade row and cooldown; nothing else moves |
| Ledger.CloseInFull | services/paper_broker.py:622-678 | a close sells the whole position at the exit price less the taker fee and moves nothing else, cooldowns included |
| Ledger.OrdersInFull | services/paper_broker.py:456-503 | an order rests exactly when its ticker has none and it asks for something; a cancel takes out that one |
| Ledger.CorrectionInFull | services/paper_broker.py:756-788 | a correction takes back what the close paid and pays the corrected price less a fresh fee if one is given |
| Ledger.AccountedForIffNeverOpenedOver | services/paper_broker.py:413-417 | open investments and realized gains explain the bankroll at the end of a funded run if and only if no entry was accepted on a held ticker |
| Ledger.OpeningOverLosesTheInvested | services/paper_broker.py:413-417 | an entry over a held ticker leaves unexplained exactly what was invested in the position it replaces |
| Ledger.BuyingTwiceLosesTheFirst | services/paper_broker.py:413-417 | a concrete run that loses 5 dollars this way |
| Ledger.FreshIsExplained | services/paper_broker.py:317-324 | a new account starts explained |
| Ledger.SlackBounded | services/paper_broker.py:386-389 | the charge exceeds the cost of the contracts stored by less than one contract either way |
| Ledger.UnclampedHasNoSlack | services/paper_broker.py:386-389 | an unclamped order buys every contract and leaves no slack |
| Ledger.SlackNonNegative | services/paper_broker.py:388-389 | on a non-negative bankroll slack is never negative and the stored size is between zero and the size asked |
| Ledger.OpenForgivesDebt | services/paper_broker.py:388-413 | an entry clamped by any debt sets the bankroll to exactly zero, carries the whole contracts of the debt as a negative position and forgives the rest; the debt is forgiven whole if and only if it is less than one contract |
| Ledger.OpenStaysNonNegativeIff | services/paper_broker.py:386-413 | from a non-negative bankroll an accepted entry stays non-negative if and only if the order fits with its fee or is clamped and charged none; it never overdraws by more than its fee |
| Ledger.OpenMayGoNegative | services/paper_broker.py:388-404 | a concrete order that takes the bankroll below zero |
| Ledger.NeverNegativeIffCovered | services/paper_broker.py:386-413 | a run is never below zero if and only if every entry is affordable, every close's fee and every correction is covered |
| Ledger.BasisPlusMark | services/paper_broker.py:876-896 | cost basis plus marked gain is what selling at the mark pays |
| LimitOrders.EveryOrderHasOneFate | services/paper_broker.py:551-600 | every order seen ends in exactly one of waiting, expired, gate-rejected, risk-rejected, traded; it stays pending, unchanged, exactly when it waits |
| LimitOrders.FateInQuotes | services/paper_broker.py:552-598 | an unexpired order waits exactly while its side is not quoted, or a YES ask is above or a NO bid below its limit; past that the validator, the halt and the cap decide |
| LimitOrders.TradesAreTheFills | services/paper_broker.py:551-600 | the trades of a call are, in order, one fill of each order that traded: unexpired, YES at the ask and NO at the bid, past the gate, within its limit and size, at the maker fee |
| LimitOrders.FillRespectsItsOrder | services/paper_broker.py:555-588 | an order that trades adds one fill of itself, for a fee no dearer than taking, and of no negative size on a non-negative bankroll |
| LimitOrders.FillWithinExposureIff | services/paper_broker.py:386-394 | after a fill the cost basis of the whole book is within the exposure cap on the bankroll before it if and only if the whole contracts fit: always for a sound order on a non-negative bankroll, never on a debt of less than one contract |
| LimitOrders.EveryFillWithinExposureIff | services/paper_broker.py:551-600 | the same of every fill of one call |
| LimitOrders.FillMayExceedExposure | services/paper_broker.py:386-394 | a concrete fill over the cap |
| LimitOrders.CheckIsARun | services/paper_broker.py:551-600 | the whole call is a run of ledger operations |
| Corrections.CorrectionCommutes | services/paper_broker.py:720-794 | closing at a bad price, any later operations that neither clamp nor refuse an entry, then correcting, gives the account that closing at the good price first would have given |
| Corrections.CorrectionIsOnce | services/paper_broker.py:752-765 | a second correction does nothing |
| Corrections.CorrectionTouches | services/paper_broker.py:756-788 | a correction changes exactly one qualifying row, and only its flag |
| Corrections.EntryReasonDecidesReach | services/paper_broker.py:752-765 | an entry can be corrected if and only if its reason begins with "closed:" |
| Corrections.RunKeepsIdsFresh | services/paper_broker.py:418-430 | over every run trade ids stay distinct |
| Equity.CloseAtMark | services/paper_broker.py:904-933 | closing at the mark changes equity by exactly minus the close fee |
| Equity.OpenAtMark | services/paper_broker.py:904-933 | opening at the mark changes equity by exactly minus fee, slack and the value of an overwritten position |
| Equity.FlattenEmptiesTheBook | services/paper_broker.py:680-718 | flattening removes every position given, with or without asks, and only adds trades |
| Equity.FlattenNeverPaysADollar | services/paper_broker.py:697-714 | given asks, every flattening close pays at least nothing and less than a dollar a contract |
| Equity.FlattenSellsAtMarket | services/paper_broker.py:706-718 | each close is struck in quotes: without asks at the latest price; with asks YES at an inside price, NO at an inside uncrossed ask, for nothing on an empty book, and at entry otherwise |
| Equity.ValueAtMarket | services/paper_broker.py:922-925 | a position is worth what its contracts sell for at the latest quote, or at entry without one |
| Equity.LiquidationPaysEquity | services/paper_broker.py:922-933 | selling every position at its mark leaves exactly the equity in cash, less the close fees |
| Equity.FlattenIsARun | services/paper_broker.py:707-718 | flattening is a run of closes |
| Restart.RestartAfterRun | services/paper_broker.py:313-354 | after any run with non-decreasing clocks a restart restores bankroll, positions, orders and the trades in time order, the very log where ties keep insertion order or there are none, and can only lengthen a cooldown |
| Restart.RestartRestoresAccount | services/paper_broker.py:325-354 | a restart, however ties are broken, changes nothing but the cooldowns if and only if trades are at distinct moments in the order they were made |
| Restart.LogReloadsIffInOrder | services/paper_broker.py:336-346 | with ties in insertion order the reload gives back the log if and only if no trade was stamped before an earlier one |
| Restart.LastTimesAreLatest | services/paper_broker.py:336-354 | the rebuilt cooldown of a ticker is its latest logged trade, and there is one for every ticker traded and no other |
| Restart.RunKeepsLogged | services/paper_broker.py:418-431 | timely runs keep the log in time order and every cooldown stamp logged |
| TradeHistory.LogAlwaysExplainsBook | services/history/trade_analytics.py:75-107 | over every run the log alone tells the open positions with their side, size, price and fee, and every close is paired with the entry of the very position it sold |
| TradeHistory.HistoryListsTheCloses | services/history/trade_analytics.py:88-178 | the history has one row for each close that is not excluded, in log order |
| TradeHistory.OpenedAtNotAfterLogged | services/paper_broker.py:413-425 | where the clock does not go back between its two readings, no open position was opened after its entry was logged |
| TradeHistory.EntryReadableIff | services/history/trade_analytics.py:103-105 | an accepted entry keeps the log readable if and only if its reason does not begin with "closed:" |
| PaperBroker.Broker.Fresh | services/paper_broker.py:317-324 | the first run seeds fields and tables alike |
| PaperBroker.Broker.Reload | services/paper_broker.py:325-354 | the stored account wins; fields and tables agree if and only if the trades came back in stored order |
| PaperBroker.Broker.CurrentExposure | services/paper_broker.py:391-392 | the loop sums every position's cost basis once |
| PaperBroker.Broker.OpenPosition | services/paper_broker.py:363-454 | refuses and touches nothing, or fills; fields and tables stay mirrored |
| PaperBroker.Broker.ClosePosition | services/paper_broker.py:602-678 | sells the whole position or does nothing; fields and tables stay mirrored |
| PaperBroker.Broker.PlaceLimitOrder | services/paper_broker.py:456-498 | rests one order per ticker without touching the bankroll |
| PaperBroker.Broker.CancelPending | services/paper_broker.py:500-503 | removes the order from field and table |
| PaperBroker.Broker.ResolveOrder | services/paper_broker.py:553-599 | one resting order meets its fate and is reported accordingly |
| PaperBroker.Broker.CheckPendingFills | services/paper_broker.py:505-600 | the loop settles every order in turn; the fills it reports are exactly the trades it logged, in order, and the rejections exactly the rejected orders, each with its side, its quote and the gate that did it |
| PaperBroker.Broker.CloseAllPositions | services/paper_broker.py:680-718 | flattens the positions in turn and returns the trades it logged, each the sale of a whole listed position at the market |
| PaperBroker.Broker.CorrectErroneousClose | services/paper_broker.py:720-794 | reverses and re-credits one close, flagging it in table and memory |
| PaperBroker.Broker.Reset | services/paper_broker.py:796-813 | wipes account and tables alike |
| LatencyAgg.P95UpperBound | services/latency_agg.py:67-80 | for the counts of any samples, the least bound at or above the true nearest-rank 95th percentile, None exactly when there is no sample or it lies past the last bound |
| LatencyAgg.P95Exists | services/latency_agg.py:67-74 | every non-empty list has exactly one such percentile |
| LatencyAgg.RankIsNearest | services/latency_agg.py:74 | the rank is the least that reaches 95 percent of the count |
| LatencyAgg.BucketFor | services/latency_agg.py:60-64 | the first bucket whose bound is large enough |
| LatencyAgg.LatencyAgg.Add | services/latency_agg.py:37-41 | count, total and maximum keep summarising the samples |
| LatencyAgg.MaxBoundsSamples | services/latency_agg.py:37-41 | the maximum bounds every sample, and so the average |
| LatencyAgg.MaxIsASample | services/latency_agg.py:37-41 | the maximum is one of the samples, or zero |
| LatencyAgg.SumAdds | services/latency_agg.py:37-41 | the total adds up over any split of the samples |
| LatencyAgg.BoundsAreDecades | services/latency_agg.py:20-24 | the bounds run from a millisecond up by tens |

## Left out

- Concurrency below one lock hold or one transaction: the writer's database write, the fault table's index
  attempt and each await of the retry queue are atomic steps; failures of the fault table's own connection
  are not modelled.
- SQLite itself: WAL, indexes, query plans, busy timeouts; a lock failure is an outcome a flush may have.
- Floating-point rounding and display rounding: arithmetic is exact, and 0.95 is the rational 19/20 in the
  percentile rank.
- `services/capture_writer.py`: the daemon thread's cadence, shutdown budget and last-flush stamps; flush_now's
  returned row count.
- `services/candidate_log.py`: Bernoulli sampling, weights, win rates, averages, range deletion, pruning, and
  the flush of rejection_events before a settlement pass (`InsertStore` covers that buffer). Band labels: a
  band is its index, so two bands whose bounds print alike to two decimals are not merged.
- CandidateLog.ToResolve: lower-cases ASCII only; no other character lower-cases into "yes" or "no".
- `services/fault_log.py`: traceback capture and truncation, recent(), and the per-component and
  per-severity groupings of the summary.
- `services/http_client.py`: waiter gauges, latency aggregates, the endpoint window, resets of the counters,
  endpoint naming, and how the caller class is found.
- HttpCalls.Telemetry.CallWithBackoff: the limiter wait of each attempt is `TokenBucket`'s and adds nothing here;
  the method runs one call without interruption, and interleaved calls are `HttpCalls.LayersAlwaysAgree`'s.
- TokenBucket.GrantedBySecondPass: a sleep lasts at least as long as asked, which is asyncio's promise.
- `services/candidate_retry.py`: the failure text kept with an entry, and the market data itself; a lookup
  hits or misses.
- `services/series_evaluator.py`: signal counting is a parameter; overview().
- `services/kalshi_fees.py`: the series table and event lookup are parameters giving each ticker fixed terms;
  a side is Yes or No by type, so the unknown-side error does not arise; a missing price is handled by the
  quotes only.
- `services/risk_manager.py`: max_trade_size; the loss percentage inside the halt reason.
- `services/paper_broker.py`: the netting fields copied onto a close, the realized amount printed in its
  reason, clear_trade_range, and signal-to-open timing.
- `services/history/trade_analytics.py`: what a history row shows beyond the pair of trades.
- PaperBroker.Broker.OpenPosition: trade ids are a counter standing for uuid4, so an id collision, which would
  fail the insert after the fields changed, is not modelled; fee terms do not change between calls.
- PaperBroker.Broker.CheckPendingFills: the dict order is a parameter, any order of the resting tickers; clock
  readings are parameters, two for each ticker's fill.
- Routes, OAuth, WebSocket plumbing, dashboards, the strategy engine and the trading loops.
