# In-house match service: a verified model

This project models the parts of the in-house match back end that decide something and proves what they
promise. Each module follows one component.

- **Team balancer** (`Combinations`, `RoleSearch`, `PairHistory`, `PairReport`, `TeamMetrics`, `Balancer`,
  `MetricMeaning`, `BalancerOptimality`, `LockLoss`, `ScoreMeaning`, `CandidateKeys`, `SeatingMeaning`, `Reroll`,
  `Rematch`, `RematchLocks`, `SeatedRosters`). Ten
  players are split 5/5 by backtracking, each team is seated by branch and bound, splits are scored, and one
  split per mode is picked under exclusions. The searches keep their in-place state in classes and loops and are proved against exhaustive
  specifications. The main theorem says that the BALANCED candidate is optimal over all splits in both
  orientations. The symmetry reduction "player 0 is on side A" is sound exactly under `LocksCover`, a
  condition on the side locks alone; with player 0 locked to side B it leaves no candidate.
- **Match-history backfill** (`Backfill`, `MatchHistorySync`, `SyncOutcome`, `BackfillProtocol`,
  `BackfillProgress`, `BackfillFollowUp`). A paging cursor walks a remote list that grows at its front, over many overlapping syncs
  that may fail at any point.
  Safety is an invariant of a state machine over the remote list, the stored rows, the cursor and the syncs in
  flight; progress is a bound on the number of refreshes.
- **Result confirmation** (`ConfirmationPolicy`, `ResultInput`, `ResultLifecycle`, `ResultEffects`,
  `ResultTransitions`, `ResultConvergence`). The voting policy is proved to be "latest vote per user". The rows of a
  match are followed over all runs of all calls, first with each call as one step, then with concurrent confirm calls split into create, read,
  write and enqueue steps with follow-up jobs. Eventual agreement holds if and only if at most one follow-up
  job runs at a time.
- **Champion summary** (`ChampionSummary`, `ChampionMeaning`): conservation of the aggregation, and the three-threshold loop as a
  plain top three.
- **Public throttle** (`Throttle`): the fixed-window counter over every request trace with a running clock.
- **Lane spread and in-house rating** (`LaneSpread`, `InhouseMmr`, `RatingMeaning`, over `Rounding`).

The modules named after a meaning, an effect, a report or an outcome say what the functions the other theorems compare
with each other compute: every weight, cost, threshold and written field, in numbers.

Numbers are exact reals; `toFixed` is written out as rounding to the nearest digit, ties away from zero
(section 21.1.3.3 of ECMA-262). The square root, the logistic curve, number printing and locale comparison are
function parameters, so every theorem holds for any such function. The 70 percent rule is written in integers,
which is what the division compares. The state of the world that the services read, such as page answers,
which details load, creation times, fresh ids and the clock, is passed in or chosen freely by a step.

Places where the code does less than one might expect are stated as theorems, each with the exact condition
under which it does meet the expectation:

- Side locks can hide evaluable splits from the enumeration, or leave no candidate at all
  (`BalancerOptimality.CoverageExactly`, `LockLoss.LossExactly`, `NoCandidateExactly`).
- After an assignment followed by a reroll, the rematch input excludes some other combination than the one on the
  roster, unless the reroll offers nothing under the selected number (`Rematch.RerollForgetsSeating`).
- The rematch input locks everyone to the old seats, so fed back unchanged it yields nothing or the excluded
  combination three times (`RematchLocks.RematchRepeatsOrFails`).
- The match status stops naming its result after a lock, manual balance or assignment over it, until the next
  result call (`ResultLifecycle.RunsAgreeExactly`).
- A second concurrent follow-up job, or a call or job that fails as the last pending one, can leave a stale status
  for good (`ResultConvergence.AgreementNeedsOneWorker`, `AbortAgreesExactly`, `AbortedJobAgreesExactly`).
- A complete account misses matches for good when more of them arrive between two refreshes than a latest page
  holds (`BackfillFollowUp.FollowUpExactly`).
- A manual balance may seat someone as FILL and then takes no result (`SeatedRosters.ManualBalanceFillsExactly`).
- No resolution of a settled dispute survives the next evaluation (`ResultTransitions.ResolutionNeverSurvives`).
- Votes of one user at the same instant make the load order matter (`ConfirmationPolicy.OrderIndependentExactly`).

`dafny verify dfyconfig.toml` checks the whole project.

## Model

| member | source | states |
|---|---|---|
| `Combinations.CombinationBuilder.Backtrack` | `src/matchmaking/matchmaking-algorithm.service.ts:264-275` | one node of the in-place search restores `current` and appends exactly the completions of it that the recursion owes |
| `Combinations.BuildCombinations` | `src/matchmaking/matchmaking-algorithm.service.ts:260-279` | the result is every strictly increasing k-sequence below n and nothing else, sorted lexicographically, for all n and k |
| `Combinations.CompletionsComplete` | `src/matchmaking/matchmaking-algorithm.service.ts:264-275` | a sequence is among the completions of a prefix if and only if it is a combination continuing that prefix from `start` on |
| `Combinations.CompletionsSorted` | `src/matchmaking/matchmaking-algorithm.service.ts:270-274` | the completions come out in strictly increasing lexicographic order |
| `Combinations.LexSortedDistinct` | `src/matchmaking/matchmaking-algorithm.service.ts:260-279` | a lexicographically sorted list holds no combination twice |
| `Combinations.EachHalfSplitOnce` | `src/matchmaking/matchmaking-algorithm.service.ts:124-126` | keeping the combinations that contain index 0 lists each unordered half split of 2k players exactly once, for every k > 0 |
| `RoleSearch.PruningIsSound` | `src/matchmaking/matchmaking-algorithm.service.ts:309-311` | cutting a branch whose cost already reaches the best recorded cost changes nothing about the record |
| `RoleSearch.RoleSearcher.Backtrack` | `src/matchmaking/matchmaking-algorithm.service.ts:299-338` | each node of the pruned in-place search restores its state and leaves exactly the record the unpruned search leaves |
| `RoleSearch.ExhaustiveFindsFirstCheapest` | `src/matchmaking/matchmaking-algorithm.service.ts:299-338` | the unpruned search leaves the old record unless some continuation is strictly cheaper, and then the lexicographically first of the cheapest |
| `RoleSearch.FindBestAssignment` | `src/matchmaking/matchmaking-algorithm.service.ts:291-355` | the whole search returns what the unpruned search returns, or null |
| `RoleSearch.SolveIsOptimal` | `src/matchmaking/matchmaking-algorithm.service.ts:291-355` | null exactly when no finite-cost bijection exists; otherwise minimum total cost and the lexicographically first such assignment, for any table of non-negative or infinite costs |
| `RoleSearch.UnassignableExactly` | `src/matchmaking/matchmaking-algorithm.service.ts:342-344` | when infinite costs come from role locks only, a full team of any size is unassignable exactly when two locks clash or a lock names no role |
| `TeamMetrics.TeamUnassignableExactly` | `src/matchmaking/matchmaking-algorithm.service.ts:291-375` | a five-player team gets null exactly when two players share a locked role or a locked role is not one of the five lanes |
| `MetricMeaning.OffRolePenaltyIsSearchCost` | `src/matchmaking/matchmaking-algorithm.service.ts:398-402` | the off-role penalty, which looks every seat's player up again, is exactly a tenth of the two minimal assignment costs together; `SeatingMeaning.OffRoleOfSplit` says which seats cost what |
| `SeatingMeaning.SeatCosts` | `src/matchmaking/matchmaking-algorithm.service.ts:357-375` | a seat is forbidden exactly by a lock on another role, and otherwise costs 0, 8, 12 or 25 exactly as its lane is the player's primary one, the secondary one, any lane for a player who fills, or unwanted |
| `SeatingMeaning.SeatingCosts` | `src/matchmaking/matchmaking-algorithm.service.ts:299-338` | an assignment costs 8 per secondary, 12 per filled and 25 per unwanted seat, and its off-role count is the number of filled and unwanted seats |
| `SeatingMeaning.SeatingIsCheapest` | `src/matchmaking/matchmaking-algorithm.service.ts:291-355` | a team that can be seated is, at no more than the cost of any assignment the locks allow, and its off-role count is the number of seats on neither the primary nor the secondary lane of the player |
| `SeatingMeaning.EveryoneGetsPrimary` | `src/matchmaking/matchmaking-algorithm.service.ts:291-375` | if the locks leave some lineup with everyone on the primary lane, the team is seated that way, with nobody off role |
| `SeatingMeaning.OffRoleOfSplit` | `src/matchmaking/matchmaking-algorithm.service.ts:398-402` | in an evaluated split a secondary seat adds exactly 0.8 to the off-role penalty, a filled one 1.2, an unwanted one 2.5; its off-role count is the number of the last two |
| `SeatingMeaning.SeatShows` | `src/matchmaking/matchmaking-algorithm.service.ts:346-353` | a seat shows its player on its lane, with the power there or, without one, the overall power |
| `SeatingMeaning.KeyInWords` | `src/matchmaking/matchmaking-algorithm.service.ts:536-542` | the combination key and the three candidate ids of a split, written out for its five lanes |
| `MetricMeaning.TeamGapsOfSplit` | `src/matchmaking/matchmaking-algorithm.service.ts:387-415` | the team gap of an evaluated split is a tenth of the difference of the two sums of five powers, and its volatility term a third of the difference of the roots of the variances, written as mean square less squared mean |
| `MetricMeaning.WishByWish` | `src/matchmaking/matchmaking-algorithm.service.ts:514-530` | a team's preference penalty is zero without wishes, and each further wish adds 0.6 for a wanted team-mate who is missing, 1.2 for an avoided one who is present, and nothing otherwise |
| `MetricMeaning.PreferencesOfSplit` | `src/matchmaking/matchmaking-algorithm.service.ts:404-405` | the preference term of an evaluated split adds both teams' penalties, each judged by its own seats |
| `MetricMeaning.LaneGapIsSeatwise` | `src/matchmaking/matchmaking-algorithm.service.ts:388-393` | the lane gap of every evaluated split, which searches both teams for each lane, is the sum of the power differences of its facing seats |
| `MetricMeaning.RepeatPenaltyOfSplit` | `src/matchmaking/matchmaking-algorithm.service.ts:407-411` | the repeat term of every evaluated split is the sum over the team-mates it seats together, computed straight from the recent matches |
| `MetricMeaning.PreferenceMetricZeroExactly` | `src/matchmaking/matchmaking-algorithm.service.ts:404-405` | the preference term of an evaluated split is zero exactly when everyone on both teams has the team-mates they want and none they avoid |
| `TeamMetrics.EvaluateSymmetric` | `src/matchmaking/matchmaking-algorithm.service.ts:377-435` | exchanging the two teams changes no metric |
| `PairHistory.BuildPairs` | `src/matchmaking/matchmaking-algorithm.service.ts:491-503` | the nested loops list the sorted pair of every two positions, left position first |
| `PairHistory.PairKeyInjective` | `src/matchmaking/matchmaking-algorithm.service.ts:505-512` | for ids without ':' two pairs have the same key exactly when they are the same unordered pair |
| `PairHistory.BuildMatchHistoryContext` | `src/matchmaking/matchmaking.service.ts:529-569` | the nested loops over matches, sides and players build the index the specification folds |
| `PairHistory.MatchBumps` | `src/matchmaking/matchmaking.service.ts:532-561` | one match changes the record of exactly the pairs that shared a side in it, by one count, its recency weight and its id |
| `PairHistory.IndexCounts` | `src/matchmaking/matchmaking.service.ts:529-563` | the index records for a pair the number, total recency weight and first five ids of the matches both shared a side in |
| `PairHistory.CalculateRepeatTeamPenalty` | `src/matchmaking/matchmaking-algorithm.service.ts:437-489` | the loops over both teams' pairs yield total, repeated duo count and reported pairs; the total, taken over the sorted list, is the sum over all indexed pairs |
| `PairHistory.RepeatPenaltyIsDirect` | `src/matchmaking/matchmaking-algorithm.service.ts:437-489` | the penalty read from the index equals the sum over team-mate pairs computed straight from the recent matches |
| `PairHistory.RepeatPenaltyZeroExactly` | `src/matchmaking/matchmaking-algorithm.service.ts:437-489` | it is zero exactly when no team-mates of the split ever shared a side |
| `PairHistory.RepeatedDuosAreDirect` | `src/matchmaking/matchmaking-algorithm.service.ts:486` | the repeated duo count is the number of team-mate pairs that shared a side in at least two recent matches |
| `PairReport.RecencyFalls` | `src/matchmaking/matchmaking.service.ts:532-533` | the newest match weighs 1.35, each earlier one 0.15 less, and from the eighth on 0.35 |
| `PairReport.PairPenaltyInWords` | `src/matchmaking/matchmaking-algorithm.service.ts:465-466` | a pair costs 1.4 times its weight and 0.9 for every match after the first, to within half of the fourth digit, and never less with a further match |
| `PairReport.PairInOrder` | `src/matchmaking/matchmaking-algorithm.service.ts:505-512` | the two ids of a pair are in string order: a proper prefix, or the smaller character at the first difference, comes first |
| `PairReport.EntryIsDirect` | `src/matchmaking/matchmaking-algorithm.service.ts:457-479` | a pair has an entry exactly when it shared a match, with its sorted ids, count, rounded weight, penalty and first five match ids taken straight from the matches |
| `PairReport.ReportIsDirect` | `src/matchmaking/matchmaking-algorithm.service.ts:455-488` | every reported pair is such an entry of two team-mates, and with fewer than six reported none is missing |
| `PairReport.SortIsStable` | `src/matchmaking/matchmaking-algorithm.service.ts:482` | reported pairs of equal penalty keep the order of the teams |
| `PairHistory.ReportedAreHeaviest` | `src/matchmaking/matchmaking-algorithm.service.ts:482-487` | at most six pairs are reported, heaviest first; pairs are hidden only when six are reported, and none of the hidden ones is heavier |
| `Balancer.FindBestRoleAssignment` | `src/matchmaking/matchmaking-algorithm.service.ts:291-355` | a team is seated by the optimal assignment, in lane order, or not at all; what that grants is in `SeatingMeaning`: 0, 8, 12 or 25 per seat, and the primary lane for everybody wherever possible |
| `Balancer.ComputeTiebreakValue` | `src/matchmaking/matchmaking-algorithm.service.ts:558-571` | the rolling hash over the seed string, always below 1000003 |
| `Balancer.CollectSplits` | `src/matchmaking/matchmaking-algorithm.service.ts:128-160` | the loop keeps the splits whose locks are respected and both of whose teams can be seated, in enumeration order |
| `Balancer.SelectCandidates` | `src/matchmaking/matchmaking-algorithm.service.ts:162-213` | the loop over the modes makes the greedy choices of the specification, threading the used keys |
| `Balancer.GenerateCandidates` | `src/matchmaking/matchmaking-algorithm.service.ts:101-214` | enumeration, seating, scoring and selection together yield the candidates the theorems below are about; other player counts yield none; what a score weighs is in `ScoreMeaning` |
| `BalancerOptimality.CoverageExactly` | `src/matchmaking/matchmaking-algorithm.service.ts:124-136` | listing only splits with player 0 on side A misses no lock-respecting split, up to exchanging sides, if and only if there are no side locks, player 0 is locked to A, or one side is over-locked |
| `LockLoss.LossExactly` | `src/matchmaking/matchmaking-algorithm.service.ts:124-146` | for every lobby, whatever its side and role locks: some evaluable split has no evaluable listed orientation exactly when somebody is locked to a side and a count over the locks leaves player 0 a place on side B |
| `LockLoss.EvaluatesExactly` | `src/matchmaking/matchmaking-algorithm.service.ts:134-146` | a half split can be evaluated exactly when it respects the side locks, every role lock names a lane, and players with a common role lock are on different sides |
| `LockLoss.PairedLocksLose` | `src/matchmaking/matchmaking.service.ts:197-198` | where role locks come with side locks, as for the locked players of a match, that condition is: neither LocksCover nor two players locked to one seat nor a role lock outside the lanes |
| `LockLoss.RoleUnlockedLose` | `src/matchmaking/matchmaking-algorithm.service.ts:124-136` | without role locks it is LocksCover alone |
| `LockLoss.NoCandidateExactly` | `src/matchmaking/matchmaking-algorithm.service.ts:124-160` | without excluded ids there is no candidate exactly when the same count, with the sides exchanged, leaves player 0 no place on side A |
| `BalancerOptimality.SplitsExactly` | `src/matchmaking/matchmaking-algorithm.service.ts:124-160` | the evaluated splits are exactly the half splits with player 0 on side A that respect the locks and can be seated |
| `BalancerOptimality.MirrorEvaluates` | `src/matchmaking/matchmaking-algorithm.service.ts:128-160` | a split and its mirror image are evaluable together, with exchanged teams and equal metrics |
| `BalancerOptimality.FirstPlayerLockedToB` | `src/matchmaking/matchmaking-algorithm.service.ts:124-136` | a first player locked to side B leaves no candidate at all |
| `BalancerOptimality.RankedInOrder` | `src/matchmaking/matchmaking-algorithm.service.ts:544-556` | ranking keeps the candidates and puts them in comparator order |
| `BalancerOptimality.PicksAreGood` | `src/matchmaking/matchmaking-algorithm.service.ts:198-209` | each mode's choice is the best unused offer, or the best offer when all are used |
| `ScoreMeaning.PerfectScoresZero` | `src/matchmaking/matchmaking-algorithm.service.ts:238-257` | all-zero metrics score zero in every mode |
| `ScoreMeaning.OneUnitCosts` | `src/matchmaking/matchmaking-algorithm.service.ts:238-257` | one more unit of a metric, alone, raises the score by exactly 0.35, 0.25, 0.15, 0.1, 0.08, 0.07 in BALANCED, 0.2, 0.15, 0.35, 0.1, 0.1, 0.1 in POSITION_FIRST and 0.45, 0.3, 0.08, 0.07, 0.05, 0.05 in SKILL_FIRST |
| `ScoreMeaning.ScoreNeverFalls` | `src/matchmaking/matchmaking-algorithm.service.ts:238-257` | no mode scores lower when any metric rises |
| `ScoreMeaning.EvaluatedNonNegative` | `src/matchmaking/matchmaking-algorithm.service.ts:377-425` | no metric of an evaluated split is negative |
| `ScoreMeaning.ChoiceNeverClearlyWorse` | `src/matchmaking/matchmaking-algorithm.service.ts:162-213` | no mode's choice is at least as bad in all six metrics as an unused split that is evaluable as listed, and worse in one by 0.002 or more |
| `ScoreMeaning.BalancedNeverClearlyWorse` | `src/matchmaking/matchmaking-algorithm.service.ts:101-214` | where no split is lost, that holds of the BALANCED candidate against every evaluable split in either orientation |
| `ScoreMeaning.HashIsBase31` | `src/matchmaking/matchmaking-algorithm.service.ts:563-570` | the tie-break hash is the seed string read to base 31, modulo 1000003 |
| `ScoreMeaning.TiesGoToLeastHash` | `src/matchmaking/matchmaking-algorithm.service.ts:544-571` | each mode's choice has a smaller score than any other unused offer or, at an equal score, no larger hash of mode, seed or 'default', and key |
| `ScoreMeaning.ModesInOrder` | `src/matchmaking/matchmaking-algorithm.service.ts:162-213` | without excluded ids the candidates of an answer are BALANCED as number 1, POSITION_FIRST as 2 and SKILL_FIRST as 3 |
| `BalancerOptimality.ChoiceIsOptimal` | `src/matchmaking/matchmaking-algorithm.service.ts:162-213` | when the locks are covered and no id is excluded, no half split in either orientation whose key is unused has a smaller score in its mode than the mode's choice; the score is pinned by `ScoreMeaning.OneUnitCosts` |
| `BalancerOptimality.BalancedIsOptimal` | `src/matchmaking/matchmaking-algorithm.service.ts:101-214` | without exclusions there are three candidates, and the BALANCED one has the least score over all half splits in both orientations with both teams optimally seated; `ScoreMeaning.BalancedNeverClearlyWorse` says it in the metrics |
| `LockLoss.BalancedIsOptimalUnlessLost` | `src/matchmaking/matchmaking-algorithm.service.ts:101-214` | the same optimality for every lobby that loses no evaluable split, which is exactly decided by LossExactly |
| `BalancerOptimality.CandidatesComeFromSplits` | `src/matchmaking/matchmaking-algorithm.service.ts:170-213` | every returned candidate carries no excluded id and is an evaluable split of its mode and number |
| `BalancerOptimality.SomeCandidateExactly` | `src/matchmaking/matchmaking-algorithm.service.ts:162-213` | there is a candidate exactly when some half split with player 0 on side A is evaluable and one of its three ids is not excluded |
| `BalancerOptimality.AllOrNothing` | `src/matchmaking/matchmaking-algorithm.service.ts:162-213` | without excluded ids the answer is empty or exactly candidates 1 to 3, and empty exactly when nothing is evaluable |
| `BalancerOptimality.RepeatsOnlyWhenForced` | `src/matchmaking/matchmaking-algorithm.service.ts:200-207` | an excluded or already used combination is chosen only when its mode has nothing else left |
| `CandidateKeys.SeatingIsBestLineup` | `src/matchmaking/matchmaking-algorithm.service.ts:291-355` | each team of a split sits in a lineup of least total distance among all its lineups, where a seat's distance is the 0, 8, 12 or 25 of `SeatingMeaning.SeatCosts` |
| `CandidateKeys.CandidateSeatsEveryone` | `src/matchmaking/matchmaking-algorithm.service.ts:128-160` | a candidate seats every player once, five lanes a side, honouring every side and role lock |
| `CandidateKeys.KeyDeterminesTeam` | `src/matchmaking/matchmaking-algorithm.service.ts:536-538` | for ids without '|' equal keys mean the same players on the same lanes of side A |
| `CandidateKeys.SplitsHaveDistinctKeys` | `src/matchmaking/matchmaking-algorithm.service.ts:536-538` | different evaluable splits have different keys |
| `CandidateKeys.CandidatesDiffer` | `src/matchmaking/matchmaking-algorithm.service.ts:198-213` | whenever three splits are not excluded, the answer is three pairwise different combinations, none excluded |
| `Reroll.RerollNeverRepeats` | `src/matchmaking/matchmaking.service.ts:50-85` | whatever changed in the lobby, a reroll offers no mode the combination the previous answer offered it |
| `Reroll.ExcludesPrevious` | `src/matchmaking/matchmaking.service.ts:50-85` | a reroll excludes exactly the previous ids and keys, unless told otherwise, and those the request names, and breaks ties by its nonce |
| `Reroll.RerollIsNew` | `src/matchmaking/matchmaking.service.ts:50-85` | without locks an ordinary reroll returns three different combinations, none of which the previous answer offered in any mode |
| `Reroll.RerollsNeverRunDry` | `src/matchmaking/matchmaking.service.ts:50-85` | along every chain of rerolls each answer is three different combinations absent from the answer before |
| `Rematch.SeatedKeyReadsBack` | `src/matches/matches.service.ts:1317-1335` | assigning a candidate and rebuilding the key from the roster returns the candidate's key |
| `Rematch.AssignedKeyIsSelected` | `src/matches/matches.service.ts:1303-1336` | right after an assignment the stored candidate and the roster give the same key; assigning fails exactly for a number no candidate has |
| `Rematch.RerollForgetsSeating` | `src/matches/matches.service.ts:1306-1315` | after an assignment and any reroll, of any later lobby and with any options, the extracted key is still that of the seated combination exactly when the new answer has no candidate of the selected number |
| `Rematch.UnlockedRerollForgets` | `src/matches/matches.service.ts:1306-1315` | in a lobby without locks an ordinary reroll always has one, so the rematch never avoids the seated combination |
| `RematchLocks.OnlyOldCombination` | `src/matches/matches.service.ts:1056-1057` | with every player locked to the seat of the match, whatever powers and preferences they have now, each candidate repeats the old combination |
| `RematchLocks.RematchRepeatsOrFails` | `src/matches/matches.service.ts:1043-1073` | fed back unchanged, the rematch input yields nothing exactly when its first player sat on side B, and otherwise three candidates that all repeat the combination it excludes |
| `SeatedRosters.AssignedCanTakeResult` | `src/matches/matches.service.ts:473-498` | whatever candidate of whatever answer is assigned, the roster fills the ten slots once each and the match view allows a result |
| `SeatedRosters.ManualBalanceFillsExactly` | `src/matches/matches.service.ts:1403-1483` | a saved manual balance fills the ten slots, and the match view allows a result, exactly when no seat is on FILL |
| `SeatedRosters.ManualBalanceSavedExactly` | `src/matches/matches.service.ts:1371-1483` | a manual balance is saved exactly when the match is neither running nor over and the seats are those of its ten players, each once, five on a side and no two of a side on one role; otherwise nothing is written |
| `SeatedRosters.AssignedExactly` | `src/matches/matches.service.ts:439-498` | assigning goes through exactly for a stored candidate all of whose players are on the roster; otherwise nothing is written |
| `Backfill.BuildMatchHistoryPageRequests` | `src/riot/riot.service.ts:1267-1298` | the requests are the latest page and, unless complete, contiguous pages from the cursor on; no page overwrites another |
| `Backfill.PlanIncreases` | `src/riot/riot.service.ts:1276-1297` | the starts of a plan strictly increase |
| `Backfill.PlanHistory` | `src/riot/riot.service.ts:1284-1297` | the backfill part of a plan, sorted, is the contiguous run of pages from the cursor on |
| `SyncOutcome.PlanInNumbers` | `src/riot/riot.service.ts:1267-1298` | the number of requests, and start, size and kind of every one, from the cursor and the page sizes |
| `Backfill.AdvanceMatchHistoryCursor` | `src/riot/riot.service.ts:1552-1627` | the walk over the pages computes the cursor of the specification, with all its early exits |
| `SyncOutcome.CursorInNumbers` | `src/riot/riot.service.ts:1552-1627` | where a sync leaves the cursor, by the number of full and resolved backfill pages in front of it: past them, complete at the end of a resolved short one, and at the start on an unresolved latest page |
| `Backfill.BreakNeverFires` | `src/riot/riot.service.ts:1600-1602` | on planned pages the start comparison never decides the outcome |
| `Backfill.ReadingShows` | `src/riot/riot.service.ts:1129-1136` | a page read after n arrivals shows the original match at position p at p + n, and is short only at the end of the list |
| `Backfill.AdvanceFromIsSafe` | `src/riot/riot.service.ts:1595-1627` | although matches arrive between page reads, a walk that starts from a stored prefix claims only stored matches |
| `MatchHistorySync.ChunksJoin` | `src/riot/riot.service.ts:1662-1672` | chunking loses, repeats and reorders nothing |
| `MatchHistorySync.ChunksBounded` | `src/riot/riot.service.ts:1662-1672` | no chunk is empty or longer than the batch size |
| `SyncOutcome.ChunksFull` | `src/riot/riot.service.ts:1662-1672` | every chunk but the last has exactly the batch size |
| `MatchHistorySync.Chunk` | `src/riot/riot.service.ts:1662-1672` | the slicing loop computes those chunks |
| `MatchHistorySync.FetchMatchDetailsWithProgress` | `src/riot/riot.service.ts:1300-1382` | the loaded and failed ids partition the request list, and the processed counter rises by its length without passing the queued one |
| `MatchHistorySync.FetchBoth` | `src/riot/riot.service.ts:1176-1189` | priority and background fetch together end with processed equal to queued |
| `MatchHistorySync.RequestsAreDistinct` | `src/riot/riot.service.ts:1146-1154` | no match is requested twice in one sync, and every page id is known or requested |
| `MatchHistorySync.PageIdsAreAccountedFor` | `src/riot/riot.service.ts:1140-1189` | every id of every page ends up known, fetched or failed |
| `MatchHistorySync.ResolvedAreStored` | `src/riot/riot.service.ts:1217-1226` | after the new rows are inserted every resolved page id is stored |
| `MatchHistorySync.SyncMatchHistory` | `src/riot/riot.service.ts:1083-1265` | a whole sync throws, or yields the rows and cursor of the specification; it requests no id twice, reports progress within bounds and leaves no page id unaccounted for; when it goes through is `SyncOutcome.RefreshGoesThroughExactly` |
| `SyncOutcome.RefreshGoesThroughExactly` | `src/riot/riot.service.ts:1199-1206` | with distinct ids on the latest page, a refresh goes through if and only if the details of at least min(5, n) of its first n = min(10, page length) ids load, counted as a set |
| `SyncOutcome.InitialGoesThroughExactly` | `src/riot/riot.service.ts:1199-1206` | an initial sync goes through if and only if the same holds of the whole latest page |
| `SyncOutcome.SyncStoresExactly` | `src/riot/riot.service.ts:1140-1226` | a sync that goes through inserts exactly the unknown page ids whose details load, and its failure count is the number of requested ids whose details do not: the newest ones and the unknown ones |
| `SyncOutcome.SyncAgainstStore` | `src/riot/riot.service.ts:1154-1216` | against the stored rows: requested are the newest ids and every page id not stored, inserted every page id not stored whose details load |
| `SyncOutcome.DedupeInOrder` | `src/riot/riot.service.ts:1154-1163` | dropping repetitions keeps the order of first occurrences |
| `BackfillProtocol.AdvanceIsSafe` | `src/riot/riot.service.ts:1552-1627` | a finished sync's cursor claims only stored matches, for any pages read in plan order while the list grew |
| `BackfillProtocol.NextKeepsInv` | `src/riot/riot.service.ts:1083-1265` | every step of every overlapping sync, arrival, throw and crash keeps the invariant and deletes no row |
| `BackfillProtocol.RunKeepsInv` | `src/riot/riot.service.ts:475-534` | the invariant holds in every reachable state, whatever syncs overlap between reading the account and writing the cursor |
| `BackfillProtocol.BackfillIsSafe` | `src/riot/riot.service.ts:475-534` | in every reachable state each match of the list at the first sync that lies below the cursor is stored, and a complete flag means all of them are |
| `BackfillFollowUp.ResolvedCloses` | `src/riot/riot.service.ts:1129-1226` | a sync whose latest page is fully resolved and reaches back to the stored arrivals leaves no gap up to what it had seen, though matches arrive meanwhile |
| `BackfillFollowUp.ChainedHistoryHasNoGap` | `src/riot/riot.service.ts:1083-1265` | in every run, once the backfill is complete and resolved latest pages reach back to one another, every match but the arrivals after the last of them is stored, whatever else failed or overlapped |
| `BackfillFollowUp.FollowUpExactly` | `src/riot/riot.service.ts:1276-1283` | a complete account without gaps has none after any number of refreshes exactly when no more matches arrive between two of them than a latest page holds; a gap is never closed |
| `BackfillProgress.RefreshProgress` | `src/riot/riot.service.ts:1101-1265` | on a fixed list with all details loading, a refresh completes the history or raises the cursor by at least a page, never past the end |
| `BackfillProgress.SyncKeepsClaims` | `src/riot/riot.service.ts:1083-1265` | on a fixed list what the cursor claims stays stored through every initial sync and refresh, whichever details fail |
| `BackfillProgress.EveryAccountClaims` | `src/riot/riot.service.ts:345-348` | so it is for every account, whatever initial, failed or differently sized syncs it has behind it |
| `BackfillProgress.BackfillCompletes` | `src/riot/riot.service.ts:1101-1265` | from any account whose cursor claims only stored matches, floor(length / pageSize) + 1 refreshes complete the history with every match stored, for any page size and any positive number of extra pages |
| `ConfirmationPolicy.CollectLatest` | `src/results/result-confirmation-policy.service.ts:27-36` | sorting and keeping each user's first vote yields one vote per user |
| `ConfirmationPolicy.Evaluate` | `src/results/result-confirmation-policy.service.ts:6-71` | the method computes the policy's verdict on the votes it is given, which `PolicyInWords` writes out |
| `ConfirmationPolicy.LatestIsStanding` | `src/results/result-confirmation-policy.service.ts:27-36` | the kept votes are exactly the votes that no newer vote of the same user supersedes |
| `ConfirmationPolicy.EvaluationIsVerdictOnStanding` | `src/results/result-confirmation-policy.service.ts:6-71` | the verdict is that on the set of standing votes, so neither the order of the input nor any superseded vote matters |
| `ConfirmationPolicy.PolicyInWords` | `src/results/result-confirmation-policy.service.ts:30-71` | with one standing vote per user: DISPUTED exactly when two standing votes are no confirmation or one names another winner; CONFIRMED exactly when neither holds and each of at least two captains has a standing confirmation or ten times the standing confirmations reach seven times a positive participant count |
| `ConfirmationPolicy.OrderIndependentExactly` | `src/results/result-confirmation-policy.service.ts:27-36` | which votes count is independent of the load order if and only if no user has two standing votes |
| `ConfirmationPolicy.SummaryIsOfStanding` | `src/results/results.service.ts:1168-1201` | the counts and the winner conflict of the dispute view are those of the set of standing votes |
| `ConfirmationPolicy.DistinctTimesStandAlone` | `src/results/result-confirmation-policy.service.ts:27-34` | distinct creation times leave each user one standing vote |
| `ConfirmationPolicy.SupersededIsIrrelevant` | `src/results/result-confirmation-policy.service.ts:27-34` | removing a superseded vote changes no verdict |
| `ConfirmationPolicy.PlainConfirmNeverLowers` | `src/results/result-confirmation-policy.service.ts:37-70` | a user's newer plain confirmation never lowers the verdict in the order DISPUTED, PARTIAL, CONFIRMED |
| `ConfirmationPolicy.BuildDisputeSummary` | `src/results/results.service.ts:1168-1201` | the dispute view's own loop computes its counts and its winner conflict |
| `ConfirmationPolicy.DisputedExactlyAsShown` | `src/results/results.service.ts:1168-1201` | the policy disputes a result exactly when the dispute view shows two conflicts or a winner conflict |
| `ConfirmationPolicy.TiesDependOnOrder` | `src/results/result-confirmation-policy.service.ts:27-34` | where that fails even the verdict depends on the load order: for every result with a winner a user's confirmation and a dispute naming the other side, at one instant, dispute it in one order only |
| `ResultInput.AcceptedExactly` | `src/results/results.service.ts:942-1060` | the checks accept exactly when the input is a permutation of the match players, the MVP is one of them, and the players are in bijection with the ten (side, lane) slots |
| `ResultInput.ViewAgreesWithCheck` | `src/matches/matches.service.ts:975-1023` | the match view allows a result, finalisation aside, exactly when the roster part of those checks holds, which is the slot bijection |
| `ResultInput.RefusedExactly` | `src/results/results.service.ts:942-1060` | which error a refused input gets: the first that fails of count, distinct ids, same ids, known MVP, everybody placed, and slot bijection |
| `ResultInput.BlockedExactly` | `src/matches/matches.service.ts:966-1031` | which reason the match view gives, in the same terms |
| `ResultLifecycle.MatchStore.SubmitQuickResult` | `src/results/results.service.ts:121-303` | a submission updates the rows as the specification says, whose answers and writes `ResultEffects.SubmissionAnswers` and `SubmissionWrites` spell out |
| `ResultEffects.SubmissionAnswers` | `src/results/results.service.ts:121-163` | every submission gets exactly one answer, decided by rating range, repeated non-empty key, confirmed result and input check, and only an accepted one that is no replay writes |
| `ResultEffects.SubmissionWrites` | `src/results/results.service.ts:173-258` | an accepted submission that is no replay stores the request's winner, MVP and rating as a PARTIAL result, new at version 1 or as the next version, gives every participant a PARTIAL stat on exactly their side and lane of the roster and nobody else one, and leaves roster and votes alone |
| `ResultLifecycle.MatchStore.ConfirmResult` | `src/results/results.service.ts:305-378` | a confirm call stores the vote under the current version and then finalizes |
| `ResultLifecycle.MatchStore.FinalizeResultStatus` | `src/results/results.service.ts:673-747` | finalizing writes the policy's verdict to result, stats and match |
| `ResultEffects.RosterCounts` | `src/results/results.service.ts:700-712` | the policy is asked about the participants who accepted or are locked in, and about every captain |
| `ResultEffects.VotesExactly` | `src/results/results.service.ts:713-715` | and is given all votes of the current version and no other |
| `ResultEffects.EvaluationWrites` | `src/results/results.service.ts:673-747` | an evaluation writes the written-out verdict to result, stats and match together, sets the confirmation time exactly when it confirms, and changes nothing else |
| `ResultEffects.ConfirmationWrites` | `src/results/results.service.ts:305-378` | a vote call is refused exactly for strangers and for results that are not the match's, and otherwise appends the vote under the current version and evaluates |
| `ResultEffects.LockWrites` | `src/matches/matches.service.ts:327-381` | locking succeeds exactly for ten participants who all joined, locks each in and changes nothing else |
| `ResultEffects.UpdateWrites` | `src/matches/matches.service.ts:214-325` | a participant update changes that participant, and in a locked match also reopens recruiting and unlocks the others |
| `ResultEffects.AddingWrites` | `src/matches/matches.service.ts:156-212` | adding keeps everybody in place and appends exactly the unknown users, unseated |
| `ResultEffects.SeatingLocksIn` | `src/matches/matches.service.ts:473-498` | a seated participant is locked in and keeps id and captaincy |
| `ResultLifecycle.WithStatsSets` | `src/results/results.service.ts:203-248` | the upsert loop gives the input players, and nobody else, a new partial stat |
| `ResultLifecycle.SubmitKeeps` | `src/results/results.service.ts:121-303` | a submission keeps all rows consistent, since its input covers every stat there is |
| `ResultLifecycle.RunsStayConsistent` | `src/results/results.service.ts:151-258` | over all runs of all calls every stat has its result's status, stats exist only with a result, and confirmedAt is set exactly on confirmed results |
| `ResultLifecycle.CallAgreesExactly` | `src/matches/matches.service.ts:327-512` | one call: the match names its result afterwards exactly when the guards of a result call hold, or it did before and the guards of a lock, manual balance or assignment over a result do not |
| `ResultLifecycle.RunsAgreeExactly` | `src/matches/matches.service.ts:327-585` | over all runs of all calls the match names its result exactly when every lock, manual balance or assignment that went through over a result was followed by a result call that went through |
| `ResultLifecycle.ResultRunsAgree` | `src/matches/matches.service.ts:521-585` | in runs of submit, confirm, finalize, resolve and reopen only, the match status names its result's status throughout |
| `ResultLifecycle.ReplayIsIgnored` | `src/results/results.service.ts:147-149` | a submission replayed with its key changes nothing, whatever votes, jobs, resolutions and roster edits came in between |
| `ResultTransitions.ResolutionIsReevaluated` | `src/results/results.service.ts:700-747` | the next evaluation forgets the resolution: a changed result falls back to PARTIAL, an unchanged one to the verdict on the disputed votes, so it stays CONFIRMED exactly when nothing was changed and the policy confirms those votes anyway |
| `ResultTransitions.ResolutionConfirms` | `src/results/results.service.ts:565-610` | a resolution that goes through confirms result, stats and match, sets the winner, replaces MVP and rating where given, and opens a new version exactly when one of the three changes |
| `ResultTransitions.ResolutionAnswers` | `src/results/results.service.ts:502-555` | it goes through exactly for a rating of 1 to 5 or none, an MVP of the roster or none, and the disputed result of the match, and otherwise writes nothing |
| `ResultTransitions.ResolutionNeverSurvives` | `src/results/results.service.ts:673-747` | no resolution of a settled dispute survives the next follow-up job |
| `ResultTransitions.ReopenStartsOver` | `src/matches/matches.service.ts:514-599` | reopening leaves the same people and captains, nobody seated, and no result, vote or stat; until seats are filled no submission is accepted and no second reopening goes through |
| `ResultConvergence.WriteKeepsWanted` | `src/results/results.service.ts:720-747` | writing a verdict changes no later verdict, and writing the right one settles the match |
| `ResultConvergence.NextKeepsInv` | `src/results/results.service.ts:345-367` | every interleaved step of calls and jobs keeps the invariant behind eventual agreement |
| `ResultConvergence.QuietMeansSettled` | `src/results/results.service.ts:673-751` | with one job at a time, whenever no call is in flight and the queue is empty, result, stats and match show the policy applied to all votes, despite stale writes |
| `ResultConvergence.DrainWorksOff` | `src/results/results.processor.ts:16-22` | every step other than a new vote leaves exactly one step less to do |
| `ResultConvergence.PendingCanStep` | `src/results/results.processor.ts:16-22` | until the system is quiet some step is possible |
| `ResultConvergence.VotingStopsThenSettles` | `src/queue/queue.service.ts:58-62` | once voting stops every schedule ends after exactly the pending work, in a settled state |
| `ResultConvergence.SubmissionStartsSettled` | `src/results/results.service.ts:173-258` | a submission opens a version without votes and leaves the match settled |
| `ResultConvergence.MoreWorkersCanDisagree` | `src/results/results.processor.ts:16-22` | after every submission and for any number of workers above one, two votes of its MVP have a run that ends quiet and unsettled |
| `ResultConvergence.AgreementNeedsOneWorker` | `src/results/results.processor.ts:16-22` | after every submission, agreement in every run of votes and jobs holds if and only if at most one job runs at a time |
| `ResultConvergence.InvariantIsWeakest` | `src/results/results.service.ts:673-751` | the invariant is the weakest: with one worker, agreement in every run from a state is the same as the invariant there |
| `ResultConvergence.AbortAgreesExactly` | `src/results/results.service.ts:345-367` | a call that fails after storing its vote, at whatever stage, keeps agreement in every later run exactly when another call, a queued job or an unread job remains, or the verdict on all votes is stored or about to be |
| `ResultConvergence.AbortedJobAgreesExactly` | `src/queue/queue.service.ts:58-62` | a follow-up job that fails, as none is retried, keeps agreement in every later run exactly when a call or another queued job remains or the verdict on all votes is stored |
| `ResultConvergence.AbortedVoteIsLost` | `src/results/results.service.ts:345-367` | after every submission some vote, aborted before or after its read, leaves the match unsettled for good |
| `Throttle.PublicThrottle.CanActivate` | `src/common/guards/public-throttle.guard.ts:25-64` | one request updates only its key's entry, admits or refuses as specified, and leaves the store alone when refused or without limits |
| `Throttle.RetrySeconds` | `src/common/guards/public-throttle.guard.ts:48` | the reported wait is at least a second, covers the remaining time, and overshoots it by less than a second |
| `Throttle.DecideTracks` | `src/common/guards/public-throttle.guard.ts:41-63` | one request keeps what the entry knows about all admissions of its key so far |
| `Throttle.TraceTracks` | `src/common/guards/public-throttle.guard.ts:41-63` | after every trace with a running clock the entry knows the exact admissions of its window |
| `Throttle.AtMostTwiceTheLimit` | `src/common/guards/public-throttle.guard.ts:41-63` | a key is admitted at most limit times in its window and at most twice that in any half-open interval of one window length |
| `Throttle.RefusedOnlyAtTheLimit` | `src/common/guards/public-throttle.guard.ts:47-58` | a refusal means exactly limit admissions in the current window; after the reported wait the window is over and the key passes |
| `ChampionSummary.AggregateHistory` | `src/riot/riot-champion-summary.service.ts:277-321` | the loop over the history fills the buckets of the specification, in first-seen order |
| `ChampionSummary.AggregateConserves` | `src/riot/riot-champion-summary.service.ts:272-321` | every mapped row is one game of exactly the bucket of its key; games and mapping failures add up to the history |
| `ChampionSummary.BucketsHoldTheirRows` | `src/riot/riot-champion-summary.service.ts:300-320` | every bucket's wins, losses, kills, deaths, assists, season games and last play are those of the rows of its key |
| `ChampionMeaning.RowCountsFor` | `src/riot/riot-champion-summary.service.ts:388-413` | a row counts for its champion id or, without one, for the letters and digits of its key or name, and fails to map exactly when there are none |
| `ChampionMeaning.BucketsAreNamed` | `src/riot/riot-champion-summary.service.ts:286-320` | a bucket is labelled with the first non-empty name among its rows |
| `ChampionSummary.RankedByGames` | `src/riot/riot-champion-summary.service.ts:440-459` | ranking permutes the buckets into non-increasing games |
| `ChampionSummary.RankedInOrder` | `src/riot/riot-champion-summary.service.ts:440-459` | for a collation that is a total preorder the ranking is in full comparator order: games, latest-season games, win rate, last play, name |
| `ChampionSummary.AdditionsAreNext` | `src/riot/riot-champion-summary.service.ts:330-350` | what a threshold adds to a taken prefix is the next stretch of the ranking |
| `ChampionSummary.OnePass` | `src/riot/riot-champion-summary.service.ts:330-355` | one threshold pass extends the selection to the buckets that reach it, up to three, and records the threshold and fallbacks |
| `ChampionSummary.SelectTopChampions` | `src/riot/riot-champion-summary.service.ts:325-368` | the three-threshold loop returns exactly the first three buckets; the threshold used is the top bucket's games capped at three, or none |
| `ChampionSummary.BuildTopChampions` | `src/riot/riot-champion-summary.service.ts:272-368` | the whole aggregation returns the top three of the conserved buckets and the right threshold |
| `ChampionMeaning.TopThreeLead` | `src/riot/riot-champion-summary.service.ts:325-459` | every champion left out ranks no earlier than each of the top three: fewer games or, at equal numbers, fewer latest-season games, fewer wins, an earlier last game, a later name |
| `ChampionMeaning.TopThreeInOrder` | `src/riot/riot-champion-summary.service.ts:440-459` | and the top three are in that order among themselves |
| `LaneSpread.ApplySpread` | `src/power/calculators/lane-power.calculator.ts:121-138` | the in-place loop rewrites every role's record by the spread around the average taken before it |
| `LaneSpread.SpreadIsCut` | `src/power/calculators/lane-power.calculator.ts:122-132` | on hundredths the nested clamps and roundings amount to cutting the spread target to 1.8 around the old power |
| `LaneSpread.SpreadKeepsOrder` | `src/power/calculators/lane-power.calculator.ts:121-132` | the spread keeps the order of the roles, through rounding and clamping |
| `LaneSpread.SpreadMovesAway` | `src/power/calculators/lane-power.calculator.ts:121-132` | roles at or above the average never fall, roles at or below it never rise, and none moves more than 1.8 |
| `LaneSpread.SpreadRate` | `src/power/calculators/lane-power.calculator.ts:121-132` | a role moves away from the average by 28 percent of its distance to within half a hundredth, by 1.8 where that would be more, and never beyond 0 and 100 |
| `LaneSpread.SpreadStrictly` | `src/power/calculators/lane-power.calculator.ts:121-132` | a role 0.02 or more off the average strictly moves away, unless it is at the end of the scale |
| `LaneSpread.RecordAfter` | `src/power/calculators/lane-power.calculator.ts:122-138` | a role's record holds the power before and after, their difference, and the adjustment with that difference added, cut to -10.2 and 12.6 |
| `LaneSpread.AverageOfFive` | `src/power/calculators/lane-power.calculator.ts:117-120` | the average is a fifth of the five powers together |
| `LaneSpread.GapNeverShrinks` | `src/power/calculators/lane-power.calculator.ts:117-132` | the maximum minus the minimum of the powers the loop leaves is at least that of the powers before it |
| `InhouseMmr.Calculate` | `src/power/calculators/inhouse-mmr.calculator.ts:84-137` | the loop over the matches sorted by time computes the fold of the specification |
| `InhouseMmr.OrderIsIrrelevant` | `src/power/calculators/inhouse-mmr.calculator.ts:91-93` | for distinct play times the ratings do not depend on the order of the input |
| `InhouseMmr.PlayedBounds` | `src/power/calculators/inhouse-mmr.calculator.ts:93-137` | one match keeps every rating in 900 to 2100, moves only its own role, by at most 32, and not at all when disputed |
| `InhouseMmr.RatingsAreBounded` | `src/power/calculators/inhouse-mmr.calculator.ts:84-173` | the ratings the calculator returns stay in range, lie at most 32 per match on the role from their seeds, and equal the seed on an unplayed role |
| `InhouseMmr.DisputedChangeNothing` | `src/power/calculators/inhouse-mmr.calculator.ts:84-173` | leaving out disputed matches changes no rating and no count |
| `RatingMeaning.ScoreInPoints` | `src/power/calculators/inhouse-mmr.calculator.ts:114-124` | the score of a performance is its points in hundredths, cut to 0 and 1: 100 for winning, 10 either way for the lane, 4 per step of contribution up to 8, 4 for the MVP |
| `RatingMeaning.ConfidenceInHundredths` | `src/power/calculators/inhouse-mmr.calculator.ts:96-99` | a match weighs 80 to 100 hundredths by its rating when confirmed, half of that, rounded up, when unconfirmed, nothing when disputed |
| `RatingMeaning.EntryInWords` | `src/power/calculators/inhouse-mmr.calculator.ts:198-206` | another player enters a team average at 1000 and ten points per unit of power, between 900 and 2100 |
| `RatingMeaning.TotalAppend` | `src/power/calculators/inhouse-mmr.calculator.ts:185-189` | a team total starts at nothing and gains one entry per further player of its side |
| `RatingMeaning.AverageInWords` | `src/power/calculators/inhouse-mmr.calculator.ts:191-195` | an empty team counts as 1500, any other as the mean of its entries to within half a hundredth |
| `RatingMeaning.BetterNeverLess` | `src/power/calculators/inhouse-mmr.calculator.ts:113-127` | more points in the same match never yield a lower rating |
| `RatingMeaning.WinningPays` | `src/power/calculators/inhouse-mmr.calculator.ts:113-125` | winning is worth at least 9.9 more than losing the same match with the same performance, and at least 19.9 when confirmed |
| `RatingMeaning.TougherNeverLess` | `src/power/calculators/inhouse-mmr.calculator.ts:100-127` | stronger opponents and weaker team-mates never make a match worth less, for any decreasing logistic |
| `RatingMeaning.EvenMatch` | `src/power/calculators/inhouse-mmr.calculator.ts:113-125` | between even teams a plain win is worth exactly 0.16 times the weight of the match, a plain loss as much the other way |
| `RatingMeaning.RatingMoves` | `src/power/calculators/inhouse-mmr.calculator.ts:125-127` | the change is added to the rating on the role, cut to 900 and 2100 |
| `RatingMeaning.ReplayOrder` | `src/power/calculators/inhouse-mmr.calculator.ts:92-93` | matches are replayed by confirmation time or else creation time, those of one time in list order |
| `RatingMeaning.ConfirmedAreCounted` | `src/power/calculators/inhouse-mmr.calculator.ts:128-131` | the reported counts are those of the confirmed matches, in all and on each lane |
| `Rounding.ClampMonotone` | `src/power/calculators/lane-power.calculator.ts:165-167` | the rounding clamp is monotone |
| `Rounding.ClampCuts` | `src/power/calculators/lane-power.calculator.ts:165-167` | on hundredths the rounding clamp only cuts |
| `Rounding.ClampIsClose` | `src/power/calculators/lane-power.calculator.ts:165-167` | inside its bounds the clamp is off by half a hundredth at most |
| `Rounding.NearestIsClosest` | `src/matchmaking/matchmaking-algorithm.service.ts:419-424` | toFixed goes to a nearest digit, from a tie away from zero |

## Left out

- BalancerOptimality.ChoiceIsOptimal: stated under `LocksCover`; `ChoiceBeats` states it for every split that is evaluable as listed, and `LockLoss.LossExactly` says exactly when that is all of them. With excluded ids the best unused offer is claimed by `PicksAreGood` only.
- BalancerOptimality.BalancedIsOptimal: stated under `LocksCover`, which includes every lobby without side locks; `LockLoss.BalancedIsOptimalUnlessLost` covers every lobby that loses no split.
- ScoreMeaning.BalancedNeverClearlyWorse: speaks of differences of 0.002 or more in a metric, which the four digits of a score cannot hide; smaller ones may tie.
- CandidateKeys.CandidatesDiffer: needs user ids without '|', as keys join ids with that character.
- PairHistory.RepeatPenaltyIsDirect: needs user ids without ':', as pair keys join ids with that character, and one roster row per user and match, which the table's unique key provides.
- Reroll.RerollIsNew: stated for lobbies without role or side locks and without further exclusions in the request; `CandidatesDiffer` covers any lobby with three splits left.
- Rematch.UnlockedRerollForgets: stated for lobbies without locks and reroll options at their defaults; the general case is the if-and-only-if of `RerollForgetsSeating`.
- RematchLocks.RematchRepeatsOrFails: speaks of a roster that fills the ten slots and of requests without excluded ids; `OnlyOldCombination` allows any request.
- BackfillProtocol.BackfillIsSafe: speaks of the matches listed at the first sync; later arrivals are the subject of `BackfillFollowUp`. The cursor itself may move back when syncs overlap.
- BackfillFollowUp.FollowUpExactly: refreshes run one after the other, all details load, and the arrivals are new to the store; `ChainedHistoryHasNoGap` gives the sufficient half for overlapping and failing syncs.
- BackfillProtocol.NextKeepsInv: account withdrawal, which deletes rows (`src/users/users.service.ts:248-254`), is outside the protocol.
- BackfillProgress.RefreshProgress: the latest page of a refresh has the configured page size, as in `src/riot/riot.service.ts:1117`; all details load and at least one extra page is configured.
- ChampionSummary.RankedInOrder: needs the collation of names to be a total preorder.
- SyncOutcome.RefreshGoesThroughExactly: the ids of the latest page are distinct; a repeated id would count once per listing.
- ChampionMeaning.TopThreeLead: needs the collation of names to be a total preorder, as RankedInOrder does.
- Backfill.BuildMatchHistoryPageRequests: page sizes are positive, as the environment schema demands.
- ConfirmationPolicy.EvaluationIsVerdictOnStanding: each user has one standing vote, which is exactly when the order of the input does not matter (`OrderIndependentExactly`).
- ConfirmationPolicy.PolicyInWords: each user has one standing vote, likewise.
- ResultConvergence.QuietMeansSettled: no resubmission, resolution or reopening races with calls and jobs; calls and jobs that fail half way are the subject of `AbortAgreesExactly` and `AbortedJobAgreesExactly`.
- ResultLifecycle.ResultRunsAgree: the special case of runs without locking, manual balancing and assigning; all runs are covered by `RunsAgreeExactly`.
- ResultLifecycle.RunsStayConsistent: does not claim that a CONFIRMED result is final, because later votes and queued jobs evaluate it again.
- RatingMeaning.TougherNeverLess: for a decreasing logistic, as the curve of the source is.
- InhouseMmr.RatingsAreBounded: seeds are rounded ratings in range, and statistics are on the five lanes; the role FILL has no rating to read.
- LaneSpread.SpreadKeepsOrder: powers before the spread are hundredths between 0 and 100, which their own clamp yields.
- Floating-point noise: all arithmetic is exact, so sums do not depend on their order.
- Strings are sequences of characters; UTF-16 surrogates and Unicode normalisation are not modelled.
- Seats carry user, lane and power; nicknames, explanation tags and two-decimal team powers of a candidate are not modelled.
- Player statistics carry side, lane and status; kills, deaths, assists, lane results and contribution are not modelled in the result rows.
- Caller authorization, audit logs, notifications, power recalculation jobs and logging around each call.
- Database queries and their isolation; every transaction is one step.
- The Riot client, retries, rate limits and stale-sync recovery; a failed sync is a step that leaves the cursor alone.
- The season counted as latest, champion display names and the status texts of the champion summary.
- Throttle keys are given; how they are built from scope, route and forwarded address is not part of this model.
- The overall rating, the recent-match list and the resolution of participants' power profiles in the rating calculator; lane power before the spread.
- Recruiting, groups, blocks, reports, authentication and account management.
