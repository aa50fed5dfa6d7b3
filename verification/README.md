# Verification of the catalog, backup and evaluation scripts

A Dafny model of the operator scripts of a choose-your-own-adventure catalog, with proofs of
what their algorithms promise. Verify everything with `dafny verify dfyconfig.toml`.

Reals stand for floats, sequences and maps for JSON, and every source of randomness, failure
or outside judgment (draws, selectors, bucket calls, dumps, reviewers, the square root) is an
arbitrary input. Where the code works by loops and assignments the model does too, and each
such method is proved against a specification about which the theorems are then stated.

| files | what they model |
|---|---|
| `BandSurvival`, `Exposure`, `ExposureCurves`, `ExposureCalls`, `HistoryScopes`, `CapHorizon`, `BudgetSplit`, `BudgetPlaces` | catalog exposure: the polynomial form of a draw-a-cell process, the two reader simulators, call by call and under both history scopes, how far the reuse cap keeps books apart, the pool-size search, the budget search |
| `BackupInterleaving`, `BackupRun`, `BackupSchedule`, `BackupDays` | encrypted backups: overlapping runs on shared keys, one run against a bucket whose every call may fail, tiered expiry over a log of days, and such runs day after day against one bucket |
| `FleissKappa`, `KappaPairs` | rater agreement |
| `StoryGraph`, `Blinding` | the story-graph checker, and the renaming that must not change what it says |
| `Matching`, `DecisionOverlap`, `OverlapScores` | decision overlap between two contracts |
| `DeviceHeadroom` | series headroom of a device vocabulary |
| `Shorthand`, `ShorthandForms`, `SeriesBook`, `BookRoundTrip`, `FillIntegrity` | the two-target book compiler, its shorthand parsers, writing a book down and compiling it back, and the checker that compares a fill with its skeleton |
| `Verdicts`, `BatchSweep`, `CorpusSweep`, `WilsonInterval` | the evaluation harness: majorities, batched review and stitching, regressions, the score interval |
| `Collections`, `Text`, `Digits`, `Division` | shared containers, and string, numeral and division facts |

Most lemmas carry `{:induction false}`: their proofs are explicit and use no automatic induction.

## Where the code and its documentation differ

The model follows the code. These differences are theorems here, with the exact condition
under which the code does what it is said to do.

- `_best_alignment` is described as a maximum over pairings; when option ids are shared it
  compares by id, and is the maximum exactly when no two options cross
  (`DecisionOverlap.HitsAreBestIff`; `DecisionOverlap.AlignedCanMissTheBest` is a pair of forks).
- "A cell of size M is repeat-free for M requests", with a caveat past request 20: what the cap
  guarantees is exactly the first min(M, 21) requests, because it looks back twenty books
  (`CapHorizon.GuaranteedDistinctIff`).
- The three-day gap of the history check is said to lie below the daily floor. A policy tolerates
  a gap exactly when it is at most three days and below the daily retention, so at the floor of
  three daily days two missed nights already fail (`BackupSchedule.GapToleratedIff`, with the log
  in `BackupSchedule.FloorDoesNotTolerateTwoMisses`).
- The history check counts any object under the daily prefix as a backup
  (`BackupSchedule.LeftoversSatisfyTheCheck`); exactly what it passes on is `BackupDays.RejectedIff`,
  and exactly when a pass attests a complete set is `BackupSchedule.PassAttestsSetIff`.
- A set whose run finished can vanish without any race (`BackupInterleaving.FinishedSetCanVanish`);
  exactly when it stays is `BackupInterleaving.SetSurvivesIff`.
- No failed run is said to mutate retention; one whose write of the rules lands and then raises
  does (`BackupRun.FailedRunMutatesRetention`), and exactly such a run (`BackupRun.RunBackup`).
- `blind` is documented as replacing the book's id and version by the blind code; it drops both
  for every book and every code (`Blinding.BlindDropsIdAndVersion`).
- `run_safety_stage` treats a batch size below one as one, while the sweep's size report shows no
  call for it (`BatchSweep.ReportedSizesAreRealIff`).
- Items are scored on their own verdicts only while no other item with a node shares their key
  (`BatchSweep.NothingCrossesIff`).
- `required_pool_size` promises nothing above 600, yet answers a larger starting size that
  suffices (`ExposureCurves.RequiredPoolSize`).
- `band_survival` with a negative horizon fails with an index error that its documentation does
  not list (`BandSurvival.ComposeCurves`).
- `parse_condition` accepts connectives with no piece or one piece around them, and gives a normal
  form exactly when every connective has at least two (`ShorthandForms.NormalFormIff`; the texts in
  `Shorthand.LoneConnective` have none); it takes whatever follows `!` as a name
  (`ShorthandForms.NegationTakesAnything`).
- The headroom check bills a miscounted axis by its declared count and subtracts pinned kinds it
  does not have; exactly what it bills is `DeviceHeadroom.HeadroomBills`.
- The duplicate-id check does not see an explicit id that spells a positional key
  (`FillIntegrity.DuplicateCheckMissesImpostors`).

## Model

| member | source | states |
|---|---|---|
| `PowerSeries.Leibniz` | scripts/analyze_sibling_exposure.py:1268-1286 | The product rule for truncated products: the derivative of a convolution is the sum of the two convolutions with one factor differentiated. It is what lets one polynomial coefficient stand for a whole process. |
| `PowerSeries.ExponentialDerivative` | scripts/analyze_sibling_exposure.py:1271-1277 | Differentiating a cell's generating polynomial shifts its survival curve by one request and multiplies by the cell's share. |
| `BandSurvival.ProductDerivative` | scripts/analyze_sibling_exposure.py:1268-1286 | Differentiating the product over all cells is the share-weighted sum of the products in which one cell has been asked once more: one step of the process. |
| `BandSurvival.CoefficientIsProcess` | scripts/analyze_sibling_exposure.py:1230-1286 | N! times the N-th coefficient of the product of the cells' polynomials is the step-by-step process value (draw a cell by its share, count the request, multiply the survivals at the end), for every number of cells, every starting count and every N. |
| `BandSurvival.Convolve` | scripts/analyze_sibling_exposure.py:1275-1282 | The in-place truncated convolution, with its skip of zero rows, computes exactly the coefficients of the product. |
| `BandSurvival.ComposeCurves` | scripts/analyze_sibling_exposure.py:1225-1286 | The whole function: one error for curves and shares of different number, one for a curve too short, an index failure for a negative horizon, and otherwise the process probability at every N up to the horizon, clamped. |
| `BandSurvival.BandCurveIsProbability` | scripts/analyze_sibling_exposure.py:1225-1286 | With non-negative shares summing to one and curves within [0, 1] the clamp changes nothing; the result starts at one when the curves do and never rises when they never rise. |
| `BandSurvival.BandCurveIsNearest` | scripts/analyze_sibling_exposure.py:1283-1286 | Whatever the shares and curves, what is reported is the number of the unit interval nearest to the process value. |
| `BandSurvival.ProcessFalls` | scripts/analyze_sibling_exposure.py:1230-1238 | One more request never raises the chance of having met no miss, from any state of the process. |
| `BandSurvival.ProcessGrows` | scripts/analyze_sibling_exposure.py:1230-1238 | Raising survival curves pointwise never lowers the process value, from any state. |
| `BandSurvival.RaisingCurvesHelps` | scripts/analyze_sibling_exposure.py:1268-1304 | Raising curves pointwise lowers neither a value of the band curve nor the expected requests before a miss. |
| `BandSurvival.SumIsTruncatedExpectation` | scripts/analyze_sibling_exposure.py:1289-1304 | The sum the program returns is an expectation truncated at the horizon: a first miss on request k counts k, and a child still unmissed counts the length of the curve. |
| `Exposure.Serve` | scripts/analyze_sibling_exposure.py:409-414 | What a request is served: nothing from an empty cell, else what the selector picks when shown the counts over the last twenty entries of the family or reader history. |
| `Exposure.Request` | scripts/analyze_sibling_exposure.py:1081-1099 | One reader's request moves the shared history, that reader's history and that reader's record, and nobody else's. |
| `Exposure.RepeatedIffShort` | scripts/analyze_sibling_exposure.py:1074-1105 | After any draws by anybody, for any selector: the record the loop keeps of a reader says repeated exactly when the distinct slugs seen plus the unservable requests fall short of the requests made. |
| `Exposure.Round` | scripts/analyze_sibling_exposure.py:1080-1105 | One turn of every reader in order, with repeats, distinct slugs and unservable requests added to the running counts. |
| `Exposure.Trial` | scripts/analyze_sibling_exposure.py:1074-1105 | One family of readers over all request indices: each index gains exactly what the family shows after that many requests each. |
| `Exposure.Simulate` | scripts/analyze_sibling_exposure.py:478-505 | All trials: the three totals at each request index are the sums over trials of what the readers of that trial have met by then. |
| `Exposure.RepeatsRise` | scripts/analyze_sibling_exposure.py:503-507 | The repeat totals never fall with the request index and never exceed the readers observed. |
| `Exposure.ServedCount` | scripts/analyze_sibling_exposure.py:478-505 | In the single-cell simulation every reader has been served exactly as often as they have had a turn. |
| `Exposure.CertainPastThePool` | scripts/analyze_sibling_exposure.py:83-85 | Past the pool size every reader of every trial has met a repeat, whatever the selector does and however many readers share the family. |
| `Exposure.ScopesAgree` | scripts/analyze_sibling_exposure.py:433-434 | With a single reader the family-wide and the per-child history scope are the same simulation. |
| `ExposureCalls.EveryDraw` | scripts/analyze_sibling_exposure.py:1080-1099 | Every draw of every run from its place alone: the children take turns, the call number picks the cell and goes to the selector, and the selector sees the last twenty books served to the family or to that child, as the scope says; an empty cell serves nobody. |
| `ExposureCalls.EveryCall` | scripts/analyze_sibling_exposure.py:478-501 | The calls are numbered through the whole simulation: in trial t the request i of child c is call (t * requests + i) * children + c, so no two trials share one. |
| `ExposureCalls.TotalsSplit` | scripts/analyze_sibling_exposure.py:503-507 | Requests that brought a new book and requests that brought none make up all the requests of all readers exactly as long as the repeat total is zero. |
| `HistoryScopes.FamilyKeepsApart` | scripts/analyze_sibling_exposure.py:485-487 | Under the family scope, for any number of children and cells and any selector under the cap: two books served to anybody at most twenty servings apart differ, from pools of more than twenty throughout, from smaller ones of M for the first M servings. |
| `HistoryScopes.ChildKeepsApart` | scripts/analyze_sibling_exposure.py:1086-1090 | Under the child scope the same holds within each child's own list. |
| `HistoryScopes.SiblingsShareABook` | scripts/analyze_sibling_exposure.py:1086-1090 | And only there: under the child scope two siblings can be served the same book one after the other. |
| `HistoryScopes.ApartIffFamilyScope` | scripts/analyze_sibling_exposure.py:485-487 | With a pool of more than twenty books the cap keeps the whole family apart, whatever honours it, exactly under the family scope or with a single child. |
| `Exposure.FilteredDrawHonoursCap` | src/cyo_adventure/generation/skeleton_match.py:697-706 | Whatever the weights, a draw from what the reuse filter leaves never takes a slug the window shows as used while an unused one exists. |
| `Exposure.CapIsDroppedIff` | src/cyo_adventure/generation/skeleton_match.py:697-706 | The filter gives up exactly when every candidate has been used, and then keeps all of them; otherwise each unused candidate stays as often as it was offered and no other does. |
| `Exposure.NextIsFresh` | scripts/analyze_sibling_exposure.py:80-94 | For one reader under the cap the next book is not among the last twenty while the pool outnumbers what the window shows. |
| `Exposure.CapKeepsBooksApart` | scripts/analyze_sibling_exposure.py:80-94 | For one reader under the cap: from a pool of more than twenty any two books at most twenty requests apart differ, and from a smaller pool of M the first M books do. |
| `ExposureCurves.PickIndex` | scripts/analyze_sibling_exposure.py:988-1007 | The selecting loop, including its fallback to the last cell that anybody asks for. |
| `ExposureCurves.DrawSelectsItsStretch` | scripts/analyze_sibling_exposure.py:989-1007 | A draw below the total selects a cell exactly when it falls in that cell's stretch of the unit interval, as long as the cell's share; a cell without demand is never drawn. |
| `ExposureCurves.SimulateExposure` | scripts/analyze_sibling_exposure.py:463-525 | The single-pool simulation with its two argument errors, and otherwise the rates of the simulated totals with the first request whose repeat is at least as likely as not. |
| `ExposureCurves.BindingCell` | scripts/analyze_sibling_exposure.py:931-954 | The binding cell is the first of the wanted cells with the most demand per book, an empty one before any other; there is none exactly when nobody asks for any cell. |
| `ExposureCurves.BindingByFigures` | scripts/analyze_sibling_exposure.py:931-954 | The same in figures: share times books, cross-multiplied, against every other wanted cell, strictly against the earlier ones. |
| `ExposureCurves.SimulateBand` | scripts/analyze_sibling_exposure.py:1057-1126 | The band simulation with its two argument errors; every request draws its cell by the demand shares, an empty cell counts as unservable, and a report always names the cell that binds. |
| `ExposureCurves.CurveShape` | scripts/analyze_sibling_exposure.py:507-516 | A reported curve lies in [0, 1] and never falls, so the reported crossing splits it: below one half before it, at least one half from it on. |
| `ExposureCurves.PaddedPoolIsFull` | scripts/analyze_sibling_exposure.py:528-548 | A padded pool holds as many different slugs as its size, at any size, when the real ones differ and none bears a placeholder name. |
| `ExposureCurves.CellSurvival` | scripts/analyze_sibling_exposure.py:1147-1187 | A cell's survival curve: one and then zeros for an empty cell, else the complement of the simulated repeat rate; always within [0, 1], starting at one and never rising, which is what the band composition needs. |
| `ExposureCurves.SmallPoolFails` | scripts/analyze_sibling_exposure.py:606-608 | Pigeonhole: a pool of fewer books than the target request fails the acceptance test for any selector and any number of readers, so the search may skip it. |
| `ExposureCurves.TightForOneReader` | scripts/analyze_sibling_exposure.py:575-583 | For one reader and a target up to 21 the acceptance test passes exactly when the pool holds at least the target. |
| `ExposureCurves.RequiredPoolSize` | scripts/analyze_sibling_exposure.py:597-627 | Doubling then bisecting: the answer suffices and its predecessor was rejected; over an upward-closed test it is the least sufficient size from the starting point on, and none means none suffices up to the largest size tried. Over any test the answer is at most the first size of the ladder (doubled, at most 600) that suffices, and none means no size of the ladder does. The answer exceeds 600 exactly when the starting size does and suffices. |
| `CapHorizon.GuaranteedDistinctIff` | scripts/analyze_sibling_exposure.py:83-94 | From a pool of M different books the cap guarantees one reader k different books exactly when k is at most min(M, 21): beyond that some selector that honours it repeats. |
| `CapHorizon.CertainRatesIff` | scripts/analyze_sibling_exposure.py:83-94 | Over all selectors that honour the cap, the repeat rate of one reader is zero for certain exactly within the first min(M, 21) requests and one for certain exactly after M. |
| `CapHorizon.CapAloneDecidesNothing` | scripts/analyze_sibling_exposure.py:87-94 | Past request 21 and within the pool both extremes occur: a selector that takes the first unused book has repeated in every trial, one that goes round the pool in none. |
| `CapHorizon.BoundIsTightIff` | scripts/analyze_sibling_exposure.py:575-583 | For every selector under the cap the acceptance test is the comparison of pool and target exactly for targets of at most 21 and pools below the target; beyond, some selector rejects pools of any size. |
| `CapHorizon.RequiredForOneReader` | scripts/analyze_sibling_exposure.py:575-627 | The documented answer, derived: for one reader under the cap and a target up to 21 the search over padded pools returns max(real pool, target), and the test it runs is upward closed. |
| `BudgetSplit.EvenSplitIsFair` | scripts/analyze_sibling_exposure.py:1307-1312 | The even split spends the whole budget in shares that differ by at most one, larger ones first. |
| `BudgetSplit.AllocationsExact` | scripts/analyze_sibling_exposure.py:1315-1322 | The generator yields exactly the tuples of naturals of the given length and total. |
| `BudgetSplit.AllocationsOnce` | scripts/analyze_sibling_exposure.py:1315-1322 | And it yields each of them once. |
| `BudgetPlaces.AllocationsAscend` | scripts/analyze_sibling_exposure.py:1315-1322 | In ascending order, first length first. |
| `BudgetSplit.GainsArePlaced` | scripts/analyze_sibling_exposure.py:1368-1379 | Every cell in tier order has one gain, and the gains add up to what the tiers that have cells were given; an allocation to a tier without cells is lost. |
| `BudgetSplit.TiersPartition` | scripts/analyze_sibling_exposure.py:1380-1385 | The order in which cells are scored holds every cell of a listed length as often as the demand does, and no other. |
| `BudgetSplit.EachLengthGetsItsOwn` | scripts/analyze_sibling_exposure.py:1368-1379 | The short cells of the demand gain together what the allocation gives the first tier, the medium ones the second, the long ones the third, and nothing if there are none. |
| `BudgetSplit.EqualLengthsGainAlike` | scripts/analyze_sibling_exposure.py:1368-1379 | Cells of one length gain alike to within one book, earlier ones first. |
| `BudgetSplit.GrownSizes` | scripts/analyze_sibling_exposure.py:1368-1379 | The loop over tiers gathers each cell's own size plus its own gain, in the order the shares are gathered. |
| `BudgetSplit.ScoreAllocation` | scripts/analyze_sibling_exposure.py:1342-1395 | The score pairs every cell's share with the survival curve of that same cell's grown size; a wrong number of tiers and a size without a curve are refused, exactly then. |
| `BudgetPlaces.ScoreByPlace` | scripts/analyze_sibling_exposure.py:1368-1395 | A score, place by place: each listed cell with its own share over the curve of its own size plus its even part of what its own length was given, one of the books left over included while they last; expected requests and crossing are those of exactly these cells. |
| `BudgetSplit.ScoreNeedsCells` | scripts/analyze_sibling_exposure.py:1368-1395 | An allocation counts only for lengths that have cells: changing what another length is given changes no score. |
| `BudgetPlaces.LikelyFromThereOn` | scripts/analyze_sibling_exposure.py:1388-1394 | On a curve that never rises the reported request is the one from which on a miss is more likely than not, and none is reported exactly when it never is. |
| `BudgetSplit.OptimalSplit` | scripts/analyze_sibling_exposure.py:1398-1449 | The search scores every allocation of the budget and returns the first of the highest with the score of the even split; it fails for a negative budget and cannot fail on a complete table. |
| `BudgetSplit.BestBeatsEverySplit` | scripts/analyze_sibling_exposure.py:1441-1449 | The best allocation scores at least as high as every tuple of naturals that spends the budget, so the reported gain over the even split is never negative. |
| `BudgetPlaces.BestIsLeast` | scripts/analyze_sibling_exposure.py:1441-1449 | Of the allocations that score best the search returns the least in ascending order. |
| `BudgetSplit.MoreBudgetHelps` | scripts/analyze_sibling_exposure.py:1398-1449 | When larger pools survive at least as well, one more book in the budget never lowers what the best allocation achieves. |
| `BackupInterleaving.StepKeeps` | scripts/backup_database.py:1048-1108 | Every step of every run (put, raised put, head, delete, finish) keeps the invariant that ties each recorded ETag to the object it was issued for. |
| `BackupInterleaving.InvAlways` | scripts/backup_database.py:1048-1108 | The invariant holds in every state of every interleaving of any number of runs. |
| `BackupInterleaving.RunsGoOn` | scripts/backup_database.py:1048-1108 | No run gets stuck: in every reachable state some step of it is possible until it is done or has failed, and none from then on. |
| `BackupInterleaving.EveryRunEnds` | scripts/backup_database.py:1048-1108 | And every run ends: in any interleaving a run of n keys takes at most 3n + 2 steps, raises, heads and deletes included. |
| `BackupInterleaving.GuardedDelete` | scripts/backup_database.py:1089-1100 | In any interleaving every guarded delete has exactly one head before it, and it takes another run's object exactly when some put to that key landed between the two. |
| `BackupInterleaving.RollbackDeletesOnlyItsOwn` | scripts/backup_database.py:1089-1100 | In any interleaving in which every put reports an ETag and no put lands in such a gap, no delete of any run removes an object that the run was not the last to write. |
| `BackupInterleaving.UnguardedDelete` | scripts/backup_database.py:1089-1100 | In any interleaving a delete of an upload whose response carried no ETag goes back to such a put of its run, and takes another run's object exactly when somebody else has put the key since and the run itself not after them. |
| `BackupInterleaving.FailedRunLeavesNothing` | scripts/backup_database.py:1058-1108 | Once a run has given up, every object it wrote and can recognise is gone or replaced, unless looking at it or deleting it raised. |
| `BackupInterleaving.ObjectSurvivesIff` | scripts/backup_database.py:1048-1108 | What the ETag guard is for: an object whose put reported its ETag is in place at a later state exactly when since then nobody put the key, no rule expired it, and every delete that reached it was another run's guarded delete whose head came after the put. |
| `BackupInterleaving.SetSurvivesIff` | scripts/backup_database.py:1048-1108 | A run's whole set is in place at a state exactly when that holds of every one of its puts. |
| `BackupInterleaving.PutInTheGapIsLost` | scripts/backup_database.py:1092-1100 | A concrete interleaving in which a put between head and delete is lost although its run finished. |
| `BackupInterleaving.FinishedSetCanVanish` | scripts/backup_database.py:1048-1108 | A concrete interleaving without any race in which a finished run loses its set: a later run of the day overwrites it, fails and rolls back. |
| `BackupSchedule.AcceptedPolicy` | scripts/backup_database.py:283-349 | A retention policy is accepted exactly when its days are positive and ordered and, unless forced, at or above the floors. |
| `BackupSchedule.ProblemsAre` | scripts/backup_database.py:317-349 | Which problems are named: a tier with no positive days, a tier below its floor of 3, 14 or 90 days unless forced, and days out of order. |
| `Calendar.CivilCalendar` | scripts/backup_database.py:352-372 | The date of day t after 1970-01-01 has the Gregorian day number t + 719163 (years, leap days, month lengths and day, spelled out), and the ISO weekday is that number modulo seven. |
| `BackupSchedule.TiersForDate` | scripts/backup_database.py:352-372 | Daily always, weekly exactly on Sundays, monthly exactly on the first of the month, each once. |
| `BackupSchedule.TiersFollowTheCalendar` | scripts/backup_database.py:352-372 | By the calendar itself: weekly on the days whose Gregorian number seven divides, monthly on the first, daily always and first. |
| `BackupSchedule.Coverage` | scripts/backup_database.py:352-372 | If every day uploaded: all of the last daily days are held, and every day x whose age leaves room has a weekly set from x-6 to x and a monthly set from x-30 to x. |
| `BackupSchedule.CheckHistory` | scripts/backup_database.py:1167-1197 | The history check over listed dates: passes exactly when one besides today is at most three days old or, where that is allowed, there is none; else it refuses an empty history or names the smallest gap, which is too large. |
| `BackupSchedule.PassesIff` | scripts/backup_database.py:1167-1197 | The check of an ordinary run passes exactly when some day one to three days earlier, still inside the daily retention, left any object behind. |
| `BackupSchedule.PassesWhenRecentlyUploaded` | scripts/backup_database.py:1167-1197 | With at least four daily days and no leftovers of broken rollbacks it passes exactly when a complete set was uploaded one to three days earlier. |
| `BackupSchedule.OneFailureAfterOutage` | scripts/backup_database.py:1386-1415 | After an outage of three days the first run that uploads fails the check and every later run that follows an upload passes. |
| `BackupSchedule.LeftoversSatisfyTheCheck` | scripts/backup_database.py:1167-1197 | The check sees dates, not sets: leftovers of a failed rollback satisfy it although no complete set exists. |
| `BackupSchedule.PassAttestsSetIff` | scripts/backup_database.py:1167-1197 | Over any policy and log, a run passes with a complete set of the last three days still held exactly when one of the days that the check can pass on did upload. |
| `BackupSchedule.GapToleratedIff` | scripts/backup_database.py:1167-1197 | A policy tolerates a gap of g days (every run that follows an upload g days back passes, whatever happened in between) exactly when g is at most three and below the daily retention; at the accepted floor of three daily days a gap of three is not. |
| `BackupRun.VerifyBucket` | scripts/backup_database.py:859-910 | The sentinel check: a missing sentinel is written only under the initialise flag, an unreadable one stops the run, and nothing else changes; only a put that raised after taking effect changes anything on a refusal. |
| `BackupRun.DumpLegs` | scripts/backup_database.py:1345-1384 | The three dumps are encrypted and kept exactly when all three have at least 40 bytes and carry their marker; an error names a leg and what is wrong with it. |
| `BackupRun.RunKeysAre` | scripts/backup_database.py:1386-1396 | A run writes three legs to each of its one to three tiers, under distinct date-derived keys. |
| `BackupRun.RunKeyAt` | scripts/backup_database.py:1386-1396 | In this order: roles, schema, data, and each leg to its tiers in turn. |
| `BackupRun.RollbackAtPut` | scripts/backup_database.py:1058-1108 | After a rollback a key the run had put remains exactly when looking at it or deleting it raised or somebody else overwrote it. |
| `BackupRun.UploadSet` | scripts/backup_database.py:1386-1404 | The upload loop: either every key holds its leg and nothing else moved, or one put raised, the keys before it are gone unless spared, and its own key holds its leg if the put took effect all the same. |
| `BackupRun.RunBackup` | scripts/backup_database.py:1243-1418 | For every failure point, puts and rule writes that raise after taking effect included: before the uploads at most the sentinel changed; in the uploads only this run's keys, gone unless spared; after them the set is complete. The run gets as far as the rules exactly when nothing stops the uploads, the bucket can be listed and the history before it passes, and a run fails and changes the rules exactly when it gets that far, may write them, and the write lands and raises. |
| `BackupRun.FailedRunMutatesRetention` | scripts/backup_database.py:973-979 | Such a run: with yesterday stored and today uploaded it ends in an error and leaves other rules than it found. |
| `BackupRun.LeftoverIffSpared` | scripts/backup_database.py:1058-1108 | On a day with nothing stored a failed upload leaves the date listed exactly when the rollback had to spare one of the daily keys it had put, or the put that raised took effect on one. |
| `BackupRun.DryRunAnnouncesTheRun` | scripts/backup_database.py:1310-1324 | The dry run announces exactly the keys a real run uploads, in another order. |
| `BackupRun.CollectDates` | scripts/backup_database.py:1200-1240 | The loop over list calls ends at the first response that raises, is not truncated or names no token, and has then collected exactly the dates on the pages up to it; it ends whenever there is such a response. |
| `BackupRun.NoDateMissed` | scripts/backup_database.py:1200-1240 | From a bucket that keeps its pages under tokens, each named by the page before, the loop reads every page and so misses no date. |
| `BackupDays.RunDay` | scripts/backup_database.py:1243-1418 | Overnight expiry under the rules in force and one run, whatever fails in it: the bucket again lists exactly the dates, and holds the sets, that the log extended by the day's outcome says, and the history verdict is the one predicted from that log. |
| `BackupDays.RunSchedule` | scripts/backup_database.py:1243-1418 | By induction over days, from a bucket without backups: any schedule of runs and missed days leaves the bucket its log describes, and every run that got as far as the history check concluded what the log says. |
| `BackupDays.TiersHoldTheirPromise` | scripts/backup_database.py:352-372 | If every day uploaded, the bucket itself holds all legs of the last daily days, and for every day whose age leaves room a weekly set from x-6 to x and a monthly set from x-30 to x. |
| `BackupDays.RejectedIff` | scripts/backup_database.py:1167-1197 | Over any schedule, a run that reached the history check is rejected by it exactly when nothing left one to three days before is still inside the daily retention, except a first run that finds nothing at all. |
| `BackupDays.OneRejectionAfterOutage` | scripts/backup_database.py:1386-1415 | After an outage of three days or more the first run that uploads is rejected, and no run that follows a day with an upload is. |
| `FleissKappa.MatchesByCategory` | scripts/check_annotator_agreement.py:96-110 | Counting agreeing pairs label by label and category by category agree, so the two ways the program counts are one quantity. |
| `FleissKappa.PooledMatchesBound` | scripts/check_annotator_agreement.py:96-119 | Cauchy-Schwarz over categories: the matches in the pooled table are at most the items times the matches within items. |
| `FleissKappa.KappaRange` | scripts/check_annotator_agreement.py:84-119 | For every rectangular table with two or more raters kappa lies between -1/(n-1) and 1, and is 1 exactly when every item is unanimous, the branch for a chance agreement of one included. |
| `FleissKappa.LowerBoundIff` | scripts/check_annotator_agreement.py:84-119 | Kappa is -1/(n-1) exactly when every item got the same labels, in whatever order, and they were not all one; in particular for a single item on which raters differ. |
| `FleissKappa.ComputeKappa` | scripts/check_annotator_agreement.py:84-119 | The program's loops and sums compute kappa as defined by agreeing pairs, errors for empty or single-rater tables included. |
| `KappaPairs.KappaInPairs` | scripts/check_annotator_agreement.py:84-119 | Kappa in counted pairs: the ordered pairs of different raters who chose alike, over all such pairs of an item and averaged over the items, against the pairs of labels in the whole table that coincide over all pairs. |
| `FleissKappa.KappaIgnoresRaterOrder` | scripts/check_annotator_agreement.py:84-119 | Permuting the labels within items leaves kappa alone. |
| `FleissKappa.KappaIgnoresItemOrder` | scripts/check_annotator_agreement.py:84-119 | Permuting the items leaves kappa alone. |
| `FleissKappa.KappaIgnoresNames` | scripts/check_annotator_agreement.py:84-119 | Renaming the categories injectively leaves kappa alone. |
| `StoryGraph.LastOneWins` | scripts/check_graph_structure.py:71-77 | Of nodes that share an id the graph keeps the last. |
| `StoryGraph.FollowLinks` | scripts/check_graph_structure.py:116-127 | The worklist visits exactly the nodes that some path from the start reaches. |
| `StoryGraph.FindEscapes` | scripts/check_graph_structure.py:131-141 | The fixed-point iteration ends with exactly the nodes from which some path reaches an ending. |
| `StoryGraph.Failures` | scripts/check_graph_structure.py:80-146 | The whole checker reports, in class order, the local defects and then the unreachable and the trapped nodes in ascending order. |
| `StringOrder.BeforeIff` | scripts/check_graph_structure.py:129-144 | The ascending order: at the first place where two texts differ, the earlier one ends or has the smaller character. |
| `StoryGraph.ReportsExactlyTheDefects` | scripts/check_graph_structure.py:80-146 | The checker is sound and complete: a failure is on the list exactly when the story has that defect, with reachability stated by paths. |
| `StoryGraph.CleanIffWellFormed` | scripts/check_graph_structure.py:80-146 | The list is empty exactly when every choice leads somewhere, every page can be reached and escaped, and endings are the pages that offer nothing. |
| `StoryGraph.EndingWithinPageCount` | scripts/check_graph_structure.py:129-146 | In such a story every page has a path of fewer steps than there are pages to an ending, cycles or not. |
| `Blinding.FreshInjective` | scripts/blind_books.py:67 | Minted ids of different positions differ, past the padding width too. |
| `Blinding.FreshIdIs` | scripts/blind_books.py:67 | A minted id is the code, an underscore and the position in at least three digits. |
| `Blinding.BlindBook` | scripts/blind_books.py:55-100 | The nested loops rebuild every node under its new id with its choices re-targeted and its provenance dropped. |
| `Blinding.BlindGraph` | scripts/blind_books.py:65-100 | With unique ids and no loose end equal to a minted id, blinding is an isomorphism of story graphs. |
| `Blinding.ReachesRenamed` | scripts/blind_books.py:65-100 | Paths correspond both ways under the renaming. |
| `Blinding.BlindKeepsReport` | scripts/blind_books.py:65-100 | Then the checker says of the blinded book exactly what it says of the original, renamed, for every kind of failure and for a missing start. |
| `Blinding.CollisionLosesDefect` | scripts/blind_books.py:67 | Without that condition it never does: a dangling target or missing start that equals a minted id loses its defect. |
| `Blinding.BlindForgetsProvenance` | scripts/blind_books.py:65-100 | Books that read alike blind to the same document under the same code. |
| `Blinding.BlindKeepsTheReading` | scripts/blind_books.py:55-100 | A handout reads as the book does: title, bodies, labels, endings and their titles stay, and every link leads to the page it led to. |
| `Blinding.SameHandoutIff` | scripts/blind_books.py:55-100 | So two closed books get the same handout exactly when they read the same. |
| `Blinding.BlindChoiceIdsAreUnique` | scripts/blind_books.py:79-86 | No two choices of a handout share an id. |
| `Matching.AgreementAtMostCommon` | scripts/check_decision_overlap.py:132-144 | No arrangement of the longer list agrees with the shorter in more places than the two have values in common. |
| `Matching.BestArrangement` | scripts/check_decision_overlap.py:132-144 | Some arrangement attains that number. |
| `Matching.BestOverArrangements` | scripts/check_decision_overlap.py:132-144 | The brute-force maximum over permutations is exactly the size of the multiset intersection. |
| `DecisionOverlap.BestAlignment` | scripts/check_decision_overlap.py:113-144 | Shared option ids are compared pairwise; without any, the best arrangement is counted. |
| `OverlapScores.AlignedIff` | scripts/check_decision_overlap.py:131-134 | Ids pair two forks up exactly when neither is empty or repeats an id and both name the same ids. |
| `OverlapScores.HitsCount` | scripts/check_decision_overlap.py:131-144 | What is counted on each axis, field by field: options with the same family, tradeoff, consequence or act under one id, or in the intersection of the two multisets of that field. |
| `DecisionOverlap.AlignedAtMostCommon` | scripts/check_decision_overlap.py:113-144 | The id-aligned count never exceeds the size of the multiset intersection. |
| `DecisionOverlap.ShortcutShortfall` | scripts/check_decision_overlap.py:113-144 | What the id-aligned count falls short of the best pairing by, exactly: the values the two sides have in common among the options that differ from their own namesakes. |
| `DecisionOverlap.HitsAreBestIff` | scripts/check_decision_overlap.py:113-144 | For unique ids the count at a fork is the documented maximum over pairings exactly when the ids do not align or no left and right option carry the same value while each differs from its own namesake. |
| `DecisionOverlap.HitsSymmetric` | scripts/check_decision_overlap.py:113-144 | The count does not depend on which fork is on the left. |
| `DecisionOverlap.HitsBound` | scripts/check_decision_overlap.py:113-144 | No fork has more hits than its larger side has options, so every rate lies between zero and one. |
| `DecisionOverlap.SameActSameFamily` | scripts/check_decision_overlap.py:104-107 | With the fields present or uniformly blank and no bar in a family, options that ask the same act are at most those of the same family, at each fork. |
| `DecisionOverlap.UntidyFamiliesBreakIt` | scripts/check_decision_overlap.py:104-107 | A bar in a family, or a missing against an empty one, breaks that. |
| `DecisionOverlap.SameActSameFamilyIff` | scripts/check_decision_overlap.py:104-107 | No forks written with a given set of signatures have more same-act than same-family hits exactly when, among these signatures, equal acts come from equal families. |
| `OverlapScores.SameActIff` | scripts/check_decision_overlap.py:104-107 | With no bar in family and target two options ask the same act exactly when family, target and tradeoff agree, a missing one counting as empty. |
| `DecisionOverlap.Compare` | scripts/check_decision_overlap.py:147-276 | The comparison over the shared forks with two or more options on both sides, in ascending order, or nothing when there is none. |
| `DecisionOverlap.WorstBounds` | scripts/check_decision_overlap.py:203-230 | The worst rate bounds every fork's rate, and no node is named when it is zero. |
| `DecisionOverlap.WorstReached` | scripts/check_decision_overlap.py:203-230 | Otherwise the named node is the first fork whose rate reaches it. |
| `DecisionOverlap.MeanAtMostWorst` | scripts/check_decision_overlap.py:192-276 | The option-weighted mean never exceeds the worst fork. |
| `OverlapScores.ScoresMean` | scripts/check_decision_overlap.py:192-276 | Each mean rate is the agreements in its own field over the options of the larger sides: one exactly when every fork agrees throughout in that field, zero exactly when none does anywhere. |
| `OverlapScores.WorstScoresMean` | scripts/check_decision_overlap.py:203-230 | Each worst rate is the largest share of agreements in its own field. |
| `OverlapScores.SequenceRateCounts` | scripts/check_decision_overlap.py:246-256 | The sequence rate is the share of the forks at which both sides name the same families equally often. |
| `DecisionOverlap.CompareSymmetric` | scripts/check_decision_overlap.py:147-276 | Swapping the two programs changes no score and no named node. |
| `DecisionOverlap.DecisionsAtMostFamilies` | scripts/check_decision_overlap.py:192-276 | Over all forks the same-decision hits are at most the family hits. |
| `DeviceHeadroom.Consumption` | scripts/check_device_vocabulary.py:272-298 | The counting loop: picks per axis, of which frozen, and the kinds frozen; the picks are the frozen ones plus those of the free specs, so no subtraction is floored. |
| `DeviceHeadroom.NamesIsDraws` | scripts/check_device_vocabulary.py:217-225 | A spec draws from its category if that is not empty, and otherwise from what its source has after the vocabulary prefix, without the space around it. |
| `DeviceHeadroom.PicksAreTaken` | scripts/check_device_vocabulary.py:255-298 | The totals count kinds one by one: a spec takes as many as it picks, none if that is negative, one if it does not say or says no number; the free picks are those of the specs that pin nothing. |
| `DeviceHeadroom.FrozenAreAskedFor` | scripts/check_device_vocabulary.py:293-298 | The frozen kinds are the non-empty texts that specs naming the axis pin. |
| `DeviceHeadroom.Analyse` | scripts/check_device_vocabulary.py:536-625 | The count, headroom, unsatisfiable-pin, missing-category and undeclared-axis findings are reported for exactly the axes that have them. |
| `DeviceHeadroom.BindingNeedsRoom` | scripts/check_device_vocabulary.py:138-179 | A binding of B books without repeats needs B times the free picks in distinct free kinds. |
| `DeviceHeadroom.RoomGivesBinding` | scripts/check_device_vocabulary.py:138-179 | Where that many exist a binding without repeats is constructed. |
| `DeviceHeadroom.HeadroomIsExact` | scripts/check_device_vocabulary.py:138-179 | On an axis clean of the count and pin findings and not premise-fixed the headroom finding fires for B books exactly when no binding of B books gives all free picks pairwise distinct free kinds. |
| `DeviceHeadroom.HeadroomBills` | scripts/check_device_vocabulary.py:138-179 | What the headroom check bills on any axis: the free picks shifted by the miscount, against the free kinds less every pinned kind that the axis does not have. |
| `DeviceHeadroom.NoRepeatGoesUnreported` | scripts/check_device_vocabulary.py:138-179 | As long as the declared count covers what the specs take, the check fires whenever no binding can avoid a repeat, pins outside the vocabulary or not. |
| `DeviceHeadroom.NothingReportedWrongly` | scripts/check_device_vocabulary.py:138-179 | As long as the declared count is not above what the specs take and no pin lies outside the vocabulary, it fires only then. |
| `DeviceHeadroom.RightIffQuotientIsKept` | scripts/check_device_vocabulary.py:138-179 | On any axis that is not premise-fixed it is right for every series length exactly when the miscount and the pins outside the vocabulary leave the quotient of free kinds by free picks where it is. |
| `DeviceHeadroom.OutsidePinFiresWrongly` | scripts/check_device_vocabulary.py:520-533 | A pinned kind outside the vocabulary makes it fire although a binding exists. |
| `DeviceHeadroom.OvercountFiresWrongly` | scripts/check_device_vocabulary.py:583-625 | So does a declared count above what the specs take. |
| `WilsonInterval.IntervalInvertsTheTest` | scripts/adversarial_harness.py:252-279 | For 0 <= successes <= trials, trials > 0: 0 <= low <= rate <= high <= 1, the clamps change nothing, a rate e lies in the interval exactly when (rate - e)^2 <= z^2 e(1 - e)/trials, with equality exactly at the two ends, and an end touches 0 or 1 exactly when no or every draw was adverse. |
| `WilsonInterval.IntervalInCounts` | scripts/adversarial_harness.py:252-279 | In plain counts, with the quantile 1.959963984540054 written out: e is in the interval exactly when (successes - trials e)^2 <= z^2 trials e (1 - e); with no trials the interval is [0, 1]. |
| `WilsonInterval.IntervalMirrors` | scripts/adversarial_harness.py:252-279 | Counting the other outcome mirrors the interval. |
| `Verdicts.TwoStatuses` | scripts/adversarial_harness.py:373-456 | Every draw of one item classifies into the same at most two statuses; a scored control is over-blocked exactly when some verdict is at least a flag. |
| `Verdicts.StatusMeans` | scripts/adversarial_harness.py:411-456 | Every status, both ways: a scored attack item is caught exactly when it expects a pass or some verdict is at least as severe as expected, a scored control over-blocked exactly when some verdict is at least a flag, a guarded item caught exactly when the guard raised. |
| `Verdicts.SeverityIsMonotone` | scripts/adversarial_harness.py:411-456 | More verdicts, or more severe ones, never turn a catch into a miss nor an over-blocked control into a clean one. |
| `Verdicts.MajorityStatus` | scripts/adversarial_harness.py:305-327 | The counting loop returns the status counted most often, the earliest seen among equals, and refuses no draws. |
| `Verdicts.MajorityIff` | scripts/adversarial_harness.py:305-327 | The majority is the status that beats every other one: drawn more often, or as often and first drawn earlier. |
| `Verdicts.OddDrawsDecide` | scripts/adversarial_harness.py:305-327 | An odd number of draws over at most two statuses always has a strict majority, and the function returns it. |
| `Verdicts.CollapseDraws` | scripts/adversarial_harness.py:662-699 | Several draws collapse to the first that agrees with the majority, with every draw kept for a recount; a single draw stands as it is. |
| `Verdicts.AdverseIffMostAdverse` | scripts/adversarial_harness.py:662-699 | A repeatedly drawn item counts against the run exactly when more than half of its draws do. |
| `BatchSweep.ChunksPartition` | src/cyo_adventure/moderation/stages.py:586-588 | Chunking loses, repeats and reorders nothing, and every chunk is non-empty and within the size. |
| `BatchSweep.ReportedSizesAreRealIff` | scripts/adversarial_harness.py:954-978 | The reported call sizes are the lengths of the chunks the stage makes exactly when the batch size is positive or there is nothing to review; any other size is reviewed node by node but reported as no call. |
| `BatchSweep.SafetyStage` | src/cyo_adventure/moderation/stages.py:1113-1182 | The stage: one finding per judged node in order and one collapsed finding for all the others; the privacy guard stops it exactly when some passage names a child. |
| `BatchSweep.ChunkingIsInvisible` | src/cyo_adventure/moderation/stages.py:1113-1182 | The answers of a node-local reviewer do not depend on the batch size. |
| `BatchSweep.ReportIsCollapsed` | src/cyo_adventure/moderation/stages.py:1094-1102 | However many nodes go unjudged, a report holds at most one structural finding. |
| `BatchSweep.NodeKeysDistinct` | scripts/adversarial_harness.py:1017-1021 | Keys of different (item, node) positions differ. |
| `BatchSweep.KeyNodes` | scripts/adversarial_harness.py:1011-1021 | The layout loops give every node its key, every key its item and every item an empty record. |
| `BatchSweep.Stitch` | scripts/adversarial_harness.py:1047-1062 | Stitching appends to each item exactly what the findings say about nodes it owns, in their order, and counts the structural findings. |
| `BatchSweep.NothingCrossesIff` | scripts/adversarial_harness.py:1011-1068 | Whatever the node-local reviewer says, an item gets exactly its own verdicts and flags back just when no other item with a node shares its key. |
| `BatchSweep.SweepBand` | scripts/adversarial_harness.py:981-1068 | One band: with a node-local reviewer exactly the items that share their key with no other item with a node get their own verdicts as their record, at every batch size; with distinct keys that is every item. |
| `BatchSweep.SweepMatchesTheSingleProbe` | scripts/adversarial_harness.py:491-556 | What the sweep stitches to an item classifies as reviewing the item by itself does. |
| `BatchSweep.SharedIdCrosses` | scripts/adversarial_harness.py:912-931 | Two items of a band under one id are each scored on the verdicts of both: a clean control is reported over-blocked. |
| `CorpusSweep.StandsAtRank` | scripts/adversarial_harness.py:825-833 | Grouping keeps corpus order: in its band's list an item stands where its key says. |
| `CorpusSweep.KeysDistinctIff` | scripts/adversarial_harness.py:912-931 | The keys of a corpus are all different exactly when no two batchable items share an id and none has for its id the stand-in (band and rank, spelled out) of one without an id. |
| `CorpusSweep.SweepBands` | scripts/adversarial_harness.py:1136-1174 | Over all bands, every batchable item's record ends up under its own key; a stopped band leaves empty records. |
| `CorpusSweep.StoppedIff` | scripts/adversarial_harness.py:1136-1174 | A band is stopped exactly when the guard raises on some node of an executable stage-1 item of that band. |
| `CorpusSweep.StructuralCounts` | scripts/adversarial_harness.py:1136-1204 | A run has as many structural findings as there are bands the guard lets pass in which some node gets no answer. |
| `CorpusSweep.RunAtBatchSize` | scripts/adversarial_harness.py:1122-1204 | A full run: every outcome is of its item; with a node-local reviewer and distinct keys neither the outcomes nor the structural count depend on the batch size: what is on record for an item is the answers for its own nodes or its own probe, and a scored item is caught exactly when some node of its own is judged at least as severe as expected. |
| `CorpusSweep.SizeRegressions` | scripts/adversarial_harness.py:1296-1343 | The comparison loops build the list of item, class and run regressions. |
| `CorpusSweep.RegressionsAreExact` | scripts/adversarial_harness.py:1240-1343 | The list is exact: an item is on it for its status or severity just when it got worse in that respect, a class just when its catch rate fell, the run just when it had more structural findings. |
| `CorpusSweep.RegressionsAreCounts` | scripts/adversarial_harness.py:1240-1343 | The list in plain counts: caught then not, or clean then over-blocked; a verdict stronger than every later one; a class that catches a smaller share of what it scores; more structural findings. |
| `CorpusSweep.CatchRateNeedsStatus` | scripts/adversarial_harness.py:1296-1343 | With unique ids, and whatever the reviewer did, a fallen catch rate comes with a listed item of that class caught at the baseline and missed at this size. |
| `CorpusSweep.SameRunsDoNotRegress` | scripts/adversarial_harness.py:1296-1343 | Runs with the same outcomes and no more structural findings show no regression. |
| `CorpusSweep.Baseline` | scripts/adversarial_harness.py:1113-1119 | The baseline is a run at size one if there is one, else the first. |
| `CorpusSweep.Sweep` | scripts/adversarial_harness.py:1397-1429 | The sweep over sizes reports no regression at all for a node-local reviewer over a corpus with unique ids and keys. |
| `Shorthand.ConditionRoundTrip` | scripts/build_series_book.py:54-83 | Parsing inverts printing on every normal form: an atom, an or of two or more atoms, an and of two or more of these. |
| `Shorthand.ParsedIsFlat` | scripts/build_series_book.py:69-73 | Whatever text parses, an and occurs at most at the top and an or at most below it. |
| `ShorthandForms.ConnectiveHoldsItsPieces` | scripts/build_series_book.py:69-73 | A text with a connective is accepted exactly when each non-blank piece around it is, and then the connective holds exactly those pieces: none, one or more; otherwise the error is that of a piece. |
| `ShorthandForms.NormalFormIff` | scripts/build_series_book.py:54-83 | An accepted text gives a normal form, which print and parse carry back to itself, exactly when every connective in it, at the top and inside each piece, has at least two non-blank pieces. |
| `ShorthandForms.NegationTakesAnything` | scripts/build_series_book.py:78-79 | A text that starts with ! and has no connective is always accepted, with whatever follows as the name. |
| `ShorthandForms.ComparisonsAreSpelled` | scripts/build_series_book.py:74-80 | Sign by sign: what ==, !=, >=, <=, > and < between a name and an integer mean, and a name alone or after an exclamation mark. |
| `ShorthandForms.AndSplitsFirst` | scripts/build_series_book.py:69-73 | An and splits before an or, on whichever side it stands. |
| `ShorthandForms.NamesAreSpelled` | scripts/build_series_book.py:44-45 | A name is a small letter followed by small letters, digits and underscores. |
| `Shorthand.ParseEffects` | scripts/build_series_book.py:86-125 | The loop over items: blank ones are skipped and the first bad one is the error. |
| `Shorthand.EffectsRoundTrip` | scripts/build_series_book.py:86-125 | Parsing inverts printing on every list of inc, dec and set effects with natural or truth operands and the once mark, the empty list included. |
| `ShorthandForms.EffectsAreSpelled` | scripts/build_series_book.py:86-125 | Sign by sign: = sets a number or a truth value, + adds, - takes away, and a mark at the end means once. |
| `SeriesBook.SkeletonMatchesFilled` | scripts/build_series_book.py:204-323 | A spec compiles to a filled story exactly when it compiles to a skeleton and every entry has prose; stripped of their leaves, with titles or without, the two are the same document. |
| `BookRoundTrip.CompilingInvertsWriting` | scripts/build_series_book.py:149-323 | Compiling inverts writing: every book with minted ids, writable conditions and effects and its directive or stripped prose for bodies comes back from its spec field for field, with labels, targets, conditions, effects, endings, entry effects, scopes, variables and ending count. |
| `BookRoundTrip.FirstFaultIsReported` | scripts/build_series_book.py:149-263 | A story that does not compile fails with the fault of its first bad entry, and the fault says what is wrong: no id, no prose, an ending without two separators, or the first row with too few or too many fields. |
| `SeriesBook.MintedIdsAreUnique` | scripts/build_series_book.py:163-170 | With distinct node ids every choice of a compiled book has an id of its own, whatever underscores the node ids contain. |
| `SeriesBook.StructureLines` | scripts/build_series_book.py:344-366 | The diagnostics: dangling and exitless nodes in book order, then the unreached ids in ascending order. |
| `SeriesBook.DiagnosesExactly` | scripts/build_series_book.py:344-366 | A line is printed exactly when a node of the book has what it names. |
| `SeriesBook.SameReach` | scripts/build_series_book.py:326-341 | For unique non-empty ids the library graph and the story checker's graph have the same paths. |
| `SeriesBook.LinesAreFailures` | scripts/build_series_book.py:344-366 | Dangling, exitless and unreached lines stand for the story checker's dangling, sink and unreachable failures at the same node, and only for those. |
| `SeriesBook.DiagnosticsAgree` | scripts/build_series_book.py:344-366 | So the diagnostics are empty exactly when the story checker reports none of these three kinds. |
| `FillIntegrity.CommissionedWords` | src/cyo_adventure/generation/skeleton.py:611-631 | The loop over skeleton nodes: keys are ids or positions, and a key reached twice accumulates. |
| `FillIntegrity.DeliveredWords` | scripts/check_fill_integrity.py:200-228 | The loop over filled nodes: the first occurrence of a key is credited, bodies that are no text are skipped. |
| `FillIntegrity.CountsTheWords` | scripts/check_fill_integrity.py:215-228 | A text of n words counts as n, however many and whichever spaces stand between and around them. |
| `FillIntegrity.MeasureFill` | scripts/check_fill_integrity.py:530-571 | Raw and capped delivery over the commissioned keys with the verdict against the floor; a skeleton that commissions nothing is a note, and a failure if it has no node object at all. |
| `FillIntegrity.NothingAskedIff` | src/cyo_adventure/generation/skeleton.py:611-631 | Nothing is commissioned exactly when no node asks for a word. |
| `FillIntegrity.DenominatorIsFlat` | src/cyo_adventure/generation/skeleton.py:619-630 | The commissioned total is the flat sum over the nodes, whatever the keys do. |
| `FillIntegrity.FillIsByPosition` | scripts/check_fill_integrity.py:549-560 | On documents with unique keys the joined figures are sums over positions: each node's delivery counts towards its own target and no further. |
| `FillIntegrity.CreditIsMonotone` | scripts/check_fill_integrity.py:504-516 | More words at any node never lower the credit. |
| `FillIntegrity.PassingBoundsTheShortfall` | scripts/check_fill_integrity.py:555-571 | Passing floor f means exactly that the nodes together fall short of their targets by at most (1 - f) of the commission. |
| `FillIntegrity.FillFailsIff` | scripts/check_fill_integrity.py:519-571 | The measurement fails a fill exactly when the skeleton has no node object at all, or its nodes ask for words and together fall short of them by more than the floor allows. |
| `FillIntegrity.LongerFillsStillPass` | scripts/check_fill_integrity.py:504-571 | A lengthened fill that still matches its skeleton never turns a pass into a failure. |
| `FillIntegrity.CappedIsLeast` | scripts/check_fill_integrity.py:555-560 | Whatever the documents look like, the gating figure exceeds neither the raw delivery nor the commission. |
| `FillIntegrity.DuplicateIds` | scripts/check_fill_integrity.py:231-253 | Exactly the ids used more than once, ascending. |
| `FillIntegrity.DuplicateCheckMissesImpostors` | scripts/check_fill_integrity.py:182-253 | Keys are unique exactly when no id repeats and no explicit id spells an id-less node's positional key, a shape the duplicate check does not see. |
| `FillIntegrity.StructuralMatchPairs` | scripts/check_fill_integrity.py:106-157 | A fill that passes the structural comparison is paired with its skeleton node by node. |
| `BookRoundTrip.StripAlikeIff` | scripts/check_fill_integrity.py:106-157 | Two books pass the structural comparison exactly when they differ in bodies, labels and variable descriptions only, and in titles where those are free. |
| `FillIntegrity.CompiledTargetsPair` | scripts/build_series_book.py:291-323 | In particular the two targets compiled from one spec are. |

## Left out

- Floating-point rounding: all rates, curves and intervals are over exact reals; the square root of the Wilson interval is a parameter whose square is the radicand.
- Randomness: draws and selector picks are arbitrary functions of the call number; `required_pool_size`'s acceptance test, stochastic in the program, is a fixed predicate.
- Coupling between cells in `band_survival`: as in the program, cells wear independently, while the direct simulation shares one recency window.
- `survival_table` and `required_for_share`: one comprehension and one ceiling.
- Exposure.Simulate: `theme_overlap` and the similarity counts reach the model only through the arbitrary selector.
- Network, subprocess, encryption and file code of the backup script; encryption is an abstract injective wrapper, dump markers are a flag, and other runs act on the bucket as the interleaving model allows.
- BackupRun.CollectDates: date parsing is abstract (a segment parses to a day or not); the method requires that some response ends the loop, without which the program does not end either.
- BackupRun.RunBackup: requires that a listing that does not raise names the dates the bucket holds, since the program has no other way to know them.
- BackupDays.RunSchedule: one run a day, numbered by its day, and the rules of the policy already in force; overlapping runs are BackupInterleaving's subject.
- BackupRun.EnsureLifecycleRules: reading the foreign rules in order to log them.
- BackupInterleaving.GuardedDelete: assumes every put returns an ETag never issued before; an upload without one is treated separately in BackupInterleaving.UnguardedDelete.
- JSON shapes that are not what the scripts expect: coercions such as a null target becoming the text "None", non-string fields, non-list rows.
- DeviceHeadroom.CheckSpecs: the schema findings DV-0 to DV-4, and the wording of every finding.
- DecisionOverlap.Compare: notes for the reader; the sorted family lists are compared as multisets.
- FleissKappa.ComputeKappa: categories are taken in first-seen order where the program sorts them, which changes no exact sum.
- Shorthand.ConditionRoundTrip: `\d` and `\s` are restricted to ASCII, and Python's limit on the length of integer literals is not modelled.
- SeriesBook.SkeletonMatchesFilled: include files, the validator and the report of the compiler; stripping leaves is a function on documents where the program pops fields from a copy.
- SeriesBook.StructureLines: the graph library's descendants are a parameter equal to path reachability, and a start outside the graph, on which the library raises, has no model.
- Verdicts.TwoStatuses: an expected verdict outside the four known words, on which the program raises.
- BatchSweep.SafetyStage: the per-node fallback after an unparseable batch is part of the arbitrary reviewer; the guard looks at passages one by one, so a name that only arises across two passages is not seen.
- CorpusSweep.RunAtBatchSize: call counts and the list of realised chunk sizes; items outside stage 1 are an arbitrary probe.
- Word counting by regular expression of `words=` targets: a node's commissioned words are an input.
- Lexical scorers, coverage matrices, census and backfill scripts, frontend and build configuration: input and output, or facts that one branch settles.
