# Verified model of the trip planner's core

A Dafny model of the parts of the repository whose correctness is hard to see from the
code: the fractional ordering of curation lists, the itinerary solver and its independent
checker, and five smaller cores built on total orders, interleavings or accounting.
Members that the program writes as loops, updates or objects are methods and classes here,
each proved against a specification; what the program promises is then proved of the
specification for all inputs, runs or interleavings.

- **Ordering** (`keys`, `middle`, `rebalance`, `places`). Base-62 keys, `midpoint` as the
  middle of the shortest keys between its bounds, the evenly spaced keys of a rebalance,
  and the add, patch and rebalance transactions over a table under two UNIQUE indexes.
  Other requests may commit inserts between any two statements. `Serve` runs any sequence
  of requests: every state has unique valid keys, an append always finds a key, rows that
  nobody moves keep their order, and keys stay short under a condition on what the other
  requests insert.
- **Solver** (`solver_model`, `route`, `insertion`, `two_opt`, `variants`, `expand`,
  `feasibility`, `faults`, `meals`, `auditor`, `greedy`, `determinism`, `weave`,
  `soundness`, `missed_swap`, with `sorting` and `prelude`). Earliest-start timing is
  exact, insertion is an argmin, 2-opt is locally optimal up to one pair, the checker
  decides a declarative notion of a valid plan and reports exactly the faults of an
  invalid one, and the solver's output passes the checker under an exact condition. The
  answer is a function of the request that does not depend on the order in which
  candidates are listed. Travel legs are an arbitrary function of two nodes (zero between
  equal nodes); times are whole seconds.
- **Fact conflicts** (`conflict`): the winner does not depend on the order of the facts
  and follows the four rules.
- **Stores** (`profile_store`, `session_store`): an asynchronous operation is two steps;
  all properties hold for every interleaving of such steps.
- **Preference merge** (`merge`): anonymity and standing vetoes between two runs of the
  engine, and the misery bound, over exact reals.
- **HTTP retry** (`http_retry`): a run is a trace of sends under one deadline; budget,
  accounting, uniqueness, eventual delivery, and what may enter the cache.

`dafny verify dfyconfig.toml` checks the whole project.

## Where the code and its description differ

- `_two_opt` lets `left` range only up to three before the end, so the last two stops are
  never swapped alone. The result is locally optimal exactly if that swap does not help
  (`TwoOpt.LocalOptimalityOfResult`); `MissedSwap.MissedByTheSolver` is a request whose
  own answer could be improved that way.
- The solver emits days it left empty even when the bare transfer misses the deadline, and
  places a meal with no regard to travel, to the deadline, or to the day's other meal.
  `Soundness.EmittedPlanIsValid` says exactly when the checker objects, and gives a
  condition on the request under which meals never matter; `Meals.MealsOverlapExactly`
  says when two meals collide. `RejectedAnswers` runs a request of each kind.
- Positions stay within 42 digits only as long as no other request, between a rebalance
  and the key it makes room for, commits a key that starts with very many last digits:
  `Places.NextKeyFits` and `RetriedKeyFits` give the exact limits, `Places.Serve` the
  bound for whole runs, and `LateTailBreaksBound` a run of the add handler beyond it.
- A rebalance under way can be broken by an add that picked one of the fresh keys:
  `Places.RivalBreaksRebalance` is such a run, and the handlers' contracts say when it
  happens.
- The second audit also covers days that the semantic check skips as unknown, so it can
  object where the first found no timing fault (`Auditor.AuditObjectsOnlyToUnknownDays`).
- The profile store says a slow load cannot overwrite a newer confirmed save. That holds
  for loads begun before the save; one begun while the save is in flight can
  (`ProfileStore.LoadDuringSaveMayOverwrite`).
- The misery threshold on a member's score never decides: a score that low takes a down
  vote, which alone makes the member miserable (`Merge.MiseryIsADownVote`).
- Not every hard filter of the merge engine is monotone in the group: only the strictest
  member's accessibility tag is required, so a newcomer can lift that flag
  (`Merge.AccessLiftedExactly`).

## Model

| member | source | states |
|---|---|---|
| `Keys.Alphabet` | backend/api/src/ordering/fractional.ts:27-30 | membership in the digit table, digit values and codepoint order agree for every character |
| `Keys.OrderIsNumeric` | backend/api/src/ordering/fractional.ts:13-19 | for strings without a trailing zero, codepoint order is numeric order of the base-62 fractions, and equal fractions are equal strings |
| `Keys.Midpoint` | backend/api/src/ordering/fractional.ts:48-77 | the prefix loop and the recursion, with both thrown errors, compute the specification `MidpointOf`; it terminates on all digit strings |
| `Middle.MidpointIsTheMiddle` | backend/api/src/ordering/fractional.ts:42-77 | a key is the result if and only if it lies between the bounds, no key between them is shorter, and its last digit halves the gap left at its length, rounding up |
| `Middle.MidpointIsShortest` | backend/api/src/ordering/fractional.ts:42-77 | no key strictly between the bounds is shorter than the result |
| `Middle.PrependsAreCheap` | backend/api/src/ordering/fractional.ts:96-99 | putting rows in front of a list one after the other lengthens the first key by at most one digit in six moves |
| `Keys.PrefixLeavesUpperBound` | backend/api/src/ordering/fractional.ts:53-60 | stripping the zero-padded common prefix never consumes all of a canonical upper bound, and the tails stay ascending |
| `Keys.MidpointIsBetween` | backend/api/src/ordering/fractional.ts:42-77 | for canonical a < b (or no b) nothing is thrown and the result is canonical, strictly between, and at most one digit longer than the longer bound |
| `Keys.KeyBetweenContract` | backend/api/src/ordering/fractional.ts:79-89 | `keyBetween` throws exactly on an illegal lower bound, an illegal upper bound or an unordered pair, and says which; otherwise a valid key strictly between, length bounded |
| `Keys.KeyBetweenIsNumericallyBetween` | backend/api/src/ordering/fractional.ts:79-89 | the minted key is also strictly between as a number |
| `Keys.AfterLastDigits` | backend/api/src/ordering/fractional.ts:91-94 | appending after "zz...z" reaches the length bound: one digit more |
| `Keys.AppendLength` | backend/api/src/ordering/fractional.ts:48-94 | the appended key is exactly one digit longer than the run of last digits the key before it starts with |
| `Keys.RandomNonZeroDigit` | backend/api/src/ordering/fractional.ts:101-106 | any digit other than the minimum |
| `Keys.Jitter` | backend/api/src/ordering/fractional.ts:108-119 | the key followed by one or two non-zero digits, any of them |
| `Keys.JitterSortsAfter` | backend/api/src/ordering/fractional.ts:108-119 | a jittered key is valid, above its base, and below every larger key that does not itself extend the base |
| `Rebalance.StripZeros` | backend/api/src/ordering/fractional.ts:129-133 | the loop removes exactly the trailing zeros |
| `Rebalance.EncodeDigits` | backend/api/src/ordering/fractional.ts:158-164 | the push-and-reverse loop writes the m base-62 digits of a value |
| `Rebalance.RebalanceKeys` | backend/api/src/ordering/fractional.ts:141-167 | the loops over digit count and rows return exactly the slot keys, none for a count of zero or less |
| `Rebalance.EncodeFrac` | backend/api/src/ordering/fractional.ts:158-164 | the m digits of v stand for v / 62^m |
| `Rebalance.StripKeepsFrac` | backend/api/src/ordering/fractional.ts:129-133 | stripping keeps the fraction and makes the string canonical |
| `Rebalance.SlotsFarApart` | backend/api/src/ordering/fractional.ts:145-154 | neighbouring slots differ by at least one whole base, so stripping cannot merge them |
| `Rebalance.SlotKeysAscend` | backend/api/src/ordering/fractional.ts:135-167 | `rebalanceKeys(n)` is n valid keys, strictly ascending, each at most the computed digit count long |
| `Rebalance.SlotKeysAreEven` | backend/api/src/ordering/fractional.ts:135-140 | key i is i / (n + 1) rounded down by less than one unit in the last digit |
| `Rebalance.KeyWidthBound` | backend/api/src/ordering/fractional.ts:145-154 | fewer than 62^d rows need at most d + 1 digits |
| `Places.TripCityTable.SelectListing` | backend/api/src/ordering/fractional.ts:182-187 | every table has a listing by position and id, each row once |
| `Places.TripCityTable.UpdatePositions` | backend/api/src/ordering/fractional.ts:175-180 | a multi-row UPDATE checked row by row in any order fails exactly if a row outside it holds a target key; otherwise it writes all targets and nothing else |
| `Places.RekeyOne` | backend/api/src/ordering/fractional.ts:175-180 | one row of that statement: it trips the index only on an outside holder |
| `Places.ParkingIsFree` | backend/api/src/ordering/fractional.ts:192-202 | parked values are distinct and equal no current key |
| `Places.TripCityTable.Park` | backend/api/src/ordering/fractional.ts:203-206 | the parking statement never fails |
| `Places.TripCityTable.LayKeys` | backend/api/src/ordering/fractional.ts:207-213 | the keying statement fails exactly if a concurrent row holds a fresh key |
| `Places.TripCityTable.RewriteKeys` | backend/api/src/ordering/fractional.ts:192-214 | park then key, with inserts committed by others before and between |
| `Places.TripCityTable.RebalanceTripCity` | backend/api/src/ordering/fractional.ts:182-214 | the whole rebalance: fails exactly if a row committed meanwhile holds a fresh key; rows added meanwhile keep their keys |
| `Places.TripCityTable.RebalanceTransaction` | backend/api/src/ordering/fractional.ts:192-202 | as a transaction: valid unique keys in the old order, or a rollback to every earlier row as it was; fails exactly if a row committed meanwhile holds a key of the even spacing, so never when nothing was added |
| `Places.RekeyKeepsList` | backend/api/src/ordering/fractional.ts:169-181 | fresh ascending keys laid down in list order keep uniqueness, validity and the order of the listed rows |
| `Places.RebalancedStep` | backend/api/src/ordering/fractional.ts:169-181 | what one rebalance makes of the list it read, on success and on failure |
| `Places.TripCityTable.LastPosition` | backend/api/src/places/routes.ts:299-306 | the greatest key, or none exactly for an empty list |
| `Places.AppendSortsLast` | backend/api/src/places/routes.ts:194-197 | `keyAfter(lastPosition)` never throws and lies beyond every row, one digit longer at most |
| `Places.TripCityTable.AppendKey` | backend/api/src/places/routes.ts:194-197 | the jittered append key is valid, sorts last, and is at most three digits longer than any row |
| `Places.TripCityTable.GuardedInsert` | backend/api/src/places/routes.ts:107-123 | an insert in a savepoint: refused exactly on a duplicate place or a taken position, and then without trace |
| `Places.TripCityTable.GuardedUpdate` | backend/api/src/places/routes.ts:107-123 | an update in a savepoint: refused exactly on a taken position, and then without trace |
| `Places.TripCityTable.InsertRetrying` | backend/api/src/places/routes.ts:201-218 | one retry with jitter, only after a position clash; the invariant holds and no other row changes; refused for its position only if the key and the jittered form tried were both held by others; undisturbed, a taken key with free jittered forms is inserted under one of them |
| `Places.TripCityTable.UpdateRetrying` | backend/api/src/places/routes.ts:272-294 | the same for a patch: a free key is written as given, only the patched row changes; refused only if the key and the jittered form tried were both held by others; undisturbed, a taken key with free jittered forms is written as one of them |
| `Places.TripCityTable.RebalanceAndAppend` | backend/api/src/places/routes.ts:187-190 | the long-key backstop keeps the order of all rows and yields a key at the end; it fails only through an insert during the rebalance, and then rolls back; that key is sure to fit exactly if no row committed meanwhile starts with forty last digits |
| `Places.TripCityTable.InsertChosen` | backend/api/src/places/routes.ts:201-218 | the guarded insert and the commit: no other row changes, and what else is new was committed by others |
| `Places.TripCityTable.UpdateChosen` | backend/api/src/places/routes.ts:272-294 | the same for a patch |
| `Places.TripCityTable.ChooseKey` | backend/api/src/places/routes.ts:173-199 | which key a write uses: illegal exactly when the client key is; the client key itself when short; otherwise one beyond every row |
| `Places.ShortKeysDecide` | backend/api/src/ordering/fractional.ts:121-127 | a client key is used as given up to forty digits; a longer one forces a rebalance |
| `Places.TripCityTable.AddPlace` | backend/api/src/places/routes.ts:156-221 | every reply, with inserts of other requests at any statement: list invariant and relative order kept, no row from nowhere, no other row is touched when the client key is short or the next key cannot be long, a server error only if the list may be rebalanced and a row committed meanwhile holds a fresh key, and always if it must be, 42 digits kept if those inserts are modest; undisturbed, duplicates are refused exactly, appends land last and a free client key is used as given; a taken one with free jittered forms becomes one of them, and no unique position is reported only if the key and a jittered form are both held |
| `Places.TripCityTable.PatchPlace` | backend/api/src/places/routes.ts:223-297 | every reply: list invariant kept, all rows but the patched one keep their order, and with a short key (or none) do not change at all; a server error exactly if the key forces a rebalance and a row committed meanwhile holds a fresh key; 42 digits kept if the inserts of others are modest; undisturbed, a free key is used as given and a long one moves the row to the end; a taken one with free jittered forms becomes one of them, and no unique position is reported only if the key and a jittered form are both held |
| `Places.Serve` | backend/api/src/places/routes.ts:156-306 | any run of adds and patches on a new list, with inserts of other requests at any statement: every state has unique valid keys and an append finds its key; rows no request moves keep their order over any stretch, and their content; with modest inserts and fewer than 62^36 rows no position exceeds 42 digits; server errors only after an insert during a rebalance |
| `Places.NextKeyFits` | backend/api/src/places/routes.ts:194-198 | the appended key is sure to stay within 42 digits if and only if no position starts with forty last digits |
| `Places.RetriedKeyFits` | backend/api/src/places/routes.ts:211-218 | its jittered retry, if and only if none starts with thirty-eight |
| `Places.OnlyNewcomersAreTall` | backend/api/src/places/routes.ts:187-190 | after a rebalance only rows committed meanwhile can start with so many |
| `Places.LateTailBreaksBound` | backend/api/src/places/routes.ts:187-190 | an add to an empty list: two rows of 40 and 42 digits, committed right after its rebalance, make its own key longer than 42 |
| `Places.RivalBreaksRebalance` | backend/api/src/ordering/fractional.ts:204-213 | the add handler, run on a list of one row while another request commits a row on the key about to be laid down, answers with a server error |
| `Places.CalmNeverCollides` | backend/api/src/ordering/fractional.ts:192-213 | a rebalance that nobody disturbs meets no fresh key |
| `Route.Materialize` | backend/workers/solver/solver/greedy.py:32-66 | the loop, with both rejections and the partial sums they return, computes `Materialized` |
| `Route.MaterializeIsExact` | backend/workers/solver/solver/greedy.py:32-66 | feasible if and only if some arrival times satisfy travel, every start interval, the deadline and the walking budget; the arrivals returned are such a schedule and pointwise the earliest |
| `Route.NothingArrivesEarlier` | backend/workers/solver/solver/greedy.py:43-53 | no timed schedule of the route arrives before the computed one at any stop |
| `Route.TimeIsAccountedFor` | backend/workers/solver/solver/greedy.py:32-66 | the end of a feasible day is its beginning plus the reported travel, the visits and the waiting before doors open |
| `Insertion.BestInsertion` | backend/workers/solver/solver/greedy.py:69-93 | none exactly when no (variant, position) gives a feasible route; otherwise a feasible insertion that none scores below |
| `Insertion.CheapestBeats` | backend/workers/solver/solver/greedy.py:88-90 | the chosen insertion earns at least as much as any other feasible one; at equal prize it adds the least travel, then waits least, then stands first, then has the smallest key |
| `Insertion.WaitingAdds` | backend/workers/solver/solver/greedy.py:87 | waiting is summed over the visits, each from its opening to the arrival |
| `TwoOpt.Improve` | backend/workers/solver/solver/greedy.py:96-113 | terminates with a permutation of the route, feasible if it changed, with no more travel, by the first improving pair turn after turn, until no pair the loops range over improves it; for a route the search leaves alone, locally optimal exactly if swapping its own last two stops does not help |
| `TwoOpt.PolishedIsUnique` | backend/workers/solver/solver/greedy.py:96-113 | the improved route is determined by the route it started from |
| `TwoOpt.LocalOptimalityOfResult` | backend/workers/solver/solver/greedy.py:104-105 | no reversal of two or more stops improves the result if and only if reversing its last two stops does not |
| `MissedSwap.LastPairIsMissed` | backend/workers/solver/solver/greedy.py:104-105 | a four-stop route left as it is although swapping its last two stops is feasible and shorter |
| `MissedSwap.MissedByTheSolver` | backend/workers/solver/solver/greedy.py:158-247 | the solver itself, run on a request of four must-dos, answers with a valid plan on that route |
| `TwoOpt.ReversalPermutes` | backend/workers/solver/solver/greedy.py:106 | reversing a segment permutes the route |
| `Variants.BaseIntervals` | backend/workers/solver/solver/variants.py:35-51 | the loop clips the windows of the day; no window on this day means none, no hours at all means the whole day |
| `Variants.SplitBoundaries` | backend/workers/solver/solver/variants.py:54-71 | the loops collect the weather and best-time cut points and cut there |
| `Variants.BaseSpansAreHours` | backend/workers/solver/solver/variants.py:34-52 | an instant is in a base interval if and only if the day has begun and is not over and, if the place has hours, a window of that day is open |
| `Variants.SegmentNotCutByBestTime` | backend/workers/solver/solver/variants.py:66-69 | no end of a best-time window of the day falls strictly inside a segment |
| `Variants.CutsHaveReasons` | backend/workers/solver/solver/variants.py:61-71 | every inner boundary is an end of a weather bucket or a best-time window of that day |
| `Variants.SegmentsPartition` | backend/workers/solver/solver/variants.py:54-71 | when closes > opens the segments are non-empty and contiguous and cover the interval exactly |
| `Variants.SegmentNotCut` | backend/workers/solver/solver/variants.py:62-65 | no boundary of a weather bucket falls inside a segment |
| `Variants.MidpointSamplingIsExact` | backend/workers/solver/solver/variants.py:74-78 | the first matching bucket is the same at every instant of a segment as at its midpoint |
| `Variants.WeatherIsFirstCover` | backend/workers/solver/solver/variants.py:74-78 | the first bucket of the day that covers the instant, or none if none does |
| `Expand.ExpandSegments` | backend/workers/solver/solver/variants.py:98-119 | the innermost loop skips segments too short for the visit and numbers the rest |
| `Expand.ExpandCandidate` | backend/workers/solver/solver/variants.py:85-120 | the loops over days, intervals and segments compute `VariantsOf` |
| `Expand.ExpandVariants` | backend/workers/solver/solver/variants.py:81-121 | every candidate is stored under its id with its own variants |
| `Expand.ExpansionIsSound` | backend/workers/solver/solver/variants.py:96-119 | every variant comes from one long enough segment of one interval of one day |
| `Expand.ExpansionIsComplete` | backend/workers/solver/solver/variants.py:96-119 | every segment of an admitted candidate is represented if and only if the visit fits in it |
| `Expand.PrizeHoldsThroughout` | backend/workers/solver/solver/variants.py:103-108 | the prize of a variant is right at every instant of its stretch: that of the first weather bucket covering the instant, golden if and only if a best-time window of the day covers it |
| `Expand.UnreachedPlacesAreLeftOut` | backend/workers/solver/solver/variants.py:86-88 | a place out of town has no variants unless access is verified or the user insists |
| `Expand.DaysOpenAndClose` | backend/workers/solver/solver/variants.py:36-40 | when the day opens for visits and when it closes |
| `Expand.VariantsRespectHours` | backend/workers/solver/solver/variants.py:35-51 | a candidate with hours: every start of every variant, plus the visit, lies inside one window of that day |
| `Expand.InvertedIntervalIsNeverPlaced` | backend/workers/solver/solver/variants.py:43-44 | when the buffered deadline precedes the effective start, no route through such a variant is feasible |
| `Feasibility.CheckPoi` | backend/workers/solver/solver/feasibility.py:97-117 | the tests and updates for a stop that names a place |
| `Feasibility.CheckStop` | backend/workers/solver/solver/feasibility.py:83-118 | the tests for one stop of any shape |
| `Feasibility.CheckDay` | backend/workers/solver/solver/feasibility.py:77-131 | one known day: its stops, then the deadline and the budget |
| `Feasibility.CheckResponse` | backend/workers/solver/solver/feasibility.py:60-136 | the nested loops compute the issue list `ResponseIssues`; malformed and unknown days are skipped with an issue |
| `Feasibility.CursorMeans` | backend/workers/solver/solver/feasibility.py:78-118 | the running variables mean: end of the previous stop, last visited place, metres walked |
| `Feasibility.CheckerIsExact` | backend/workers/solver/solver/feasibility.py:60-136 | the issue list is empty if and only if the plan is valid: ords count from 0, times move forward, each place once and long enough inside one window, travel fits, deadline and budget (plus one metre) hold, must-dos present |
| `Faults.IssuesAreFaults` | backend/workers/solver/solver/feasibility.py:60-136 | an issue is reported if and only if the schedule has that fault, for every code, place and day: bad stop, number, duration, overlap, unknown or repeated place, short visit, closed hours, travel, deadline, budget, unknown day, missing must-do |
| `Meals.FirstFit` | backend/workers/solver/solver/greedy.py:141-144 | over chronological visits the scan finds the earliest start clear of every visit |
| `Meals.MealStops` | backend/workers/solver/solver/greedy.py:116-155 | per window, the meal at the first fit if it ends in time, and none only if no fit does; none at all when switched off |
| `Meals.MealsKeepTheirHours` | backend/workers/solver/solver/greedy.py:116-155 | a meal is asked for exactly in the lunch hours, and the dinner hours when there are two; it lasts the given minutes within them and the day, and is missing only if no start would do |
| `Meals.MealsOverlapExactly` | backend/workers/solver/solver/greedy.py:138-154 | the meals of two windows overlap if and only if a start clear of the visits lies between the later window and the end of the first meal; without visits, if and only if the later window starts before that end |
| `Auditor.Intervals` | backend/workers/solver/solver/auditor.py:30-38 | the loop builds the floor-to-minute interval of every stop |
| `Auditor.IntervalsAreWholeMinutes` | backend/workers/solver/solver/auditor.py:34-35 | an interval starts in the minute of the arrival and lasts the whole minutes of the stay |
| `Auditor.ApartMeansDisjoint` | backend/workers/solver/solver/auditor.py:39-40 | two lasting intervals are apart if and only if they share no minute |
| `Auditor.RoundingKeepsOrder` | backend/workers/solver/solver/auditor.py:34-40 | stops in order stay pairwise apart after rounding |
| `Auditor.MinuteRoundingIsSafe` | backend/workers/solver/solver/auditor.py:27-40 | if the semantic check reports neither an overlap nor a negative duration, rounding creates no conflict on any known day |
| `Auditor.CpSatAudit` | backend/workers/solver/solver/auditor.py:16-47 | the semantic issues, plus one exactly if some day has overlapping intervals |
| `Auditor.AuditObjectsOnlyToUnknownDays` | backend/workers/solver/solver/auditor.py:19-21 | given no timing issue, the second audit objects exactly to an overlapping day the request does not know |
| `Auditor.UnknownDayEscapesTheCheck` | backend/workers/solver/solver/feasibility.py:74-76 | such a plan |
| `Determinism.KeysTellVariants` | backend/workers/solver/solver/variants.py:111 | no two variants of a candidate share a key, so scores never tie |
| `Determinism.CheapestIsUnique` | backend/workers/solver/solver/greedy.py:68-93 | there is one cheapest insertion of a candidate |
| `Determinism.OrderIgnoresListing` | backend/workers/solver/solver/greedy.py:164-172 | the placing order does not depend on how the candidates are listed |
| `Determinism.RunsAgree` | backend/workers/solver/solver/greedy.py:173-190 | nor do the routes after each placed candidate |
| `Determinism.EmissionIsUnique` | backend/workers/solver/solver/greedy.py:196-235 | a route is emitted in one way, meals and all |
| `Determinism.AnswerIsUnique` | backend/workers/solver/solver/greedy.py:158-247 | all that the solver promises of its answer leaves one answer, whatever way the candidates are listed |
| `Determinism.SolveTwice` | backend/workers/solver/solver/greedy.py:1 | the solver, run on two listings of one request, gives equal answers: blocking must-do, plans, unscheduled ids and objective |
| `SolverModel.PacingByAge` | backend/workers/solver/solver/policy.py:25-39 | pacing by age unless stated, and the later start of a packed day |
| `SolverModel.LegsAreLookedUp` | backend/workers/solver/solver/matrix.py:44-61 | staying costs nothing, an edge goes before an estimate, and only legs on foot count as walked |
| `SolverModel.PlainBuffers` | backend/workers/solver/solver/policy.py:74-80 | the departure buffer of each mode |
| `SolverModel.BuffersByTraveller` | backend/workers/solver/solver/policy.py:81-85 | how age, pacing and limited mobility change it |
| `SolverModel.DeadlineIsBuffered` | backend/workers/solver/solver/policy.py:88-91 | the deadline is earlier by exactly the buffer |
| `SolverModel.VisitsTakeTheirTime` | backend/workers/solver/solver/variants.py:89-94 | dwell, rest and access time of a visit |
| `Greedy.BestPrizeIsBest` | backend/workers/solver/solver/greedy.py:170 | the best prize is attained by a variant and exceeded by none; zero without variants |
| `Greedy.OrderIsPermutation` | backend/workers/solver/solver/greedy.py:164-172 | the placing order lists every candidate exactly once |
| `Greedy.OrderRanks` | backend/workers/solver/solver/greedy.py:164-172 | every candidate once; must-dos first, by falling priority; of the others the earlier one has a variant earning at least as much as any of the later one; ids settle ties |
| `Greedy.PlaceAll` | backend/workers/solver/solver/greedy.py:161-190 | each candidate in turn goes to a cheapest insertion, or is skipped exactly when none is feasible; routes stay feasible, each candidate is placed once or listed once, and the loop stops at a must-do exactly when it fits nowhere |
| `Greedy.ImproveAll` | backend/workers/solver/solver/greedy.py:192-194 | 2-opt on every day permutes its route, with no more travel, keeps feasibility and the accounting, and leaves a route it cannot improve alone |
| `Greedy.PlanVisits` | backend/workers/solver/solver/greedy.py:199-217 | the visit stops and the summed prize |
| `Greedy.NumberStops` | backend/workers/solver/solver/greedy.py:220-222 | ords count from zero |
| `Greedy.EmitDay` | backend/workers/solver/solver/greedy.py:198-235 | visits and first-fit meals by time, numbered |
| `Greedy.EmitAll` | backend/workers/solver/solver/greedy.py:196-235 | every day is emitted; the objective is the sum of the prizes of all visits |
| `Greedy.VisitsEarnRoutePrize` | backend/workers/solver/solver/greedy.py:202 | the visits of a feasible route earn the prizes of its variants |
| `Greedy.PlacementEarnsItsPrize` | backend/workers/solver/solver/greedy.py:187-190 | placing a visit raises the total by exactly its prize, whatever the day and position |
| `Greedy.RoutePrizeAdds` | backend/workers/solver/solver/greedy.py:202 | the prize of a route is additive |
| `Greedy.SolveGreedy` | backend/workers/solver/solver/greedy.py:158-247 | the answer comes from cheapest insertions in placing order, improved day by day; infeasible only at a must-do that fits nowhere; otherwise every candidate is scheduled once or unscheduled once, never both, and no must-do is unscheduled; the objective is the sum of the prizes of all placed variants, which improving the routes does not change |
| `Greedy.GoodRouteIsChronological` | backend/workers/solver/solver/greedy.py:43-53 | visits of a feasible route do not overlap |
| `Weave.WeavingKeepsVisits` | backend/workers/solver/solver/greedy.py:218-219 | sorting meals in leaves the visits in route order |
| `Weave.EmittedIsWoven` | backend/workers/solver/solver/greedy.py:199-222 | an emitted day is its visits in order with meals that overlap none of them |
| `Soundness.SameBookkeeping` | backend/workers/solver/solver/feasibility.py:78-118 | checker and solver agree on place and metres walked at every stop, meals or not |
| `Soundness.EmittedDayIsOk` | backend/workers/solver/solver/feasibility.py:77-131 | an emitted day passes if and only if each meal leaves time for what follows it (and an empty day its bare transfer); visits never fail it |
| `Soundness.PlansHaveNoRepeats` | backend/workers/solver/solver/feasibility.py:102-104 | no place is scheduled twice over all emitted days |
| `Soundness.MustDosAreScheduled` | backend/workers/solver/solver/feasibility.py:133-135 | every must-do is scheduled |
| `Soundness.ApartMealsAreNoTrouble` | backend/workers/solver/solver/greedy.py:138-154 | if the request keeps its meal windows apart from each other, from the visits and from the deadline, meals never make a day fail |
| `Soundness.NoMealsKeptApart` | backend/workers/solver/solver/greedy.py:117-119 | meals off, or windows too short for a meal, meet that condition |
| `Soundness.LunchMayBeKeptApart` | backend/workers/solver/solver/greedy.py:117-128 | so does a request whose lunch is served |
| `Soundness.EmittedPlanIsValid` | backend/workers/solver/solver/greedy.py:158-247 | the emitted plan is valid if and only if meals leave room; for a request that keeps meals apart, if and only if each day left empty is fine as a rest day |
| `Soundness.SolveAndCheck` | backend/workers/solver/solver/feasibility.py:60-136 | the solver followed by the checker: no issue exactly for a valid plan, exactly under that condition, and, from the request alone, none whenever it keeps its meals apart and every day is fine as a rest day |
| `Soundness.EmptyDayMustFail` | backend/workers/solver/solver/greedy.py:196-235 | a request whose empty day makes every answer fail |
| `Soundness.LunchMustFail` | backend/workers/solver/solver/greedy.py:141-154 | a request whose lunch alone makes every answer miss the deadline |
| `Soundness.TwoMealsMustFail` | backend/workers/solver/solver/greedy.py:138-154 | a request whose two meals coincide in every answer, with no travel or deadline involved |
| `Soundness.RejectedAnswers` | backend/workers/solver/solver/feasibility.py:60-136 | the solver run on these three requests, and each answer rejected by the checker |
| `Conflict.SelectionIsOrderFree` | backend/api/src/pois/conflict.ts:147-195 | facts told apart by their ids, in any order and repetition: same winner, same rule, same error |
| `Conflict.BothAreDecisive` | backend/api/src/pois/conflict.ts:95-116 | both comparators are total orders that tie only on equal ids |
| `Conflict.BaseFollowsRules` | backend/api/src/pois/conflict.ts:118-136 | rules 1 to 3: newest official, else newest, or surest; which one exactly when |
| `Conflict.OverrideFiresExactly` | backend/api/src/pois/conflict.ts:174-192 | rule 4 decides if and only if some corroborated correction is newer than the winner so far or that winner is stale; then the newest correction wins |
| `Conflict.FreshCorrectionWins` | backend/api/src/pois/conflict.ts:174-192 | a corroborated correction strictly newer than every other active fact wins in every attribute class |
| `Conflict.SelectionFollowsRules` | backend/api/src/pois/conflict.ts:147-195 | the whole resolver by attribute name: the winner of rules 1 to 3 with all tie-breaks, replaced by the newest confirmed correction if and only if that is newer or the winner older than 365 days |
| `Conflict.ClassesOfAttributes` | backend/api/src/pois/conflict.ts:60-74 | which attributes are operational and which time-sensitive |
| `Conflict.WinnerIsActive` | backend/api/src/pois/conflict.ts:151-168 | an error exactly for mixed attributes, nothing exactly without active facts, and only active facts win |
| `Conflict.GroupIsNeverMixed` | backend/api/src/pois/conflict.ts:197-221 | a group of one attribute never raises the error |
| `Conflict.SelectFactsByAttribute` | backend/api/src/pois/conflict.ts:204-221 | the grouping loops give every attribute the selection of its own facts, and no other entry |
| `ProfileStore.Store.constructor` | frontend/src/onboarding/store/profileStore.ts:38-51 | the initial state |
| `ProfileStore.Store.BeginLoad` | frontend/src/onboarding/store/profileStore.ts:53-56 | the step of a load before its await |
| `ProfileStore.Store.EndLoad` | frontend/src/onboarding/store/profileStore.ts:57-76 | the step after it, guarded by request number and revisions |
| `ProfileStore.Store.BeginSave` | frontend/src/onboarding/store/profileStore.ts:79-80 | the step of a save before its await (same for the three resources) |
| `ProfileStore.Store.EndSave` | frontend/src/onboarding/store/profileStore.ts:81-113 | the step after it, guarded by the revision |
| `ProfileStore.Store.EndErase` | frontend/src/onboarding/store/profileStore.ts:124-138 | the step of an erasure after its await |
| `ProfileStore.RevisionTellsSuperseded` | frontend/src/onboarding/store/profileStore.ts:38-41 | a revision is unchanged exactly while no save begins and no erasure completes |
| `ProfileStore.LoadWritesExactly` | frontend/src/onboarding/store/profileStore.ts:53-77 | in any interleaving, exactly when a finished load writes a resource: no newer load, no save of it begun since, no erasure since |
| `ProfileStore.LoadSettles` | frontend/src/onboarding/store/profileStore.ts:62-76 | the status after a load ends |
| `ProfileStore.StatusFollowsLoads` | frontend/src/onboarding/store/profileStore.ts:53-77 | in every reachable state: idle until a load begins, loading if and only if the latest load is under way |
| `ProfileStore.SaveWritesExactly` | frontend/src/onboarding/store/profileStore.ts:79-113 | only the save begun last writes, only its own resource, only if nothing was erased since |
| `ProfileStore.NothingOutlivesErasure` | frontend/src/onboarding/store/profileStore.ts:124-138 | after an erasure no operation begun earlier changes any resource |
| `ProfileStore.ErasedUntilNewWork` | frontend/src/onboarding/store/profileStore.ts:124-138 | a resource stays empty until an operation begun after the erasure writes it |
| `ProfileStore.LoadDuringSaveMayOverwrite` | frontend/src/onboarding/store/profileStore.ts:30-33 | a load begun while a save is in flight can overwrite the saved value |
| `SessionStore.Store.constructor` | frontend/src/auth/session/store.ts:122-133 | the initial state |
| `SessionStore.Store.BeginAuth` | frontend/src/auth/session/store.ts:135-144 | captures return path and pending action |
| `SessionStore.Store.BeginRefresh` | frontend/src/auth/session/store.ts:146-148 | the step of a refresh before its await |
| `SessionStore.Store.EndRefresh` | frontend/src/auth/session/store.ts:149-164 | the step after it |
| `SessionStore.Store.TakeRevision` | frontend/src/auth/session/store.ts:166-168 | the step of a callback or sign-out before its await |
| `SessionStore.Store.EndCallback` | frontend/src/auth/session/store.ts:168-188 | the step of a callback after its await |
| `SessionStore.Store.EndSignOut` | frontend/src/auth/session/store.ts:190-202 | the step of a sign-out after its await |
| `SessionStore.Store.ReportExpired` | frontend/src/auth/session/store.ts:204-213 | expiry: where to return to, and the move to sign-in |
| `SessionStore.Store.Recover` | frontend/src/auth/session/store.ts:234-245 | the mount-time recovery from a failed probe |
| `SessionStore.StaleAnswersAreDropped` | frontend/src/auth/session/store.ts:146-213 | in any interleaving an answer that arrives after a newer operation began, or an expiry, changes nothing at all |
| `SessionStore.CurrentAnswersApply` | frontend/src/auth/session/store.ts:146-188 | and an answer with nothing newer is applied |
| `SessionStore.SignOutForgets` | frontend/src/auth/session/store.ts:190-202 | a current confirmed sign-out clears user, way back and stashed action, and does nothing else |
| `SessionStore.CallbackResumes` | frontend/src/auth/session/store.ts:166-188 | a current callback with a session navigates to the remembered path, runs the stashed action once, and forgets both |
| `SessionStore.LostSessionsExpire` | frontend/src/auth/session/store.ts:159-173 | a callback without a session and a refresh that finds it gone report the expiry |
| `SessionStore.ExpiryRemembers` | frontend/src/auth/session/store.ts:204-213 | an expiry clears the user, goes to sign-in, and remembers where to return; on a sign-in page the earlier place |
| `SessionStore.GatedActionComesBack` | frontend/src/auth/session/store.ts:135-188 | an action gated at a path is run after the way back to that path, whatever probes, sign-in attempts and failed sign-outs lie between |
| `SessionStore.ProbesShow` | frontend/src/auth/session/store.ts:146-148 | a probe shows as loading, a failed mount-time probe as unavailable without a user |
| `SessionStore.AuthenticatedHasUser` | frontend/src/auth/session/store.ts:146-213 | in every reachable state an authenticated session has a user |
| `SessionStore.EachActionReplaysOnce` | frontend/src/auth/session/store.ts:135-188 | in every reachable state each gated action was replayed, or is still pending, at most as often as it was stashed |
| `Merge.GroupLimits` | backend/api/src/merge/engine.ts:158-169 | the first loop: unions of vetoes, the least budget, the strictest mobility |
| `Merge.HardFilters` | backend/api/src/merge/engine.ts:180-206 | the four filters and the order of their flags |
| `Merge.ScorePanel` | backend/api/src/merge/engine.ts:208-230 | the inner loop: sum, votes, misery |
| `Merge.ScoreOne` | backend/api/src/merge/engine.ts:171-247 | one candidate: group score, vetoes person by person, misery |
| `Merge.ScoreCandidates` | backend/api/src/merge/engine.ts:152-249 | one correct row per candidate, in input order |
| `Merge.LimitsDecide` | backend/api/src/merge/engine.ts:180-206 | group limits decide exactly what vetoes member by member would |
| `Merge.FlagsSayWhy` | backend/api/src/merge/engine.ts:180-233 | each flag of a row in terms of the members: an excluded category or tag, an unmet diet at a restaurant or cafe, a tier too dear, the tag the strictest needs, a down vote |
| `Merge.RowsAreDecided` | backend/api/src/merge/engine.ts:208-247 | excluded by the first four flags or by misery under a mean of 0.34; the score is the plain mean and the vote counts are the numbers of voters |
| `Merge.MemberScoreIs` | backend/api/src/merge/engine.ts:213-226 | what a member contributes, case by case |
| `Merge.MiseryIsADownVote` | backend/api/src/merge/engine.ts:227 | a member is miserable if and only if they voted down |
| `Merge.KinderVotesHelp` | backend/api/src/merge/engine.ts:213-238 | between two runs that differ only by kinder votes a place keeps or raises its score, gains no flag and is not newly excluded |
| `Merge.RanksAscend` | backend/api/src/merge/engine.ts:91-94 | the orders of the budget tiers and mobility needs |
| `Merge.ScoresAreAnonymous` | backend/api/src/merge/engine.ts:152-249 | two runs of the engine that seat the same people with the same votes on every candidate, in whatever order, return the same rows, field by field |
| `Merge.PermutedIsSameBallot` | backend/api/src/merge/engine.ts:45-46 | permuting the members, and the votes of each candidate alike, gives such a pair of runs |
| `Merge.IsScoreIgnoresVotes` | backend/api/src/merge/engine.ts:171-247 | a row depends on the votes only through the panel of members and votes |
| `Merge.VetoesStand` | backend/api/src/merge/engine.ts:180-233 | between a run of the engine and one in which one more member votes, a flag for a hard exclusion, a dietary need, a budget or misery is never lost, and a candidate excluded by one of the first three stays excluded |
| `Merge.JoiningAtTheEnd` | backend/api/src/merge/engine.ts:209-211 | appending a member, and a vote per candidate, is such a second run |
| `Merge.AccessLiftedExactly` | backend/api/src/merge/engine.ts:164-169 | between two such runs the mobility flag is lost if and only if the newcomer is stricter than everyone and satisfied |
| `Merge.AccessCanBeLifted` | backend/api/src/merge/engine.ts:101-106 | it does happen: a wheelchair user joins, and an excluded place comes back without any flag |
| `Merge.AThirdIsEnough` | backend/api/src/merge/engine.ts:111-118 | a candidate that at least a third of the members score -1 is always excluded |
| `Merge.OneAgainstTheRest` | backend/api/src/merge/engine.ts:111-118 | one member at -1 against all others at +1 excludes a place exactly in groups of up to three |
| `HttpRetry.MemoryResponseCache.constructor` | backend/workers/pipeline/pipeline/ingestion/http.py:183-186 | empty |
| `HttpRetry.MemoryResponseCache.Get` | backend/workers/pipeline/pipeline/ingestion/http.py:188-194 | serves an unexpired entry and drops any other under the key |
| `HttpRetry.LookupDropsExpired` | backend/workers/pipeline/pipeline/ingestion/http.py:188-194 | a lookup drops the entry under the key if and only if it has expired, and touches no other |
| `HttpRetry.MemoryResponseCache.Put` | backend/workers/pipeline/pipeline/ingestion/http.py:196-198 | stores under the key |
| `HttpRetry.ResilientJsonClient.constructor` | backend/workers/pipeline/pipeline/ingestion/http.py:303-324 | the client as configured |
| `HttpRetry.ResilientJsonClient.Send` | backend/workers/pipeline/pipeline/ingestion/http.py:346-351 | an answer in time, or silence until the timeout |
| `HttpRetry.ResilientJsonClient.Sleep` | backend/workers/pipeline/pipeline/ingestion/http.py:391 | a pause that is not positive takes no time |
| `HttpRetry.ResilientJsonClient.Fetch` | backend/workers/pipeline/pipeline/ingestion/http.py:334-441 | the retry loop produces a lawful trace and the outcome its last send calls for; the final error is unreachable |
| `HttpRetry.ResilientJsonClient.RequestJson` | backend/workers/pipeline/pipeline/ingestion/http.py:326-441 | a cached document costs no send; otherwise a run, after which exactly a delivered document is stored; a cache of usable bodies stays one, and a hit on it never fails |
| `HttpRetry.RunsKeepTheirBudget` | backend/workers/pipeline/pipeline/ingestion/http.py:326-441 | at most max_retries + 1 sends, each send and sleep over by the deadline, no sleep beyond the cap whatever upstream advises, reported attempts equal to sends made |
| `HttpRetry.RunsTakeBoundedTime` | backend/workers/pipeline/pipeline/ingestion/http.py:334-441 | the n-th send starts within n - 1 timeouts and capped pauses |
| `HttpRetry.SleepsAreAsAdvised` | backend/workers/pipeline/pipeline/ingestion/http.py:429-439 | between two sends the loop sleeps as long as Retry-After asks, in seconds or until a date, up to the cap; otherwise 0.25, 0.5, 1 or 2 seconds |
| `HttpRetry.SleepsForStructuredErrors` | backend/workers/pipeline/pipeline/ingestion/http.py:380-391 | after a retryable API error in a 2xx answer: its lag, at least 0.25 seconds, or half a second |
| `HttpRetry.RepeatedStatuses` | backend/workers/pipeline/pipeline/ingestion/http.py:301 | a send is repeated only after these statuses |
| `HttpRetry.GivesUpExactly` | backend/workers/pipeline/pipeline/ingestion/http.py:405-427 | with sends to spare and budget left, a run ends in an error if and only if the answer is undecodable or its status is final |
| `HttpRetry.FailuresNameTheirCause` | backend/workers/pipeline/pipeline/ingestion/http.py:347-427 | code and status of an error by what came of the last send |
| `HttpRetry.LateDeadlineChecksAreRedundant` | backend/workers/pipeline/pipeline/ingestion/http.py:335-342 | with a non-negative cap the check at the top of the loop fires only before the first send, and exactly when the deadline has passed by then |
| `HttpRetry.RunsAreUnique` | backend/workers/pipeline/pipeline/ingestion/http.py:326-441 | call and upstream behaviour determine the trace and the outcome |
| `HttpRetry.PatienceIsRewarded` | backend/workers/pipeline/pipeline/ingestion/http.py:334-441 | if the source recovers within the allowed retries and the deadline leaves room, its answer is delivered, after exactly that many sends |
| `HttpRetry.RequestTwice` | backend/workers/pipeline/pipeline/ingestion/http.py:326-334 | of two successive calls for the same request, the second delivers the first document with no send and no delay until the entry expires, and is a run of its own afterwards; the entry expires a lifetime after its fetch, or, if the first call was a hit already, when it would have |

## Left out

- Soundness.SolveAndCheck: with meals on, the exact condition is about the emitted stops (time after each meal); the condition on the request (`MealsKeptApart`) is sufficient, not necessary.
- Auditor.CpSatAudit: needs a structured payload, because the program raises on any other; the solver's one-second limit is not modelled, and zero-length intervals count as apart from those they touch.
- Places.Serve: one list, whose requests are served one after the other; what runs beside them is inserts only.
- Places.TripCityTable.Interleave: other requests only commit inserts; their concurrent patches and rebalances, and the lock waits these would cause, are not modelled.
- SessionStore.Store.Recover: may happen at any step here, which includes the one point where the program runs it.
- HttpRetry.ResilientJsonClient.Send: the clock moves only during sends and sleeps, the semaphore is never contended, and an answer arriving exactly at the timeout counts as late.
- Cancellation, `FileResponseCache`, cache keys, endpoint validation, and retry delays that are not finite numbers.
- Floating-point rounding: merge scores, delays, walking metres and confidences are exact reals; the rounded `walking_m` and leg metres of a response, and `ends_at`, are not emitted.
- Prizes, priorities, weather factors, haversine distances and default speeds: parameters of the request. Golden-hour windows ignore their day tag, as in the code.
- JSON, timezone and timestamp parsing, JavaScript's invalid dates, and sub-second times: the model starts from parsed whole seconds.
- `precheck`, the OR-Tools engine and its search: the CP-SAT model is represented by its intervals only.
- Row-level security, editor checks, the lookup of the city stay (a flag here), and lists of several cities: one table per city stay.
- Error messages, explanations and HTTP status texts: errors are values without text.
- Return-path normalisation, session storage that fails, and the `guard` wrapper, which only reports expiry and rethrows.
- Fact identity across entities, and wall-clock defaults: `now` is a parameter.
- Ingestion adapters, orchestration, authentication, invitations, migrations and the user interface.
