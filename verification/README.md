# Exact repair federations and provenance orders

This project models the exact, discrete part of `oph_exact` and proves what its
documentation, receipts and tests promise, on arbitrary finite data: any port
graph, any seam and coin sequence, any read relation, any label system.

* **Repair federations.** Ports hold loads and are joined by seams. `Layering`
  and `Federation` model the dependency-layer reordering of a schedule.
  `IntegerLaw`, `IntegerLayered`, `IntegerDescent`, `IntegerRun` and
  `IntegerReach` model the integer nearest-agreement law: the sequential and the
  layered engine, the descent functional `V` with its minimum and quotient
  payload, whole schedules, and reachability. `MeanLaw`, `MeanLayered` and
  `MeanPotential` model the mean law and its mismatch potential `Phi`;
  `DyadicMean`, `MeanSnap`, `MeanExactRun` and `MeanReach` its exact dyadic run,
  the lattice snap and the reachability of the threshold.
* **Carrier source net.** `ReadNet` holds the layered reads and their cones,
  `EventOrder`, `TraceOrder`, `CarrierProvenance` and `ConesFromLog` the order
  generated from the read-after-write log, `Search`, `PairWeights`,
  `PairHistogram`, `CentreInterval` and `PairCount` the pruned searches and the
  histogram pair count against the brute-force count, `GoldenField`,
  `NeighbourTests`, `GoldenMetric` and `SiteGraph` the exact neighbour decisions and
  the distances they stand for. `ReadWalks` says what the values count.
* **Closure loop.** `ClosureSource`, `ClosureRecovery`, `ClosureLoop` and
  `UnionFind` go from a carrier to its event log and back; `MatrixPower` and
  `PolynomialPower` hold modular-polynomial matrix powers, `Readback` the
  rounding to significant digits, `Probe` and `Prediction` the logged probe and
  its prediction from recovered seams, `ProbeMeaning` the expectation it reads.
* **Tilted kernel.** `LabelMoves`, `TiltedKernel`, `LabelPaths`,
  `PathProgramme`, `MostProbable` and `Absorption`.
* **Equivariant pairings.** `Pairings`.

Conventions. Floats and fractions are `real`; Python integers are `int`; random
draws (seams, coins, labels) are input sequences; a hash is represented by the
payload that is hashed. Code that updates arrays or lists step by step is a
method whose contract ties the result to a function of the old state (`Go`,
`Run`, `Layer`, ...); what the source promises is then proved of that function.
`Go` is the sequential run: its `hit` is the index the reference engine reports
and its `level` the index read off running sums.

Two findings. The first-hit index of the layered integer engine differs from the
reference engine's exactly when a call is entered at `v == v_min` and the first
attempt waits (`FirstHitAgreement`, `FirstHitsCanDiffer`); `run_integer_law`
never makes such a call (`SweepHitsIffBalanced`). Rule recovery takes an integer
source for a seam-mean source exactly when some event discriminates and every one
that does has an even total (`RuleRecovered`, with an input in
`EvenTotalMisleads`).

`dafny verify dfyconfig.toml` checks the whole project.

## Model

| member | source | states |
|---|---|---|
| Federation.FirstPositions | oph_exact/federation.py:696-705 | `first[p]` is the earliest waiting position that touches port `p`, or the number of positions |
| Federation.ReadyByFirst | oph_exact/federation.py:706-712 | the earliest-position test (with or without the closed-neighbourhood table) holds exactly when no earlier waiting move writes a port the move reads |
| Federation.DependencyLayers | oph_exact/federation.py:680-714 | the yielded lists of positions are the dependency layers of the schedule, first to last |
| Federation.SeamMovesMutual | oph_exact/federation.py:680-714 | seam moves fit the graph, have distinct positions, and "one writes what the other reads" is symmetric, for the port test and for the closed-neighbourhood test |
| Layering.LayersPartition | oph_exact/federation.py:680-714 | every pass is nonempty and the layers together hold each move of the schedule exactly once |
| Layering.LayersDisjoint | oph_exact/federation.py:680-714 | the moves of one layer touch pairwise disjoint ports |
| Layering.LayerFirst | oph_exact/federation.py:680-714 | running one layer and then the rest gives the state and the per-move readings of list order |
| Layering.LayersRefineSequence | oph_exact/federation.py:680-714 | for any law and any schedule, layered execution ends in the sequential state and every move sees the readings it sees in sequence |
| IntegerLaw.NearestAgreement | oph_exact/carrier.py:305-318 | the pair keeps its total and ends at most one apart, with the larger reading on the side of the ceiling |
| IntegerLaw.UnitTransferClosedForm | oph_exact/federation_archive.py:1607-1619 | the summed unit-transfer decrements `2(d-1) + 2(d-3) + ...` equal `(d^2 - d mod 2)/2` and `2 floor(d/2) ceil(d/2)` |
| IntegerLaw.SquareChangeIsLedger | oph_exact/federation.py:865-871 | any attempt changes the sum of squares of its two readings by exactly minus the unit-transfer ledger of the gap, whatever the coin |
| IntegerLaw.TickCounts | oph_exact/federation.py:855-871 | the tally of an attempt by its readings: a wait moves nothing, a swap exchanges two different readings, a descent has a gap of two or more, and the unit transfers are the units by which the higher reading falls |
| IntegerLaw.IntegerMovesPython | oph_exact/federation.py:840-877 | the reference engine leaves readings, tracked `v`, the five tallies and the first index that reaches `v_min` of the sequential run |
| IntegerLayered.ResolveVector | oph_exact/federation.py:896-914 | the masked computation of one attempt gives the new readings, change and tally of the law |
| IntegerLayered.ScanChunk | oph_exact/federation.py:919-926 | the running sums of a chunk end in the new `v` and find the first index at which the sum equals `v_min` |
| IntegerLayered.IntegerMovesNumpy | oph_exact/federation.py:880-926 | for every seam and coin sequence and every chunk size the layered engine ends with the readings, `v` and tallies of the sequential run, and the first index at which `v` equals `v_min` |
| IntegerLayered.FirstHitAgreement | oph_exact/federation.py:840-926 | the first-hit indices of the two engines agree if and only if the call is not entered at `v == v_min` with a waiting first attempt |
| IntegerLayered.FirstHitsCanDiffer | oph_exact/federation.py:840-926 | two equal ports entered at the minimum: the engines report different first-hit indices |
| IntegerDescent.MinimumIsBalanced | oph_exact/federation.py:303-311 | for given component totals `V >= v_min`, with equality exactly when every reading is its component's `q` or `q + 1` |
| IntegerDescent.PayloadIffMinimum | oph_exact/federation.py:266-295 | the quotient payload is the expected one if and only if `V` is minimal |
| IntegerDescent.TotalsDecide | oph_exact/federation.py:282-311 | minimum and expected payload depend on the component totals only |
| IntegerRun.RunKeepsTotals | oph_exact/federation.py:840-877 | every run keeps every component total |
| IntegerRun.RunTracksV | oph_exact/federation.py:866-872 | along every run the tracked `v` is the sum of squared readings |
| IntegerRun.RunStaysWithin | oph_exact/federation_archive.py:1738-1739 | no run leaves the range of its initial readings |
| IntegerRun.RunLedger | oph_exact/federation_archive.py:1748-1763 | along every run: no decrement violation, every attempt tallied once, and `2 t <= V0 - V <= 2 (dmax - 1) t` for `t` unit transfers (zero drop when `dmax < 2`) |
| IntegerRun.SweepHitsIffBalanced | oph_exact/federation.py:1084-1091 | a sweep entered above the minimum reports a hit exactly when it ends in the balanced class, and both engines report the same index |
| IntegerRun.IntegerMinimumDescent | oph_exact/federation.py:303-311 | the loop over component totals computes the least `V` with those totals |
| IntegerRun.RunIntegerLaw | oph_exact/federation.py:1061-1114 | with either engine: negative loads are refused; a finished run has the state and the tally of the concatenated attempts; the reported attempt is the first after which `V` is the minimum, 0 exactly for balanced loads and -1 for none; it stops at the end of that sweep, with the expected payload exactly then |
| IntegerRun.FirstAtNext | oph_exact/federation.py:1084-1090 | a sweep entered above the minimum continues the search for the first attempt of the whole schedule at which `V` is the minimum |
| IntegerRun.TerminalQuotientUnique | oph_exact/federation.py:266-295 | two balanced end states with the totals of the same loads share one quotient payload |
| IntegerReach.PlayIsGo | oph_exact/federation.py:840-877 | playing a finite plan of seams and coins is what the engines compute on it |
| IntegerReach.CanLower | oph_exact/federation.py:35-39 | from every state with `V > v_min` some finite sequence of unit swaps followed by one descent lowers `V` |
| IntegerReach.BalancedReachable | oph_exact/federation.py:35-39 | from all loads some finite schedule reaches the balanced class with `V == v_min` |
| IntegerReach.BalancedSweeps | oph_exact/federation.py:1061-1116 | on a connected graph some finite list of full sweeps, from all loads, ends at the minimum, so the schedule terminates |
| IntegerReach.BalancedOrbit | oph_exact/federation.py:35-39 | from a balanced state, unit swaps alone reach exactly the balanced states with the same totals: one orbit |
| MeanLaw.MeanMovesPython | oph_exact/federation.py:633-677 | the reference engine leaves the readings and tallies (waits, raising moves, violations, ledger) of the sequential mean law |
| MeanLayered.TickIsLocal | oph_exact/federation.py:723-732 | an attempt's tally depends only on the closed neighbourhoods of its two ports |
| MeanLayered.MeanMovesNumpy | oph_exact/federation.py:735-780 | with the closed-neighbourhood test the layered engine ends, for every chunk size, with the sequential readings, waits, raising count, violations and ledger |
| MeanPotential.NeighbourSumBySeams | oph_exact/federation.py:723-732 | on a simple graph the neighbour sum of a port is the sum over the other ends of its seams |
| MeanPotential.TestedDeltaIsPhiChange | oph_exact/federation.py:623-630 | on any simple graph the tested seam sum change is exactly `Phi` after the move minus `Phi` before it |
| MeanPotential.RaisingIsRaising | oph_exact/federation.py:663-669 | an attempt is tallied as raising exactly when it raises `Phi` |
| DyadicMean.RescaleInvisible | oph_exact/federation.py:1197-1204 | shifting readings and ledger for a larger exponent does not change what they stand for |
| DyadicMean.MoveStands | oph_exact/federation.py:1189-1215 | one attempt on dyadic integers, rescaled first when its total is odd, stands for the rational seam mean |
| DyadicMean.MoveGrows | oph_exact/federation.py:1189-1215 | the exponent grows by the rescale step exactly on an odd total, and every attempt is counted as a wait or a move |
| DyadicMean.ExactSweep | oph_exact/federation.py:1187-1215 | a sweep on dyadic integers stands for the mean law through every rescale |
| DyadicMean.GlobalIdentity | oph_exact/federation.py:1226-1227 | `2 (V0 shifted to the final exponent - V)` is exactly the integer ledger |
| DyadicMean.ThresholdIsExact | oph_exact/federation.py:1169-1180 | the integer comparison decides `Phi <= 10^-18` exactly |
| MeanSnap.PathCauchy | oph_exact/federation.py:255-264 | Cauchy-Schwarz along a path: the squared difference of its ends is at most its length times the sum of squared steps |
| MeanSnap.SpreadBelowPhi | oph_exact/federation.py:255-264 | two readings of one connected component of `m` ports differ by at most the root of `(m - 1) Phi` |
| MeanExactRun.ComponentConservation | oph_exact/federation.py:1231-1237 | at any exponent the integers of a component sum to its load total shifted by the exponent |
| MeanExactRun.SnapIsTotal | oph_exact/federation.py:1238-1252 | below the threshold, with `4 m^2 (m-1) < 10^18`, every snapped reading is the initial load total of its component |
| MeanExactRun.SnapUnique | oph_exact/federation.py:255-264 | two schedules on any draws that stop give the same snapped readings, the expected ones |
| MeanExactRun.RunIdentity | oph_exact/federation.py:1226-1227 | the global descent identity of a whole run from shifted loads |
| MeanExactRun.ChecksHold | oph_exact/federation.py:1226-1237 | after any sweeps the three reported checks hold: the global identity, and the conservation of the total and of every component total |
| MeanExactRun.RunMeanLawExact | oph_exact/federation.py:1117-1260 | the final integers stand for the exact rational run and are those of the dyadic attempts, exponent and counts included; the run stops at the first near sweep whose potential is at most `10^-18`, and only there; identity, total and component checks all hold; the snapped readings are the nearest integers, ties to even, and with resolvable component sizes those of a terminated run are the expected payload for every schedule |
| MeanReach.ThresholdReachable | oph_exact/federation.py:1117-1225 | on every valid graph and from all readings some finite list of full sweeps brings `Phi` to at most `10^-18` |
| MeanReach.ExactThresholdReachable | oph_exact/federation.py:1169-1180 | from all loads some finite list of full sweeps makes the integer threshold test succeed on whatever dyadic state stands for the run |
| ReadNet.RunReads | oph_exact/carrier_source_net.py:505-544 | the rounds of complete-neighbour reads from the seeds, with the intervention: layer `j` is one more than the sum of the layer `j - 1` values read |
| ReadWalks.LayerCountsWalks | oph_exact/carrier_source_net.py:519-538 | the value of a site in round `j` is the seeds summed over the walks of length `j` into it, plus the number of shorter walks |
| ReadWalks.WalksListed | oph_exact/carrier_source_net.py:519-538 | the counted walks are exactly the walks of the read relation |
| ReadWalks.WalksOnce | oph_exact/carrier_source_net.py:519-538 | no walk is counted twice when no row repeats a register |
| ReadNet.ConeIsBall | oph_exact/carrier_source_net.py:692-718 | with self-reads the cone after `k` rounds is the ball of radius `k` in walk distance |
| ReadNet.InterventionIsCone | oph_exact/carrier_source_net.py:905-914 | a `+1` at one seed raises the round-`j` values exactly on the future cone and lowers none |
| ConesFromLog.Cones | oph_exact/carrier_source_net.py:692-718 | the cones read off the log records are, round by round, the future cone of the centre's seed event and the past cone of its last event |
| ConesFromLog.ConesMeet | oph_exact/carrier_source_net.py:790-797 | the two cones meet in round `j` exactly in the sites with `alpha <= min(j, K - j)` |
| EventOrder.Parents | oph_exact/verify_carrier_source_net_independent.py:400-415 | two writers, or the first read that does not resolve to an earlier event, are reported; otherwise parents are the writers of what was read |
| EventOrder.Ranks | oph_exact/verify_carrier_source_net_independent.py:417-421 | the rank of every event is the length of a longest chain that ends in it |
| EventOrder.DescendantSets | oph_exact/verify_carrier_source_net_independent.py:424-430 | the descendant set of every event is its strict up-set in the transitive closure of the edges |
| EventOrder.Provenance | oph_exact/verify_carrier_source_net_independent.py:398-432 | the order is generated if and only if the log is sound, with longest-path ranks and transitive-closure descendant sets; every fault has its exact kind |
| TraceOrder.TraceIsSound | oph_exact/carrier_source_net.py:547-644 | in the log of a layered run every version has one writer and every read resolves to an earlier event |
| TraceOrder.OrderIsLayered | oph_exact/carrier_source_net.py:591-644 | `(j, s)` strictly precedes `(j', t)` in the closure of the log's edges iff `j < j'` and `t` is in the cone of `s` after `j' - j` rounds |
| TraceOrder.OrderIsDistance | oph_exact/carrier_source_net.py:591-644 | with self-reads the generated order is `d(s, t) <= j' - j` |
| TraceOrder.RankIsRound | oph_exact/carrier_source_net.py:624-628 | the longest-path rank of an event is the round it ran in, and no other number |
| CarrierProvenance.WriterOf | oph_exact/carrier_source_net.py:603-607 | the writer table holds for every register version its one writer, and `-1` elsewhere; no version is written twice |
| CarrierProvenance.UpdateRanks | oph_exact/carrier_source_net.py:624-627 | every reader's event gets one more than the largest rank of its parents, all other ranks stay |
| CarrierProvenance.ProvenanceEdges | oph_exact/carrier_source_net.py:587-644 | faults of the first faulty round with their kind; edge count, chronology, repeated relation and row starts as the log has them; every round lifts its readers one above their highest parent and the rank flag compares them with the round; on the log of a layered run every rank is the round |
| CarrierProvenance.LayeredIsSound | oph_exact/carrier_source_net.py:547-571 | the log of a layered run has no fault, is chronological and repeats one relation |
| CarrierProvenance.RelationIsRows | oph_exact/carrier_source_net.py:636-644 | row starts and registers recovered from the first round are exactly the rows of the read relation |
| CarrierProvenance.EdgesAgree | oph_exact/carrier_source_net.py:615-623 | the edges of the round records are the edges of the event list |
| Search.Bfs | oph_exact/carrier_source_net.py:658-690 | recorded distances are lengths of walks within the cap; when `alpha` changes by at most one along a read they are exact for every target with `alpha_t + d <= budget` inside the cap |
| Search.WholeSearch | oph_exact/carrier_source_net.py:658-690 | without cap and pruning every reached site has its distance and `-1` marks exactly the unreached ones |
| Search.Ancestor | oph_exact/carrier_source_net.py:662-668 | on the way to a target within the budget every layer holds a site within the budget |
| PairHistogram.StartDistances | oph_exact/carrier_source_net.py:744-754 | what one pruned start records is exact, or both it and the true distance are beyond the budget |
| PairHistogram.EntryWeight | oph_exact/carrier_source_net.py:733-756 | an entry weighs as many ordered event pairs as its two sites have in every `k`-interval |
| PairHistogram.AllHistograms | oph_exact/carrier_source_net.py:733-756 | the summed batch histograms count the entries of all support pairs, for every batch size |
| PairWeights.StrictPairCounts | oph_exact/carrier_source_net.py:759-770 | the triple sum over a histogram is, for every `k`, the summed weight of its entries |
| CentreInterval.IntervalIsLayered | oph_exact/carrier_source_net.py:790-797 | an event of round `j` lies in the centre interval iff `alpha <= min(j, k - j)` |
| CentreInterval.LayeredInterval | oph_exact/carrier_source_net.py:790-797 | the listed events and layer counts are those of `alpha <= min(j, k - j)`, listed by layer and by site within it |
| CentreInterval.IntervalReadout | oph_exact/verify_carrier_source_net_independent.py:458-471 | ascending members, counts by rank and the number of strictly ordered pairs of an interval, from descendant sets |
| PairCount.SupportCountsPairs | oph_exact/carrier_source_net.py:733-770 | the support sites contribute exactly the strictly ordered event pairs of the centre interval |
| PairCount.CountStrictPairs | oph_exact/carrier_source_net.py:658-770 | on any symmetric relation with self-reads: refused exactly when disconnected, else for every `k <= K` the fast count is the number of strictly ordered pairs of the generated order in the centre interval |
| PairCount.BruteStrictPairs | oph_exact/verify_carrier_source_net_independent.py:398-471 | the brute-force count over descendant sets is the same number |
| GoldenField.ZeroSign | oph_exact/carrier.py:76-87 | the sign rule on integer coefficients gives zero only for zero |
| GoldenField.SignIsReal | oph_exact/carrier.py:76-87 | the rule is the sign of the real number `a + b sqrt 5`, for all integers `a`, `b` |
| GoldenField.AddNonnegative | oph_exact/carrier.py:76-87 | numbers with nonnegative sign add up to numbers with nonnegative sign |
| GoldenField.ScaleKeepsSign | oph_exact/carrier_source_net.py:450-454 | multiplying by `5 - sqrt 5` keeps the sign |
| GoldenField.GoldenFloorIsFloor | oph_exact/carrier_source_net.py:223-225 | `m = (b + isqrt(5 b^2)) // 2` satisfies `m <= b phi < m + 1` |
| GoldenField.GoldenFloorIsReal | oph_exact/carrier_source_net.py:223-225 | the same floor against the real `phi = (1 + sqrt 5) / 2` |
| NeighbourTests.PatternFromFaces | oph_exact/carrier_source_net.py:264-275 | the sign pattern of the positive ports is the one the icosahedron faces give: `+1` for joined ports, `-1` at distance two |
| NeighbourTests.MetricIdentity | oph_exact/carrier_source_net.py:395-412 | `S2 = 2 A` and `X = 4 B - 2 A` for all labels |
| NeighbourTests.TestsAgree | oph_exact/carrier_source_net.py:450-454 | the six-component record test and the per-axis golden test decide the same relation, for all labels and all `q` |
| NeighbourTests.BoxLosesNothing | oph_exact/source_net.py:281-329 | a neighbour by the full sum is a candidate on every axis |
| NeighbourTests.ReadsAreMutual | oph_exact/source_net.py:281-329 | every site is its own neighbour and the relation is symmetric |
| GoldenMetric.CoordinateIsPart | oph_exact/source_net.py:233-235 | the stored pair `(m, b)` is the fractional part of `b phi`: `0 <= m + b phi < 1` for the real `phi` |
| GoldenMetric.AxisIsGap | oph_exact/source_net.py:238-246 | the axis tables hold the squared difference of two fractional parts |
| GoldenMetric.AxisNearIsNear | oph_exact/source_net.py:288-290 | the per-axis candidate test is the same bound on one axis alone |
| GoldenMetric.NeighboursAreNear | oph_exact/source_net.py:281-329 | two sites are neighbours exactly when `q` times their squared distance in the unit cube of fractional parts is at most one |
| SiteGraph.BuildSiteGraph | oph_exact/source_net.py:281-329 | the rows list, ascending and in product order, exactly the sites within squared distance `1 / q` of every site of the cube |
| SiteGraph.SiteGraphIsReadRelation | oph_exact/source_net.py:281-329 | the site graph is a symmetric read relation with self-reads, and the record test decides the same rows |
| LabelMoves.DeclaredDescent | oph_exact/phi_kernel.py:218-247 | a declared move changes `V` by `-2 floor(D/2) ceil(D/2)` of its gap, and every state-changing move strictly lowers `V` |
| LabelMoves.LiteralSwaps | oph_exact/phi_kernel.py:409-455 | where the literal carrier function differs from the declared move it swaps a gap of one, at no change of `V` |
| TiltedKernel.BuildKernel | oph_exact/phi_kernel.py:480-490 | refused exactly when some decrement is positive, else every weight is one doubled `beta` times per unit that the decrement lies below zero, and every partition is the sum of its row |
| TiltedKernel.WeightDoubles | oph_exact/phi_kernel.py:480-490 | a zero decrement weighs one, and a decrement lower by `u` weighs `2^(beta u)` times as much |
| TiltedKernel.NoTilt | oph_exact/phi_kernel.py:480-490 | at `beta = 0` all weights are one and the partition is the number of labels |
| LabelPaths.ChanceRatio | oph_exact/phi_kernel.py:480-490 | two label chances of one state compare as `2^(beta (d - d'))` |
| LabelPaths.SummaryUnique | oph_exact/phi_kernel.py:986-996 | largest probability and tie count of a set of paths are determined by the set |
| LabelPaths.Merge | oph_exact/phi_kernel.py:1014-1022 | keeping the better candidate and adding counts on a tie summarises the union of two disjoint path sets |
| PathProgramme.Advance | oph_exact/phi_kernel.py:1006-1022 | one step of the programme: per reachable end state the true maximum over all label paths of the new length, the exact number attaining it, and a path that does |
| PathProgramme.AdvanceAction | oph_exact/phi_kernel.py:1023-1037 | one step of the action route: per reachable end state `2^(-beta sum dU) / prod Z` is the largest path probability and the count is exact |
| MostProbable.Pick | oph_exact/phi_kernel.py:1039-1057 | largest value, winning end states and tie count over all label paths of the length |
| MostProbable.BestUnique | oph_exact/phi_kernel.py:1067-1071 | best value, winners and tie counts of the two routes coincide |
| MostProbable.MostProbablePaths | oph_exact/phi_kernel.py:986-1080 | for every length: the maximum over all label paths, its exact tie count, the winning end states, a witness that attains it at the least winning state, and the agreement of the probability and the action route |
| Absorption.RowSumsToOne | oph_exact/phi_kernel.py:480-506 | the label probabilities of a state sum to one |
| Absorption.AggregateRow | oph_exact/phi_kernel.py:494-506 | the row holds exactly the reached targets, each with its summed label probability |
| Absorption.LeavesSometime | oph_exact/phi_kernel.py:548-563 | a state that is not absorbing stays with probability below one, so the division is defined |
| Absorption.ExpectedMoves | oph_exact/phi_kernel.py:534-564 | refused exactly without strict descent; else no target is met unprocessed, the times solve `t = 1 + P t` with zero on absorbing states, and every solution is these times |
| Absorption.SolutionUnique | oph_exact/phi_kernel.py:534-564 | the equations have one solution |
| MatrixPower.MulAssociates | oph_exact/closure_loop.py:452-455 | integer matrix multiplication is associative |
| MatrixPower.PowerNaive | oph_exact/closure_loop.py:458-471 | repeated squaring on the matrix gives the plain power for every exponent |
| PolynomialPower.MulModActs | oph_exact/closure_loop.py:494-507 | on every sequence with the recurrence of `c`, the reduced product acts as one factor after the other |
| PolynomialPower.PolyMulMod | oph_exact/closure_loop.py:494-507 | the product and the reduction from the highest term down compute the reduced product |
| PolynomialPower.IntegerMatrixPower | oph_exact/closure_loop.py:511-542 | for a monic `c` of degree `n` that annihilates `M`, `x^e` modulo `c` evaluated at `M` is the plain power `M^e`, for every exponent |
| Readback.FindShift | oph_exact/closure_loop.py:197-214 | from any first guess the search ends, at the shift whose quotient has exactly the asked number of digits |
| Readback.ReadbackString | oph_exact/closure_loop.py:185-221 | a mantissa of exactly the asked digits, within half a unit in the last place, ties to even; zero exactly for zero |
| Readback.PredictionPasses | oph_exact/closure_loop.py:1029-1046 | the readback of a fraction passes the relative tolerance `10^-(digits - 3)` against that fraction, however the parsed decimal is written as a fraction |
| Prediction.ToleranceIsReal | oph_exact/closure_loop.py:1035-1046 | the integer test holds exactly when observed and predicted number, as reals, differ by at most the size of the predicted one over `scale` |
| Probe.ExpectationMatrix | oph_exact/closure_loop.py:545-563 | `2 S I - L` from the seams inside a component: degrees, minus one per seam, in any order of the seams |
| Probe.ExpectationPower | oph_exact/closure_loop.py:545-563 | `M^(2 n)` and `(2 S)^(2 n)` as plain powers |
| Probe.ProbeLog | oph_exact/closure_loop.py:566-586 | for every component, step and one-hot start: an entry per nonzero numerator of `M^(2 n)`, rounded from `M^(2 n) / (2 S)^(2 n)`, and nothing outside the component |
| ProbeMeaning.ProbeIsExpectation | oph_exact/closure_loop.py:545-563 | the logged fraction is the expectation after `2 n` means of uniformly drawn seams on the one-hot start |
| ProbeMeaning.FractionsSumToOne | oph_exact/closure_loop.py:545-563 | the fractions of one start sum to one |
| Prediction.PredictProbe | oph_exact/closure_loop.py:993-1046 | the two flags: every observed entry is within relative tolerance `10^-(digits - 3)` of the real number predicted from the given seams, and no entry lies outside the component |
| Prediction.TrueProbePasses | oph_exact/closure_loop.py:964-1066 | the probe log of any seams, for every step list and at least three digits, passes at every entry against the prediction from any list of the same seams |
| Prediction.PredictRecord | oph_exact/closure_loop.py:954-1066 | parsing and predicting a log's own probe sets both flags |
| UnionFind.Find | oph_exact/closure_loop.py:433-441 | path halving changes no root and returns the root of the port |
| UnionFind.Components | oph_exact/closure_loop.py:433-449 | the groups are the connected components, each ascending, ordered by least port |
| ClosureSource.RunSource | oph_exact/closure_loop.py:589-635 | by the log alone: every event changes exactly the two ports of its labelled seam, from what they held, as the rule and the parity of the label say (overwrite copies the first port on an even label; agreement puts the odd unit on the first); the final readings are what the events leave; the probe is at the asked steps and digits |
| ClosureSource.RuleDescends | oph_exact/closure_loop.py:418-430 | the conservative rules lower the sum of squares whenever they change the pair of readings |
| ClosureRecovery.EventsTable | oph_exact/closure_loop.py:655-669 | the table is read exactly when every event touches two ports in range |
| ClosureRecovery.RecoverSeams | oph_exact/closure_loop.py:671-697 | the seams are the touched pairs, sorted and without repetition |
| ClosureRecovery.RecoverRule | oph_exact/closure_loop.py:841-889 | the counting loop classifies by: some discriminating row, all rows conservative, all discriminating rows of one form |
| ClosureRecovery.RuleRecovered | oph_exact/closure_loop.py:841-889 | on a source's own table the rule is recovered if and only if some row discriminates (nearest agreement: has an odd total); otherwise the result is the seam mean, or unclassified when no row discriminates |
| ClosureRecovery.ClassifyMeans | oph_exact/closure_loop.py:841-889 | on any table: the class is the first of mean, agreement, overwrite whose events the discriminating rows are, the first two only if all totals are kept, the second only on integers |
| ClosureLoop.RecoverDescent | oph_exact/closure_loop.py:1328-1386 | violations, stutters, swaps and consistency of the replay, each exactly as the log has them |
| ClosureLoop.ViolationIsSpread | oph_exact/closure_loop.py:1352-1380 | in a consistent log an event violates strict descent exactly when it changes the pair and the squared deviations of the replayed readings from their mean do not fall |
| ClosureLoop.NoViolations | oph_exact/closure_loop.py:1328-1386 | the conservative rules never violate strict descent of the centred squared norm |
| ClosureLoop.ReplayIsRun | oph_exact/closure_loop.py:1328-1393 | replaying the log retraces the run and matches every logged reading |
| ClosureLoop.CloseLoop | oph_exact/closure_loop.py:1616-1626 | source to log to recovery to source: a connected carrier whose log fires every seam gets back its ports and the sorted list of its seams, its rule exactly when a telling event exists, both probe flags set, a consistent replay, no descent violation for conservative rules, and with a uniform verdict the same carrier |
| ClosureLoop.EvenTotalMisleads | oph_exact/closure_loop.py:841-889 | two ports at 0 and 2 under nearest agreement: the log of one event is recovered as a seam mean |
| Pairings.Complete | oph_exact/carrier_class.py:1327-1341 | the backtracking lists every completion of a partial matching exactly once and leaves the list as it was |
| Pairings.PerfectMatchings | oph_exact/carrier_class.py:1324-1341 | every fixed-point-free involution, each once |
| Pairings.CommutesWithAll | oph_exact/carrier_class.py:1344-1346 | true exactly for permutations that commute with every listed element |
| Pairings.Centralizer | oph_exact/carrier_class.py:1349-1365 | for a transitive list of permutations: the whole centralizer, each element once |
| Pairings.InversePairings | oph_exact/carrier_class.py:1368-1378 | commuting matchings and the centralizer's fixed-point-free involutions are the same, with equal length and no repetition |

## Left out

- Random generators, hashes, JSON receipts, file pins, command lines, worker pools and subprocesses.
- The native C kernel and its ctypes wrapper (`mean_moves_native`, `integer_moves_native`).
- IEEE rounding, bit-identity of the float engines, the order of float ledger sums, and the fixed widths of numpy integers (`int64` products, `int16` distances, `int32` indices): arithmetic is exact and unbounded here.
- The `first_raise` witness of the mean engines: the layered one reports the earliest raising move of the first layer that has one, which need not be the sequential first.
- Termination of random schedules and any probability-one claim; proved instead, for both laws, are descent bounds and that some finite schedule reaches the stop from every start.
- `run_mean_law` (the float schedule) with its relative-error tests, traces per sweep, and the sampled descent ledger of `run_mean_law_exact` (`descent_sample_every > 1`).
- The float companion of the exact mean run: whether it is near enough to trigger the exact test is the Boolean input `near`.
- Tower geometry, port routing, load generators, the synchronous operator, response kernels and confluence receipts of `federation.py`.
- Currents, load placement, readback matrices, the generator frame, the KD-tree prefilter and the volume, speed and dimension statistics of the source net.
- `root_upper`, `centre_site` and the cone masks of `source_net.py`.
- `trace` of the independent verifier: the event list is the function `TraceOrder.Trace`; written values are those of `ReadNet.RunReads`.
- Chi-square and z-tests of the closure loop: the schedule verdict is the Boolean input `uniform`; tie and side frequencies, the Gram kernel, eigenvalues and symmetry of the probe, the automorphism recovery, the Laplacian-form increase count, carrier indices and isomorphism of several components are not modelled.
- `characteristic_polynomial` and Cayley-Hamilton: that `c` annihilates `M` is a precondition, also of the probe methods (`Probe.AllSuit`), which take one such polynomial per component; what the probe log and the prediction are (`Probe.ProbeRight`, `Prediction.TrueProbePasses`) is stated without it.
- Terminal statistics, reversibility, entropy and enrichment of `phi_kernel.py`, and facts it checks by enumeration at totals 3 and 4 only.
- Character tables and Lie types of `carrier_class.py`.
- IntegerDescent.PayloadIffMinimum: a component's payload is its size and its multiset of readings, in place of the sorted list of values with counts.
- Federation.DependencyLayers: the layers are returned as a list where the source yields them one by one, and earliest positions are found by a scan in place of a lexicographic sort.
- SiteGraph.BuildSiteGraph: builds rows site by site in place of chunks of sites.
- GoldenField.ZeroSign: the sign rules are stated on integers; the rational scalars of `phi_sign` and `q5_sign` reduce to them by a positive common denominator.
- Probe.ProbeLog: the first guess of a fraction's magnitude, a float in the source, is the input function `guess`; any guess will do.
- Prediction.PredictProbe: parsed decimals stay fractions in whatever terms they were read, in place of lowest terms; the test is on the same numbers. The deviation maximum is not modelled.
- ClosureLoop.RecoverDescent: readings are kept by port number in place of component-local positions.
- MostProbable.MostProbablePaths: states of a length are taken in any order, so of several paths that attain the maximum at the least winning state any one may be the witness; the source takes the first in insertion order.
- MeanExactRun.RunMeanLawExact: the largest deviation and the residual flag of the snap are not computed.
- ConesFromLog.Cones: the read relation behind the log is a ghost parameter; the method itself reads only the records.
- CarrierProvenance.ProvenanceEdges: on a log that is not layered, ranks are stated round by round (`Trail`), not as longest chains.
- ClosureRecovery.RecoverSeams: degrees, idle ports and the carrier-index flag are not computed.
- ClosureRecovery.RecoverRule: tie and side frequencies are not computed.
- ReadNet.RunReads: does not model the hash chain, layer digests and layer sums.
