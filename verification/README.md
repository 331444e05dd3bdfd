# pgAQP: a verified model of progressive stratified sampling

pgAQP answers aggregate queries in PostgreSQL approximately. It draws random samples through an aggregate B-tree, a
sample at a time, until a confidence interval is narrow enough or a budget of draws is used up. After a first uniform
phase it cuts the key range of the sampled index into strata, sizes a phase so that the target should be met, draws it
stratum by stratum, and goes on from there, giving up on strata for uniform sampling when that does not pay.

This project models that engine in Dafny and proves what it is for. There are four layers.

* **Statistics** (`Moments`, `Streaming`, `ClosedForm`, `PrefixStats`, `Estimator`). The recurrences that update mean
  and variance draw by draw are exact: at any point of any run they hold the moments of everything drawn, rejections
  counting as zeros, in whatever order the draws came. They agree with the older closed form.
* **Stratification** (`Intervals`, `SampleSize`, `StrataDP`, `Allocation`, `StrataPlan`, `StrataCover`, `EmittedPhase`,
  `SampleCases`). Grouping of the sorted sample, the dynamic program over the groups, the sample-size equation, and the
  emission of strata. The result is a cheapest split, dealt out so that its variance is what the equation assumed, whose
  scan keys partition the range.
* **Control** (`BudgetCap`, `Rounds`, `Trace`, `PhaseLog`, `Controller`, `PhaseEnd`, `PlannedRun`). Phases, rounds,
  checkpoint, rollback and switch as a class whose state changes step by step, up to a theorem about whole runs: every
  draw is accounted for, every phase draws what it was sized to, every part of the estimate is tied to the draws it came
  from, and the run ends only with its target met or its budget used up.
* **Rewriting** (`IndexBounds`, `ScanKeys`, `Expressions`, `TargetList`, `IndexColumns`). Folding of index conditions into
  bounds, construction of scan keys, splitting of target lists and renumbering of columns, each shown to keep the meaning
  or shown exactly when it does not.

`Dates` and `Suppliers` cover the date and key arithmetic of the data generator. `Reals` and `Options` are helpers.

Arithmetic is over exact reals and unbounded integers; the one place where a fixed width matters, the unsigned
`n - 2` in the variance recurrence, is written out (`Streaming.Minus2`). The sampler is a parameter: a function from the
number of a scan and the number of draws asked for to that many draws, each a value or a rejection. So are the square
root, the quantile, the leap rule, the hash and the order of keys. A theorem about a run therefore holds for every
sequence of draws.

## Where the code does not do what one would expect

* The size of the next phase is solved for with the roots of the variances of the strata's means. The factor of the
  number of draws, which turns them into deviations of a draw, is missing, and so is the last stratum: the loop over
  entries 1 to `n_partitions - 1` stops one short. `PhaseEnd.EndOfPhaseMeetsIff` says exactly when the solved size is
  enough for the equation with all deviations. `PhaseEnd.CappedPhaseMeetsIff` says it of what is drawn after the cap to
  the budget and to the minimum of the strata, and `PhaseEnd.EndOfPhaseFallsShort` gives a phase after which it is not.
* The optimiser calls the same equation without first asking whether the target is met already. On a phase 0 without
  rejections that does no harm (`StrataPlan.SizedRightWithoutRejections`). With rejections it can ask for draws although
  the target is met, and for so many, more than the minimum that the cap would raise them to, that it is not met
  afterwards (`SampleCases.UnguardedMissesTarget`). `SampleSize.SolveUnguarded` has the exact condition for the solved
  size, `EmittedPhase.OneStratumMeetsIff` that for what is drawn after the cap.
* The search for the number of strata compares with one stratum throughout and not with the best number so far. It stops
  no earlier than a search that does, and at the same number if and only if the total falls all the way
  (`StrataDP.StopsLateIff`, with a sample in `SampleCases.MoreStrataThanBest`).
* Sizes are raised to a minimum of 30 draws in each stratum, and the mix weighs the phase by all of them, so that drawing
  more than was solved for can miss the target (`SampleCases.MinimumMissesTarget`). `EmittedPhase.WrittenMeetsWithin`
  gives a condition on the numbers of draws solved for and emitted under which the phase meets the target all the same;
  `EmittedPhase.EmittedMeetsWithin` shows that nothing weaker will do where neither equation nor sizes have anything to
  spare.
* Entry 0 of the estimate arrays enters phase 1 with the number of accepted draws, not of all draws. The uniform
  fallback then keeps an exact mean if and only if phase 0 had no rejection (`ClosedForm.UniformMeansExactIff`).
* Conditions that could not be folded into bounds are meant to be appended to the scan keys, but they are read from the
  wrong array, so that range keys are repeated in their place, and uninitialised cells after those.
  `ScanKeys.ScanKeysExactIff` says exactly when the scan keys mean what the conditions mean whatever those cells hold;
  `ScanKeys.LeftOverIgnored` is a case where they do not.
* If every stratum of the chosen split has zero deviation, fractions are computed as 0 / 0. The model stops at that point
  with its own outcome (`ZeroWeights`), which `StrataPlan.ComputeMetainfo` and `StrataPlan.ZeroCostOfSample` characterise
  and `SampleCases.ZeroWeightsReached` reaches.
* With fewer than four suppliers the generator gives every part some supplier more than once (`Suppliers.FewSuppliers`);
  `Suppliers.DifferentIff` is the exact condition.

## Model

| member | source | states |
|---|---|---|
| `Moments.SxxConcat` | aqp_pgext/aqp_pagg.c:405-415 | squared deviations of a concatenation are those of the parts plus the term between their means, the pooling formula of `combine_Sxx` |
| `Moments.MomentsOfPermutation` | aqp_pgext/aqp_pagg.c:1813-1827 | mean and squared deviations do not depend on the order in which draws arrive |
| `Streaming.AcceptDescribes` | aqp_pgext/aqp_pagg.c:1813-1827 | accepting a value takes exact count, mean and variance of the mean to exact ones, the unsigned wrap at the first value included |
| `Streaming.PadIsZeroDraw` | aqp_pgext/aqp_pagg.c:821-839 | the padding step for a rejection is the step for an accepted zero |
| `Streaming.ScanDescribes` | aqp_pgext/aqp_pagg.c:792-864 | one scan, accepted values as they come and paddings at the end, describes all its draws in arrival order |
| `Streaming.RunDescribes` | aqp_pgext/aqp_pagg.c:792-864 | after any number of scans a stratum's count, mean and variance are those of every value ever drawn in it |
| `Streaming.DescribesPermutation` | aqp_pgext/aqp_pagg.c:1813-1827 | a description of some draws describes any reordering of them |
| `ClosedForm.StepsExact` | pg13_abtree/src/backend/utils/adt/float.c:2888-2938 | the Youngs-Cramer transition holds count, sum and squared deviations of all values |
| `ClosedForm.CombinedSxxExact` | aqp_pgext/aqp_math.c:49-79 | the closed form that accounts for rejections is the squared deviation of all draws with rejections as zeros |
| `ClosedForm.OldAndNewAgree` | aqp_pgext/aqp_math.c:49-79 | on any two or more draws the closed form and the streaming form give the same estimate and the same half width |
| `ClosedForm.HalfCiSquared` | aqp_pgext/aqp_math.c:49-79 | the square of the half width is the squared quantile times twice the variance of the mean of all draws, rejections as zeros |
| `ClosedForm.UniformMeansExactIff` | aqp_pgext/aqp_pswrctl_node.c:1741-1743 | entry 0 keeps the exact mean over every uniform continuation if and only if phase 0 had no rejection |
| `ClosedForm.UniformMeanOff` | aqp_pgext/aqp_pswrctl_node.c:1741-1743 | after a rejection in phase 0 one further draw can already put the mean off |
| `PrefixStats.ExtendExact` | aqp_pgext/aqp_pagg.c:734-737 | extending a prefix by a sample keeps its mean and variance exact |
| `PrefixStats.RemoveVarExact` | aqp_pgext/aqp_pagg.c:437-452 | `remove_var` on two nested prefixes is the variance of the mean of the samples between them, hence not negative |
| `Intervals.CountDistinct` | aqp_pgext/aqp_pagg.c:551-555 | counts the keys of a sample in which equal keys come one after the other |
| `Intervals.SortedKeysAdjacent` | aqp_pgext/aqp_pagg.c:545-555 | in a sorted sample they do, if the comparator tells all its keys apart |
| `Intervals.DealShares` | aqp_pgext/aqp_pagg.c:646-655 | the shares of all intervals together cover all distinct keys |
| `Intervals.OpenInterval` | aqp_pgext/aqp_pagg.c:710-721 | closing an interval and opening the next keeps the closed ones, the new key being the first one of the next interval |
| `Intervals.AddSample` | aqp_pgext/aqp_pagg.c:725-737 | adding a sample keeps the statistics of the whole prefix exact |
| `Intervals.Finish` | aqp_pgext/aqp_pagg.c:745-762 | the last interval has two samples or is merged back into its predecessor |
| `Intervals.BuildIntervals` | aqp_pgext/aqp_pagg.c:645-762 | a sorted sample of two or more yields between one and the allowed number of intervals that cover it in order, each of two samples or more, never splitting equal keys, with exact prefix statistics; every interval but the last ends at the first sample where it may, having two samples, a change of key and one key more than its share, and the last may end nowhere but before the very last sample; fewer samples yield none |
| `Intervals.GroupedIsUnique` | aqp_pgext/aqp_pagg.c:669-762 | these conditions leave one way only to group a sample |
| `StrataPlan.RangeVarExact` | aqp_pgext/aqp_pagg.c:2196-2205 | the variance behind each weight is that of the samples between the two boundaries |
| `StrataPlan.WeightsAreDeviations` | aqp_pgext/aqp_pagg.c:2245-2254 | every weight exists, is not negative, and its square is that variance scaled by the range's share of the sample |
| `StrataDP.OptIsLowerBound` | aqp_pgext/aqp_pagg.c:2143-2262 | no split into k contiguous non-empty groups costs less than the recurrence's value |
| `StrataDP.OptAttained` | aqp_pgext/aqp_pagg.c:2143-2262 | some split into k groups costs exactly that value |
| `StrataDP.RelaxColumn` | aqp_pgext/aqp_pagg.c:2228-2260 | one cell gets the least cost over all last boundaries and a back-pointer that attains it |
| `StrataDP.FillRow` | aqp_pgext/aqp_pagg.c:2220-2262 | overwriting the costs in place from the right turns those for k - 1 groups into those for k |
| `StrataDP.Optimise` | aqp_pgext/aqp_pagg.c:2143-2262 | stops at the first number of strata whose successor does not beat one stratum, with the optimal cost and valid back-pointers; every number up to it beats one stratum |
| `StrataDP.StopsLateIff` | aqp_pgext/aqp_pagg.c:2168-2222 | the search stops no earlier than one that compares with the best total so far, and at the same number of strata if and only if the total falls all the way |
| `SampleCases.MoreStrataThanBest` | aqp_pgext/aqp_pagg.c:2168-2222 | a sample of six values whose two cheapest strata cost less than the three that are chosen |
| `SampleSize.MeetsIsTarget` | aqp_pgext/aqp_pagg.c:1153-1163 | the inequality that is solved says that the combined variance is within the target |
| `SampleSize.SolveIsLeast` | aqp_pgext/aqp_pagg.c:1317-1359 | with the target not met, the negative radicand and the smaller root cannot occur, and the solution is the least number of draws that meets the target |
| `SampleSize.MeetsIff` | aqp_pgext/aqp_pagg.c:1317-1359 | with the target not met, a number of draws meets it if and only if it is at least the solution |
| `SampleSize.GuardIsTarget` | aqp_pgext/aqp_pagg.c:1153-1163 | the test on the half width is exactly the condition the equation needs |
| `SampleSize.StopMeansMet` | aqp_pgext/aqp_pagg.c:1305-1359 | at the end of a phase the solver gives up only when the target is met |
| `PhaseEnd.SumsAgreeIff` | aqp_pgext/aqp_pagg.c:1305-1308 | the sum that is solved with is at most the sum of the deviations, and equal to it if and only if no stratum but the last has both a variance and more than one draw, and the last has no variance |
| `PhaseEnd.EndOfPhaseMeetsIff` | aqp_pgext/aqp_pagg.c:1305-1359 | the solved size is at most what the deviations of all strata need; before rounding it meets the target of the equation with all deviations if and only if nothing is missing from the sum, after rounding if and only if the missing part fits the slack gained, which is bounded |
| `PhaseEnd.CappedPhaseMeetsIff` | aqp_pgext/aqp_pagg.c:1305-1363 | the size drawn, which is the solved size after the cap, meets that target if and only if the budget holds the size that the deviations of all strata need and that size is solved for or within 30 for each stratum |
| `PhaseEnd.EndOfPhaseFallsShort` | aqp_pgext/aqp_pagg.c:1305-1363 | a phase 0 of 600 draws and a phase of 300 draws in each of two strata after which 200 draws are asked for, the cap leaves them alone, and they do not meet the target of the equation with all deviations |
| `SampleSize.SolveUnguarded` | aqp_pgext/aqp_pagg.c:2264-2300 | with the target met already, the larger root cannot occur and the smaller one is taken exactly under a condition on the inputs; every smaller number of draws meets the target, and the number asked for does if and only if it is the root itself or passes the larger one |
| `SampleSize.SolveWithoutGuard` | aqp_pgext/aqp_pagg.c:2264-2300 | if new draws are no worse than old ones the missing guard does no harm: no draws with the target met, the least number otherwise |
| `StrataPlan.SizedRightWithoutRejections` | aqp_pgext/aqp_pagg.c:2143-2300 | so it is for the strata chosen from any phase 0 without rejections |
| `SampleCases.UnguardedMissesTarget` | aqp_pgext/aqp_pagg.c:2143-2307 | 160 draws of which 120 are rejected: the target is met, 34 more draws are asked for, the cap leaves them alone, and with them it is not met |
| `SampleSize.UniformSizeIsLeast` | aqp_pgext/aqp_pswrctl_node.c:2716-2773 | the uniform fallback asks for the least number of draws from 30 on that meets the target |
| `Allocation.EmitStrata` | aqp_pgext/aqp_pagg.c:2302-2391 | walking the back-pointers yields a split whose deviations add up exactly to the optimal cost, and writes size, fraction and bound of every stratum |
| `Allocation.FractionsSumToOne` | aqp_pgext/aqp_pagg.c:2343-2375 | the fractions of the strata add up to one |
| `Allocation.EmittedStratum` | aqp_pgext/aqp_pagg.c:2343-2380 | each stratum gets at least 30 draws and at least its proportional share |
| `Allocation.EmittedSizesAreEnough` | aqp_pgext/aqp_pagg.c:2309-2390 | the emitted sizes keep the stratified variance within s^2 / n for the solved n |
| `Allocation.NoSplitIsBetter` | aqp_pgext/aqp_pagg.c:2309-2390 | no way of dealing n draws out to the strata brings the variance below s^2 / n |
| `Allocation.ZeroCostIff` | aqp_pgext/aqp_pagg.c:2323-2347 | the total of the deviations of a split is zero if and only if each of them is |
| `StrataPlan.ZeroCostOfSample` | aqp_pgext/aqp_pagg.c:2323-2347 | the cheapest split into k strata costs nothing if and only if some split into k groups of intervals has equal values in each |
| `SampleCases.ZeroWeightsReached` | aqp_pgext/aqp_pagg.c:2143-2347 | a sample of four values on which the optimiser arrives at zero over zero |
| `SampleCases.SamplesAreGrouped` | aqp_pgext/aqp_pagg.c:645-762 | with at least 100 intervals allowed, the groups of all samples given as cases are those that grouping gives |
| `EmittedPhase.ExcessNonNegative` | aqp_pgext/aqp_pagg.c:2309-2390 | no sizes do better than exact proportion |
| `EmittedPhase.EmittedMeetsWithin` | aqp_pgext/aqp_pagg.c:868-922 | for n draws solved for and m emitted, m is at least n, and the emitted phase mixed with the uniform draws meets the target if c s^2 (m + n) <= n (2 n0 + m + n); with no slack in the equation, no size above proportion where there is deviation, and m > n, only if |
| `EmittedPhase.WrittenMeetsWithin` | aqp_pgext/aqp_pagg.c:2309-2390 | the same condition is enough for strata as the optimiser writes them |
| `EmittedPhase.OneStratumMeetsIff` | aqp_pgext/aqp_pagg.c:1037-1057 | over one stratum the size drawn after the cap meets the target if and only if it is outside of the two roots of the equation, and with the target not met before if and only if the budget holds the solved size |
| `SampleCases.MinimumMissesTarget` | aqp_pgext/aqp_pagg.c:2143-2390 | a sample of 100 values, none rejected, whose target is not met: 100 draws would meet it, 100 and 30 are emitted, the cap deals them out as they are, and the target is missed |
| `StrataPlan.ComputeMetainfo` | aqp_pgext/aqp_pagg.c:2143-2391 | no phase if and only if the equation has no positive solution; zero over zero if and only if it has one for several strata without deviation; otherwise one stratum, or the cheapest split of its number with its sizes written out |
| `StrataCover.BoundsIncrease` | aqp_pgext/aqp_pagg.c:2327-2380 | the bounds of the strata strictly increase |
| `StrataCover.CutsAreSampledKeys` | aqp_pgext/aqp_pagg.c:2327-2380 | every inner bound is the key of a sample |
| `StrataCover.EmittedStrataPartition` | aqp_pgext/aqp_pswrctl_node.c:1911-1999 | with the emitted bounds in the stratum keys, a row of the range matches exactly one stratum and no other row matches any |
| `StrataCover.PlanStrata` | aqp_pgext/aqp_pagg.c:2143-2391 | from a sorted sample to strata: the intervals are those of the grouping; the decision is that of search and equation; several strata are a cheapest split and an exact partition of the range, with at least 30 draws each, sizes adding up to the phase and enough for the solved variance, fractions adding up to one |
| `PlannedRun.PhaseZeroFromIntervals` | aqp_pgext/aqp_pagg.c:764-839 | phase 0 taken from the statistics of the sorted sample equals a scan of the same draws in arrival order |
| `PlannedRun.PhaseZeroSpreadIs` | aqp_pgext/aqp_pagg.c:764-839 | the squared deviation kept from phase 0 is the sample variance of its accepted draws |
| `PlannedRun.UniformSpreadIs` | aqp_pgext/aqp_pswrctl_node.c:2703-2774 | after a switch the uniform demand is solved with the sample variance of all uniform draws, if entry 0 describes them |
| `PlannedRun.OptimisedIsPlan` | aqp_pgext/aqp_pswrctl_node.c:1700-1743 | whatever the optimiser decides, none, one or several strata, is what the controller needs of a plan |
| `PlannedRun.NoPhaseMeansMet` | aqp_pgext/aqp_pagg.c:2264-2300 | the optimiser plans no phase only if phase 0 has met the target |
| `PlannedRun.OneStratumIsLeast` | aqp_pgext/aqp_pagg.c:2264-2307 | with the target not met, a plan of one stratum is the least number of draws that meets it, given the sample variance of the accepted draws |
| `PlannedRun.RunPlanned` | aqp_pgext/aqp_pswrctl_node.c:1154-2217 | a run for whose phase 0 draws the plans are the optimiser's and which does not end with an error has met its target or used up its budget, with an estimate tied to the draws and phases drawn as in `Run` |
| `PlannedRun.PartitionOfConditions` | aqp_pgext/aqp_swrscan.c:6584-6709 | with nothing left over, a row matches the keys of a stratum if and only if it satisfies the conditions and falls into that stratum |
| `PlannedRun.PlanConditions` | aqp_pgext/aqp_pswrctl_node.c:1911-1999 | the whole way: conditions folded, key sets built, the range sampled and grouped into the intervals returned, which are those of the grouping; what is decided is what search and equation say of them, several strata are a cheapest split of them with enough draws, they partition the rows that satisfy the conditions, and the plan is the optimiser's |
| `BudgetCap.DealOut` | aqp_pgext/aqp_pagg.c:1063-1126 | dealing out in place: a stratum without a request gets nothing; any other gets less than its proportional share plus one or the minimum, and no less than its proportional share unless exactly the minimums of the strata to come are left, or nothing where minimums are not affordable; sizes add up to what is dealt, all is dealt if the active fractions add up to one, and something is dealt if any is positive |
| `BudgetCap.DealtFairly` | aqp_pgext/aqp_pagg.c:1075-1126 | every share of the dealing, taken as a function of requests and fractions, is fair in that sense |
| `BudgetCap.CapAllocation` | aqp_pgext/aqp_pagg.c:974-1126 | the capped phase fits the remaining budget and is the sum of its strata, which get the capped size as dealt out; 30 for each stratum with a request when affordable; the run is over exactly without budget |
| `Rounds.CutRound` | aqp_pgext/aqp_pswrctl_node.c:2990-3044 | no stratum gets more than it has left, each with draws left advances by 30 or all it has; every share is at least proportional unless it is all that is left, and below proportion plus one unless it is within 30; the round exceeds its target by at most 30 for each |
| `Rounds.StreakIsMaximal` | aqp_pgext/aqp_pswrctl_node.c:3164-3167 | the counter of bad rounds is the length of the longest run of bad rounds at the end of the log, and its start is the state before the first of them |
| `Rounds.BadIff` | aqp_pgext/aqp_pswrctl_node.c:3120-3156 | a round not near the target is bad if and only if the half width has not fallen, or the straight line through the half widths before and after it is still not near the target when the phase is used up |
| `Rounds.LineThrough` | aqp_pgext/aqp_pswrctl_node.c:3137-3141 | that line goes through both half widths and is straight |
| `Rounds.WorseStaysBad` | aqp_pgext/aqp_pswrctl_node.c:3120-3156 | a larger half width after the same last one is never judged better |
| `Estimator.MixUnmix` | aqp_pgext/aqp_pswrctl_node.c:2878-2901 | unmixing and mixing again give back the totals |
| `Estimator.AveragesIff` | aqp_pgext/aqp_pagg.c:914-921 | totals are such averages if and only if they are what the code mixes |
| `Estimator.UnmixVarNonNegative` | aqp_pgext/aqp_pswrctl_node.c:2890-2901 | the rebuilt variance is not negative when the total has at least its uniform part |
| `Estimator.TransState.Accumulate` | aqp_pgext/aqp_pagg.c:1813-1827 | the loop over the draws of a scan takes in the accepted values in order and counts them |
| `Estimator.TransState.PadRejected` | aqp_pgext/aqp_pagg.c:821-839 | the padding loop |
| `Estimator.TransState.ScanStratum` | aqp_pgext/aqp_pagg.c:792-864 | a scan of a stratum keeps its entry a description of all its draws and adds it to the phase estimates |
| `Estimator.TransState.ScanUniform` | aqp_pgext/aqp_pagg.c:792-864 | a uniform scan changes entry 0 only |
| `Estimator.TransState.Mix` | aqp_pgext/aqp_pagg.c:868-922 | the estimate times all draws is the sum of the two estimates each times its draws, and the variance times all draws squared is the sum of the two variances each times its draws squared |
| `Estimator.TransState.Restore` | aqp_pgext/aqp_pswrctl_node.c:2878-2901 | a rollback rebuilds phase estimates that average to the restored totals, and the clamp to zero does not act |
| `Controller.Control.StratifiedRound` | aqp_pgext/aqp_pswrctl_node.c:2118-2155 | each stratum gets the draws of its own scan and its history grows by them; the phase estimates are the sums over the strata of estimates from everything drawn there, the totals are their mix with entry 0, and every draw is counted |
| `Trace.EntryZeroIgnoresStrata` | aqp_pgext/aqp_pswrctl_node.c:2118-2155 | scans of strata leave entry 0 alone |
| `Trace.NoHistory` | aqp_pgext/aqp_pswrctl_node.c:1700-1743 | strata start without a history |
| `Controller.Control.UniformRound` | aqp_pgext/aqp_pswrctl_node.c:2118-2155 | a uniform round adds its draws to entry 0 and to both counters and leaves the phase estimates alone |
| `Controller.Control.InitPhase` | aqp_pgext/aqp_pswrctl_node.c:2918-2988 | the allocation of the phase adds up over the strata and fits the budget |
| `Controller.Control.CutNext` | aqp_pgext/aqp_pswrctl_node.c:2990-3044 | a round is cut from what is left in fair shares, never empty while something is |
| `Controller.Control.TakeCheckpoint` | aqp_pgext/aqp_pswrctl_node.c:2777-2832 | the checkpoint is the present state if no streak of bad rounds is on, and stays what it was otherwise |
| `Controller.Control.TakeOffRound` | aqp_pgext/aqp_pswrctl_node.c:3066-3079 | the remaining phase stays the sum of what the strata have left |
| `Controller.Control.JudgeRound` | aqp_pgext/aqp_pswrctl_node.c:3097-3181 | the bad-round counter goes up if the round is not near the target and off course, and else to zero; it is the current streak, the checkpoint its start; strata are given up after three, not near the target, with something left of the phase that is more than a round and two nominal rounds unless the half width is a tenth above that at the start of the phase |
| `Controller.Control.CheckAndSwitch` | aqp_pgext/aqp_pswrctl_node.c:3046-3215 | on a switch, after at least three bad rounds in a row, exactly the draws of that streak are discarded, counters, totals and half width are those before its first round, and so are the phase estimates; otherwise rounds go on with the books balanced and nothing discarded |
| `Controller.Control.RollBack` | aqp_pgext/aqp_pswrctl_node.c:2835-2907 | discards precisely the draws of the streak, leaves what is spent unchanged, and restores the state before the streak; the rebuilt phase estimates are the sums over the strata's entries of that state, which describe what had been drawn by then |
| `Controller.Control.Cap` | aqp_pgext/aqp_pagg.c:974-1126 | a phase asked for while budget is left is not capped to nothing, and its strata get the capped size as dealt out |
| `Controller.Control.CheckCi` | aqp_pgext/aqp_pagg.c:1128-1363 | at the end of a phase the run stops only if the target is met or the budget used up; otherwise the next phase is the least number of draws that meets the equation for the totals, capped and dealt out |
| `Controller.Control.DemandIsLeast` | aqp_pgext/aqp_pagg.c:1305-1359 | with the half width not below the target, the solved size is the least number of draws that meets the equation for the present variance and number of draws |
| `Controller.Control.AllocateUniform` | aqp_pgext/aqp_pswrctl_node.c:3217-3312 | a uniform round is the smaller of round size and what is left of the demand, within the budget, and not empty; what is left goes down by it; the run stops only if the target is met or the budget used up |
| `Controller.Control.UniformDemandIsLeast` | aqp_pgext/aqp_pswrctl_node.c:2703-2774 | with the target not met and a positive spread, the uniform demand is the least number of draws from 30 on that meets the equation for the present variance and number of draws |
| `Controller.Control.UniformToEnd` | aqp_pgext/aqp_pswrctl_node.c:3314-3357 | after the switch the run ends with the target met or the budget used up, without another switch; entry 0 is grown by exactly the uniform scans, the phase estimates stay those before the streak, and no scan is of a stratum |
| `Controller.Control.PlainPhase` | aqp_pgext/aqp_pswrctl_node.c:2156-2217 | a phase in one round draws exactly the sizes of its strata and keeps the books; unless the run is over the next one is sized as `CheckCi` says |
| `Controller.Control.ProgressivePhase` | aqp_pgext/aqp_pswrctl_node.c:2165-2200 | a phase in rounds ends: used up, run over, or switched once and run to the end; no stratum gets more than its size, and each gets all of it unless the target is met or strata are given up; totals are the mix of entry 0 with the strata's entries or, after a switch, with those before the streak; the streak's draws are discarded and no others; the target stays the same and scans are only added |
| `Controller.Control.EnterPhase` | aqp_pgext/aqp_pswrctl_node.c:1772-1888 | the strata get the size asked for, capped and dealt out; a phase is drawn in rounds exactly when its demand exceeds three rounds, and they are judged by the half width it starts with |
| `PhaseLog.DueAfterRound` | aqp_pgext/aqp_pswrctl_node.c:3066-3079 | a round that is drawn and taken off what the strata have left leaves unchanged what each will have got at the end of the phase |
| `PhaseLog.ChainNext` | aqp_pgext/aqp_pswrctl_node.c:1645-2217 | phases that are each drawn as a whole and sized by the end of the one before stay so as the run goes on |
| `Controller.Control.PhaseZero` | aqp_pgext/aqp_pswrctl_node.c:1575-1634 | phase 0 over a chosen index |
| `Controller.Control.ProbeAll` | aqp_pgext/aqp_pswrctl_node.c:1279-1486 | finds the first candidate index of least demand among those with a non-zero estimate, or that there is none |
| `Controller.Control.ProbePlans` | aqp_pgext/aqp_pswrctl_node.c:1238-1576 | the draws of the chosen probe are kept, all others discarded, all of them on the books and within the budget; each error if and only if its cause |
| `Controller.AffordableIff` | aqp_pgext/aqp_pswrctl_node.c:1238-1278 | the test before the probes is passed if and only if they are not empty and fit the budget together |
| `Controller.Control.Prepare` | aqp_pgext/aqp_pswrctl_node.c:1645-1743 | the target comes from the estimate of phase 0; a zero estimate is an error; a plan without strata ends the run |
| `Controller.Control.RunPhases` | aqp_pgext/aqp_pswrctl_node.c:1645-2217 | every phase draws something, so the run ends, and it ends with the target it started with met or the budget used up; every phase draws what it was sized to, capped and dealt out, and nothing else, the last one unless the target is met or strata are given up; every further one is sized by the least number of draws that meets the equation at the end of the one before; totals are the mix of entry 0 with all strata, as they are or as they were before the streak that was undone, whose draws alone are discarded |
| `Controller.Control.Run` | aqp_pgext/aqp_pswrctl_node.c:1154-2217 | for every sampler: draws kept plus draws discarded are all draws asked for by the scans made, within the budget, and those discarded are the other probes and, after a switch, the streak that was undone; at most one switch; every stratum's entry describes all that the scans drew in it, entry 0 is phase 0 grown by the uniform scans, and the totals are the mix of entry 0 with the strata's entries or, after a switch, with the entries that describe the scans up to the streak; the first phase is the one planned, capped and dealt out, and all phases draw what they were sized to as in `RunPhases`; the target is that fraction of the estimate of phase 0, and a finished run has met it or used up its budget; every other outcome if and only if its cause |
| `IndexBounds.MergeKeyMeaning` | aqp_pgext/aqp_swrscan.c:6930-7145 | merging a key into a bound keeps the meaning of the bound and the key together; emptiness is reported only for contradictions |
| `IndexBounds.MergeQualMeaning` | aqp_pgext/aqp_swrscan.c:6884-6927 | a condition merged into lower and upper bounds or left over keeps the meaning of all conditions |
| `IndexBounds.MergeQualShape` | aqp_pgext/aqp_swrscan.c:6884-7145 | lower and upper bounds keep a common prefix of equalities and differ beyond it in one key at most |
| `IndexBounds.FoldQuals` | aqp_pgext/aqp_swrscan.c:5942-6091 | bounds and left-over keys mean exactly what the conditions mean; no rows are reported only if there are none; the bounds fit their arrays; with conditions in column order left-over keys lie beyond the bounds |
| `ScanKeys.BuildKeySets` | aqp_pgext/aqp_swrscan.c:6433-6742 | the four key sets as built step by step are the range keys and the three stratum key sets |
| `ScanKeys.ShapeOnColumn` | aqp_pgext/aqp_swrscan.c:6433-6445 | folded bounds put at most one lower and one upper range key on the partition column, as the stratum key sets need them |
| `ScanKeys.StratumKeysMean` | aqp_pgext/aqp_swrscan.c:6584-6709 | a stratum's keys with the bounds filled in select the rows of the range between its two cuts |
| `ScanKeys.StrataPartition` | aqp_pgext/aqp_swrscan.c:6584-6709 | a row matches a stratum if and only if it is in the range and its column falls between that stratum's cuts |
| `ScanKeys.ScanMeansBounds` | aqp_pgext/aqp_swrscan.c:6433-6742 | with nothing left over the scan keys mean what the bounds mean |
| `ScanKeys.LeftOversAreDropped` | aqp_pgext/aqp_swrscan.c:6727-6742 | left-over keys have no effect on the scan keys |
| `ScanKeys.ScanKeysExactIff` | aqp_pgext/aqp_swrscan.c:6727-6742 | the scan keys mean what the conditions mean, whatever the cells copied by mistake hold, if and only if nothing was left over, or no row is in the range, or the left-over keys exclude no value and no such cell is copied |
| `ScanKeys.LeftOverIgnored` | aqp_pgext/aqp_swrscan.c:6727-6742 | with a > 1 and b = 2 on an index over a and b the row a = 2, b = 3 is in the scan |
| `TargetList.GrowingKeepsMeaning` | aqp_pgext/aqp_pswrctl_node.c:255-284 | references into the child list keep their meaning as it grows |
| `TargetList.ChildList.AddDistinct` | aqp_pgext/aqp_pswrctl_node.c:325-418 | the expression is in the list at the position returned, and the list stays free of duplicates |
| `TargetList.ChildList.Rewrite` | aqp_pgext/aqp_pswrctl_node.c:286-323 | the rewritten expression over the child's row means what the original means, refers to nothing else, and rewriting fails exactly on an exact aggregate |
| `TargetList.ChildList.RewriteAll` | aqp_pgext/aqp_pswrctl_node.c:255-284 | the same for a whole target list over the final child list |
| `IndexColumns.BuildMapping` | aqp_pgext/aqp_samplepath.c:1887-1919 | maps each indexed column to its last position in the index and all others to 0; fails exactly on an index over an expression |
| `IndexColumns.FixesExactlyCovered` | aqp_pgext/aqp_samplepath.c:1921-1981 | rewriting succeeds if and only if every reference is to the table and to a system column or a column of the index |
| `IndexColumns.FixKeepsMeaning` | aqp_pgext/aqp_samplepath.c:1948-1981 | the rewritten expression on the index tuple means what the original means on the row |
| `Dates.Unjulian` | dbgen/bm_utils.c:260-271 | the day number of a date, counted year by year |
| `Dates.Julian` | dbgen/bm_utils.c:273-306 | ends, and yields a date that exists and has the given day number; days before the start come back unchanged |
| `Dates.DayNumberInjective` | dbgen/bm_utils.c:260-306 | no two dates have the same day number |
| `Dates.RoundTrip` | dbgen/bm_utils.c:260-306 | from a date to its day number and back |
| `Dates.RoundTripOfDay` | dbgen/bm_utils.c:260-306 | from a day number to its date and back |
| `Dates.YearOfOrder` | dbgen/build.c:236-262 | the year recovered from a generated order date is the year chosen for it |
| `Suppliers.SupplierExists` | dbgen/build.c:62-67 | every supplier number lies between 1 and the number of suppliers |
| `Suppliers.DifferentIff` | dbgen/build.c:668-671 | the four suppliers of a part are different if and only if one, two and three steps do not go around the circle |
| `Suppliers.DifferentIfShort` | dbgen/build.c:668-671 | in particular if there is a step and three of them stay short of the circle |
| `Suppliers.FewSuppliers` | dbgen/build.c:668-671 | with fewer than four suppliers no part has four different ones |
| `Suppliers.TooFewSuppliers` | dbgen/build.c:62-67 | with three suppliers the first part has one supplier four times |

## Left out

- Floating-point rounding, NaN, overflow of counters and of attribute numbers: arithmetic is exact.
- Batch sampling and continued descent, and the tree-height variant of optimiser and solver: they depend on state of the tree that is not modelled.
- Optimised and equal stratification (strategies 2 and 3): easier repeats of the dynamic program.
- GROUP BY output, where checkpoints are switched off.
- The inverse error function: the quantile is any non-negative number.
- The tree walk behind a draw, and sorting of the recorded samples: a scan returns the draws it was asked for, and grouping starts from a sorted sample.
- PostgreSQL plumbing: settings, hooks, node copying, memory contexts, slots, EXPLAIN, path creation and costing, `sample_prob()` rewriting, join search.
- The older progressive path (`minimizethecost`, `aqp_progressive_float8_accum`), superseded by the modelled one.
- Text generation, random streams, bitmap and hash map of the data generator.
- Several aggregates in one query: one transition state is modelled, the one that decides when to stop.
- Plain sampling without phases is one scan; what it computes is `ClosedForm.OldAndNewAgree`.
- `progressive_uniform_candidate` is set and never read, so it is not modelled; the demand of the uniform fallback that feeds it is.
- Run: takes the plan as a parameter with what `PlannedRun.OptimisedIsPlan` proves of the optimiser's plans, for the draws that phase 0 makes, so a run whose phase 0 leads to a plan with zero total deviation, whose fractions the code computes as 0 / 0, is not covered.
- Run: with a chosen index the first phase must fit the budget, which the code does not test in that case.
- Run: after a switch the totals are the mix of entry 0 with the strata's entries as they were before the streak; the entries themselves keep the draws given up, as they do in the code.
- BuildKeySets: is stated for conditions in column order, as the planner delivers them; whether the partition column has a lower bound is decided by the intended test, since the code looks at a slot past the bounds there.
- Rewrite: operators are functions of the values of their arguments, so an argument that an operator would not have evaluated, or that raises an error, is not distinguished.
- FixKeepsMeaning: is about expressions without aggregates, which index conditions do not contain, and takes from the planner that index columns belong to the table.
