# Verification of atJIT's online tuning engine

A Dafny model of the engine that recompiles a function in the background, measures the versions it gets
and settles on the best one, with proofs about whole runs and every interleaving. `dafny verify
dfyconfig.toml` checks the project.

- **The compile pipeline.** `Pipeline` has the caller thread, the optimize queue and the code generation
  queue as interleaved atomic steps over explicit FIFO queues, two flags and a result list; a step is the
  code between two accesses to shared state. `PipelineSafety` proves what every interleaving keeps,
  `PipelineProgress` how much work can remain and which requests are safe, `PipelineFailures` how exactly
  the others fail, `ChainLengths` how many versions a chain compiles. `OptimizerObject` is the Optimizer as
  an object whose methods update its fields; each is proved to be one of these steps, and `Recompile`, with
  any number of turns of the two queues at every point, to be a schedule of them.
- **The tuners.** `Knobs` has configurations and the visitors that generate and apply them, `Tuners` the
  search algorithms as functions of the pipeline's two questions, `TunerObjects` the same as objects;
  `Handouts` proves which configurations they hand out over whole runs.
- **Driver, pipeline and tuner together.** `Training` and `BlockingRun` ask whether the surrogate model is
  ever trained on a version nobody has measured; `JointRuns` puts the driver's real entry on the pipeline
  and proves every such run to be one of theirs.
- **The driver.** `Driver` specifies `reoptimize` on the slots Trial, Best and Others, `DriverEntry` is the
  object that moves versions between them, `DriverCalls` tells what one call does from feedback, deployed
  time and threshold, `DriverRuns` proves properties of all runs.
- **Measurement.** `Statistics`, `Measurement` and `Comparison` have the running statistics, the ring of
  recent samples, the deployment counters, and the comparison of two versions.
- **Training data.** `TrainingMatrix` and `Dataset` flatten configurations into the matrices.
- **Partial application.** `PartialApplication` is the run-time wrapper, `Signature` the parameter list
  that templates compute at compile time, `Types` what they share.
- **Loops, graphs, sorting.** `LoopSections` groups sectioned loops; `AliasTracer` and `References` close
  graphs, over `Reachability`; `Quicksort` is the benchmark whose cutoff is tuned. `Collections` and `Options`
  are shared.

## Findings

What the code does where that differs from what one would hope, each with the exact condition proved and an
input or a run where it happens.

- `recompile` looks at the result list (runtime/tuner/Optimizer.cpp:356) and then, separately, at the flag
  (360). If the workers publish their last results and clear the flag in between, the request starts a chain
  with results uncollected. If instead it comes between the last publication (499) and the clearing of the
  flag (508-509) with the list already emptied, it starts nothing and waits until the bailout. The first is
  possible exactly when `status()` would answer Working with results still in flight, the second exactly when
  it would answer Working with none (`PipelineFailures.FailuresExactly`); runs that lead to each are in
  `UndrainedStartHappens` and `StarvationHappens`. The driver avoids both for impatient callers
  (include/tuner/driver.h:172-177) but not for blocking ones.
- As a consequence the Bayesian tuner can be made to train on versions that nobody has measured exactly
  when the caller blocks (`BlockingRun.TrainingSafeIffNotBlocking`). With cumulative feedback the mean of
  an unmeasured version is then 0, not the largest double, so the check at include/tuner/BayesianTuner.h:157
  does not fire.
- `map_placeholder_to_type` recognises a placeholder by its type as spelt (include/easy/meta.h:147), so const
  and non-const spellings of one placeholder count as two: `Signature.TwoSpellingsCanFail`, and exactly when
  in `Signature.MapSucceedsIff`.
- Numbers bound to integral parameters pass through int64_t (include/easy/param.h:66-70) and then keep the
  parameter's low bits. A bool parameter has one bit, so a bound 2 arrives as false where a direct call
  passes true (`PartialApplication.TwoIsBoundAsFalse`); the bound number is right exactly when it is zero or
  its integer part is odd (`BoolConstantsExactIff`). In integers of at most 64 bits nothing is lost. In wider
  ones all bits survive exactly when the constant, read as a signed number of the parameter's width, fits
  int64_t (`WideConstantsExactIff`); so the largest unsigned constant does survive
  (`LargestUnsignedIsExact`).
- The check after the filling loop of `updateDataset` (include/tuner/BayesianTuner.h:163) holds exactly with
  more than one observation, since a single one is held out (`Dataset.FinalCheckHoldsIff`); training starts
  at five.
- A better trial drops the old Best (include/tuner/driver.h:147-150), and nothing else is ever dropped
  (`Driver.BestDroppedIff`). The swap takes the last better version, not the best (208-214): another version
  is better than the new Best exactly if one that the scan passed earlier is better than the one it ended
  on (`Driver.SwapLeavesBetterIff`), as in `Driver.SwapCanMissTheBest`.
- An unmeasured first entry is never displaced by `bestSeen`, since comparisons with an empty sample are
  false (`Comparison.BestSeen`).

## Model

| member | source | states |
|---|---|---|
| PipelineSafety.OneLiveChain | runtime/tuner/Optimizer.cpp:358-364 | In every reachable state at most one place can still extend or end a compile chain, one exactly while `recompileActive_` is set; with the flag clear no job remains that would touch the optimizer; an end-marked record is last in the code generation queue and nothing follows it. |
| PipelineSafety.DestructorIsSafe | runtime/tuner/Optimizer.cpp:137-156 | After the destructor's wait, in any continuation, the only steps left are jobs returning to their queue, so freeing the tuner and the queues is safe. |
| PipelineProgress.DestructorEnds | runtime/tuner/Optimizer.cpp:137-146 | The destructor's wait is over exactly when the flag is clear, and worker steps alone always lead there. |
| PipelineSafety.InactiveIsQuiescent | runtime/tuner/Optimizer.cpp:507-509 | A clear flag means empty queues and no job that has work left. |
| PipelineSafety.DeliveredInOrderUnderOwnConfig | runtime/tuner/Optimizer.cpp:421-475 | In every interleaving: delivered, waiting, in code generation, queued and being optimized, put in a row, are exactly the answers of `getNextConfig` in order; each version has its own feedback, its IR was optimized under its own configuration with nothing left of earlier ones, and its flags are the ones snapshotted for it. |
| PipelineSafety.DeliveredFlags | runtime/tuner/Optimizer.cpp:437-472 | Every delivered version was given IPRA exactly if its own configuration sets that knob to other than zero (under the no-op tuner, if its default is), level 3 and no fast instruction selection. |
| PipelineSafety.NoOpDeliversDefaults | runtime/tuner/Optimizer.cpp:421-445 | What the no-op tuner's pipeline delivers was optimized with every knob at its default. |
| PipelineSafety.InvStep | runtime/tuner/Optimizer.cpp:308-510 | Each atomic step of the three threads keeps the control and data invariants that the results above rest on. |
| PipelineSafety.ControlStep | runtime/tuner/Optimizer.cpp:308-510 | Each step keeps: the number of chain carriers equals the flag, end marks are last, `doneQueueEmpty_` mirrors the list, and what the caller has read still holds. |
| PipelineSafety.ApplyErases | include/tuner/Tuner.h:99-110 | Applying a generated configuration over any knob values gives what applying it over the defaults gives. |
| PipelineProgress.ResultsArePublished | runtime/tuner/Optimizer.cpp:455-510 | From any reachable state every schedule of worker steps has at most 42 steps, and when the workers stop every result that was in flight is in the list and the flag is clear (unless the caller has set it and not yet dispatched). |
| PipelineProgress.Drain | runtime/tuner/Optimizer.cpp:406-510 | The workers can always be scheduled until both queues are idle: no reachable state is stuck. |
| PipelineProgress.WorkerStepUsesWork | runtime/tuner/Optimizer.cpp:406-510 | Each worker step lowers the bound on remaining steps and never raises the bound on the chain's results. |
| PipelineProgress.RequestSafeIffNotWorking | runtime/tuner/Optimizer.cpp:347-397 | A `recompile` call, however scheduled, neither starts a chain over an uncollected result nor waits for a result nobody will produce, exactly when `status()` would not answer Working. |
| PipelineProgress.WorkingInWindowIsUnsafe | runtime/tuner/Optimizer.cpp:499-509 | With the flag set, the list empty and nothing in flight, a request can end up waiting with nothing in flight. |
| PipelineProgress.WorkingWithPendingIsUnsafe | runtime/tuner/Optimizer.cpp:356-364 | With results in flight and none in the list a request can find the list empty and then start a chain with results uncollected. |
| PipelineProgress.StarvedForever | runtime/tuner/Optimizer.cpp:366-386 | A caller that waits with nothing in flight waits through every continuation of its request. |
| PipelineFailures.FailuresExactly | runtime/tuner/Optimizer.cpp:347-397 | A request can start a chain over uncollected results exactly when `status()` would answer Working with results in flight, and can starve exactly when it would answer Working with none. |
| PipelineFailures.StarvationHappens | runtime/tuner/Optimizer.cpp:358-386 | A run of a fresh optimizer reaches a caller that waits with nothing in flight. |
| PipelineFailures.UndrainedStartHappens | runtime/tuner/Optimizer.cpp:355-364 | A run of a fresh optimizer reaches a state from which a request can start a chain over an uncollected result. |
| PipelineProgress.StatusAnswerStands | runtime/tuner/Optimizer.cpp:333-341 | An answer other than Working, although assembled from two separate loads, still holds when the caller acts on it, whatever the workers did meanwhile. |
| PipelineProgress.ReadyNeverWaits | runtime/tuner/Optimizer.cpp:333-341 | After Ready, the first obtain of the next request delivers the oldest result, whatever the workers did meanwhile. |
| PipelineProgress.StartedRequestHasResultComing | runtime/tuner/Optimizer.cpp:360-364 | A request that starts the chain itself has exactly one result in flight. |
| PipelineProgress.StatusIsTrue | runtime/tuner/Optimizer.cpp:333-341 | With worker steps between the loads each answer was true of the list at the first load and, for an empty list, of the flag at the second. |
| PipelineProgress.StatusAtOnce | runtime/tuner/Optimizer.cpp:333-341 | With no step between the two loads the answer is Ready, Working or Empty exactly as the list has a result, or is empty with the flag set, or with it clear. |
| OptimizerObject.Optimizer.Recompile | runtime/tuner/Optimizer.cpp:347-397 | Each call is a schedule of the pipeline that begins with an obtain and consists of worker steps and this request's own steps; it returns the version it moved to the delivered ones, or gives up after the bailout count still waiting on an empty list. |
| OptimizerObject.Optimizer.StartOrJoinChain | runtime/tuner/Optimizer.cpp:358-364 | After a failed obtain: load the flag and, if clear, set it and dispatch, with interference between the three. |
| OptimizerObject.Optimizer.WaitAndRetry | runtime/tuner/Optimizer.cpp:380-386 | One turn of the waiting loop delivers the oldest result or leaves the caller waiting on an empty list. |
| OptimizerObject.Optimizer.Sleep | runtime/tuner/Optimizer.cpp:380-382 | While the caller sleeps the queues take any number of turns, each a part of a job of this object; together they are a worker schedule. |
| OptimizerObject.Optimizer.OptimizeTurn | runtime/tuner/Optimizer.cpp:406-476 | The part of the optimize job that comes next, by its stage, with whatever the tuner may draw, is the model's step; without a job nothing changes. |
| OptimizerObject.Optimizer.CodegenTurn | runtime/tuner/Optimizer.cpp:480-510 | The same for the code generation queue. |
| OptimizerObject.Optimizer.GetStatus | runtime/tuner/Optimizer.cpp:333-341 | Two loads with worker steps between them; Ready exactly if the list had a result at the first, otherwise Working or Empty by the flag at the second. |
| OptimizerObject.Optimizer.ObtainCallback | runtime/tuner/Optimizer.cpp:316-331 | Pops the oldest result, if any, and leaves `doneQueueEmpty_` telling whether the list is empty. |
| OptimizerObject.Optimizer.AddToList | runtime/tuner/Optimizer.cpp:308-311 | Appends the finished version to the list and clears `doneQueueEmpty_`. |
| OptimizerObject.Optimizer.GenerateConfig | runtime/tuner/Optimizer.cpp:421-424 | The first part of the optimize job is the model's generating step. |
| OptimizerObject.Optimizer.ApplyConfigAndSnapshot | runtime/tuner/Optimizer.cpp:426-439 | Sets the knobs, then snapshots the code generation flags. |
| OptimizerObject.Optimizer.DecideNext | runtime/tuner/Optimizer.cpp:455-457 | Asks the tuner once whether to compile ahead. |
| OptimizerObject.Optimizer.DispatchCodegen | runtime/tuner/Optimizer.cpp:464-475 | Hands the version over with the end mark set exactly when no further job was dispatched. |
| OptimizerObject.Optimizer.EndChain | runtime/tuner/Optimizer.cpp:507-509 | Clears the flag exactly for the end-marked record. |
| Tuners.NextConfigOk | include/tuner/BayesianTuner.h:439-463 | Every tuner but the no-op one, in every state it can reach and for every outcome of its draws, answers with a configuration that sets each knob inside its range; the no-op tuner answers with the empty one; each keeps its invariant. |
| Handouts.BayesHistory | include/tuner/BayesianTuner.h:439-463 | In every run with a fresh Bayesian tuner: the defaults, four draws, then batch after batch, each prediction once and in order, each answer with its own feedback; the predictions left are the rest of the last batch. |
| Handouts.BatchIsHandedOut | include/tuner/BayesianTuner.h:455-462 | The model is trained at calls 5, 10, 15 and so on, with five new observations each time; the next five calls hand out exactly the batch, in order, and use it up. |
| Handouts.RandomHistory | include/tuner/RandomTuner.h:28-43 | In every run with a fresh random tuner: the defaults, then each call's draw, each with its own feedback. |
| Handouts.AnnealBegins | include/tuner/AnnealingTuner.h:119-129 | The first current state is the defaults and the first trial state a draw. |
| Handouts.AnnealAnswer | include/tuner/AnnealingTuner.h:137-156 | Current state while it lacks measurements, then the trial state, then a new trial from the draw, with the state kept as the new current one. |
| Handouts.AnnealHistory | include/tuner/AnnealingTuner.h:137-156 | In every run of the pipeline with a fresh annealing tuner each answer is one of its numbered records, the first of them the defaults; answers share a feedback object only if they are the same record. |
| Tuners.NoThreeYesses | include/tuner/BayesianTuner.h:428-437 | Whatever its counter, no tuner says yes three times in a row, so a chain has at most three jobs. |
| Tuners.RandomChainIsThree | include/tuner/RandomTuner.h:47-54 | A random chain from counter zero has exactly three jobs and leaves the counter at zero. |
| Tuners.AnswerUsesUpJobs | include/tuner/RandomTuner.h:47-54 | A yes strictly lowers the number of jobs a chain may still have. |
| ChainLengths.RandomChainsHaveThree | include/tuner/RandomTuner.h:47-54 | In every run of the pipeline with a fresh random tuner, whenever the flag is clear the number of versions is a multiple of three. |
| ChainLengths.OtherChainsHaveOne | include/tuner/AnnealingTuner.h:131-135 | With the no-op or annealing tuner every version ends its chain, in every run of the pipeline. |
| TunerObjects.RandomTuner.GetNextConfig | include/tuner/RandomTuner.h:28-43 | First the defaults, then a draw that fits; the record is appended and returned. |
| TunerObjects.RandomTuner.ShouldCompileNext | include/tuner/RandomTuner.h:47-54 | The answer and the counter are those of the specification. |
| TunerObjects.BayesianTuner.GetNextConfig | include/tuner/BayesianTuner.h:439-463 | A prior of five draws beginning with the defaults, then predictions first in first out, trained anew when used up. |
| TunerObjects.BayesianTuner.CreatePredictions | include/tuner/BayesianTuner.h:170-376 | Leaves a non-empty batch of fitting predictions and only reorders the observations. |
| TunerObjects.BayesianTuner.ShouldCompileNext | include/tuner/BayesianTuner.h:428-437 | Yes only below the bound and with predictions left; the counter wraps to zero at the bound. |
| TunerObjects.AnnealingTuner.GetNextConfig | include/tuner/AnnealingTuner.h:137-156 | Hands out the current, then the trial state until both are measured, then a fitting neighbour of the state chosen. |
| TunerObjects.AnnealingTuner.Analyze | include/tuner/AnnealingTuner.h:119-129 | The first call records the defaults as the current and a draw as the trial state; later calls change nothing. |
| BlockingRun.TrainingSafeIffNotBlocking | include/tuner/BayesianTuner.h:421-463 | Over all runs of driver, pipeline and Bayesian tuner together: whenever the model is trained every configuration so far has been delivered and has passed its trial, exactly when the driver does not wait for compiles. |
| Training.ImpatientIsSafe | include/tuner/driver.h:171-177 | The safe half: every run of an impatient driver. |
| BlockingRun.BlockingIsUnsafe | include/tuner/driver.h:163-191 | The other half: ten chains, the last one hurried, after which training starts with two results uncollected. |
| Training.SysInvStep | include/tuner/driver.h:139-192 | Every step of the joint system keeps its invariant, including that a chain is started only with everything delivered and measured. |
| Training.ObtainDriverStep | runtime/tuner/Optimizer.cpp:355-364 | A permitted request that finds nothing to collect finds the pipeline quiescent and everything delivered. |
| JointRuns.JointRun | include/tuner/driver.h:126-236 | Every run of the real entry on the pipeline is a run of the abstract driver, version for version. |
| JointRuns.TrainsOnSettledVersions | include/tuner/driver.h:139-192 | In every run of an impatient driver entry with its pipeline: whenever the model is about to be trained, every configuration handed out has been compiled and obtained by the entry and has left Trial, and the observations are exactly these. |
| JointRuns.StagesAreReoptimize | include/tuner/driver.h:126-236 | The stages into which a call is cut end in the entry that the specification of `reoptimize` gives. |
| DriverRuns.EveryVersionHasOnePlace | include/tuner/driver.h:131-234 | In every run of calls and measurements an initialised entry holds a version in Trial or Best; each version obtained is owned by exactly one slot or was replaced exactly once; and 1 + FullExperiments versions equal those in Trial, Best and Others plus those replaced. |
| DriverRuns.ExplorationBudget | include/tuner/driver.h:29-32 | In every impatient run with n full experiments the time measured over all versions is at least 250000 (1.2^n - 1) ns, and the threshold is 50000 1.2^n. |
| DriverRuns.ExperimentBudget | include/tuner/driver.h:179-192 | One experiment spends at least the current threshold from Best's counter and raises the threshold by a fifth. |
| DriverRuns.MeasureBudget | include/tuner/Feedback.h:315-320 | A measurement banks no more than it measured, whether the counter saturates or wraps. |
| Driver.ReoptimizeOk | include/tuner/driver.h:101-236 | Every call keeps the entry sound and returns a slot that holds a compiled function with its feedback. |
| DriverCalls.FinishedTrialMoves | include/tuner/driver.h:139-155 | A finished trial becomes Best if there is none or it is better, and otherwise the last of Others. |
| DriverCalls.ObtainsIff | include/tuner/driver.h:131-192 | A call obtains a version exactly on the first encounter, or with no trial going on and, if impatient, nothing being compiled and Best deployed for the threshold; never again under the no-op tuner. |
| DriverCalls.ObtainingCall | include/tuner/driver.h:179-192 | A later call that obtains a version puts it on trial with its feedback, spends Best's deployed time, counts one experiment and raises the threshold by a fifth. |
| DriverCalls.FirstCall | include/tuner/driver.h:131-137 | The first call puts the version it obtains on trial with its feedback. |
| DriverCalls.SwapsIff | include/tuner/driver.h:194-234 | A call that neither keeps a trial nor obtains a version returns Best; Best changes, by one swap, exactly if it has been deployed for the threshold and one of the others is better, and a fast experiment is counted exactly if the time is reached and there are others. |
| DriverCalls.SwapSpendsNewBest | include/tuner/driver.h:225-228 | After a swap the new Best's deployed time is zero and no other feedback has changed; without one none has. |
| DriverCalls.MeasurementCounts | include/tuner/Feedback.h:152-177 | A measurement adds to the deployed time, up to 2^64 - 1 for the cumulative kind and modulo 2^64 for the recent one, and replaces the statistics. |
| Driver.FastSwapConserves | include/tuner/driver.h:197-230 | A fast swap keeps the multiset of Best and Others and touches neither Trial nor the counts; without a swap nothing changes but the counter. |
| Driver.AsksOnlyWhenSettled | include/tuner/driver.h:131-192 | A call obtains a version exactly when the rule says so: on the first encounter, or with the trial settled and, if impatient, `status()` not Working and Best deployed long enough. |
| Driver.LastBetter | include/tuner/driver.h:206-214 | The scan picks a better version with no better one after it: the last, not the best. |
| Driver.BestDroppedIff | include/tuner/driver.h:139-155 | A version is dropped exactly when a good trial is better than the Best there is, and it is that Best. |
| Driver.SwapLeavesBetterIff | include/tuner/driver.h:208-229 | After a swap another version is better than the new Best exactly if one passed earlier by the scan is better than the one it ended on. |
| Driver.SwapCanMissTheBest | include/tuner/driver.h:208-229 | An entry whose swap leaves a better version among Others. |
| DriverEntry.OptimizationInfo.Reoptimize | include/tuner/driver.h:126-236 | The in-place moves between slots implement the specification, and the returned slot is never empty. |
| DriverEntry.OptimizationInfo.SettleTrial | include/tuner/driver.h:139-155 | A good trial takes Best if Best is empty or worse, dropping the old Best, and otherwise joins Others; the moved-from slot is erased. |
| DriverEntry.OptimizationInfo.RecheckOthers | include/tuner/driver.h:197-230 | The swap by three moves exchanges Best and the chosen other and resets the new Best's deployed time. |
| DriverEntry.OptimizationInfo.FindLastBetter | include/tuner/driver.h:205-214 | The loop finds the last better version. |
| DriverEntry.OptimizationInfo.RunExperiment | include/tuner/driver.h:179-192 | Resets Best's deployed time, counts the experiment, raises the threshold and puts the new version on trial. |
| Comparison.WelchStatistic | runtime/tuner/Feedback.cpp:41-72 | The comparison used here is the program's, over means, variances and sample sizes: the margin beyond 2% over the root of the summed scaled variances reaches 1.943. |
| Comparison.WithoutVariance | runtime/tuner/Feedback.cpp:41-72 | Without variance any margin beyond the 2% is enough; with an empty sample on either side nothing is better. |
| Comparison.Transitive | runtime/tuner/Feedback.cpp:17-73 | `betterThan` is transitive on snapshots with positive means and non-negative variances, despite the 2% margin and the pairwise variances. |
| Comparison.Asymmetric | runtime/tuner/Feedback.cpp:17-73 | `betterThan` is asymmetric on such snapshots. |
| Comparison.Irreflexive | runtime/tuner/Feedback.cpp:17-73 | No such snapshot is better than itself. |
| Comparison.BestSeen | include/tuner/Tuner.h:113-122 | The single scan returns an entry that no other entry is better than, and none exactly on an empty list; an unmeasured first entry is never displaced. |
| Measurement.TotalExecutionTime.EndMeasurement | include/tuner/Feedback.h:303-361 | For every history of samples the running mean, squared deviations and variance are the batch ones, and the deployed time is min(2^64 - 1, sum since the last reset). |
| Measurement.TotalExecutionTime.UpdateStats | include/tuner/Feedback.h:363-386 | The cached answers report the whole history: size, mean, variance, and good quality exactly when the error is within the bound on more than two samples or the bound is negative. |
| Measurement.StdErrByRoots | include/tuner/Feedback.h:348-353 | Good quality by squares is the program's comparison of the percentage computed from its two square roots, for any bound. |
| Measurement.VarianceIsUnbiased | include/tuner/Feedback.h:345-346 | The variance times one less than the number of samples is the sum of squared deviations. |
| Measurement.GoodTotalByRoots | include/tuner/Feedback.h:368-370 | Good quality is more than two samples with the percentage from the two roots within the bound, or any sample with a negative bound. |
| Measurement.ErrorWithinByRoot | include/tuner/Feedback.h:226-231 | The same for the recent samples, from the root of the squared error. |
| Measurement.TotalExecutionTime.ResetDeployedTime | include/tuner/Feedback.h:179-181 | Starts the deployed time afresh and leaves the statistics alone. |
| Measurement.OnlineFormulas | include/tuner/Feedback.h:341-346 | The update formulas take the batch statistics of a history to those of the history with one more sample. |
| Statistics.WelfordStep | include/tuner/Feedback.h:345 | The product of the deviations from the old and the new mean is exactly what the sum of squared deviations gains. |
| Statistics.RecentreAtMean | include/tuner/Feedback.h:343-346 | Squared deviations from any centre are those from the mean plus n times the squared distance of the centre. |
| Statistics.PercentWithoutRoot | include/tuner/Feedback.h:226-231 | Comparing the standard error in percent with a bound is comparing squares, with no root taken. |
| Measurement.SaturatingAddIsExact | include/tuner/Feedback.h:315-320 | The wrap-around check, applied sample by sample, gives the saturated sum. |
| Measurement.RingWrite | include/tuner/Feedback.h:168-171 | After any number of writes the ring holds the last min(n, B) samples in order from the oldest. |
| Measurement.WindowIsLast | include/tuner/Feedback.h:214-216 | The window is the last min(n, B) samples. |
| Measurement.RingStatistics | include/tuner/Feedback.h:207-224 | The first min(n, B) slots have the samples, mean and squared deviations of the window of last samples, however the ring is rotated. |
| Measurement.RecentExecutionTime.EndMeasurement | include/tuner/Feedback.h:152-177 | Each measurement enters the window as its newest sample; the deployment counter wraps at 2^64. |
| Measurement.RecentExecutionTime.UpdateStats | include/tuner/Feedback.h:207-224 | After it the cached answers summarise exactly the window of the last min(n, B) samples, and are fit for comparison. |
| Measurement.RecentExecutionTime.GoodByRoot | include/tuner/Feedback.h:226-231 | Good quality is more than two measurements with the standard error in percent within the bound. |
| Measurement.CalculateBasicStatistics | runtime/tuner/Feedback.cpp:75-113 | The mean is exact; the integer sum of squares is at most the exact one and short of it by less than the sample count; variance and error follow from it, and are zero for one sample. |
| Measurement.TruncatedSumOfSquares | runtime/tuner/Feedback.cpp:105-108 | The truncation error of the integer accumulation is bounded by the number of samples. |
| Measurement.ReportIsMeasured | include/tuner/Feedback.h:363-386 | What a non-empty history reports has a positive mean and a non-negative variance, as the comparison needs. |
| Knobs.GenDefaultConfig | runtime/tuner/KnobConfig.cpp:143-158 | Every knob at its default, whatever the visiting order. |
| Knobs.GenRandomConfig | runtime/tuner/KnobConfig.cpp:225-230 | Every knob set, every scalar inside its range. |
| Knobs.PerturbConfig | runtime/tuner/KnobConfig.cpp:240-250 | Knobs not chosen keep their values, and a fitting configuration stays fitting. |
| Knobs.Clamp | include/tuner/Util.h:47-52 | The nearby value lands in the range, and in-range values stay. |
| Knobs.OverlayErases | runtime/tuner/KnobConfig.cpp:218-230 | A configuration that sets every knob leaves nothing of the values before it. |
| Knobs.KnobBank.ApplyConfig | include/tuner/Tuner.h:99-110 | After it each knob the configuration mentions has its value and every other knob its old one. |
| TrainingMatrix.ExportConfig | runtime/tuner/KnobConfig.cpp:190-216 | With the columns laid out as above, every cell of the row is stored exactly once, in order, as the log kept at each store says, with the right component of the right knob, and no other cell is; it fails exactly when the configuration lacks a knob. |
| TrainingMatrix.RowCell | runtime/tuner/KnobConfig.cpp:196-207 | The cell at a knob's first column plus c is component c of that knob. |
| TrainingMatrix.CellsStandFor | include/tuner/LoopKnob.h:99-111 | A number stands for itself, true for one, false for zero, and what is not set is missing. |
| TrainingMatrix.ColumnsOfSetting | include/tuner/LoopKnob.h:74-97 | The components of a loop setting go to their columns in this order. |
| TrainingMatrix.ColumnStartsKnob | runtime/tuner/KnobConfig.cpp:196-199 | With non-zero distinct IDs a column differs from the one before it exactly where a knob begins. |
| TrainingMatrix.TickerLaysOut | include/tuner/Knob.h:25-41 | Distinct non-zero knob IDs give a sound layout. |
| TrainingMatrix.GeneratedCovers | runtime/tuner/KnobConfig.cpp:143-158 | A configuration generated for a knob set has every knob of that set's layout. |
| TrainingMatrix.AssignToCols | include/tuner/BayesianTuner.h:17-35 | Each knob's ID fills as many consecutive columns as the knob has components. |
| TrainingMatrix.KnobSetSize | include/tuner/KnobSet.h:31-41 | The size is the width of the layout. |
| TrainingMatrix.FlattenInto | include/tuner/LoopKnob.h:74-97 | Stores the components in order to successive slots, each once, and nothing else. |
| TrainingMatrix.ExportKnob | runtime/tuner/KnobConfig.cpp:267-283 | Finds the knob among the scalars, then among the loops, and stores exactly its cells, each once. |
| Dataset.BayesianDataset.UpdateDataset | include/tuner/BayesianTuner.h:106-164 | The shuffled observations fill the held-out matrix and then the training matrix, each observation and label in exactly one row; it fails exactly on a missing knob or a missing time, and does nothing when nothing is new. |
| Dataset.RowsCell | include/tuner/BayesianTuner.h:73-77 | Cell (r, c) of a filled matrix is component c of observation r's row. |
| Dataset.HeldOutIsATenth | include/tuner/BayesianTuner.h:111-114 | The held-out part is the nearest whole number to a tenth, never empty, and leaves training rows. |
| Dataset.HeldOutRounds | include/tuner/BayesianTuner.h:113 | One below five observations; from five on a tenth, rounded to the nearest with halves up. |
| Dataset.FinalCheckHoldsIff | include/tuner/BayesianTuner.h:139-163 | The check after the filling loop holds exactly with more than one observation. |
| LoopSections.EmitsExactlyMaximalChains | runtime/tuner/LoopKnob.cpp:90-123 | For every loop tree the groups emitted are exactly the maximal downward chains of two or more sectioned loops linked by a single-child parent, each once, with its own names and sizes, in the order a walk from the root meets them. |
| LoopSections.ChainsAreDisjoint | runtime/tuner/LoopKnob.cpp:90-123 | No loop belongs to two groups. |
| LoopSections.ChainMeaning | runtime/tuner/LoopKnob.cpp:99-112 | Entry k of a chain is the loop k single-child steps below its start, and the chain goes on exactly while that loop links to the next. |
| LoopSections.AnalyzeSections | runtime/tuner/LoopKnob.cpp:90-123 | The program's walk terminates and computes the groups specified. |
| LoopSections.WalkSpine | runtime/tuner/LoopKnob.cpp:95-112 | The loop collects the chain and stops at the fork, leaf or loop without a section. |
| LoopSections.GroupsAreSections | runtime/tuner/LoopKnob.cpp:119-121 | Recursing only below the loop where the walk stopped loses nothing against visiting every loop. |
| AliasTracer.MayAliasTracer.constructor | pass/MayAliasTracer.cpp:10-75 | The two mutually recursive traversals terminate, and the global objects found are precisely those reachable from the root over the product graph of loads and stores. |
| AliasTracer.MayAliasTracer.MayAliasWithLoadedValues | pass/MayAliasTracer.cpp:33-75 | Marks what is reachable from a value seen through loads and not marked yet, and nothing else. |
| AliasTracer.MayAliasTracer.MayAliasWithStoredValues | pass/MayAliasTracer.cpp:10-31 | The same for a value seen through stores. |
| AliasTracer.LoadedRules | pass/MayAliasTracer.cpp:41-74 | What a value seen through loads leads to, rule by rule. |
| AliasTracer.StoredRules | pass/MayAliasTracer.cpp:16-30 | What a value seen through stores leads to: what a store writes, what a memcpy copies from, and the users of slots, address computations and casts. |
| References.GetReferencedFromEntry | pass/Easy.cpp:353-384 | The worklist terminates and lists each function reachable from the entry exactly once, and nothing else. |
| References.PushMentions | pass/Easy.cpp:364-380 | Pushes exactly the users that a user mentions. |
| References.MentionRules | pass/Easy.cpp:364-380 | To mention a user is to have it as an operand, to have an instruction that does, or to be initialized with it. |
| Reachability.ExploredIsReachable | pass/MayAliasTracer.cpp:10-75 | A traversal that closes off all it marks, from nothing marked, marks exactly the reachable nodes. |
| PartialApplication.WrapperCallsOriginal | runtime/pass/InlineParameters.cpp:51-82 | Calling the wrapper passes the original, parameter by parameter, what a direct call with the constants and forwarded arguments in place would, with repeated and reordered placeholders, exactly when a number bound there survives: for bool zero or odd, for integers beyond 64 bits fitting int64_t, otherwise always. |
| PartialApplication.FloatingConstantArrives | runtime/pass/InlineParameters.cpp:72-75 | A floating parameter receives the number bound to it. |
| PartialApplication.IntegerConstantArrives | runtime/pass/InlineParameters.cpp:67-70 | An integer parameter of w bits, at most 64, receives the one number of w bits congruent to the constant. |
| PartialApplication.FloatingBecomesInteger | include/easy/param.h:66-70 | A floating number bound to an integral parameter arrives as the integer without its fraction does. |
| PartialApplication.BoolConstantArrives | runtime/pass/InlineParameters.cpp:67-70 | A bool parameter receives the lowest bit of the constant. |
| PartialApplication.OthersArrive | runtime/pass/InlineParameters.cpp:62-82 | A parameter bound to placeholder k receives the caller's argument k; a tuned parameter its current value in 32 bits; a pointer or class parameter what was bound. |
| PartialApplication.NarrowConstantsExact | include/easy/param.h:66-70 | The detour of an integer constant through int64_t changes no bit of a parameter of at most 64 bits. |
| PartialApplication.WideConstantsExactIff | include/easy/param.h:66-70 | In a wider parameter the bits of a constant survive exactly when, read as a signed number of that width, it fits int64_t. |
| PartialApplication.BoolConstantsExactIff | runtime/pass/InlineParameters.cpp:67-70 | A number bound to a bool parameter arrives right exactly when it is zero or its integer part is odd. |
| PartialApplication.TwoIsBoundAsFalse | include/easy/param.h:66-70 | Two bound to a bool parameter arrives as false; passed directly it is true. |
| PartialApplication.LargestUnsignedIsExact | include/easy/param.h:66-70 | The largest unsigned constant does not fit int64_t and keeps all its bits. |
| PartialApplication.WellTypedIffUsesAgree | runtime/pass/InlineParameters.cpp:40-46 | The call inside the wrapper is well typed for all typed callers exactly when all uses of each placeholder have one parameter type. |
| PartialApplication.CompileTimeAgreesWithRunTime | include/easy/meta.h:171-176 | For every signature and binding, options included: the compile-time list, when it exists, is the run-time wrapper's list with no slot unfilled; no slot is unfilled exactly when placeholders 1..N all occur, and then, if no placeholder is spelt in two ways, the list exists. |
| PartialApplication.GetWrapperTy | runtime/pass/InlineParameters.cpp:33-49 | Slot k has the type at the first use of placeholder k + 1. |
| PartialApplication.GetNewArgCount | runtime/pass/InlineParameters.cpp:23-31 | One more than the largest forwarded index, zero without any. |
| PartialApplication.GetInlineArgs | runtime/pass/InlineParameters.cpp:51-82 | One argument per context entry, in order, with every forwarded index in range. |
| PartialApplication.Context.SetParameters | include/easy/param.h:132-141 | Appends one entry per parameter, in order. |
| Signature.MapSucceedsIff | include/easy/meta.h:130-175 | The template succeeds exactly when some prefix of the arguments has every placeholder 1..N, each in one spelling, and then gives each placeholder the type at its first use. |
| Signature.FirstUseIsFirst | include/easy/meta.h:147-165 | No earlier argument uses the placeholder. |
| Signature.MapSucceedsIffAllOccur | include/easy/meta.h:130-175 | Without mixed spellings: exactly when placeholders 1..N all occur. |
| Signature.TwoSpellingsCanFail | include/easy/meta.h:147 | Two spellings of one placeholder before another make the template fail although all placeholders occur. |
| Signature.MaxFromIs | include/easy/meta.h:112-128 | The accumulated maximum is the largest placeholder value, or its start value. |
| Signature.TrailingOptionsGo | include/easy/meta.h:89-110 | Of a binding followed by its options, exactly the binding remains, in order. |
| Signature.SetIsUpdate | include/easy/meta.h:45-48 | `set` replaces the element at its index and leaves a list without that index alone. |
| Quicksort.Qsort | benchmark/qsort.h:54-79 | For every comparator, bounds and cutoff it terminates with the slice rearranged and everything else in place, sorted if the comparator is a preorder; a slice of fewer than two elements stays as it is. |
| Quicksort.CutoffDoesNotMatter | benchmark/qsort.h:54-79 | Under `int_cmp` all cutoffs give the same array. |
| Quicksort.SortedIsAscending | benchmark/qsort.h:7-18 | Sorted under `int_cmp` is ascending. |
| Quicksort.CutoffsAgree | benchmark/qsort.h:54-79 | Under any preorder two cutoffs leave equivalent elements in every place. |
| Quicksort.InsertionSort | benchmark/qsort.h:40-50 | The same for insertion sort. |
| Quicksort.Partition | benchmark/qsort.h:67-75 | Splits the slice around the pivot at the index returned, rearranging it and nothing else. |
| Quicksort.IsSorted | benchmark/qsort.h:20-30 | For a preorder, comparing neighbours decides sortedness. |
| Quicksort.Swap | benchmark/qsort.h:31-38 | Exchanges two elements and touches no other. |
| Quicksort.IntCmpIsTotalOrder | benchmark/qsort.h:7-18 | `int_cmp` orders all integers and calls only equal integers equal. |

## Left out

- OptimizerObject.Optimizer.Recompile: the bailout counts turns of the waiting loop; after it the program aborts, the model returns no result.
- OptimizerObject.Optimizer.Sleep: the turns of the queues are whole steps, not threads; any number and order of them is possible.
- OptimizerObject.Optimizer.GenerateConfig: the tuner is a value here, with its draws handed in; the tuner objects are proved against the same functions separately.
- TunerObjects.BayesianTuner.CreatePredictions: which candidates the trained model prefers is taken from outside, so training, prediction and the selection loop at include/tuner/BayesianTuner.h:339-357 are not modelled.
- TunerObjects.AnnealingTuner.GetNextConfig: cooling schedule, energies and the acceptance probability are not modelled; the outcome of the choice is taken from outside.
- Knobs.PerturbConfig: the set of knobs to change is arbitrary; random generators are arbitrary values in range.
- Comparison.Transitive: arithmetic is over reals, so rounding, NaN and signed zero are not modelled; comparisons with an empty sample are false, and square roots are removed by comparing squares.
- Measurement.RecentExecutionTime.EndMeasurement: clocks are arbitrary time points; int64 overflow of a sum of times is not modelled.
- DriverRuns.EveryVersionHasOnePlace: one entry of the driver's state map; hashing and equality of contexts are not modelled.
- AliasTracer.MayAliasTracer.constructor: each value has one kind, and the loops over operands and users share one method, with the two operands of a select as a list.
- TrainingMatrix.ExportConfig: hash maps are visited in one fixed order per layout; that the layout and the export see the same order is how the program is built.
- JointRuns.TrainsOnSettledVersions: versions are measured between calls of `reoptimize`, by the one thread that makes them.
- Dataset.BayesianDataset.UpdateDataset: the program's single filling loop is written as its two stretches, held-out rows and training rows; allocation failure is not modelled.
- PartialApplication.WrapperCallsOriginal: struct bytes, pointer linking and module arguments are opaque constants; floating types have no precision, so that a `long double` constant passes through `double` is not modelled; a floating number out of the range of an integral parameter, whose conversion C++ leaves undefined, is taken modulo the width.
- PartialApplication.Context.SetParameters: options are erased at the type level only; what each option sets in the context is not modelled.
- PipelineSafety.DestructorIsSafe: the destructor's waiting loop is one step that is possible once the flag is clear (PipelineProgress.DestructorEnds says that it becomes so); the queues' own implementation is assumed serial and first in, first out.
- Quicksort.Qsort: integers are unbounded, so overflow in the slice size is not modelled.
- Passes, code generation, Polly, bitcode tracking, linking and devirtualization: compiling is an opaque function of module and configuration.
- Loop metadata (`updateLMD`, `addToLoopMD`, loop naming), `identifyLoops` and the generators of loop settings: small finite encodings.
- Discovery of knobs by analysis of the IR, knob application to the module, statistics output and logging.
