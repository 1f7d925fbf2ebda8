# Verified model of the data-stream services

This project models the parts of the industrial data-stream platform whose correctness is not visible from
reading one function, and proves what they promise:

- the **trajectory compiler**, from timestamped observations to an aligned grid of steps, transitions and
  train/validation/test splits (`Alignment`, `Records`, `Splits`, `Observations`, `Cells`, `StepGrid`,
  `Transitions`, `Bundle`, `EventLeaks`), traced back to the fields of the source records (`RecordTrace`);
- the **sustained-anomaly tracker**, refined to a specification over the whole history of a stream, evictions
  included, and to what a run puts out for given severities (`AnomalyTracker`, `Incidents`, `TrackerRuns`,
  `TrackerOutcomes`);
- the **durable report queue**, as atomic table updates and as a protocol between workers that crash, overrun
  their lease and lose replies (`ReportJobs`, `ReportProtocol`, `ReportRuns`, `ReportClaims`);
- the **model lifecycle ledger** with its history and rollback (`Lifecycle`, `LifecycleLaws`), traced back to the
  commands (`LifecycleRecords`);
- the **runtime supervisor**: dependency order and restart budget (`DependencyOrder`, `Supervisor`), and the exits and
  restarts of a whole supervision as an observer sees them (`SupervisorRuns`);
- the **replayable stream buffer** with string cursors (`StreamBuffer`);
- the **statistics** over exact reals (`Sums`, `Baseline`, `BaselineTests`, `Correlation`, `CorrelationMoments`), the
  **capacity planner** (`Capacity`, `CapacityLimits`) and the **merge of observed assets** into the asset tree
  (`AssetProjection`, `ProjectedNodes`).

Code that changes state is a class or a method with loops, proved equal to a function of the old state; the laws
are lemmas about those functions. `Common`, `Text` and `Flattening` hold what several modules share: options,
string order and strip, concatenated groups. Times of the compiler are integer milliseconds; clocks, fresh ids,
hashes and square roots are parameters.

`dafny verify dfyconfig.toml` checks everything. No proof relies on automatic induction: every induction is written out.

## What the code does where one might expect otherwise

Each of these is stated and proved in the model, with the exact condition where there is one.

- A `max_skew_ms` of zero is rejected although the message calls it acceptable
  (`services/common/model_dataset.py:46-50`; `AlignmentNeedsPositiveSkew`).
- The binary-search lookup and the linear scan pick different records exactly when the closest stamp is repeated
  before the target (`LookupRefinesScan`, `DuplicateStampsDisagree`). Action and outcome rows are never sorted: for
  distinct times their lookup is right at every time exactly when the source lists them in time order
  (`NearestFoundIffAscending`, `LinkedRightIffInOrder`, `UnsortedStampsMissed`).
- Channel names split back exactly when site and entity hold no `::` and do not end in a colon
  (`SplitUndoesName`); an identity shares its name with no other exactly when no colon of its parts can be read as part
  of a separator (`AloneIffUnmistakable`). A value is of the step's own site exactly when its site name is clean (`ValueIsOwnSiteIff`);
  bundles in which values cross sites exist (`ValuesCrossSites`, `CrossingBundle`), and a site whose name is not clean
  loses its own values (`ColonSiteIsBlind`).
- No step of a train or validation transition is later than the boundary of its partition, but its linked action or
  outcome can be, by at most the skew less one interval. No bundle has such an event exactly when the skew is at most
  one interval (`EventsLeakAtMost`, `LeakingBundle`, `NeverLeaksIff`).
- An action or outcome whose site text has blanks around it, or whose episode text is there but is not the resolved
  episode, gets its episode's split but is linked to no step (`RowIsOfGroupIff`, `BlankEpisodeIsLost`).
- Two streams of the anomaly tracker can share an entry when their names hold colons; one shares with no other exactly
  when no colon of its names can be taken for one between them (`TrackerOutcomes.AloneIffUnmistakable`,
  `ColonsCollide`).
- The cooldown of the anomaly tracker never has an effect (`CooldownIsIrrelevant`), and under policy `any` a stream
  reports at most one anomaly until it is evicted and never recovers (`AnyNeverRecovers`).
- Completing and failing a report job match on the job id alone. A worker past its lease, or one whose completing
  update was done but not confirmed, reopens a completed job (`CompletedSurvives`, `OverrunReopensCompleted`,
  `LostReplyReopensCompleted`); an unconfirmed failing update counts an attempt twice (`LostReplyCountsTwice`). Runs from
  the empty queue reach all three (`OverrunHappens`, `LostCompletionHappens`, `FourAttemptsHappen`).
- A candidate can become `evaluated` without any evaluation (`EvaluationIsSkippedIff`, `UnevaluatedIsReachable`).
- The stuck test compares a value with itself, so the counter counts updates (`StuckCountsUpdates`).
- A child that outlives its kill ends the shutdown with an exception: the children before it are ended, it and all later
  ones are left running (`Shutdown`).
- The ids of a stream increase exactly when the wall clock never steps back (`IdsIncreaseIffClockDoes`).
- The correlation table without pandas is upper triangular, not symmetric (`TableIsSymmetricIff`).
- Zero processors, megabytes or maximum are read as "not given". Raising the processors or the memory lowers no plan
  exactly when it does not start from zero or reaches what zero stands for (`MoreCpuIsNoLessIff`,
  `MoreMemoryIsNoLessIff`, `ZeroMeansNotGiven`).
- With scaling thresholds that overlap, the recommendation swings for ever (`EverHoldsIff`).

## Model

| member | source | states |
|---|---|---|
| Alignment.Nearest | services/common/model_dataset.py:103-112 | the linear scan returns the first of the closest parseable records within the skew, None exactly when there is none |
| Alignment.BisectSeparates | services/common/model_dataset.py:122 | on an ascending list the insertion point has exactly the smaller stamps before it |
| Alignment.NearestSorted | services/common/model_dataset.py:115-131 | the candidate loop computes the lookup function for every list, sorted or not |
| Alignment.LookupIsNearest | services/common/model_dataset.py:115-131 | on ascending stamps the lookup finds a closest stamp, the earlier one on a tie, and nothing only when all are out of skew |
| Alignment.LookupAgreesWithScan | services/common/model_dataset.py:103-131 | lookup and scan find nothing together, otherwise the same stamp |
| Alignment.LookupRefinesScan | services/common/model_dataset.py:103-131 | they find the same record if and only if no two equal stamps stand closest to the target, before it and within the skew |
| Alignment.DuplicateStampsDisagree | services/common/model_dataset.py:103-131 | with two equal stamps before the target, the scan keeps the first and the lookup the last |
| Alignment.EachFoundIffStrictlyAscending | services/common/model_dataset.py:115-131 | in whatever order the list is, every record is found by its own stamp if and only if the stamps strictly ascend |
| Alignment.NearestFoundIffAscending | services/common/model_dataset.py:115-131 | for distinct stamps the lookup is right about every target and skew if and only if the list is sorted |
| Alignment.RepeatedStampsCanHide | services/common/model_dataset.py:115-131 | with repeated stamps an unsorted list can be searched rightly for every target |
| Alignment.UnsortedStampsMissed | services/common/model_dataset.py:361-365 | an unsorted list on which the lookup misses a record that matches exactly |
| Alignment.LookupWithinSkew | services/common/model_dataset.py:130-131 | whatever list it is given, a found record is within the skew |
| Alignment.PointsCount | services/common/model_dataset.py:301-328 | a multiple of the interval is inside the span if and only if its index is below the number of grid points |
| Records.SplitUndoesName | services/common/model_dataset.py:143-144 | splitting a channel name gives back site, entity and tag if and only if site and entity hold no separator and do not end in a colon |
| Records.ChannelSiteIsSite | services/common/model_dataset.py:306 | the site read off a channel is the observed site if and only if that site is clean |
| Records.NameIsInjective | services/common/model_dataset.py:134-144 | clean identities with equal channel names are equal |
| Records.AloneIffUnmistakable | services/common/model_dataset.py:143-144 | an identity shares its channel name with no other if and only if no colon of its parts can be read as part of a separator |
| Records.NamesCollide | services/common/model_dataset.py:143-144 | without cleanness two identities share a channel |
| Splits.AssignSplits | services/common/model_dataset.py:155-205 | each episode gets the split its configuration decides, or the configuration or an undecidable episode rejects them all |
| Splits.ExplicitFollowsTexts | services/common/model_dataset.py:160-167 | with explicit splits an episode is for training, validation or testing exactly when its text is `train`, `validation` or `test` |
| Splits.HashFollowsBucket | services/common/model_dataset.py:191-205 | with hash splits an episode gets the partition in which its bucket lies, against 0.7 and 0.15 without ratios |
| Splits.SplitsSucceedIff | services/common/model_dataset.py:155-205 | the assignment succeeds if and only if the configuration is usable and every episode can be assigned |
| Splits.RefusalsSayWhy | services/common/model_dataset.py:162-200 | each refusal names the one condition on the configuration that fails |
| Splits.AssignmentIsUnique | services/common/model_dataset.py:155-205 | at most one outcome meets that specification |
| Splits.TemporalFollowsTime | services/common/model_dataset.py:168-188 | temporal splits are monotone in the episode end, and say on which side of each boundary it lies |
| Splits.HashIgnoresOtherEpisodes | services/common/model_dataset.py:200-205 | a hash split does not depend on the other episodes, their order or their times |
| Observations.FindDuplicateEvent | services/common/model_dataset.py:255-264 | the loop finds a duplicate if and only if two timed records share a non-blank event id |
| Observations.GroupRecords | services/common/model_dataset.py:266-287 | the dictionary of lists has exactly the keys that occur, each with its records in input order |
| Observations.SortByTimeSorts | services/common/model_dataset.py:289-291 | the sorted channel is ascending and a permutation of the records |
| Observations.SortIsStable | services/common/model_dataset.py:290 | observations of one time stay in the order they were read |
| Observations.EarliestIsFirst | services/common/model_dataset.py:298 | the start of a group is the time of one of its observations and no later than any |
| Observations.LatestIsLast | services/common/model_dataset.py:299 | the end of a group is the time of one of its observations and no earlier than any |
| Cells.RowLoop | services/common/model_dataset.py:303-315 | the loop over channels fills the row, with the mask true exactly where a value is present |
| Cells.CellComesFromNearest | services/common/model_dataset.py:305-313 | a cell holds the value of a nearest observation of its channel and episode within the skew, and is empty exactly for the stated reasons |
| Cells.CellIsOwnSite | services/common/model_dataset.py:305-313 | the observation behind a value is of the step's own site if and only if its site name is clean, and the column reads back to it if and only if its entity is too |
| Cells.CellCanCrossSites | services/common/model_dataset.py:306-310 | what alone a site `a::b` observes on a channel lands in the cells of site `a` |
| Cells.ColonSiteIsBlind | services/common/model_dataset.py:306-310 | a site that is not clean never sees its own observations |
| StepGrid.GridSteps | services/common/model_dataset.py:297-328 | advancing the cursor produces exactly the grid points of the group, numbered on from the steps before |
| StepGrid.CompileSteps | services/common/model_dataset.py:293-329 | the loop over groups concatenates the grids of all groups |
| StepGrid.GridFillsSpan | services/common/model_dataset.py:298-302 | a grid starts at the first observation and its last point is the last one not after the last observation |
| StepGrid.GroupOccupiesGrid | services/common/model_dataset.py:296-329 | group g occupies consecutive steps, the k-th of them the k-th grid point |
| StepGrid.LocateStep | services/common/model_dataset.py:316-327 | every step lies on the grid of one group and is numbered by its position over all groups |
| StepGrid.SpanCoversGroup | services/common/model_dataset.py:297-299 | every observation of a group lies in its span, whose ends were observed and do not pass the episode's end |
| Transitions.RowIsOfGroupIff | services/common/model_dataset.py:334-360 | a row is among those of a group if and only if the group is the one of its split, its site text has no blanks around it and its episode text, if any, is the resolved episode |
| Transitions.BlankEpisodeIsLost | services/common/model_dataset.py:334-360 | an event with a blank episode text and another episode key gets that episode's split and is among the rows of no group |
| Transitions.LinkGroup | services/common/model_dataset.py:359-386 | the loop over the steps of a group yields one transition per pair of neighbours with the linked rows |
| Transitions.LinkGroups | services/common/model_dataset.py:358-386 | the loop over groups yields the transitions of all groups in order |
| Transitions.LinkedRowIsNear | services/common/model_dataset.py:361-365 | a linked row is listed and within the skew; in time order it is a nearest one and missing only when none is within the skew |
| Transitions.LinkedRightIffInOrder | services/common/model_dataset.py:361-365 | rows at distinct times are linked rightly at every time and skew if and only if the source lists them in time order |
| Transitions.TransitionJoinsNeighbours | services/common/model_dataset.py:363-386 | a transition joins two consecutive steps of one site, episode and split, one interval apart, with their values, masks and rows |
| Transitions.TransitionsAreOrdered | services/common/model_dataset.py:355-386 | no two transitions leave the same step and they come in step order |
| Transitions.NeighboursAreJoined | services/common/model_dataset.py:363-386 | every two consecutive steps of one (site, episode) are joined |
| Transitions.TransitionCount | services/common/model_dataset.py:363-386 | there are as many transitions as steps minus groups |
| Bundle.AlignmentNeedsPositiveSkew | services/common/model_dataset.py:44-50 | alignment is accepted if and only if interval and skew are both positive; a skew of zero is rejected |
| Bundle.CompileV3 | services/common/model_dataset.py:230-386 | the compiler returns a bundle meeting the specification, or the read error or split error the inputs determine |
| Bundle.KeysAreObserved | services/common/model_dataset.py:266-272 | each (site, episode) is listed once, and if and only if it was observed |
| Bundle.StepIsWellPlaced | services/common/model_dataset.py:296-329 | step i is numbered i, on the grid of its observed (site, episode), with the split of its episode and a matching mask |
| Bundle.GridIsComplete | services/common/model_dataset.py:296-329 | every grid point of every observed (site, episode) is a step, in consecutive positions |
| Bundle.ValueIsNearestObservation | services/common/model_dataset.py:282-323 | a present value was observed on the same channel and episode within the skew with no closer one |
| Bundle.ValueIsOwnSiteIff | services/common/model_dataset.py:306-310 | that observation is of the step's own site if and only if its site name is clean |
| Bundle.ValuesCrossSites | services/common/model_dataset.py:306-310 | in every bundle of one observation of `a` and one of `a::b` within the skew, a step of `a` holds the value of `a::b` |
| Bundle.CrossingBundle | services/common/model_dataset.py:282-323 | such a bundle exists for every such pair, interval and skew |
| Bundle.BundleTransitionCount | services/common/model_dataset.py:355-386 | transitions number steps minus (site, episode) groups |
| Bundle.TemporalSplitsDoNotLeak | services/common/model_dataset.py:274-280 | no train step or train next-step is after `train_end`, likewise validation and `validation_end` |
| EventLeaks.EventsAreNear | services/common/model_dataset.py:359-381 | a transition's action and outcome are rows of its own site and episode within the skew |
| EventLeaks.EventsLeakAtMost | services/common/model_dataset.py:359-381 | under temporal splits they lie beyond the boundary of their partition by at most the skew less one interval |
| EventLeaks.LeakingBundle | services/common/model_dataset.py:359-381 | for every interval, skew, partition and kind of event a bundle attains that bound |
| EventLeaks.NeverLeaksIff | services/common/model_dataset.py:359-381 | no bundle has an event beyond the boundary of its partition if and only if the skew is at most one interval |
| RecordTrace.EachTimedRecordIsRead | services/common/model_dataset.py:134-253 | a successful read turns exactly the records with a time, each once and in input order, into observations with the time, stripped names, first non-blank episode and value of the record |
| RecordTrace.ReadFailsIff | services/common/model_dataset.py:243-264 | reading fails exactly without any time, without names, without an episode, or with a repeated event id, in this order |
| RecordTrace.ShownValueIsRecorded | services/common/model_dataset.py:282-323 | a value in a bundle is that of an input record of the episode within the skew whose site, entity and tag make the name of the column |
| RecordTrace.ClosestRecordIsShown | services/common/model_dataset.py:303-323 | the closest record of a clean site, when it has a value and lies within the skew, is shown in every step of its site and episode |
| RecordTrace.ColumnsAreRecorded | services/common/model_dataset.py:282 | the columns are exactly the channels of the records with a time, in increasing order |
| RecordTrace.GroupsAreRecorded | services/common/model_dataset.py:266-271 | the groups of steps are exactly the site and episode pairs of those records, in increasing order |
| RecordTrace.SplitByLastRecord | services/common/model_dataset.py:274-280 | under temporal splits an episode is for training if and only if no record of it is after `train_end`, for testing if and only if one is after `validation_end` |
| RecordTrace.EachEventIsRow | services/common/model_dataset.py:331-350 | the rows are exactly the records with a time, a site and an episode, in input order, with their own texts and the split of the resolved episode |
| RecordTrace.BundleEventsAreRecorded | services/common/model_dataset.py:352-353 | action rows come from action records and outcome rows from outcome records |
| Bundle.OneSplitPerEpisode | services/common/model_dataset.py:280-377 | an episode has one split over all its sites, steps and transitions |
| Bundle.HashSplitsAreStable | services/common/model_dataset.py:272-280 | adding, removing or reordering other episodes' observations leaves a hash split unchanged |
| AnomalyTracker.SustainedAnomalyTracker.UpdateTransition | services/common/ai_reporting.py:62-103 | the method computes the table step, keeps the table a dictionary and never lets it outgrow `max_streams` |
| AnomalyTracker.SustainedAnomalyTracker.Settle | services/common/ai_reporting.py:76-88 | the branch of events that do not qualify |
| AnomalyTracker.SustainedAnomalyTracker.Extend | services/common/ai_reporting.py:89-103 | the branch of qualifying events, with eviction of the oldest stream |
| AnomalyTracker.UpdateKeepsTable | services/common/ai_reporting.py:89-93 | every step keeps the table a dictionary within its bound, whatever policy the event comes with |
| Incidents.StreamMeetsSpecification | services/common/ai_reporting.py:75-103 | for every history the stored state is the one the history determines and the last event yields what the specification demands |
| TrackerRuns.StreamsAreIndependent | services/common/ai_reporting.py:73-93 | in every run, evictions included, a stream's entry is the one its own history since its last eviction produces |
| TrackerRuns.TrackerMeetsSpecification | services/common/ai_reporting.py:62-103 | on every history an anomaly is emitted exactly when all the stream's events since its last reset or eviction qualify, are enough, span the duration and none was reported; evidence is the last of that streak |
| TrackerRuns.NothingLostIffNeverEvicted | services/common/ai_reporting.py:89-93 | that history is the stream's whole history if and only if it was never evicted |
| TrackerRuns.FewStreamsAreKept | services/common/ai_reporting.py:89-93 | while at most `max_streams` streams send qualifying events none is evicted |
| TrackerRuns.TableRunIsTable | services/common/ai_reporting.py:89-93 | in every run the table is a dictionary of at most `max_streams` entries |
| TrackerRuns.OutputsAlternate | services/common/ai_reporting.py:76-103 | with recovery on, what a run puts out for a stream since its last eviction strictly alternates, and its incident is open after an odd number |
| TrackerRuns.RecoveryWaitsForRearm | services/common/ai_reporting.py:77-85 | the run puts out a recovery if and only if recovery is on, an incident is open, and a normal event comes at least the re-arm time after the last qualifying one |
| TrackerRuns.AnyNeverRecovers | services/common/ai_reporting.py:72 | under policy `any` a run puts out at most one anomaly for a stream since its last eviction, and never a recovery |
| TrackerRuns.CooldownIsIrrelevant | services/common/ai_reporting.py:99-102 | every run gives the same table and outputs whatever the cooldown |
| TrackerOutcomes.StreakReportsOnce | services/common/ai_reporting.py:69-103 | watched events of one stream, all of admitted severity, are reported exactly once, at the first event where count and span suffice, with the last of them as evidence |
| TrackerOutcomes.MildNeverReports | services/common/ai_reporting.py:71-88 | in no run does an event whose severity the policy does not admit report an anomaly |
| TrackerOutcomes.SeverityIsMonotone | services/common/ai_reporting.py:72 | a more severe event, or a wider policy, opens an entry whenever the milder or narrower one does |
| TrackerOutcomes.FirstEventOpens | services/common/ai_reporting.py:69-93 | a first event opens an entry exactly when it is watched and admitted |
| TrackerOutcomes.UnwatchedChangesNothing | services/common/ai_reporting.py:69-70 | an event that is replayed against the policy, or with reporting off, changes nothing in any run |
| TrackerOutcomes.StreamsDoNotShare | services/common/ai_reporting.py:73 | two admitted events share an entry exactly when site, asset and tag agree, for names without colons, an empty one standing for `unknown` |
| TrackerOutcomes.AloneIffUnmistakable | services/common/ai_reporting.py:73 | a stream shares its entry with no other if and only if no colon of its names can be taken for one between them |
| TrackerOutcomes.ColonsCollide | services/common/ai_reporting.py:73 | two streams with colons in their names that share an entry |
| TrackerOutcomes.TableIsByAge | services/common/ai_reporting.py:89-93 | in every run the streams of the table are in the order in which their entries were opened |
| TrackerOutcomes.OldestIsEvicted | services/common/ai_reporting.py:90-91 | a stream that is pushed out of a full table is the one whose entry is the oldest |
| ReportJobs.JobTable.Create | services/common/ai_reporting.py:200-234 | a new pending job unless one with the same full window exists, which is then returned unchanged |
| ReportJobs.JobTable.ClaimNext | services/common/ai_reporting.py:311-343 | claims an oldest claimable unlocked job, or none exactly when there is none, and changes no other row |
| ReportJobs.JobTable.Complete | services/common/ai_reporting.py:237-243 | sets the status of that job only |
| ReportJobs.JobTable.Fail | services/common/ai_reporting.py:246-255 | counts the attempt, schedules the retry, and fails the job at the third |
| ReportJobs.JobTable.WorkerTurn | services/ai_gateway/main.py:112-146 | a turn completes the claimed job exactly when a result was returned and stored, else counts one attempt; no other job changes |
| ReportJobs.ResultMeansAcked | services/ai_gateway/main.py:749-796 | with a flushing producer a returned result means the message was acknowledged |
| ReportProtocol.StepIsSafe | services/common/ai_reporting.py:237-343 | every step within the lease keeps held jobs current, attempts bounded, and settled jobs as they are |
| ReportProtocol.RunIsSafe | services/ai_gateway/main.py:107-146 | so does every disciplined run |
| ReportProtocol.ExclusiveHolder | services/common/ai_reporting.py:311-343 | in every disciplined run at most one live worker holds a job |
| ReportProtocol.FailedMeansThreeAttempts | services/common/ai_reporting.py:246-255 | attempts never exceed three, and a job is failed if and only if it used three |
| ReportProtocol.SettledJobsStay | services/common/ai_reporting.py:237-255 | completed and failed are absorbing and no job is lost |
| ReportProtocol.AtLeastOnce | services/ai_gateway/main.py:135-144 | in every run, disciplined or not, a completed job has an acknowledged output event under its id |
| ReportProtocol.CompletedMeansDelivered | services/ai_gateway/main.py:749-796 | every step of every run keeps: a held result and a completed job are acknowledged |
| ReportProtocol.CompletedSurvives | services/common/ai_reporting.py:242-254 | a settling update leaves a completed job completed if and only if it is not a failure done to that job |
| ReportProtocol.HeldJobIsClaimableIffOverrun | services/common/ai_reporting.py:314-326 | a held job can be claimed by another if and only if its holder overran the lease |
| ReportProtocol.OverrunReopensCompleted | services/common/ai_reporting.py:250-254 | after an overrun the late worker's failure reopens a job another has completed |
| ReportProtocol.LostReplyReopensCompleted | services/ai_gateway/main.py:136-143 | a completing update done but not confirmed is undone by the worker's own error handler |
| ReportProtocol.LostReplyCountsTwice | services/ai_gateway/main.py:139-143 | a failing update done but not confirmed counts the attempt twice, exceeding three exactly from two |
| ReportClaims.ClaimTakesOldest | services/common/ai_reporting.py:311-343 | an idle worker can be given exactly an oldest unlocked job that is pending and due or in progress for more than 300 seconds, and nothing exactly when there is none |
| ReportClaims.ClaimIff | services/common/ai_reporting.py:314 | the same for any lease, where less than thirty seconds count as thirty |
| ReportClaims.FailedJobRests | services/common/ai_reporting.py:246-326 | in every run in which the clock does not step back, no claim takes a job within sixty seconds of a failing update of it |
| ReportClaims.JobsInProgressAreDated | services/common/ai_reporting.py:326-331 | in every run a job in progress has the time of its claim and a worker |
| ReportClaims.CreateAddsOrKeeps | services/common/ai_reporting.py:200-234 | creating adds one pending job due at once, or changes nothing when a job has the same site, type, reason and both bounds |
| ReportClaims.OneJobPerWindow | services/common/ai_reporting.py:200-234 | in every run each full window has at most one job |
| ReportClaims.ResultIff | services/ai_gateway/main.py:749-796 | with a flush a result is returned exactly when the message is acknowledged and none of the others is left; every other attempt but an empty one raises |
| ReportClaims.TurnSettles | services/ai_gateway/main.py:112-146 | every turn ends with an idle worker and a completed job, or with one attempt counted, the third ending the job; an unconfirmed failing update leads to the handler, and stops the worker when it is already the handler's |
| ReportRuns.OverrunHappens | services/ai_gateway/main.py:112-146 | a run from the empty queue in which a late worker is about to reopen a job another has completed |
| ReportRuns.LostCompletionHappens | services/ai_gateway/main.py:136-143 | a run from the empty queue in which a worker is about to reopen the job it has just completed |
| ReportRuns.FourAttemptsHappen | services/ai_gateway/main.py:139-143 | a run from the empty queue that ends with four attempts on a job |
| Lifecycle.ModelLifecycleLedger.RegisterModel | services/common/model_lifecycle.py:52-94 | registration, with its refusals leaving the ledger unchanged |
| Lifecycle.ModelLifecycleLedger.EvaluateModel | services/common/model_lifecycle.py:96-123 | evaluation of a candidate or evaluated model, with its refusals |
| Lifecycle.ModelLifecycleLedger.TransitionModel | services/common/model_lifecycle.py:125-144 | a granted transition with the auto-retirement loop, or a refusal |
| Lifecycle.ModelLifecycleLedger.RollbackModel | services/common/model_lifecycle.py:146-163 | rollback to the selected candidate, or a refusal |
| LifecycleLaws.TransitionEffect | services/common/model_lifecycle.py:134-141 | what a granted transition does to every single model: the target's state, retirement of the slot's active ones, nothing else |
| LifecycleLaws.ReachableLedgersAreSound | services/common/model_lifecycle.py:52-163 | in every reachable ledger: one active model per name and site, a passing evaluation behind approved, active and retired, and a history that replays to the current states along permitted edges |
| LifecycleLaws.StepIsSound | services/common/model_lifecycle.py:52-163 | every command keeps these invariants |
| LifecycleLaws.EvaluationCanBeSkipped | services/common/model_lifecycle.py:125-144 | a granted transition keeps "evaluated has an evaluation" if and only if it does not move an unevaluated model to evaluated |
| LifecycleLaws.EvaluationIsSkippedIff | services/common/model_lifecycle.py:52-163 | the same for every command, granted or refused |
| LifecycleLaws.UnevaluatedIsReachable | services/common/model_lifecycle.py:21-28 | two commands from the empty ledger reach an evaluated model without an evaluation |
| LifecycleLaws.ReachableLedgersAreStamped | services/common/model_lifecycle.py:138-159 | in every reachable ledger each `updated_at` is an earlier reading of the clock |
| LifecycleLaws.RollbackPicksLatest | services/common/model_lifecycle.py:150-156 | rollback picks a model if and only if it is the most recently updated candidate, the first registered on a tie |
| LifecycleLaws.RollbackRestoresDisplaced | services/common/model_lifecycle.py:134-163 | with a strictly increasing clock, rolling back a just-activated model restores the one it displaced and no third model changes |
| LifecycleLaws.RollbackTwiceReturns | services/common/model_lifecycle.py:146-163 | rolling back twice returns to the model active at first, leaving every third model untouched |
| LifecycleRecords.FlagsAreStored | services/common/model_lifecycle.py:107-120 | after any commands each model stores, in order, exactly the flags of the evaluations of it that were carried out |
| LifecycleRecords.PassBehindGate | services/common/model_lifecycle.py:130 | an approved, active or retired model has an earlier carried-out evaluation that passed |
| LifecycleRecords.ApprovalNeedsPass | services/common/model_lifecycle.py:130-131 | approval of a known model is refused for want of a pass if and only if no evaluation of it has passed |
| LifecycleRecords.GrantedIffPermitted | services/common/model_lifecycle.py:21-163 | in every reachable ledger a command is carried out if and only if the fields of the records permit it, by ten listed transitions |
| LifecycleRecords.RecordsAreRegistered | services/common/model_lifecycle.py:65-94 | every record was brought in by a carried-out registration of its stripped name and version and of its site |
| LifecycleRecords.RegisteredStaysKnown | services/common/model_lifecycle.py:65-94 | a registered model stays known for good |
| LifecycleRecords.CommandLeaves | services/common/model_lifecycle.py:52-163 | a carried-out command leaves its model in the state it names and says so in the last entry |
| LifecycleRecords.ListedAsRegistered | services/common/model_lifecycle.py:91-92 | the records are listed in the order of their registrations |
| LifecycleRecords.ActivationRetires | services/common/model_lifecycle.py:134-139 | an activation retires exactly the other active models of the same name and site |
| LifecycleRecords.OneActive | services/common/model_lifecycle.py:134-139 | at most one model of a name and site is active |
| LifecycleRecords.RollbackReplaces | services/common/model_lifecycle.py:146-163 | a rollback puts into service the last updated of the approved or retired models of the same name and site, and touches no third |
| LifecycleRecords.ChangedIsStamped | services/common/model_lifecycle.py:87-159 | a command stamps the records it changes, and only those, with a reading of its own |
| LifecycleRecords.HistoryIsExplained | services/common/model_lifecycle.py:139-161 | every automatic retirement is followed by the activation that caused it, every rollback by its target; the entries name each other |
| LifecycleRecords.HistoryOnlyGrows | services/common/model_lifecycle.py:185-186 | the history is append-only |
| DependencyOrder.ResolveOrder | services/cli/datastreamd.py:283-298 | on every table, cyclic or not: the depth-first order, with no duplicates, exactly the known services reachable from the request, dependencies first except on cycles |
| DependencyOrder.OrderedIffAcyclic | services/cli/datastreamd.py:287-294 | the order puts every dependency first if and only if no listed service is on a cycle |
| DependencyOrder.RequestsAreServedInTurn | services/cli/datastreamd.py:296-297 | what is asked for first comes first: more requests only add to the end of the order |
| DependencyOrder.ServiceFollowsDependencies | services/cli/datastreamd.py:287-294 | a service asked for alone is listed right after what its dependencies, in their order, list |
| DependencyOrder.Resolver.Visit | services/cli/datastreamd.py:287-294 | a visit terminates, adds only services reachable from its argument, and keeps the order |
| DependencyOrder.PathGoesDown | services/cli/datastreamd.py:292-294 | along a dependency path positions strictly decrease |
| Supervisor.Supervisor.HandleExit | services/cli/datastreamd.py:402-421 | one exit: trimmed history, budget test, back-off, restart |
| Supervisor.Supervisor.StartAll | services/cli/datastreamd.py:393-398 | a service has a child exactly when it and all before it start; supervision stops, with exit code 1, exactly when one does not |
| Supervisor.Supervisor.Shutdown | services/cli/datastreamd.py:426-431 | the children are terminated in their order up to the first that outlives its kill; exactly it and the later ones are left running |
| Supervisor.Supervisor.Supervise | services/cli/datastreamd.py:391-437 | the whole state is that of starting, the scripted passes and the shutdown; no child is left, or exactly those from the first that outlived its kill on; no window ever held more restarts of a service than its budget |
| Supervisor.BudgetHolds | services/cli/datastreamd.py:407-416 | if each restart passed the test at its time, every half-open window of the configured length has at most `max_restarts` restarts |
| Supervisor.ExitIsTracked | services/cli/datastreamd.py:407-410 | the stored history is always the exits in the window ending with the last one |
| Supervisor.TrimNext | services/cli/datastreamd.py:409 | trimming the already trimmed history loses nothing against trimming all exits |
| Supervisor.ExitKeepsBudget | services/cli/datastreamd.py:407-421 | every exit keeps the budget and the histories |
| Supervisor.ExitKeepsPairs | services/cli/datastreamd.py:405-421 | a service has one child, which is replaced exactly when the exit counts as restarted, and no other child is touched |
| SupervisorRuns.StartStopsAtFirstFailure | services/cli/datastreamd.py:393-398 | the services before the first that does not start get children, in order and under consecutive process numbers; supervision stops at once exactly when there is such a one |
| SupervisorRuns.SupervisionIsSeen | services/cli/datastreamd.py:391-424 | the log, the children, the exit code and the starts are those of an observer who knows only the script: a turn is an exit when its service is up, and is restarted when the exits seen allow it, up to the first pass cut short and the first stop |
| SupervisorRuns.UndisturbedSupervision | services/cli/datastreamd.py:400-421 | without signals, failed starts and exits over budget every exit is restarted, the log is the script, all services run, and there were as many starts as services and exits |
| SupervisorRuns.FirstStop | services/cli/datastreamd.py:411-421 | every exit before the first that is not restarted is in the log; over budget or with a failed start the supervision ends there, after a signal only the rest of the pass is looked at and nothing is restarted |
| SupervisorRuns.NothingIsWatched | services/cli/datastreamd.py:393-400 | with a service that does not start no exit is looked at and the exit code is 1 |
| SupervisorRuns.RecentIsTrimmed | services/cli/datastreamd.py:409 | what the trimmed history counts are the exits of the service in the window |
| StreamBuffer.PaddedOrder | services/common/assistant_streams.py:105 | zero-padded numbers within their width order as strings like the numbers |
| StreamBuffer.ConsecutiveIds | services/common/assistant_streams.py:103-105 | consecutive ids increase if and only if the clock moved or the sequence number still fits six digits |
| StreamBuffer.IdsAreIncreasing | services/common/assistant_streams.py:102-109 | with a non-decreasing clock and fewer than a million events all ids of a stream strictly increase |
| StreamBuffer.IdsIncreaseIffClockDoes | services/common/assistant_streams.py:102-109 | with fewer than a million events the ids of a stream strictly increase if and only if the clock never stepped back |
| StreamBuffer.AssistantStreamBus.Publish | services/common/assistant_streams.py:95-109 | publishing keeps the buffer the newest thousand of everything published, under the next id |
| StreamBuffer.AppendNewest | services/common/assistant_streams.py:106-108 | trimming after each append equals trimming the full log |
| StreamBuffer.AssistantStreamBus.ReplayFrom | services/common/assistant_streams.py:111-129 | replay returns exactly the buffered messages the cursor lets through |
| StreamBuffer.PollReturnsUnread | services/common/assistant_streams.py:117-118 | a poll returns in order exactly the unread messages, or the newest thousand when more are unread |
| StreamBuffer.MarkersReplayAll | services/common/assistant_streams.py:118 | each of the three start markers replays the whole buffer |
| StreamBuffer.NewestThousand | services/common/assistant_streams.py:107-108 | the buffer is the last thousand messages, or all of them |
| StreamBuffer.IdsAreRead | services/common/assistant_streams.py:105 | an id has 27 characters and shows its clock reading and its number |
| StreamBuffer.ReaderSeesEverything | services/common/assistant_streams.py:120-129 | a reader never more than a thousand behind receives every message once and in order |
| Sums.CauchySchwarz | services/analytics/correlation.py:121-123 | the square of a sum of products is at most the product of the sums of squares |
| Sums.LastOfZeroSum | services/analytics/baseline.py:40-41 | in a list summing to zero the last square is at most (n - 1)/n of the sum of squares |
| Baseline.BaselineDetector.Update | services/analytics/baseline.py:32-106 | one update of all four tests, the tag's stored state and the combined score; every other entry of every dictionary is kept |
| Baseline.NewestDeviationBound | services/analytics/baseline.py:40-43 | (value - mean)^2 is at most (n - 1) times the variance |
| Baseline.SpikeAttainsBound | services/analytics/baseline.py:40-43 | the bound is attained by one spike after equal values |
| Baseline.ZNeedsLargeWindow | services/analytics/baseline.py:38-46 | the z test needs n - 1 above the squared threshold |
| Baseline.ZNeedsElevenValues | services/analytics/baseline.py:33-46 | at threshold 3 it never fires on a tag's first ten values nor in a window of ten |
| Baseline.WindowIsNewest | services/analytics/baseline.py:27-34 | the window is exactly the newest values |
| Baseline.EwmaStaysInRange | services/analytics/baseline.py:52-55 | with alpha in [0, 1] the average stays between the least and greatest value seen |
| Baseline.StuckCountsUpdates | services/analytics/baseline.py:79-90 | the stuck counter counts updates whatever the values |
| BaselineTests.SeveritySays | services/analytics/baseline.py:93-104 | which sets of firing tests make a reading critical, a warning or normal |
| BaselineTests.ZFiresIff | services/analytics/baseline.py:40-46 | the z test fires if and only if the squared distance exceeds the squared threshold times the variance, and 25 variances stay under the squared mean, which is positive |
| BaselineTests.SpikeFiresIff | services/analytics/baseline.py:38-46 | a spike after n equal values fires it if and only if n exceeds the squared threshold and the window is still stable |
| BaselineTests.RatesAreGaps | services/analytics/baseline.py:63-71 | the stored rates are exactly the newest differences of neighbouring values |
| BaselineTests.RateFiresIff | services/analytics/baseline.py:73-75 | the rate test fires if and only if there are `roc_min_window` differences and the newest of them sum to more than the threshold for each |
| BaselineTests.AverageMovesTimes | services/analytics/baseline.py:52-55 | m equal values move the stored average m times |
| BaselineTests.AverageForgets | services/analytics/baseline.py:53 | that shrinks its distance from them by the m-th power of one minus the smoothing factor |
| BaselineTests.SpikeOffAverage | services/analytics/baseline.py:57-60 | a spike after n equal values lies off the average by its distance from them times one minus the factor, and the test fires if and only if that exceeds the threshold with enough values |
| BaselineTests.ReadingReportsRate | services/analytics/baseline.py:62-91 | the rate reported is the last difference, and the stuck test fires by the number of updates alone |
| Correlation.NumeratorIsBounded | services/analytics/correlation.py:121-123 | the squared numerator is at most the product of the squared denominators |
| Correlation.PearsonIsBounded | services/analytics/correlation.py:112-129 | the coefficient is between -1 and 1 |
| Correlation.PearsonIsSymmetric | services/analytics/correlation.py:112-129 | swapping the inputs changes nothing |
| Correlation.PearsonIgnoresUnits | services/analytics/correlation.py:112-129 | shifting changes nothing, scaling by a non-zero factor at most the sign |
| Correlation.PearsonOfLine | services/analytics/correlation.py:112-129 | a straight line through varying values has coefficient exactly 1 or -1 |
| CorrelationMoments.PearsonByMoments | services/analytics/correlation.py:112-129 | the coefficient is fixed by the sums, the sums of squares and the sum of products: its square, its sign, and where it is zero |
| Correlation.CorrelationAnalyzer.AddValue | services/analytics/correlation.py:48-52 | appends to the bounded window of one tag and leaves the others |
| Correlation.Tabulate | services/analytics/correlation.py:94-108 | the nested loop leaves in each row exactly what its own turn wrote |
| Correlation.CorrelationAnalyzer.SimpleCorrelation | services/analytics/correlation.py:88-110 | the table of the analyzer has a row for exactly its tags, each the row its own turn leaves |
| Correlation.RowIsTriangular | services/analytics/correlation.py:94-108 | a finished row has an entry for exactly the later tags with enough values |
| CorrelationMoments.EntryIsCoefficient | services/analytics/correlation.py:96-104 | a table entry exists if and only if both tags have two values, and is the coefficient of their oldest values, position by position |
| Correlation.TableIsSymmetricIff | services/analytics/correlation.py:94-108 | two tags' entries agree both ways round if and only if they have no coefficient |
| Capacity.PlanIsBounded | services/common/flink_capacity.py:64-82 | parallelism is at least 1 and within partitions, maximum and floored resources; limited if and only if the request exceeds one of them |
| Capacity.PlanCoversLoad | services/common/flink_capacity.py:75-85 | an unlimited plan covers the rate, and above the minimum one slot less would not |
| Capacity.PlanFillsTaskManagers | services/common/flink_capacity.py:83-84 | slots are replicas times slots per manager, and fewer than one manager's slots stay unused |
| Capacity.PlanIsMonotone | services/common/flink_capacity.py:64-82 | more partitions, processors, memory or load never lower the parallelism, where a number raised from zero reaches what zero stands for |
| Capacity.MoreCpuIsNoLessIff | services/common/flink_capacity.py:65 | raising the processors lowers no plan if and only if it does not start from zero or reaches the host's count |
| Capacity.MoreMemoryIsNoLessIff | services/common/flink_capacity.py:66 | raising the memory lowers no plan if and only if it does not start from zero or reaches 4096 megabytes |
| Capacity.ZeroMeansNotGiven | services/common/flink_capacity.py:65-68 | zero processors, megabytes or maximum plan like missing ones |
| CapacityLimits.PlanIsLargest | services/common/flink_capacity.py:64-82 | the plan has n slots or more if and only if n are wanted by the minimum, the load or the partitions, and allowed by partitions, maximum, processors and memory |
| CapacityLimits.CutIffMoreIsWanted | services/common/flink_capacity.py:79-104 | the plan is flagged as limited if and only if one slot more is wanted |
| CapacityLimits.PlanSuffices | services/common/flink_capacity.py:73-85 | a plan not flagged carries the load at the given rate of a slot, and with one slot less it would not, unless the minimum asks for it |
| CapacityLimits.CapacityIsEstimated | services/common/flink_capacity.py:85 | the estimated capacity is the slots at the given rate |
| CapacityLimits.GivenNumbersAreKept | services/common/flink_capacity.py:64-69 | numbers in range are planned with as they are given |
| CapacityLimits.RecommendationSays | services/common/flink_capacity.py:126-134 | it recommends one slot up or down exactly when both signals pass their thresholds and there is room in that direction, up before down |
| CapacityLimits.FollowKeepsBounds | services/common/flink_capacity.py:126-134 | whoever follows it from inside the bounds never leaves them nor passes the partitions |
| Capacity.MaskFindsPowers | services/common/flink_capacity.py:91-92 | the mask test is zero if and only if the number is a power of two |
| Capacity.WarningsSayWhy | services/common/flink_capacity.py:86-94 | each warning is present if and only if its reason holds |
| Capacity.HoldsAfterDistance | services/common/flink_capacity.py:126-134 | following the recommendation, it says hold from step n on if and only if n has reached the start's distance |
| Capacity.EverHoldsIff | services/common/flink_capacity.py:126-134 | it ever says hold if and only if the signals do not ask for both directions over a real range |
| Capacity.SeparatedThresholdsSettle | services/common/flink_capacity.py:120-134 | all signals settle if and only if the thresholds are separated or the range is a point |
| Capacity.FollowIsMonotone | services/common/flink_capacity.py:126-134 | where the signals ask for at most one direction, the parallelism moves only that way |
| Capacity.FollowStaysInRange | services/common/flink_capacity.py:126-134 | once between the minimum and the upper limit it stays there |
| Capacity.SettlesOn | services/common/flink_capacity.py:126-134 | it settles on the upper limit, the minimum, or where it is |
| AssetProjection.AssetTree.AppendObserved | services/common/asset_hierarchy_projection.py:27-87 | the loops grow the tree by exactly the merge of the grouped items |
| AssetProjection.AssetTree.AppendSite | services/common/asset_hierarchy_projection.py:38-87 | one site: its node, its group, its items |
| AssetProjection.KidsAfterPut | services/common/asset_hierarchy_projection.py:23-24 | what was put under an id is found there, and every other id finds what it found before |
| AssetProjection.OneLeafEach | services/common/asset_hierarchy_projection.py:27-87 | each observed site, asset and tag has exactly one leaf where there was none, and all other leaves are as many as before |
| ProjectedNodes.OneLeafPerReport | services/common/asset_hierarchy_projection.py:27-90 | the same, said on the source and the non-blank site, asset and tag of the items |
| ProjectedNodes.LeafIsFirstReport | services/common/asset_hierarchy_projection.py:77-90 | a leaf is the one the tree had, or carries the tag, unit and last sighting of the first item that reports it |
| ProjectedNodes.NodesAboveLeaf | services/common/asset_hierarchy_projection.py:38-76 | the site, the group and the asset above stay as they are described; a reported site is given what it lacks, the asset named by its first item |
| AssetProjection.OrderDoesNotMatter | services/common/asset_hierarchy_projection.py:27-87 | order and repetition of the items do not change which leaves there are |
| AssetProjection.ProjectionIsIdempotent | services/common/asset_hierarchy_projection.py:27-87 | merging the same items again changes nothing |
| AssetProjection.ConfiguredNodesAreKept | services/common/asset_hierarchy_projection.py:38-66 | outside the groups of observed sources every node stays as and where it was, and only such groups and observed sites are added |
| AssetProjection.OtherSitesAreUntouched | services/common/asset_hierarchy_projection.py:38-50 | a root that is no observed site keeps even its groups |

## Left out

- Kafka, SQL, Redis, HTTP, Parquet, YAML and JSON files: only the atomic effect of a call is modelled, that is a row
  update, an acknowledged or failed delivery, a list of records.
- Timestamp parsing, UUIDs, SHA-256 and clocks: times are numbers, ids are given, the hash bucket is any function.
- Floating-point rounding and `round`: the arithmetic is over exact reals, with a square root given as a function;
  NaN and infinite inputs are not modelled.
- The v2 branch of the compiler, units and channel metadata, artifact rows, the unlinked counters and the quality
  report (`services/common/model_dataset.py:354-400`): bookkeeping beside the steps and transitions.
- Transitions.LinkedRightIffInOrder: for rows at distinct times only, since with repeated times an unsorted list can
  still be searched rightly (`RepeatedStampsCanHide`).
- Records of actions and outcomes that carry their own `timestamp_ms` or `split` key override the computed one in
  the row (`services/common/model_dataset.py:343-349`); those two keys are not part of the record model.
- Splits.AssignSplits: an unparseable temporal boundary, which the code replaces by the smallest date, has to be
  passed as that number; which of several undecidable episodes is reported first does not show, since all give the
  same error.
- TrackerRuns.TrackerMeetsSpecification: one policy is fixed for a history; the table bound alone is proved for policies
  that change.
- ReportJobs.JobTable.WorkerTurn: generation itself (evidence query, prompt, provider, fallback) is one attempt with
  an outcome; `mark_report_job_processing` and the columns for results, errors and evidence are not modelled.
- ReportProtocol.ExclusiveHolder: assumes that live workers settle within the lease, as far as the one clock of the
  model tells, and that no done update goes unconfirmed; the other lemmas show what happens otherwise.
- ReportProtocol.AtLeastOnce: assumes the real producer, which has a flush; the test double without one is excluded.
- Lifecycle: loading and saving the ledger, the read-only queries, metadata fields, and the unsupported state name
  (a data type rules it out).
- Supervisor: health checks, log files, saved process records and signal handlers; process exits, failed starts,
  stop signals and processes that outlive their kill are inputs. The length of the back-off sleep shows only in the times
  between exits, which are given. A stop signal during the first start is not modelled.
- StreamBuffer: the Redis backend, ownership records, cancellation and the job list. Ids from a million events on
  are modelled only for the comparison of consecutive ones.
- Correlation: the pandas and SciPy paths, causality and network analysis.
- Capacity: the texts of topics, warnings and reasons.
- AssetProjection.AssetTree.AppendObserved: below the list of roots, nodes are values that are written back, not
  shared objects, so aliasing between parts of the tree is not modelled; a missing `children` key counts as an empty
  list and a missing `id` as the empty string.
- Connection registry, assistant store, alert manager, agent runtime, caches and federation contract: flag updates,
  lookups and single checks, where a proof would say no more than the code. The replay state of the API service can leave
  two workers alive, so its single-worker claim is not made.
