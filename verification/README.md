# A verified model of TailView

TailView stores a tailnet's network flows, devices, policy and findings, and derives reports, reviews and
notifications from them. This project models the parts of its backend that carry long-lived promises, and proves
those promises for all inputs, all states and all runs.

- **Flow aggregation and retention** (`Flows`, `Buckets`, `Aggregation`, `FlowStore`, `FlowHistory`, `FlowMeaning`,
  `RetentionLimits`, `RetentionRuns`): raw flows are rolled into hourly and daily rows by rebuilding an overlap
  window, coverage is extended after every pass, and raw rows are deleted once they are covered. `FlowHistory` keeps
  every flow ever ingested beside the tables and shows that the aggregates go on agreeing with all of them;
  `RetentionLimits` says exactly when a pass or a cleanup loses a flow, and `RetentionRuns` for which bounds on runs
  nothing is lost.
- **Reports** (`Reports`, `ReportLaws`, `ReportMeaning`, `LiveRanking`, `Ordering`): filters, totals, the filled
  series and the ranked tables, why they add up to what the flows say, and why the live ranking agrees with them.
- **Policy review and evaluation** (`Json`, `PolicyReview`, `ReviewMeaning`, `PolicyEngine`, `PolicyEvaluation`,
  `SelectorMeaning`, `PolicyMeaning`, `PolicyRecursion`, `PolicyLimits`, `Versions`): the duplicate-removal review
  proposes a policy, the engine gives a policy its meaning, and the proposal means the same. `Versions` is the order
  on version strings behind posture conditions.
- **Findings and notifications** (`Findings`, `FindingMeaning`, `FindingLaws`, `FindingRepeats`, `FindingHistory`,
  `Outbox`, `OutboxLaws`, `Notifications`): the reconciliation of findings with each evaluation, administrator
  actions, retention, and the delivery outbox.
- **Report schedules** (`Calendar`, `Zones`, `Schedules`, `ScheduleMeaning`, `ReportQueue`, `ScheduleHistory`): the
  search for the next execution in a time zone, the periods of reports, and the queue of runs.
- **Live flow pages** (`FlowSeries`, `FlowPages`): the gap-filled traffic series and paging by cursor.

`Common`, `Texts` and `Picking` hold small shared vocabulary.

## How to read it

A job that changes tables is a method of a class whose fields are the tables. The method is proved equal to a
function on the tables, and the promises are proved about that function and about sequences of such steps, in any
order. Rows that the database returns without an `ORDER BY` are visited in an arbitrary order. Instants and
durations are whole microseconds. A table is a map from its key, or a list of rows. Text that only people read is
left out or stands for itself.

The modules named after what things mean (`FlowMeaning`, `SelectorMeaning`, `FindingMeaning`, `ScheduleMeaning`,
`ReportMeaning`, `ReviewMeaning`, and parts of `OutboxLaws`, `LiveRanking`, `Versions` and `FlowPages`) say what each
operation does by the columns of rows, the dates of days and the entries of documents alone, without the functions by
which the operation is defined, and tie the two together for all inputs.

Hypotheses that the code does not enforce are written out as predicates:

- `FlowHistory.Admissible`: the clock does not run back, no flow starts in the future, once aggregation has started
  no flow waits for it until it is more than three hours old, and raw retention is at least three days, or negative.
  The setting `flow_retention_days` has no bounds in the program; a negative one puts the cutoff past all coverage,
  so that cleanup never deletes raw flows. That passes be close to one another is not needed separately: it follows,
  as far as there are flows. The bounds cannot be weakened: `RetentionRuns.BoundsAreSharp` shows that rows stay exact
  in every run whose flows wait at most so long and whose raw retention is so many days iff these are at most three
  hours, and at least three days or negative.
- `Zones.RegularFrom`: from some instant on a time zone has whole-minute offsets that change by at most two hours;
  what it did before, in local mean time or across the date line, does not matter. `Zones.TablesAreRegularFrom` shows
  it for every table whose later changes are at least a day apart. It is needed to say that no execution since then
  is missed; that none is enqueued twice, and that schedules move on, holds in any zone.
- `FindingLaws.OneSourceEach`: a fingerprint belongs to one source. The fingerprint function itself is abstract; where
  fingerprints name their source this holds at every evaluation of every history, so that each of them reconciles:
  `FindingHistory.EveryEvaluationReconciles`.
- `PolicyMeaning.SelectorsKeepTexts`: a selector that is itself a list or an object keeps its text when it is cleaned.
  Selectors that are scalars always do. For rules with one such source `PolicyLimits.MeansTheSameIff` shows that the
  hypothesis is exactly what is needed.
- `Versions.Sensible`: decimal digits have values below ten, and those of ASCII their own.

Where the code differs from what its texts suggest, the model follows the code:

- A delivery whose answer carries a `Retry-After` of digits that cannot be converted is counted twice for one
  attempt, so its counter can reach seven (`OutboxLaws.CounterPassesSixIff`, `OutboxLaws.CounterReachesSeven`); it is
  still attempted at most six times.
- A group may be a member of itself; its expansion then ends iff an earlier member that is not fully evaluated cuts it
  off, and otherwise exceeds the host language's depth of nested calls, which is a parameter:
  `PolicyRecursion.EndsIff`.
- Evaluating the same candidates again at the same instant is silent iff candidates of one fingerprint agree on
  severity and evidence (`FindingRepeats.SecondEvaluationIsSilentIff`).
- A report's series leaves out the bucket that holds the report's end, while its totals count it.
- Monthly reports cover thirty days, so they tile time only after months of thirty days; daily and weekly ones leave
  a gap or overlap when the clock is changed in between: `Schedules.PeriodsFollow`.
- In the policy engine a destination such as `tag:web:*` is one selector, since only digits and dashes after the last
  colon are a port: `PolicyEvaluation.StarIsNoPort`.
- One schedule whose search for the next execution fails rolls the whole cycle back; this cannot happen in regular
  zones: `ScheduleHistory.RegularZonesNeverStick`.

## Model

| member | source | states |
|---|---|---|
| Buckets.FloorIsGreatestBoundary | backend/app/reporting.py:106-114 | the bucket of an instant is the greatest boundary not after it, and the instant lies within one step of it |
| FlowStore.GroupBySlice | backend/app/reporting.py:212-246 | one pass over the flows gives a group for exactly the dimensions that some flow of the slice has, with exact bytes, packets and records |
| FlowStore.FlowTables.InsertGroups | backend/app/reporting.py:247-261 | inserting a slice adds to rows that exist and creates the others; for hourly rows none may exist, so the unique key is never violated |
| FlowStore.FlowTables.RebuildAggregateRange | backend/app/reporting.py:124-276 | the nested bucket and slice loops leave exactly one direct group-by of the raw flows in the floored range and everything else as it was; the count is the number of rows in the range |
| Aggregation.GroupedCell | backend/app/reporting.py:212-246 | a direct group-by has a row iff some flow of the bucket has the dimensions, and the row holds their exact sum |
| Aggregation.RebuiltCharacterized | backend/app/reporting.py:124-276 | a table is the rebuilt one iff it is unchanged outside range and granularity, exact for every aligned bucket inside, and has no other rows |
| Aggregation.RebuildIdempotent | backend/app/reporting.py:124-276 | rebuilding a range twice is rebuilding it once |
| Aggregation.RebuildTiles | backend/app/reporting.py:299-302 | rebuilding adjacent ranges one after the other equals one rebuild of their union |
| FlowStore.ChunkStep | backend/app/reporting.py:299-302 | adding up the row counts of adjacent chunks gives the row count of the whole range |
| Aggregation.HourlySumIsTally | backend/app/reporting.py:203-263 | exact hourly rows add up to the flows of their whole range |
| Aggregation.DailyRowIsSumOfHours | backend/app/reporting.py:203-263 | where both are exact, a daily row is the sum of its day's 24 hourly rows |
| Aggregation.RebuiltDailyIsSumOfHours | backend/app/reporting.py:203-263 | after both granularities of a range are rebuilt, every daily row equals the sum of its 24 hourly rows |
| FlowStore.FlowTables.UpdateGranularity | backend/app/reporting.py:287-308 | the chunk loop equals a single rebuild of the window, extends coverage, and returns the number of rows in the window |
| FlowStore.FlowTables.UpdateFlowAggregates | backend/app/reporting.py:279-316 | an update advances both granularities from the same earliest flow; without flows it does nothing; the counts are the rows of both windows afterwards |
| FlowStore.FlowTables.CleanupFlowData | backend/app/reporting.py:319-350 | the cleanup leaves what `Cleaned` says, which `FlowMeaning.CleanupKeepsIff` spells out: aggregates that outlive the retention of their granularity, and raw flows from their cutoff on, or all of them unless both granularities cover it |
| FlowMeaning.CleanupKeepsIff | backend/app/reporting.py:319-350 | a cleanup keeps a row, unchanged, iff its day ends after the instant to which daily retention reaches back, or its hour after that of hourly retention; and a raw flow iff it starts at or after the raw cutoff or one granularity has not succeeded or does not cover that cutoff |
| FlowMeaning.PassRebuilds | backend/app/reporting.py:279-316 | a pass rebuilds both granularities from the bucket of the earliest raw flow, but after a success not from further back than three hours or two days, to the end of the present bucket; coverage grows by this window and its success is noted |
| FlowHistory.WindowReaches | backend/app/reporting.py:292-297 | under the hypotheses a pass's window holds every waiting flow and starts after everything raw retention removed |
| FlowHistory.PassKeepsRowExact | backend/app/reporting.py:279-316 | a pass leaves every kept row equal to the group-by of every flow ever ingested |
| FlowHistory.RunInv | backend/app/reporting.py:279-350 | every step of every admissible run keeps the invariant: raw rows accounted for, coverage true, kept rows exact |
| FlowHistory.EveryFlowCountedOnce | backend/app/reporting.py:279-350 | after any run each kept row of either granularity holds exactly the flows ever aggregated with its bucket and dimensions, whether or not their raw rows exist |
| FlowMeaning.RowsHoldTheirFlows | backend/app/reporting.py:203-350 | after any admissible run, an aggregate row that outlived every cleanup's retention exists iff some flow ever aggregated belongs to it, column by column, and holds the bytes and packets that exactly these flows sent and received, and their number |
| FlowHistory.DaysAreSumsOfHours | backend/app/reporting.py:203-316 | after any admissible run a kept day's rows equal the sums of their 24 hourly rows, if day and hours were last rebuilt under the same services |
| FlowHistory.RemovedFlowsWereAggregated | backend/app/reporting.py:331-350 | a flow missing from the raw table was aggregated, and lies inside the coverage of both granularities |
| FlowHistory.NothingWaitsAfterUpdate | backend/app/reporting.py:279-316 | after an update every flow ever ingested has been aggregated |
| RetentionLimits.CleanupLosesIff | backend/app/reporting.py:331-350 | cleanup loses a flow that was never aggregated iff both granularities cover the cutoff and a waiting flow starts before it |
| RetentionLimits.RebuiltRowExactIff | backend/app/reporting.py:279-316 | without any bound on lateness or retention: a row inside a pass's window is exact afterwards iff no flow that cleanups have taken, aggregated or not, belongs to it |
| RetentionLimits.RawComesFromHistory | backend/app/reporting.py:319-350 | in every run whatever the raw table holds only flows that were ingested, each at most as often, so that the above applies to every reachable state |
| RetentionLimits.SkippedRowExactIff | backend/app/reporting.py:292-302 | without any such bound: an exact row outside the window stays exact iff no waiting flow belongs to it |
| RetentionRuns.StalledAggregationLosesFlow | backend/app/reporting.py:303-350 | for every lateness that exceeds raw retention, a run within it in which cleanup deletes a flow that was never aggregated |
| RetentionRuns.NothingWaitingIsLostIff | backend/app/reporting.py:303-350 | cleanup deletes no flow that was never aggregated, in every run with given bounds on lateness and retention, iff flows wait no longer than retention lasts or retention is negative |
| RetentionRuns.LateFlowIsNeverCounted | backend/app/reporting.py:287-308 | for every bound above three hours, a run within it whose last pass leaves a late flow out of its hourly row |
| RetentionRuns.ShortRetentionLosesDailyTotals | backend/app/reporting.py:287-350 | for a raw retention of no, one or two days, a run without late flows whose last rebuild drops a counted flow from a daily row |
| RetentionRuns.BoundsAreSharp | backend/app/reporting.py:279-350 | for every lateness and every integer retention: all kept rows are exact in every run within them iff lateness is at most three hours, and retention is at least three days or negative |
| Reports.InsertKey | backend/app/reporting.py:441-453 | a key goes to its place by bytes descending, then key |
| Reports.Rank | backend/app/reporting.py:441-453 | the best `limit` keys in order, with their names; nothing left out ranks before anything kept |
| Reports.FillSeries | backend/app/reporting.py:518-531 | one point for every bucket of the range, in order, zero where there is no value |
| Reports.SelectRows | backend/app/reporting.py:463-473 | each row of the selection once, and no other; which rows these are, filter by filter, is `ReportMeaning.SelectedIff` |
| ReportMeaning.SelectedIff | backend/app/reporting.py:413-438 | a row is selected iff it is of the granularity and range and its own columns pass each filter that is set: category, protocol, either port, resolution, and each side's term in its own device, address or label in any letter case |
| Reports.Accumulate | backend/app/reporting.py:474-517 | grand totals, per-bucket totals, and for each of seven tables an entry for exactly the keys some row has, with the sum of those rows |
| Reports.AggregateReportData | backend/app/reporting.py:456-547 | some list of exactly the selected rows determines the whole report: granularity, totals, series and all rankings |
| ReportLaws.ReportSumsFlows | backend/app/reporting.py:413-517 | filtering commutes with aggregation: any sum over the selected rows is the sum over the flows from the floor of the start to the ceiling of the end whose own dimensions match |
| ReportLaws.UntruncatedTablesSumToTotals | backend/app/reporting.py:484-517 | the pair table and every distribution that is not cut short add up to the report's totals |
| ReportLaws.SeriesLeavesOutLastBucket | backend/app/reporting.py:518-531 | the totals are the series plus the bucket at the floor of the end, which is empty when the end is aligned |
| ReportLaws.ReportAfterAnyRun | backend/app/reporting.py:279-547 | after any admissible run totals, every table entry and every point of the series of a report count the aggregated flows that match, raw rows gone or not |
| ReportMeaning.ReportMeans | backend/app/reporting.py:279-547 | after any admissible run, by the columns of flows: the totals are those of the aggregated flows of the range that pass the filters; each of the seven tables lists, under their names and in order, keys that such flows count for with their sums, leaving out only keys that every entry comes before when it is full; the series has a point for each hour or day until that of the end, with the sum of its flows; reports over more than 90 days are daily |
| ReportMeaning.RankingMeans | backend/app/reporting.py:441-453 | entries come with more bytes first and among equals by text, each under its name, and nothing left out has more bytes than anything listed |
| LiveRanking.DeviceSumsAgree | backend/app/flow_data.py:236-260 | the union of source and destination rows counts a flow once for each distinct endpoint, as the report does |
| LiveRanking.LiveSumsAre | backend/app/flow_data.py:227-276 | the live query groups exactly the devices that some flow touches, each with what the flows that it is an endpoint of sent and received |
| LiveRanking.RankingIsUnique | backend/app/reporting.py:441-453 | two rankings of the same sums list the same keys at the same places |
| LiveRanking.LiveRankingAgreesWithReport | backend/app/flow_data.py:227-282 | over the same flows the live ranking and the report's device table list the same devices with the same sums in the same order, as far as their limits go |
| Json.CleanIsDuplicateFree | backend/app/policy.py:234-264 | a cleaned value has no two equal entries in any array at any depth |
| Json.CleanIdempotent | backend/app/policy.py:234-264 | cleaning twice is cleaning once |
| Json.CleanChangesIff | backend/app/policy.py:234-264 | cleaning changes a value iff some array in it has equal entries |
| Json.KeepsFirstOccurrences | backend/app/policy.py:243-264 | the entries kept are the first occurrences in their order, each cleaned |
| Json.FirstIndex | backend/app/policy.py:249-262 | the index reported for a repeated entry is the least one whose entry cleans to the same value |
| Json.ChangedIffRecorded | backend/app/policy.py:234-264 | a value changes iff a duplicate is recorded |
| PolicyReview.DeduplicateValue | backend/app/policy.py:234-264 | the recursive pass returns the cleaned value and appends exactly the duplicates of it, each once |
| PolicyReview.DeduplicateItems | backend/app/policy.py:243-264 | the loop over an array keeps first occurrences, records the others with their least index, and drops findings inside removed entries |
| PolicyReview.DeduplicateFields | backend/app/policy.py:235-239 | the pass over an object, in any key order |
| PolicyReview.ReviewPolicy | backend/app/policy.py:267-300 | documented sections are cleaned, others copied; the review says changed iff the candidate differs iff a duplicate was recorded |
| PolicyReview.ReviewChangedIff | backend/app/policy.py:280-287 | the candidate differs from the policy iff a documented section has a duplicate |
| ReviewMeaning.Reported | backend/app/policy.py:234-264 | exactly the repeated entries of arrays that lie in no removed entry are reported: by the path of the array, the entry's own index, that of the first entry that cleans to the same value, and that value |
| ReviewMeaning.ReviewReports | backend/app/policy.py:267-300 | the review lists each report of a documented section once; its proposal has no equal entries in the arrays of those sections and leaves the others as they were |
| PolicyEngine.ExpandSelector | backend/app/policy.py:660-703 | the recursion with its early exits computes the expansion, to any depth that the host language allows; what that is for each kind of selector, `SelectorMeaning` says |
| SelectorMeaning.StarMeans | backend/app/policy.py:667-668 | `*` stands for all devices, in the order of the inventory |
| SelectorMeaning.TagMeans | backend/app/policy.py:682-684 | a tag stands for exactly the devices that carry it, in that order |
| SelectorMeaning.AutogroupMeans | backend/app/policy.py:685-693 | the members are all devices, the tagged ones those with any tag, and every other automatic group is an unsupported construct |
| SelectorMeaning.UndefinedGroupMeans | backend/app/policy.py:669-672 | a group that the policy does not define as a list is unresolved, and an error if the groups are no object |
| SelectorMeaning.GroupMeans | backend/app/policy.py:669-681 | a defined group stands for the devices of the texts of its members up to the first that is not fully evaluated, sorted and without repetition, with that member's status |
| SelectorMeaning.UserMeans | backend/app/policy.py:694-699 | a name stands for the devices of all users with this login or display name, if there are such devices |
| SelectorMeaning.HostMeans | backend/app/policy.py:700-703 | otherwise for the devices that have the address of the host of that name, if one is given, and otherwise it is unresolved; hosts that are no object are an error |
| PolicyEngine.GroupExpansion | backend/app/policy.py:669-680 | a group expands to the sorted union, without repetition, of its members up to and including the first that is not fully evaluated, and has that member's status |
| PolicyEngine.ExpandsToKnownDevices | backend/app/policy.py:660-703 | an expansion names only devices of the inventory |
| PolicyRecursion.Deeper | backend/app/policy.py:669-680 | an expansion that ends within some depth of nested calls is the same within any greater one |
| PolicyRecursion.EndsIff | backend/app/policy.py:669-680 | the expansion of a selector ends, within some depth, iff no chain of the calls it makes gets to a selector twice; one call more than there are groups is then deep enough |
| PolicyRecursion.CandidateEndsToo | backend/app/policy.py:267-300 | the same expansions end under the proposed policy |
| PolicyEvaluation.EvaluatePolicy | backend/app/policy.py:706-749 | the nested loops list the relationships of all grants and then all acls, in order, or end in an error exactly when a section, rule, field or expansion that is reached raises one |
| SelectorMeaning.RelationshipsAre | backend/app/policy.py:706-749 | a relationship is listed iff some source and some destination of the rule of its number, grants before acls, stand for its two devices; its ports, protocol and posture are the rule's or the defaults, its status the first that is not fully evaluated |
| SelectorMeaning.ErrorIff | backend/app/policy.py:706-749 | the evaluation ends in an error iff a section holds something else than a list of rules, or a rule is no object, names its sources or, having any, its destinations by something that cannot be iterated over, or has one of them whose expansion ends in an error |
| PolicyEvaluation.SplitPortIff | backend/app/policy.py:719-722 | a destination is split at its last colon iff something stands before it and what follows is digits once dashes are taken out; otherwise it is one selector for all ports |
| PolicyEvaluation.StarIsNoPort | backend/app/policy.py:719-722 | a destination that ends in `:*` is one selector, star included |
| PolicyEvaluation.StarsAreUnresolved | backend/app/policy.py:660-703 | so the destination `*:*` is unresolved, unless a user or a host is called so |
| PolicyEvaluation.PairDevices | backend/app/policy.py:725-748 | the two inner loops list every pair of devices with the first status that is not fully evaluated |
| PolicyMeaning.JoinedClean | backend/app/policy.py:673-680 | dropping repeated members changes neither the status nor the ids of a group, although evaluation stops early |
| PolicyMeaning.ExpandSame | backend/app/policy.py:660-703 | to any depth, every selector expands to the same devices in the same order and status under the proposed policy |
| PolicyMeaning.PolicyRowsMeaning | backend/app/policy.py:706-749 | a relationship is listed, up to rule number and repeated entries, iff some rule grants it |
| PolicyMeaning.GrantsClean | backend/app/policy.py:706-749 | a cleaned rule grants the same under the proposed policy as the rule did before |
| PolicyMeaning.RaisesClean | backend/app/policy.py:706-749 | a cleaned rule ends in an error under the proposed policy iff the rule did before |
| PolicyMeaning.CandidateMeansTheSame | backend/app/policy.py:267-300 | for every policy, groups that contain themselves included, and every inventory: the proposed policy is evaluated without an error iff the original is, and then allows exactly its relationships |
| PolicyLimits.MeansTheSameIff | backend/app/policy.py:234-264 | a rule whose source is any list or object means the same under every inventory once it is cleaned iff cleaning keeps the host language's text of that source |
| PolicyLimits.ListsAsSelectorsCanLoseGrants | backend/app/policy.py:234-264 | an instance: a list with a repeated entry inside a list of sources grants a relationship which the proposed replacement does not |
| Versions.RunsMakeUp | backend/app/policy.py:43-47 | the runs of a version make up the folded version |
| Versions.RunsAlternate | backend/app/policy.py:43-47 | the runs are maximal: each is uniform and not empty, and digits alternate with other characters |
| Versions.RunsOfConcat | backend/app/policy.py:43-47 | splitting what alternating runs make up gives the runs back |
| Versions.DecimalOfValue | backend/app/policy.py:46 | the number of a run of digits, written out, is the run without leading zeros |
| Versions.PartsAre | backend/app/policy.py:43-47 | the parts of a version are those of its maximal runs in order: the number that a run of digits writes, or the run itself |
| Versions.PartsLessIff | backend/app/policy.py:120-139 | one list of parts comes before another iff it is its beginning, or at the first difference has the smaller number, a number against a text, or the earlier text |
| Versions.PartsLessTransitive | backend/app/policy.py:120-139 | the tagged lexicographic order is transitive |
| Versions.PartsLessTotal | backend/app/policy.py:120-139 | two lists of parts are equal or one comes first |
| Versions.SamePartsIff | backend/app/policy.py:43-47 | two versions have equal parts iff they agree up to letter case, leading zeros and the script of their digits |
| Versions.UnsupportedIff | backend/app/policy.py:121-148 | a comparison is unsupported iff in one of the folded versions some longest stretch without a decimal digit consists of other digits only, or some longest stretch of decimal digits has more than 4300 |
| Versions.OperatorsMean | backend/app/policy.py:120-139 | which of two supported versions each of the four operators puts first, by the first parts that differ |
| Versions.OperatorsAgree | backend/app/policy.py:120-139 | on supported versions the four ordering operators are consistent: each negates its opposite, exactly one of before, after and same holds, and before is transitive |
| FindingHistory.OneRowKeepsTraces | backend/app/findings.py:652-668 | logging a transition that starts at the finding's status, and setting that status, keeps every finding's log an unbroken chain |
| Findings.FindingTables.QueueEvent | backend/app/findings.py:671-717 | exactly the enabled endpoints whose filters accept the event get one notification |
| FindingMeaning.QueuedNotifies | backend/app/findings.py:671-717 | an event queues one notification for each endpoint that is enabled and wants resolved findings if it is one, the source, and this severity or a lesser one, in the order of the endpoints |
| Findings.FindingTables.ObserveCandidate | backend/app/findings.py:725-804 | one candidate creates or updates its finding, as `FindingMeaning.NewFinding`, `StatusAfter`, `RowAfter` and `EventAfter` spell out; it says whether the finding was new, and whether it was resolved before |
| FindingMeaning.NewFinding | backend/app/findings.py:732-770 | a new fingerprint opens a finding with the candidate's columns, logs its creation, and writes down and queues that it was opened |
| FindingMeaning.StatusAfter | backend/app/findings.py:771-783 | an open finding stays open; an acknowledged one opens iff the severity has risen; a suppressed one iff its suppression is over; a resolved one always; each change is logged with its reason, and nothing else is |
| FindingMeaning.RowAfter | backend/app/findings.py:774-804 | severity, texts and evidence become the candidate's, the times are those of the evaluation; only a recurrence clears the resolution and is counted |
| FindingMeaning.EventAfter | backend/app/findings.py:771-804 | a rise of severity, or else a recurrence, is written down and queued; changed evidence alone is written down only; otherwise neither |
| Findings.FindingTables.SweepFinding | backend/app/findings.py:806-816 | one unresolved finding is marked stale, kept, or resolved with its transition and notifications |
| FindingMeaning.SweepLeaves | backend/app/findings.py:806-816 | a finding of an incomplete source is marked stale; one that a candidate of its source names is marked as evaluated; any other unresolved one is resolved; a resolved one stays as it is |
| FindingMeaning.SweepWrites | backend/app/findings.py:806-816 | what resolving a finding in the sweep logs and queues, and that nothing else is written |
| Findings.FindingTables.EvaluateFindings | backend/app/findings.py:720-819 | the whole evaluation: candidates in turn, then the unresolved findings in any order; the counts returned |
| FindingLaws.ObservedUnresolved | backend/app/findings.py:725-804 | after the candidates exactly what was unresolved or has a candidate is unresolved |
| FindingLaws.SweptUnresolved | backend/app/findings.py:806-816 | the sweep resolves exactly the findings that a complete source no longer reports |
| FindingLaws.EvaluationReconciles | backend/app/findings.py:720-819 | a complete source's unresolved findings are exactly its candidates; nothing of an incomplete source is resolved and its findings are stale; unresolved after = before + created + reopened − resolved |
| FindingHistory.EveryEvaluationReconciles | backend/app/findings.py:720-819 | in every history whose fingerprints name their source, every evaluation leaves a complete source's unresolved findings exactly its candidates and those of the others stale |
| FindingRepeats.SecondEvaluationIsSilentIff | backend/app/findings.py:720-819 | a second evaluation at the same instant changes nothing at all iff candidates of one fingerprint agree on severity and evidence, and writes an occurrence otherwise |
| FindingRepeats.SecondEvaluationReturnsZeros | backend/app/findings.py:720-819 | whatever the candidates, a second evaluation at the same instant creates, reopens and resolves nothing |
| FindingHistory.RepeatedCandidatesStir | backend/app/findings.py:725-804 | an input on which the second evaluation is not silent: two candidates of one fingerprint and different severity |
| Findings.FindingTables.Act | backend/app/api.py:4152-4267 | what acknowledge, reopen, suppress, unsuppress and assign do, and when each is refused |
| FindingMeaning.RefusedIff | backend/app/api.py:4152-4267 | which requests are refused, and with what; a refused one changes nothing |
| FindingMeaning.RequestMeans | backend/app/api.py:4152-4267 | what an accepted request makes of the row, column by column, and what it logs |
| FindingMeaning.RequestsUndo | backend/app/api.py:4152-4267 | a finding that is open and has no suppression's end is given back by suppressing it and lifting that, and by acknowledging and opening it, but for when it was acknowledged |
| FindingHistory.RetiredMeans | backend/app/findings.py:1006-1018 | retention keeps exactly the findings not resolved since before the cutoff, unchanged, with their logs and occurrences; nothing of the others is left and no notification names one |
| FindingHistory.ActedTraced | backend/app/api.py:4159-4267 | an administrator's request keeps every finding's log an unbroken chain |
| FindingHistory.EveryHistoryIsTraced | backend/app/findings.py:652-819 | in every reachable state each log is an unbroken chain from creation to the current status, the resolution time is set iff resolved, and the occurrence count is one more than the recurrences |
| FindingHistory.ChainedMeans | backend/app/findings.py:652-668 | a chain starts with the creation as open, each entry starts where the one before ended, and resolved is left only to open or by an assignment that stays |
| Outbox.TableDelay | backend/app/findings.py:50 | the index into the retry table is in range for every attempt count |
| Outbox.SelectDue | backend/app/findings.py:908-918 | at most a hundred due deliveries, the longest overdue first, nothing earlier left out |
| OutboxLaws.BatchIs | backend/app/findings.py:908-918 | a batch holds pending or retrying deliveries whose next attempt has come, by the time of that attempt; one that waits is left only if a hundred that are due no later are taken |
| Outbox.OutboxTables.Deliver | backend/app/findings.py:923-991 | one delivery: cancelled, delivered, failed or scheduled again, and the endpoint disabled when it is gone |
| OutboxLaws.AttemptDecides | backend/app/findings.py:947-990 | success delivers; 429 and server errors are tried again after the seconds of a numeric Retry-After, at most six hours, or after 30 seconds, 2 minutes, 10 minutes, an hour and then six hours, until six are counted; so are failures to ask; every other answer, 404 and 410 among them, fails |
| OutboxLaws.DeliveryDecides | backend/app/findings.py:923-991 | a delivery to a missing or disabled endpoint is cancelled without an attempt; an attempt is made and seen otherwise, and an endpoint that answers 410, and no other, is disabled |
| Outbox.OutboxTables.DeliverNotifications | backend/app/findings.py:904-992 | a cycle processes a due batch one by one; the numbers of delivered and failed are those of the batch |
| OutboxLaws.AttemptMeans | backend/app/findings.py:947-990 | an attempt ends a delivery or schedules it between now and six hours ahead, and counts once, or twice when Retry-After cannot be converted |
| OutboxLaws.CounterPassesSixIff | backend/app/findings.py:947-990 | an attempt takes the counter past six iff it is the sixth and is answered by an unconvertible Retry-After under a status that would be tried again |
| OutboxLaws.CounterReachesSeven | backend/app/findings.py:904-992 | a history in which the counter reaches seven |
| OutboxLaws.AttemptsAreBounded | backend/app/findings.py:904-992 | over any history a delivery is attempted at most six times, blocked attempts included, and a live one has counted at most five |
| OutboxLaws.EndedStaysEnded | backend/app/findings.py:904-992 | delivered, failed and cancelled deliveries never change again |
| OutboxLaws.GoneEndpointsAreLeftAlone | backend/app/findings.py:959-963 | after an endpoint answers 410 nothing is tried on it, let alone posted, until it is enabled again |
| Notifications.EventsAreTriedAtMostSixTimes | backend/app/findings.py:671-1018 | however evaluations, requests, retention, delivery cycles and changes of endpoints follow one another, every queued event has one delivery, to the endpoint it was queued for, and is tried at most six times |
| Calendar.MonthLater | backend/app/reporting.py:368-369 | a day of the month up to 28 returns after exactly its month's length, and not before |
| Calendar.DayComesUp | backend/app/reporting.py:364-371 | every number from 1 to 31 comes up as a day of the month within 93 days |
| Calendar.OrdinalOfDay | backend/app/reporting.py:364-369 | day numbers count the dates of the Gregorian calendar: the day number of a date is the number of days in earlier years and months, by the leap rule |
| Calendar.DayOfOrdinal | backend/app/reporting.py:364-369 | every date has a day number, which leads back to it |
| Calendar.WeekdayOfDate | backend/app/reporting.py:366-367 | the weekday of a day is that of its date, the first of January of year one being a Monday |
| Zones.TablesAreRegular | backend/app/reporting.py:353-357 | every good table of offset changes gives a regular wall clock: shown readings round trip, skips are at most two hours, conversion picks the first instant |
| Zones.TablesAreRegularFrom | backend/app/reporting.py:353-357 | a table whose later part is good gives a zone that is regular from then on, whatever the earlier part is |
| Schedules.CandidateOn | backend/app/reporting.py:372-379 | the shift loop computes the instant of execution on a day |
| Schedules.NextScheduleTime | backend/app/reporting.py:360-383 | the search loop returns what `NextTime` does, in any zone and for any timing; what that is, by dates and clocks, is `ScheduleMeaning.NextAnywhere` and `ScheduleMeaning.NextMeans` |
| ScheduleMeaning.NextAnywhere | backend/app/reporting.py:360-383 | in any zone whatever, of the 401 dates from that of the wall clock on the search takes the first that is of the frequency's weekday or day of the month and has a later execution: at its local time, moved on by the least number of minutes, at most 121, after which hour and minute survive the conversion |
| ScheduleMeaning.NextMeans | backend/app/reporting.py:360-383 | in a regular zone it finds the first instant after `after` at which the wall clock first comes to the local time on any date of that weekday, or day of the month, and fails only if there is no such time or day |
| ScheduleMeaning.NextInFixedZone | backend/app/reporting.py:360-383 | with a constant offset the clock then shows that local time on the first such date still to come |
| Schedules.SettledIsFirst | backend/app/reporting.py:374-378 | shifting stops at the first minute that the zone's clock shows |
| Schedules.RunsWhenTheClockArrives | backend/app/reporting.py:372-379 | a report is executed at the first instant at which the wall clock has come to the local time of the day, also when that time is skipped or shown twice |
| Schedules.SkippedTimeRunsAtChange | backend/app/reporting.py:373-378 | a local time that is skipped when clocks go forward is executed at the moment of the change |
| Schedules.ExecutionsInOrder | backend/app/reporting.py:364-382 | executions of different days come in the order of the days, at least a minute apart |
| Schedules.NextIsLater | backend/app/reporting.py:380-382 | in any zone whatever, what is found is an execution later than `after` |
| Schedules.SearchSucceedsIff | backend/app/reporting.py:364-383 | the 401-day search fails exactly for a time of day that does not exist, a weekday outside 0..6 or a day of the month outside 1..31 |
| Schedules.NextIsLeast | backend/app/reporting.py:360-383 | what is found is the least execution after `after` over all days |
| Schedules.SearchSucceedsFrom | backend/app/reporting.py:364-383 | in a zone that is regular from a few days before some instant on, the search from that instant on never fails for a day and time that exist |
| Schedules.NextIsLeastFrom | backend/app/reporting.py:360-383 | and finds the least execution after `after` over all days |
| Schedules.NextAllowedDay | backend/app/reporting.py:1220 | searching from a second after an execution finds the next allowed day, none in between |
| Schedules.ShiftMeans | backend/app/reporting.py:373-378 | the shift of an execution is the time to the first minute that the zone shows, zero iff the local time is shown |
| Schedules.PeriodsFollow | backend/app/reporting.py:386-392 | how far the next period begins after the end of this one, exactly, for any regular zone, skipped local times included |
| Schedules.PeriodsTile | backend/app/reporting.py:386-392 | with a constant offset consecutive daily and weekly periods tile time, and monthly ones iff the month has 30 days |
| ReportQueue.ScheduleTables.PutSchedule | backend/app/api.py:1706-1764 | creating or editing a schedule in any zone, exactly when it is accepted, and the next execution it sets |
| ScheduleMeaning.AcceptedIff | backend/app/api.py:1706-1764 | which requests are accepted: the time exists, weekdays are 0 to 6 and days 1 to 28, the one that the frequency needs is given, the view is a readable one of the flow page, and an enabled schedule has a next execution |
| ScheduleMeaning.EditMeans | backend/app/api.py:1706-1764 | the row that an accepted request leaves, column by column |
| ReportQueue.ScheduleTables.EnqueueScheduleRun | backend/app/reporting.py:1186-1221 | a schedule without a usable view is disabled, an existing run is returned and nothing changes, otherwise a run is enqueued and the schedule advances, unless the search fails |
| ReportQueue.ScheduleTables.RunDueSchedules | backend/app/reporting.py:1238-1247 | every due schedule is processed once, in any order; after a failed search the tables are as before |
| ScheduleHistory.DueRunIsNew | backend/app/reporting.py:1199-1202 | the run of a due schedule never exists already, so the early return is never taken |
| ScheduleHistory.LedgerFollowsProgram | backend/app/reporting.py:1238-1247 | what an edit or a cycle makes of a ledger's tables is what the jobs make of them |
| ScheduleHistory.CycleMeans | backend/app/reporting.py:1238-1247 | a cycle enqueues exactly one run for every due schedule with a usable view, advances those, disables the other due ones and leaves the rest; it fails iff the search fails for one of them |
| ScheduleMeaning.CycleRuns | backend/app/reporting.py:1186-1247 | by columns: a cycle enqueues exactly the runs of the enabled schedules whose next execution has come and whose view can be used, for the day, week or thirty days that end then, moves these on, disables the other due ones, and leaves the rest; it is rolled back iff one of these searches fails |
| ScheduleHistory.InvHolds | backend/app/reporting.py:1186-1247 | every sequence of edits, deletions, cycles and clean-ups under a clock that does not run back keeps the invariant |
| ScheduleHistory.NextRunIsLater | backend/app/reporting.py:1220 | an enabled schedule's next execution is later than the end of every period enqueued for it |
| ScheduleHistory.CyclesMoveOn | backend/app/reporting.py:1238-1247 | in every history, in any zones, a cycle that is not rolled back strictly advances each due schedule with a usable view |
| ScheduleHistory.RegularZonesNeverStick | backend/app/reporting.py:1220 | no search for the next execution fails for a stored schedule whose zone has been regular since its last edit |
| ScheduleHistory.EveryExecutionEnqueuedOnce | backend/app/reporting.py:1186-1247 | in a zone that has been regular since the last edit, every execution since then and before the next one has been enqueued exactly once |
| ScheduleHistory.NothingMissed | backend/app/reporting.py:1238-1247 | once an enabled schedule is no longer due, every execution since its last edit up to the clock has been enqueued exactly once, if its zone has been regular since |
| ScheduleHistory.OnlyExecutionsEnqueued | backend/app/reporting.py:1198-1221 | every period enqueued since the last edit ends at an execution and has the frequency's length |
| FlowSeries.AlignedIsFloor | backend/app/flow_data.py:140-142 | an instant lies between the first instant of its aligned bucket and that of the next one; from 1970 on these are the buckets' starts |
| FlowSeries.FillSeries | backend/app/flow_data.py:145-170 | one point for every bucket from the cutoff's to the current one, with the last row's value or zero |
| FlowSeries.PointCount | backend/app/flow_data.py:136-170 | the series has hours·3600/step + 1 points, 13, 25, 29 or 31; one less exactly when the window crosses 1970 and now is in the last second of a bucket |
| FlowSeries.SeriesConservesRows | backend/app/flow_data.py:145-170 | rows in distinct buckets between cutoff and now are all in the series: its sum is theirs |
| FlowSeries.BucketFlows | backend/app/flow_data.py:204-223 | the in-memory bucketing gives distinct aligned buckets, each holding exactly its matching flows |
| FlowSeries.FlowSummarySeries | backend/app/flow_data.py:173-224 | bucketing and filling together give every bucket of the window the sum of its matching flows |
| FlowSeries.SeriesCountsFlows | backend/app/flow_data.py:173-224 | the series adds up to the matching flows from the cutoff to the end of the current bucket, and each point to those of its own interval |
| FlowPages.Selected | backend/app/flow_data.py:285-291 | the rows past the cursor that match, in strictly descending order of time and id |
| FlowPages.PageMeans | backend/app/api.py:2954-2972 | a page holds the first rows past the cursor; the next cursor is its last row, and is missing iff nothing that matches lies past the page |
| FlowPages.NewestFirst | backend/app/api.py:2954-2972 | on every page the newer rows come first, at equal times those of larger id; all are older than the cursor, and all that is wanted and older but not on the page is older than the page |
| FlowPages.CursorsDecrease | backend/app/api.py:2967-2970 | the cursor moves strictly down the list with every page |
| FlowPages.NoRowTwice | backend/app/api.py:2930-2972 | whatever happens to the table between requests, rows come in strictly descending order across pages, so none comes twice |
| FlowPages.FinishedWalkReturnsOnce | backend/app/api.py:2930-2972 | a finished walk returns every row that was present and matching at every request exactly once |

## Left out

- FlowHistory.EveryFlowCountedOnce: holds for admissible runs only, which `RetentionRuns.BoundsAreSharp` shows to be as weak as bounds on lateness and retention can be; it says nothing about rows that aggregate retention has dropped.
- PolicyMeaning.CandidateMeansTheSame: needs selectors that keep their texts, which is more than some policies need, as when a selector whose text changes names nobody or stands beside `*`; ids and expansion paths are not compared.
- PolicyEvaluation.SplitPortIff: which characters count as digits of a port is a parameter; a colon is none.
- Zones.TablesAreRegular: tables with offsets or changes in seconds, changes of more than two hours, or changes less than a day apart are covered only before the instant of `Zones.TablesAreRegularFrom`.
- Schedules.NextIsLeast: needs a regular zone, where `Schedules.NextIsLater` holds in any; the calendar's limit to the years 1 to 9999 is not modelled.
- ScheduleHistory.EveryExecutionEnqueuedOnce: needs a zone that is regular from five days before the last edit on; an edit starts a new account, and executions that were due before the edit and not yet enqueued are skipped by the program.
- Versions.SamePartsIff: what the host language folds and counts as a digit is a parameter; its limit on the length of a number is taken to be 4300 digits.
- ReportLaws.ReportAfterAnyRun: service addresses are those seen by the last pass that rebuilt a bucket.
- Key order of JSON objects, number formatting, canonical text and hashes: objects are unordered maps and equality stands for equal canonical text; an object used as a list of selectors is visited in sorted order of its keys.
- Updates that fail halfway: the transaction is rolled back, so a failed job is no step; `last_error`, `updated_at` and similar columns are not modelled.
- Advisory locks and concurrent instances: each job is one atomic step.
- How candidates of findings are collected, fingerprints, and the texts of findings; the `seen` sets are taken per source as the code builds them.
- Generation, rendering, retry and recovery of report runs; manual and retried runs, whose keys can never equal a scheduled one.
- HTTP, OAuth, encryption, signatures, URL validation, cursor encoding and filter labels: a cursor is its pair of time and id, and filters on the live page are an arbitrary predicate.
- Posture conditions other than the ordering operators on versions, and the heuristics of the security review.
- Ingestion, migrations, metrics, the frontend, governance, saved views and demo data.
- LiveRanking.LiveRankingAgreesWithReport: the database is taken to order device ids by their code points, and devices to have names.
- Notifications.EventsAreTriedAtMostSixTimes: endpoints are not deleted; the removal of a row while it is being delivered is not modelled.
