# Azure automation reporting scripts, modelled in Dafny

The repository is a set of one-shot reporting scripts over Azure and
Kubernetes. This project models the deterministic parts of each one and
proves what they compute:

- **Event Hubs anomaly reports** (`anomalyDetection-16.py`, `anomaliDetection-19-test.py`):
  - building the metrics filter;
  - reading the namespace URI;
  - the `or 0` sample values;
  - spike and drop classification against the forecast band, over the last 24 or 48 hours;
  - the rolling-window choice of one representative per two-hour window (`select_anomalies_by_rolling_window`);
  - assembly of the combined sheet, with its placeholder rows;
  - the sort by event hub, metric and timestamp.
- **AKS cluster surveys** (`aksAutomation/AksAutomation.py`, `AksAutomation.py`):
  - the resource group read from a cluster id;
  - CPU quantities (`"2"`, `"500m"`, `"123456789n"`) converted to milliCPU;
  - the utilisation guard;
  - the node-status and pod-phase counters, per cluster.
- **Fired alerts** (`getAlertscript.py`):
  - `parse_azure_time`'s string normalisation (`Z`, and fractions longer than six digits);
  - the default one-hour window;
  - the alert filter;
  - the header plus one row per kept alert, at a fixed IST offset;
  - the row count.
- **Redis metrics** (`redis-script-5.py`):
  - the `bytes_to_human_readable` unit ladder;
  - the maximum that ignores missing values, and the first timestamp that reaches it;
  - the "N/A", "Error" and "JSON Error" rows, one row per instance and metric.
- **Restore points** (`restorepointScript.py`):
  - the disk list (OS disk first, then named data disks);
  - joining it into one cell;
  - the "N/A" field defaults;
  - one row per query that returned a restore point.

The modules follow the scripts:
- `anomaly.dfy` (AnomalySelection) and `report.dfy` (AnomalyReport) for the anomaly scripts;
- `eventhub.dfy` (EventHubs) for what those two scripts share;
- `kube.dfy` (KubeStatus), `aks_cpu.dfy` (AksCpu) and `aks_status.dfy` (AksStatus) for the AKS scripts;
- `azure_time.dfy` (AzureTime) and `alerts.dfy` (FiredAlerts) for the alert script;
- `redis.dfy` (RedisMetrics);
- `restore.dfy` (RestorePoints).

The shared modules model Python itself:
- `wrappers.dfy` (Wrappers): Option and Result, with the Python exception raised as the error.
- `strings.dfy` (Strings): `str.split`, `str.join`, negative indexing, `int()`, `str.replace` and string order.
- `sorting.dfy` (Sorting): an insertion sort under a total preorder, standing for `sort_values`.
- `azure_ids.dfy` (AzureIds): `id.split("/")[4]`.
- `aborting.dfy` (Aborting): a loop whose body may raise an exception that nobody catches, so the first failing element ends the run.

Loops that update variables are methods with loop invariants:
- the rolling-window `while`;
- the report assembly;
- the counter loops;
- the alert loop;
- the unit ladder;
- the metric and restore-point collection loops;
- the disk list.

Each method is proved equal to a specification function. The properties are proved about that function.

Conventions:
- Anomaly timestamps are whole minutes; alert times are seconds since the epoch.
- Metric values are exact reals.
- Live clocks and every SDK or CLI reply are parameters:
  - `now` and `end`;
  - `fetch` for the `az` query;
  - `parseTime` for `parse_azure_time`, which is `ParseAzureTime` over the run's `datetime.fromisoformat`.

## Model

| member | source | states |
|---|---|---|
| AnomalySelection.WhereCounts | anomalyDetection-16.py:113-114 | A boolean mask keeps exactly the rows that satisfy it, each as often as it occurs, and no other row |
| AnomalySelection.AnomalyIsSpikeOrDrop | anomaliDetection-19-test.py:147-149 | A row is a spike iff y > yhat_upper and a drop iff y < yhat_lower (strict, so values on the band are normal); its anomaly flag is set iff it is a spike or a drop |
| AnomalySelection.RecentRowsWindow | anomalyDetection-16.py:92-109 | Only rows with ds >= end - hours are kept for classification (24 h here, 48 h in anomaliDetection-19-test.py:103,144) |
| AnomalySelection.BestIndexIsFirstExtreme | anomaliDetection-19-test.py:117-122 | idxmax/idxmin finds a row iff the window holds one; that row lies in the window, no row of the window beats it, and no earlier row of the window has the same y (the first one wins ties) |
| AnomalySelection.NotLaterIsTotalPreorder | anomaliDetection-19-test.py:108 | Ordering by ds is a total preorder, so sorting by it is well defined |
| AnomalySelection.ByTimeSortsRows | anomaliDetection-19-test.py:108 | sort_values('ds') orders the rows by time and neither adds nor drops any |
| AnomalySelection.ByTimeEnds | anomaliDetection-19-test.py:110-111 | The first and last sorted rows are input rows, and their ds are the minimum and the maximum |
| AnomalySelection.SweepWindows | anomaliDetection-19-test.py:114-123 | The while loop appends, for each window [current, current+window) from min(ds) in 5-minute steps while current+window <= max(ds), the first extreme row of that window if it is non-empty |
| AnomalySelection.SelectByRollingWindow | anomaliDetection-19-test.py:105-127 | The whole function: empty input gives empty output; otherwise it sorts, then sweeps with a window of window_hours*60 minutes |
| AnomalySelection.RepresentativesAreAnomalies | anomaliDetection-19-test.py:116-122 | Every selected row is one of the anomalies passed in |
| AnomalySelection.EmptyIffShortSpan | anomaliDetection-19-test.py:106-115 | If max(ds) - min(ds) < window, no window is evaluated and the result is empty; for a positive window, the result is empty iff the span is that short |
| AnomalySelection.WindowCountBounds | anomaliDetection-19-test.py:113-123 | The loop evaluates n windows, starting at min + k*5 minutes: the last of them ends by max(ds) and the next would not; none at all when the first window already ends after max(ds) |
| AnomalySelection.SweepAtMostOnePerWindow | anomaliDetection-19-test.py:115-123 | Each evaluated window appends at most one row |
| AnomalySelection.RepresentativesCount | anomaliDetection-19-test.py:105-127 | The result has at most as many rows as windows evaluated |
| AnomalySelection.SweepSound | anomaliDetection-19-test.py:113-123 | Every choice comes from an evaluated window starting at current + m*step and ending by the latest time; the window starts strictly increase; the kept row is that window's first extreme row |
| AnomalySelection.SweepChoicesSound | anomaliDetection-19-test.py:113-123 | The first half of SweepSound, proved by induction on the loop |
| AnomalySelection.SweepStartsIncrease | anomaliDetection-19-test.py:113-123 | The second half of SweepSound: the windows of successive choices start strictly later |
| AnomalySelection.SweepComplete | anomaliDetection-19-test.py:115-122 | Every evaluated window that contains a row contributes a choice |
| AnomalySelection.RepresentativesInTimeOrder | anomaliDetection-19-test.py:108-123 | Selected rows come out in sweep order, so their timestamps never decrease |
| AnomalySelection.SweepInTimeOrder | anomaliDetection-19-test.py:114-123 | On rows sorted by time, the rows a sweep keeps are sorted by time |
| AnomalySelection.SweepPairInTimeOrder | anomaliDetection-19-test.py:114-123 | Any two choices of a sweep over sorted rows keep rows in time order |
| AnomalySelection.ChoicesInTimeOrder | anomaliDetection-19-test.py:116-122 | A window that starts earlier keeps a row no later than a window that starts after it |
| AnomalySelection.RepresentativesAreWindowExtremes | anomaliDetection-19-test.py:108-122 | Each selected row lies in a window that starts a whole number of 5-minute steps after min(ds) and ends by max(ds); no anomaly in that window is more extreme; no earlier row of the window has the same y |
| AnomalySelection.ChoiceOfSelection | anomaliDetection-19-test.py:108-123 | Every choice of the selection is a choice of the sweep over the sorted anomalies, from their minimum to their maximum time |
| AnomalySelection.EveryOccupiedWindowSelects | anomaliDetection-19-test.py:114-122 | Every evaluated window that holds an anomaly has a representative |
| AnomalySelection.OverlappingWindowsRepeatRows | anomaliDetection-19-test.py:117-123 | Nothing is de-duplicated: anomalies at minutes 0, 30 and 70 with a one-hour window give the row at minute 30 three times |
| AnomalyReport.SamplesKeepTotals | anomalyDetection-16.py:64-69 | Each data point gives one sample with its own timestamp; the value is the total, or 0 exactly when the total is missing (or zero) |
| AnomalyReport.TaggedRow | anomalyDetection-16.py:117-119 | A tagged row is one of the found rows, with the given type, event hub and metric, and no note |
| AnomalyReport.DetectedAreRecentAnomalies | anomalyDetection-16.py:109-114 | The spikes (drops) found are exactly the recent rows above (below) the band |
| AnomalyReport.AppendFound | anomalyDetection-16.py:117-148 | Appends the spikes, or the "No spikes found" placeholder, then the drops, or the "No drops found" placeholder |
| AnomalyReport.AppendChosen | anomaliDetection-19-test.py:185-195 | Appends the spike representatives (largest y), then the drop representatives (smallest y), each only when non-empty |
| AnomalyReport.AppendBlock | anomaliDetection-19-test.py:131-195 | Appends one frame's contribution: nothing for an empty frame; with representatives only in anomaliDetection-19-test.py |
| AnomalyReport.AssembleReport | anomalyDetection-16.py:95-148 | The loop over the frames builds all_anomalies as the blocks of every frame, in frame order |
| AnomalyReport.BlockRowsAreSound | anomaliDetection-19-test.py:144-195 | Every row a frame adds carries that frame's hub and metric; a measured row is a recent row of the frame on the right side of the band, with no note; any other row is the placeholder of its type |
| AnomalyReport.FoundRowsAreSound | anomalyDetection-16.py:117-148 | BlockRowsAreSound for the spike and drop rows and the placeholders |
| AnomalyReport.RepresentativeRowsAreSound | anomaliDetection-19-test.py:185-195 | BlockRowsAreSound for the representative rows |
| AnomalyReport.BlockHasEveryRecentAnomaly | anomalyDetection-16.py:113-135 | Every recent spike and every recent drop of a frame is on the sheet, tagged with its type, hub and metric |
| AnomalyReport.PlaceholderCountInPart | anomalyDetection-16.py:117-132 | One type contributes its placeholder exactly once when nothing of that type was found, and never otherwise |
| AnomalyReport.TaggedHasNoPlaceholder | anomalyDetection-16.py:117-119 | Tagged anomaly rows are never placeholder rows |
| AnomalyReport.PlaceholderExactlyWhenNoneFound | anomalyDetection-16.py:117-148 | A frame with data gets exactly one placeholder of a type when it has no recent anomaly of that type, and none otherwise; an empty frame gets none |
| AnomalyReport.BlocksRows | anomalyDetection-16.py:95-148 | A row is in all_anomalies iff it is in the block of some frame |
| AnomalyReport.NoRowsIffNoData | anomalyDetection-16.py:180-205 | all_anomalies is empty, and the "no anomalies" message is written, exactly when every frame is empty |
| AnomalyReport.BlockEmptyIffNoData | anomalyDetection-16.py:96-148 | A frame with data adds at least one row per type (two in all); an empty frame adds nothing |
| AnomalyReport.RowLeIsTotalPreorder | anomalyDetection-16.py:192 | The order by (Event_Hub, Metric Name, Timestamp), with missing timestamps last, is a total preorder |
| AnomalyReport.RowLeTransitive | anomalyDetection-16.py:192 | That order is transitive |
| AnomalyReport.SheetIsSortedCombination | anomalyDetection-16.py:180-205 | The sheet is the message iff there are no rows; otherwise it holds exactly the combined rows, sorted by hub, metric and timestamp |
| EventHubs.Clauses | anomaliDetection-19-test.py:46 | One clause per hub name, in list order |
| EventHubs.FilterOfNoHubs | anomalyDetection-16.py:37-38 | No hubs gives the fallback "EntityName eq ''" |
| EventHubs.FilterOfOneHub | anomalyDetection-16.py:34-36 | One hub gives its clause alone |
| EventHubs.FilterAppend | anomaliDetection-19-test.py:45-47 | The clauses are joined with " or " in list order: one more hub appends " or " and its clause |
| EventHubs.NamespaceName | anomalyDetection-16.py:27 | split("/")[-1] never fails and holds no "/" |
| EventHubs.NamespaceNameIsLastSegment | anomalyDetection-16.py:27 | The namespace is the text after the last "/" (the whole URI when there is none) |
| EventHubs.UriIsJoinOfPieces | anomaliDetection-19-test.py:30 | The namespace URI is its nine pieces joined with "/" |
| EventHubs.UriRoundTrip | anomalyDetection-16.py:27-28 | Reading a URI built at anomaliDetection-19-test.py:30 gives back its resource group (piece 4) and its namespace (last piece), when no name contains "/" |
| AzureIds.ResourceGroupNeedsFourSlashes | AksAutomation.py:22 | id.split("/")[4] succeeds iff the id has at least four "/", and fails with IndexError otherwise |
| AzureIds.ResourceGroupOfPieces | aksAutomation/AksAutomation.py:20 | An id made of "/"-free pieces gives back its fifth piece, whatever follows |
| Strings.Split | anomalyDetection-16.py:27-28 | str.split(c) gives at least one piece, and no piece holds c |
| Strings.JoinSplit | anomalyDetection-16.py:27-28 | Joining the pieces of a split with the separator gives back the string |
| Strings.SplitJoin | anomalyDetection-16.py:27-28 | Splitting a join of separator-free pieces gives back the pieces |
| Strings.SplitConcat | anomalyDetection-16.py:27-28 | Every separator cuts the string into two independently split halves |
| Strings.JoinAppend | anomaliDetection-19-test.py:47 | Joining one more piece adds the separator and the piece at the end |
| Strings.PyIndex | aksAutomation/AksAutomation.py:55 | xs[i] succeeds iff -len <= i < len, counting negative i from the end; IndexError otherwise |
| Strings.RemoveAll | aksAutomation/AksAutomation.py:63 | replace(c, "") leaves no c, never lengthens, and changes nothing when c is absent |
| Strings.RemoveAllAppend | aksAutomation/AksAutomation.py:81-83 | Removing the unit suffix from a suffix-free number leaves the number |
| Strings.ParseShowInt | aksAutomation/AksAutomation.py:63-65 | int(str(n)) == n for every integer |
| Strings.StrLeTotal | anomalyDetection-16.py:192 | String order is total and antisymmetric |
| Strings.StrLeTransitive | anomalyDetection-16.py:192 | String order is transitive |
| Sorting.InsertSorts | anomalyDetection-16.py:192 | Inserting into a sorted list keeps it sorted and adds exactly the new element |
| Sorting.SortSorts | anomalyDetection-16.py:192 | sort_values returns a sorted permutation of its input |
| Sorting.SortMembers | anomalyDetection-16.py:192 | The sorted rows are the input rows |
| Aborting.TraverseOk | aksAutomation/AksAutomation.py:53-67 | A loop with an uncaught exception completes iff every step succeeds, with each step's result in place |
| Aborting.TraverseFirstError | AksAutomation.py:19-22 | A failed loop reports the error of the first failing element, after which nothing runs |
| Aborting.TraverseStopsAtError | AksAutomation.py:19-22 | Once a prefix has failed, later elements do not change the outcome |
| Aborting.TraverseConcat | getAlertscript.py:52-78 | A run over two lists is the run over the first followed by the run over the second |
| Aborting.TraverseAround | getAlertscript.py:52-78 | An element whose step succeeds changes neither whether the run fails nor with which error; on success it adds its own result in its place |
| KubeStatus.TallyNodeStatuses | aksAutomation/AksAutomation.py:96-101 | The counters a, b, c end up as the number of nodes whose status is Ready, NotReady and Unknown |
| KubeStatus.NodeCountsPartition | aksAutomation/AksAutomation.py:96-101 | Each node increments at most one counter: the three counters plus the uncounted nodes equal the number of nodes |
| KubeStatus.NodeCountsAppend | aksAutomation/AksAutomation.py:96-101 | One more node adds one to the counter of its status and to no other |
| KubeStatus.TallyPods | aksAutomation/AksAutomation.py:115-130 | The counters a..e end up as the number of pods in the Running, Failed, Pending, Succeeded and Unknown phases |
| KubeStatus.PodCountsPartition | AksAutomation.py:77-96 | Each pod increments at most one counter: the five counters plus the uncounted pods equal the number of pods |
| AksCpu.PyInt | aksAutomation/AksAutomation.py:63-65 | int() fails only with ValueError |
| AksCpu.AllocatableMilli | aksAutomation/AksAutomation.py:59-67 | Allocatable CPU can only fail with ValueError, and only on a present, non-empty quantity |
| AksCpu.AllocatableMilliReadsBack | aksAutomation/AksAutomation.py:59-67 | Missing or empty gives 0; "<n>m" gives n; "<c>" gives c*1000 |
| AksCpu.UsageMilli | aksAutomation/AksAutomation.py:78-85 | Usage can only fail with ValueError, and only on a present quantity |
| AksCpu.UsageMissing | aksAutomation/AksAutomation.py:78 | A missing usage defaults to "0n" and reads as 0 |
| AksCpu.UsageOfNano | aksAutomation/AksAutomation.py:80-81 | "<n>n" gives n // 1000000, floored also below zero |
| AksCpu.UsageOfMilli | aksAutomation/AksAutomation.py:82-83 | "<n>m" gives n |
| AksCpu.UsageOfCores | aksAutomation/AksAutomation.py:84-85 | A plain integer gives cores * 1000 |
| AksCpu.CpuLineOf | aksAutomation/AksAutomation.py:88-92 | Utilisation is computed only against a positive allocatable; otherwise the "not calculated" line |
| AksCpu.CpuLineErrors | aksAutomation/AksAutomation.py:71-94 | The metrics line is the error line iff the fetch fails or the usage string fails to parse; otherwise it carries the parsed usage, and it is a utilisation line iff the allocatable CPU is positive |
| AksCpu.NodeStep | aksAutomation/AksAutomation.py:54-67 | A node raises iff it has no condition (IndexError) or a malformed allocatable (ValueError); its status is its last condition type |
| AksCpu.SurveyNodes | aksAutomation/AksAutomation.py:53-101 | The node loop gives every node's line and the status counters, or the first node's error |
| AksCpu.SurveyComplete | aksAutomation/AksAutomation.py:53-101 | The node loop completes iff every node has a condition and a well-formed allocatable; then it has one line per node in order, and its counters tally the last condition types |
| AksCpu.SurveyFailure | aksAutomation/AksAutomation.py:53-67 | A failed node loop reports the error of the first failing node |
| AksCpu.SurveyClusters | aksAutomation/AksAutomation.py:18-130 | The cluster loop gives one report per cluster in order, or stops at the first cluster whose id or nodes raise |
| AksCpu.ClusterReportsIndependent | aksAutomation/AksAutomation.py:18-114 | Counters restart for every cluster: each report depends on its own cluster only; its group is split("/")[4] of its id |
| AksStatus.NodeStepAsWritten | AksAutomation.py:55-63 | As written, a node only passes the loop when its status is Ready |
| AksStatus.AsWrittenCountsOnlyReady | AksAutomation.py:54-63 | As written, the node loop completes iff every node is Ready, and then the NotReady and Unknown counters are 0 |
| AksStatus.AsWrittenAbortsOnUnknownNode | AksAutomation.py:59-62 | As written, one Unknown node raises AttributeError; the intended tally counts it once |
| AksStatus.SpacedNotReadyMissesNotReady | AksAutomation.py:59 | "Not Ready" never matches the status NotReady, the spelling aksAutomation/AksAutomation.py:98 compares with and the intended tally counts |
| AksStatus.LastConditionType | AksAutomation.py:55 | A node's status is its last condition type; IndexError without conditions |
| AksStatus.CountNodesAsWritten | AksAutomation.py:51-63 | The node loop as written gives the all-Ready counters, IndexError for a node without conditions, or AttributeError at the first node that is not Ready |
| AksStatus.CountNodes | AksAutomation.py:51-63 | The intended node loop gives the status tally of the last condition types, or IndexError |
| AksStatus.IntendedAgreesWhereWrittenCompletes | AksAutomation.py:54-63 | Where the loop as written completes, the intended loop gives the same counters; the intended loop completes iff every node has a condition |
| AksStatus.SummariseClustersAsWritten | AksAutomation.py:19-96 | The cluster loop as written gives one status per cluster in order, or the first error, including the AttributeError of the first node that is not Ready |
| AksStatus.SummaryAsWrittenPerCluster | AksAutomation.py:19-76 | As written, the script completes iff every id has a resource group and every node of every cluster is Ready; each cluster then counts all its nodes as Ready, none as NotReady or Unknown, and its own pods |
| AksStatus.SummariseClusters | AksAutomation.py:19-96 | The corrected cluster loop (node statuses read from `conditions[-1].type`) gives one status per cluster in order, or the first error |
| AksStatus.SummaryPerCluster | AksAutomation.py:51-76 | The corrected cluster loop completes iff every id has a resource group and every node a condition; each cluster's counters tally its own nodes' last condition types and its own pods |
| AzureTime.TrimNewline | getAlertscript.py:18 | `$` matches at the end of the string or before one final newline |
| AzureTime.UtcOffset | getAlertscript.py:16-17 | A trailing "Z" becomes "+00:00"; any other string is unchanged; the result never ends in "Z" |
| AzureTime.MatchFractionIsPattern | getAlertscript.py:18-20 | The match succeeds iff the pattern can match at some "."; that "." is unique; the groups are the text up to the sixth digit after it, and the offset |
| AzureTime.FractionAtLastDot | getAlertscript.py:18 | The "." the pattern matches at is the last "." before the offset |
| AzureTime.CutsFractionToSixDigits | getAlertscript.py:16-20 | More than six fractional digits before "+HH:MM" (or "Z") are cut to six; exactly six are kept |
| AzureTime.CutsBeforeOffset | getAlertscript.py:18-20 | With a "+HH:MM" offset, fractional digits beyond the sixth are dropped |
| AzureTime.KeepsShortFraction | getAlertscript.py:18-20 | Fewer than six fractional digits do not match, so the string is unchanged |
| AzureTime.KeepsNegativeOffset | getAlertscript.py:18-20 | A "-HH:MM" offset never matches, so the string is unchanged |
| AzureTime.RewrittenIsFixed | getAlertscript.py:18-20 | A rewritten string matches again and is left as it is |
| AzureTime.RewriteIdempotent | getAlertscript.py:18-20 | Rewriting twice is rewriting once |
| AzureTime.NormalisedIdempotent | getAlertscript.py:15-21 | Normalising a time string twice is normalising it once |
| FiredAlerts.WindowDefaults | getAlertscript.py:25-28 | end defaults to now and start to one hour before end; given bounds are kept |
| FiredAlerts.AlertStepCases | getAlertscript.py:55-78 | One pass fails, with TypeError, exactly on a time without an offset; it writes a row exactly for a kept alert (time within [start, end], Fired, New), and that row is the alert's, shifted by +5:30 |
| FiredAlerts.ProcessAlert | getAlertscript.py:55-78 | The loop body, step by step, agrees with that pass |
| FiredAlerts.GetFiredAlerts | getAlertscript.py:23-78 | get_fired_alerts gives the sheet for the default window, and count is the number of rows after the header |
| FiredAlerts.CollectFired | getAlertscript.py:49-78 | The loop writes the header, then the rows of the kept alerts; count is the number of rows after the header |
| FiredAlerts.FiredSheetIsKeptRows | getAlertscript.py:49-78 | The sheet is written unless some alert has a time without an offset; it then holds the header and exactly the rows of the kept alerts, in order |
| FiredAlerts.SkippedAlertChangesNothing | getAlertscript.py:55-69 | An alert that is skipped (no time, an unparsable time, or filtered out) leaves the sheet and the count exactly as without it |
| RedisMetrics.BytesToHumanReadable | redis-script-5.py:31-38 | None gives "N/A"; otherwise the value divided by 1024 for each step up the unit ladder |
| RedisMetrics.UnitFromIsFirstFit | redis-script-5.py:34-38 | The unit is the first of B, KB, MB, GB at which the magnitude is below 1024; otherwise TB |
| RedisMetrics.MagnitudeInRange | redis-script-5.py:34-38 | The magnitude shown is v / 1024^k; it is below 1024 except in TB, and at least 1 except in B |
| RedisMetrics.ValidPoints | redis-script-5.py:77 | The valid points hold values only |
| RedisMetrics.ValidPointsMembers | redis-script-5.py:77 | A point is valid iff it is in the data and has a value |
| RedisMetrics.MaxValueIsMaximum | redis-script-5.py:79 | max is the value of some valid point, and no valid point's value is larger |
| RedisMetrics.FirstIndexOf | redis-script-5.py:80 | next(...) finds the first point whose value equals the maximum |
| RedisMetrics.FirstAmongValid | redis-script-5.py:77-80 | Searching the valid points finds the same point as searching all of them |
| RedisMetrics.PeakIsFirstMaximum | redis-script-5.py:77-80 | There is a peak iff some point has a value; it is the largest value, and its timestamp is that of the first point holding it |
| RedisMetrics.MetricRowOf | redis-script-5.py:73-145 | One metric's row: "Error" after a CLI failure, "JSON Error" after a parse failure, "N/A" without data, otherwise the peak and its time with the unit label |
| RedisMetrics.RowForPoints | redis-script-5.py:77-118 | A row shows "N/A" iff no point has a value; otherwise the first time of the peak; ServerLoad shows the number; the unit is "%" for ServerLoad and "Human Readable" otherwise |
| RedisMetrics.AllRows | redis-script-5.py:41-54 | Two rows per instance |
| RedisMetrics.CollectMetrics | redis-script-5.py:41-145 | The nested loops produce, in order, the row of every instance and metric |
| RedisMetrics.RowsPerInstance | redis-script-5.py:41-54 | Every instance gets exactly one row per metric, in place, whatever the CLI returned |
| RestorePoints.NamedDisks | restorepointScript.py:41-43 | At most one name per data disk |
| RestorePoints.DiskNames | restorepointScript.py:37-43 | The loop builds the named OS disk, then every named data disk |
| RestorePoints.NamedDisksMembers | restorepointScript.py:41-43 | A name is listed iff it is non-empty and some data disk has it |
| RestorePoints.DiskNamesOrder | restorepointScript.py:37-43 | The named OS disk comes first, then the data disks in order; a name is listed iff it is non-empty and is the OS disk's or a data disk's |
| RestorePoints.NamedDisksAppend | restorepointScript.py:41-43 | Later data disks come later in the list |
| RestorePoints.DisksCellGrows | restorepointScript.py:51 | One disk is shown alone; each further disk adds ", " and its name |
| RestorePoints.CollectRestorePoints | restorepointScript.py:16-63 | The loop appends, in order, the row of each target whose query returned a restore point: missing fields "N/A", disks joined or "None" |
| RestorePoints.OneRowPerRestorePoint | restorepointScript.py:31-63 | Rows are appended only on success: one per target whose query gave a restore point, and each row is that point's, with its target |

## Left out

- SDK, Kubernetes client and `az` CLI calls are outside the model:
  - Credentials and kubeconfig writing, including the `az account set` call.
  - The cluster `get` with its provisioning-state print.
  - Each reply enters the model as a parameter (`fetch`, `nodes`, `alerts`, metric series).
  - An exception these calls raise outside the modelled branches is not modelled.
- Prophet fitting and prediction: `yhat`, `yhat_lower` and `yhat_upper` are inputs.
- Presentation and file I/O:
  - matplotlib plots;
  - the Excel writers and header formatting;
  - column renames;
  - every `print`.
- Gathering metric responses into per-entity frames (`data_by_entity`, `entity_dfs`): each frame is an input series. Only the `or 0` value of a sample is modelled.
- The `except`/`exit(1)` paths around the metric query of the anomaly scripts are not modelled.
- Live clocks and time-zone conversion:
  - `datetime.now` and `end_time` are parameters.
  - IST is the fixed offset +19800 s.
  - `strftime` formatting is not modelled.
- `datetime.fromisoformat` is the parameter `fromIso`/`parseTime`: a time is Invalid, Naive or Aware.
- Floating point: values are exact reals.
  - The CPU percentage itself and its `.2f` formatting are not modelled; the model stops at the usage and allocatable milliCPU of a utilisation line.
  - The unit ladder divides exactly by 1024.
- Python `int()` accepts an optional sign and ASCII digits only. Surrounding whitespace, `_` separators and non-ASCII digits are not modelled.
- The regular expression in `parse_azure_time` uses ASCII digits only; Python's `\d` also matches other Unicode digits.
- pandas NaN: a missing `y` or band value cannot be represented.
- Sorting.Sort: `sort_values('ds')` uses pandas' default quicksort, which is not stable, so the order it leaves among rows with equal timestamps is unspecified. The model's insertion sort keeps their input order; rows tied on timestamp and value may therefore be chosen differently by the rolling-window selection.
- The rolling-window selection works on row positions in the sorted frame. Duplicate index labels, for which `window_df.loc[idx]` would return several rows, are not modelled.
- RedisMetrics.CollectMetrics:
  - The subscription × resource group × name loops are flattened into one instance list.
  - The branch for a metric without `post_process` (redis-script-5.py:119-120) is not modelled, since both metrics set it.
  - An IndexError from a malformed data point is not modelled.
- RestorePoints.CollectRestorePoints:
  - The subscription × resource group × collection loops are flattened into one target list.
  - A key present with JSON null is read as missing.
  - An AttributeError from a null `sourceMetadata` is not modelled.
- anomaliDetection-19-test.py resets `all_anomalies` and reopens the same `anomaly_detection_results.xlsx` for every namespace (lines 34, 101-102, 129), so only the last namespace's sheet survives. The model builds one namespace's sheet; the overwrite across namespaces is not modelled.
- SummariseClusters: models the corrected node loop, which reads `conditions[-1].type` for every branch. The script as written (AksAutomation.py:59) raises AttributeError at the first node that is not Ready; that loop is SummariseClustersAsWritten.
- SummaryPerCluster: states the corrected loop's outcome; the outcome of the script as written is SummaryAsWrittenPerCluster.
- Node condition types in Kubernetes are Ready, MemoryPressure, DiskPressure, PIDPressure and NetworkUnavailable; NotReady and Unknown are values of a condition's status, not types. Both AKS scripts compare the last condition type with them, so their NotReady and Unknown counters cannot count a real node. The model takes the type strings as given.
- anomaliDetection-19-test.py line 143 and the printed messages speak of the last 24 hours, while the code cuts at 48 hours (line 103); the model follows the code.
- iothubScript.py and node-resource-script1.py are not part of this model: they copy CLI fields into rows.

## Findings

| source | as written | input that shows it | evidently intended | confidence | as-written member | corrected member |
|---|---|---|---|---|---|---|
| AksAutomation.py:59-62 | The `elif` branches read `node.status.condition`, which nodes do not have, so every node whose last condition is not Ready raises AttributeError and ends the script | one node whose only condition type is "Unknown" | read `node.status.conditions[-1].type` and count NotReady and Unknown nodes | not executed | AksStatus.AsWrittenAbortsOnUnknownNode | AksStatus.IntendedAgreesWhereWrittenCompletes |
| AksAutomation.py:59 | The second branch compares with "Not Ready", with a space, while the corrected script (aksAutomation/AksAutomation.py:98, commented as a typo fix) compares with "NotReady" | one node whose last condition type is the string "NotReady", the spelling the corrected script compares with | compare with "NotReady", as aksAutomation/AksAutomation.py:98 does | not executed | AksStatus.SpacedNotReadyMissesNotReady | KubeStatus.TallyNodeStatuses |
