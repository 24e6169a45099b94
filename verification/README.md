# A verified model of BatAudit's back end

BatAudit collects audit events from instrumented services, queues them, stores
them, watches them for anomalies, and compacts old ones. This project models
the parts of it that carry state through time, in Dafny, and proves what they
keep over whole runs. The original program is Go (and one TypeScript function);
each `.dfy` file below models one component and holds one module of the same
name.

| files | component |
|---|---|
| `Tiers`, `TieringLaws` | the two tiering tables, the four SQL statements, laws of one stage |
| `TieringRun` | runs of the four statements in any order at any cutoffs, each request followed by itself |
| `TieringClock` | the runs the job makes: where every request is, told from the cutoffs alone |
| `TieringHistory`, `TieringReads` | the history query, its two SELECTs read at two moments of a run |
| `TieringVisible`, `TieringExact`, `DailyP95` | which requests the history does not show; what a stored row says; its p95 |
| `TieringColumns`, `TieringPoints` | the columns of a stored row and the points of a history, counted on requests and rows |
| `TieringRepository` | the repository, its in-place sort, the job and its schedule |
| `AnomalyKeys`, `VolumeSpike`, `Anomaly`, `AnomalyMeaning` | the anomaly detector: its keys, its rules, and what they decide in numbers of window entries |
| `AnomalyLaws`, `AnomalyForgets`, `AnomalyCalls`, `AnomalyDetector` | its runs, what trimming costs, what one call leaves, its objects |
| `Sessions`, `SessionResults` | session derivation; its answer told on the rows of the table |
| `Scaling`, `WorkerPool`, `EventQueue` | worker pool, autoscaler, and what happens to each event |
| `HealthPoller`, `HealthHistory` | the health poller and a monitor's history |
| `EnsureProject`, `Csv`, `Sanitizer`, `SanitizerMeaning` | project creation, the CSV printer, the text sanitizers |
| `Rows`, `Counting`, `Sorting`, `Percentile`, `Reals`, `Options`, `Picking` | GROUP BY and sums over rows, selections by position, order, percentiles, small helpers |

## How the code is read

- SQL has its relational meaning over sequences of rows. `INSERT ... ON CONFLICT
  DO NOTHING` keeps a row when its key is not yet stored; the unique index is an
  invariant, proved to be kept.
- A database or Redis call and a region under a mutex are each one atomic step.
  Concurrent callers are sequences of such steps, in any order: the two SELECTs of
  the history are two steps, and so are looking a window up and firing the alert.
  Where a call may fail, whether it does is a parameter; a statement may also
  commit and still report an error.
- `now` is a parameter wherever the code reads the clock, one parameter for each
  reading.
- `float64` is read as exact real arithmetic; `math.Sqrt` is any function that
  gives the non-negative root.
- Objects that the code updates in place are classes (`Repository`, `Job`,
  `Window`, `Detector`, `Pool`, `StopChan`, `Poller`, `Store`, `Service`), proved
  against the state machines whose runs the theorems are about.

## Where the plain claim is false

Each of these is what the code does. Where the claim holds on some inputs, the exact
condition is proved; where it never applies, the model follows the code.

- Tiering is advertised as losing no history
  (frontend/src/routes/app/_layout/settings/retention.tsx:30). Its cutoffs are the
  current time less whole days (internal/tiering/job.go:26,38), so they fall inside
  hours and days. `TieringRun.LosslessIff` says of any run, and
  `TieringClock.ClockLosslessIff` from the cutoffs alone, when a request is lost;
  `TieringExact.UnalignedCutoffLosesRequests` is a two-request instance. On period
  boundaries nothing is lost, failed and retried statements included
  (`TieringClock.AlignedCutoffsLoseNothing`).
- The history reads summaries and raw rows in two calls without a transaction
  (internal/tiering/repository.go:123-138 and 152-167). A request deleted between
  them whose hour the first did not have is in neither:
  `TieringVisible.ReadAroundTheJob` is an instance, `TieringVisible.AlignedHistoryIff`
  the exact condition on period boundaries, `TieringVisible.TieringIsInvisibleIff` at
  any cutoffs. Read at one moment, on period boundaries, with no roll-up waiting, it is
  what arrived: `TieringVisible.SnapshotIsExact`.
- A roll-up whose DELETE failed is counted twice by the history until it is
  retried: `TieringReads.HistoryAccount`, `TieringVisible.ExactIffNoneTwice`,
  `TieringLaws.DayStageRetryHeals`.
- The day's `p95_ms` is the largest hourly one, which is neither the p95 of the
  day nor a bound on it in either direction: `Percentile.MaxOfHoursIsNotTheDay`,
  `Percentile.MaxOfHoursExceedsTheDay`. It is the day's p95, whatever the response
  times, exactly when all the day's requests fall into one hour:
  `DailyP95.ExactIffOneHour`.
- An hour of 24 or more, which `TIERING_HOUR` may hold, is carried into the next
  days; the next run is then the first at that hour exactly when the time of day is
  within reach of it: `TieringRepository.NextRun`.
- The window comment says one hour is the longest any rule looks back
  (internal/anomaly/detector.go:45), but `WindowSeconds` has no bound, and callers
  read the clock before they take a window's lock, so readings lag.
  `AnomalyForgets.OneHourSufficesIff` is the exact condition on the rule and the lag;
  `AnomalyForgets.ForgettingShows` gives the run whenever it fails, a rule of exactly
  3600 seconds at a lag of one nanosecond included.
- Every event ends stored or dropped, and is shown to the detector if stored,
  exactly when no store call commits and reports an error
  (`EventQueue.RunConservesIff`); an event whose does ends stored and dropped
  (`EventQueue.UnreportedIsGivenUp`).
- The API guide says sessions are per identifier
  (docs-site/docs/api-reference/sessions.md:14); the query partitions by identifier
  and service. The model follows the query.
- Down and up events alternate exactly when no transition that lost its status
  update is followed by another transition: `HealthHistory.EventsAlternateIff`, with
  the instance `HealthHistory.LostUpdateRepeatsEvent`. They tell the stored status
  exactly when no transition loses its update: `HealthHistory.EventsTellStatusIff`.
- Sanitizing twice escapes the ampersands again, and the e-mail and IP filters keep
  letters and digits of HTML entities: `Sanitizer.SanitizeIdempotentIff`,
  `Sanitizer.EmailIsFilterIff`, `Sanitizer.IPIsFilterIff`.
- A CSV record without cells reads back as one empty cell: `Csv.RoundTripIff`.

## Model

| member | source | states |
|---|---|---|
| Tiers.StatementsKeepTablesValid | internal/tiering/repository.go:36-110 | For any cutoff each of the four statements keeps the unique index, at least one request behind every summary (so the NULLIF never yields NULL), status-class counts summing to at most the event count, and starts on their own period boundary |
| TieringLaws.HourStageDeficit | internal/tiering/repository.go:34-74 | From any tables and cutoff, raw-to-hour loses exactly the deleted rows whose hour bucket was already stored: events, status classes and response time after plus those rows equal before |
| TieringLaws.DayStageDeficit | internal/tiering/repository.go:76-110 | The same exact loss for hour-to-day |
| TieringLaws.HourStageLosslessIff | internal/tiering/repository.go:34-74 | Raw-to-hour keeps every total if and only if no row it deletes has its bucket stored already |
| TieringLaws.DayStageLosslessIff | internal/tiering/repository.go:76-110 | The same equivalence for hour-to-day |
| TieringLaws.HourStageIdempotent | internal/tiering/repository.go:34-74 | Repeating the stage with the same cutoff changes nothing and finds nothing to delete |
| TieringLaws.DayStageIdempotent | internal/tiering/repository.go:76-110 | The same for hour-to-day |
| TieringLaws.HourStageRetryHeals | internal/tiering/repository.go:61-73 | A stage whose DELETE failed after its INSERT ends, when retried, as one clean stage would have |
| TieringLaws.DayStageRetryHeals | internal/tiering/repository.go:100-109 | The same for hour-to-day |
| TieringLaws.DeletedCounts | internal/tiering/repository.go:66-73 | The returned RowsAffected is the number of rows older than the cutoff that were selected |
| TieringRun.RunTracks | internal/tiering/repository.go:34-110 | In every run of the four statements and of arrivals, at any cutoffs and in any order, the raw table is exactly the arrived requests not yet deleted, in order, and whoever is behind a row has that row stored |
| TieringRun.FatesHold | internal/tiering/repository.go:34-110 | In every such run the hour rows and the day rows of any choice of buckets weigh, in every measure, exactly what the requests behind them weigh; a request moves behind a row when an INSERT meets its bucket unstored, late arrivals and failed or repeated statements included |
| TieringRun.RunAccount | internal/tiering/repository.go:34-110 | The exact account of every run: what the tables hold plus the lost requests is what arrived plus the requests held twice |
| TieringRun.LosslessIff | internal/tiering/repository.go:34-110 | When none is held twice the tables hold what arrived if and only if no request is lost |
| TieringClock.RunKeepsInv | internal/tiering/job.go:22-45 | In any run of arrivals and the four statements, at any instants, where a DELETE follows an INSERT that reached its cutoff and hours are rolled up after their requests, raw rows are the arrivals since the raw DELETE, hour rows those of the hours reached since the hourly DELETE, day rows those of the days reached |
| TieringClock.HourStoredIffCut | internal/tiering/repository.go:53-59 | A raw request conflicts with a stored hour if and only if a used cutoff separated it from an earlier request of its bucket |
| TieringClock.DayStoredIffCut | internal/tiering/repository.go:94-98 | An hour conflicts with a stored day if and only if a used cutoff separated it from an earlier hour of its day |
| TieringClock.FatesFollowCutoffs | internal/tiering/job.go:22-45 | So the fate of every request follows from the cutoffs alone: raw until a DELETE passes it, behind its hour or day from the INSERT until the DELETE, unless a used cutoff had cut it off from its bucket |
| TieringClock.ClockLosslessIff | internal/tiering/job.go:22-45 | Once no INSERT waits for its DELETE the tables hold what arrived if and only if no request was deleted while cut off from its hour, or from its day |
| TieringClock.AlignedCutoffsLoseNothing | internal/tiering/job.go:26-38 | Raw cutoffs on the hour and hourly cutoffs on the day lose nothing, whatever fails in between |
| TieringHistory.HistorySplits | internal/tiering/repository.go:112-206 | The points total the summaries of the first read and the raw rows of the second whose hour no summary of the first claims |
| TieringReads.HistoryShows | internal/tiering/repository.go:112-206 | In any run and for any range, with any steps between the two SELECTs, a reader adds up each request as often as the first meets it behind a row of the range, and once more if the second meets it raw in an hour no summary claims |
| TieringReads.HistoryAccount | internal/tiering/repository.go:112-206 | Over whole days the points plus the hidden requests are those that arrived by the second read plus the repeated ones |
| TieringReads.ExactIffNothingHidden | internal/tiering/repository.go:112-206 | When the history repeats no request it equals what arrived if and only if it hides none |
| TieringReads.ExactIffNothingRepeated | internal/tiering/repository.go:112-206 | When it hides none it equals what arrived if and only if it repeats none |
| TieringVisible.SeenIffShadowed | internal/tiering/repository.go:172-191 | The merge hides a raw request behind a summary of the first read if and only if some service of its project had that hour inserted by then |
| TieringVisible.TieringIsInvisibleIff | internal/tiering/repository.go:112-206 | At the clock's instants, the job running between the SELECTs or not, with no roll-up waiting for its DELETE the history of a day-aligned range equals what arrived if and only if no request of it is hidden: cut off and deleted, deleted between the reads, or raw in an hour already inserted |
| TieringVisible.ExactIffNoneTwice | internal/tiering/repository.go:112-206 | With no request hidden it equals what arrived if and only if none is behind an hour row and a day row at once |
| TieringVisible.AlignedHistoryIff | internal/tiering/repository.go:112-206 | On period boundaries the requests not shown are exactly those deleted between the two SELECTs whose hour the first could not have |
| TieringVisible.SnapshotIsExact | internal/tiering/repository.go:112-206 | With cutoffs on period boundaries, both SELECTs at one moment and no DELETE of a roll-up outstanding, the history of a day-aligned range is exactly what arrived, whatever failed or was retried before |
| TieringVisible.ReadAroundTheJob | internal/tiering/repository.go:123-167 | A request, its summary read, its hour inserted and its row deleted, the raw rows read: the history is not what arrived |
| TieringHistory.MergedSlotsDistinct | internal/tiering/repository.go:172-201 | Whatever the two reads find, for any range, no two points share start and period type, and no raw hour shares its start with a summary |
| TieringPoints.MergedIsShown | internal/tiering/repository.go:112-206 | Every point has stored rows, or raw requests, of the project in [from, to) at its slot, and its count, 4xx, 5xx, average and p95 are those of exactly these; every stored row of the project in the range has a point, and so has every raw request whose hour no such row starts at |
| TieringPoints.OnlyTheProjectMatters | internal/tiering/repository.go:112-206 | Rows and requests of other projects or outside the range, start included and end excluded, change nothing |
| TieringExact.RowIsDirectAggregate | internal/tiering/repository.go:36-99 | In any run of any statements a stored row, hour or day, carries the count, status classes and mean that direct aggregation of the requests behind it gives |
| TieringColumns.RowColumns | internal/tiering/repository.go:41-52 | In any run every stored row has as s2, s3, s4 and s5 the numbers of requests behind it with status 200-299, 300-399, 400-499 and 500 or above, as count their number, and average times count is the plain sum of their response times |
| TieringColumns.InsertHoursMeans | internal/tiering/repository.go:36-59 | The INSERT keeps the stored rows, adds a row for every selected request whose project, service and hour had none, and every new row counts, classifies and averages exactly the http requests of its project, service and hour older than the cutoff |
| TieringColumns.InsertDaysMeans | internal/tiering/repository.go:77-98 | The same for the day: every new row sums the hour rows of its project, service and day older than the cutoff, averages by their counts and takes their largest p95 |
| TieringColumns.DeletesMean | internal/tiering/repository.go:65-109 | The DELETEs remove exactly the http requests of a project, and the hour rows, older than the cutoff, and leave the rest in order |
| TieringExact.AlignedDayRow | internal/tiering/repository.go:76-99 | On period boundaries those are all the original requests of its service and day |
| TieringExact.RunKeepsP95Within | internal/tiering/repository.go:51-92 | Whatever the cutoffs and failures, every stored p95 lies between the smallest and largest response time that arrived in its range |
| TieringExact.UnalignedCutoffLosesRequests | internal/tiering/job.go:26 | Two requests of one hour, a cutoff between them and one after: the second is gone |
| Percentile.P95Between | internal/tiering/repository.go:51 | percentile_cont never leaves the range of its sample |
| Percentile.P95Interpolates | internal/tiering/repository.go:51 | In ascending order the value 95 hundredths of the way from the first sample to the last, between two in proportion |
| Percentile.MaxOfHoursIsNotTheDay | internal/tiering/repository.go:92 | Two hours of {0, 100} give 95 as the largest hourly p95; the four samples together give 100 |
| Percentile.MaxOfHoursExceedsTheDay | internal/tiering/repository.go:92 | Hours of {100} and {0, 0} give 100 and 0; the three samples together give 90 |
| DailyP95.StoresLargest | internal/tiering/repository.go:92 | The p95 column of a day row made from hour rows is the largest of their p95 values |
| DailyP95.ExactIffOneHour | internal/tiering/repository.go:76-99 | For every number of requests in each hour of a day, the largest hourly p95 is the p95 of the day for all response times if and only if the requests fall into one hour |
| DailyP95.LargestExceeds | internal/tiering/repository.go:92 | For every day of two hours or more there are response times for which it is larger than the day's |
| TieringRepository.SwapDown | internal/tiering/repository.go:222 | One exchange of out-of-order neighbours keeps the array a stable reordering |
| TieringRepository.SortHistoryPoints | internal/tiering/repository.go:219-225 | The in-place sort ends with the points ascending by start, as a stable permutation |
| TieringRepository.Merge | internal/tiering/repository.go:172-201 | The two loops give all summaries, then the raw hours whose start no summary has |
| TieringRepository.Repository.AggregateRawToHourly | internal/tiering/repository.go:34-74 | The tables after the stage for each outcome of its statements, a commit that reports an error included; when both work every new row is counted from the requests of its project, service and hour, the requests before the cutoff are gone, and the result is how many they were (0 on error) |
| TieringRepository.Repository.AggregateHourlyToDaily | internal/tiering/repository.go:76-110 | The same for hour-to-day |
| TieringRepository.Repository.GetHistory | internal/tiering/repository.go:112-206 | With the raw rows read from later tables: every point, and nothing else, that the rows and requests of the project in [from, to) make, with the numbers of those rows, in ascending order and distinct slots; a failed read gives no points |
| TieringRepository.Job.Run | internal/tiering/job.go:22-45 | A failed first stage does not stop the second, cancellation between them does; each uses its own reading of the clock |
| TieringRepository.Job.CutoffsAreDaysAgo | internal/tiering/job.go:26-38 | The cutoffs are the clock less the configured days of 24 hours |
| TieringRepository.CycleIsARun | internal/tiering/job.go:22-45 | Whatever becomes of its statements, a cycle leaves what the run of those that took effect leaves |
| TieringRepository.CycleIsOnTime | internal/tiering/job.go:22-45 | A cycle, failing or not, extends a run at the clock's instants when the hours its second stage rolls up were all deleted from the raw table by the end of its first |
| TieringRepository.CompleteCycleSettles | internal/tiering/job.go:22-45 | A cycle in which all goes well, its cutoffs not before the last ones and the hourly an hour or more older than the raw, leaves no INSERT waiting for its DELETE |
| TieringRepository.NextRun | internal/tiering/job.go:84-91 | For every hour, also those time.Date carries over, the result is the first instant after now at that hour if and only if the hour lies less than a day behind the time of day and at most a day ahead; so for 0 to 23, at most a day away |
| AnomalyKeys.CooldownKeyInjective | internal/anomaly/detector.go:81-83 | Two cooldown keys are equal if and only if project and rule type are, whatever characters the project id holds |
| AnomalyKeys.RouteKeyInjective | internal/anomaly/detector.go:383-385 | Route keys determine project, method and path when project and method hold no colon |
| AnomalyKeys.WindowKeySplits | internal/anomaly/detector.go:319-328 | The silent-service split never slices out of range, and recovers project and service if and only if the project id has no colon |
| AnomalyKeys.SplitKey | internal/anomaly/detector.go:320-328 | The scan splits at the first colon |
| VolumeSpike.CountedMeans | internal/anomaly/detector.go:184-188 | With the conversion truncating towards zero, counted ages are exactly those strictly between -1 and 60 minutes |
| VolumeSpike.FillBuckets | internal/anomaly/detector.go:180-189 | The loop leaves in each bucket the number of entries of that age in minutes |
| VolumeSpike.BucketsConserve | internal/anomaly/detector.go:180-189 | The sixty buckets together hold exactly the entries of countable age |
| VolumeSpike.MeanStddev | internal/anomaly/detector.go:455-473 | The two loops compute the mean and the population deviation, zero for an empty slice |
| VolumeSpike.VarianceScaled | internal/anomaly/detector.go:465-470 | The two-pass variance is never negative and equals Q/n minus the squared mean |
| VolumeSpike.FiresWithoutRoot | internal/anomaly/detector.go:191-199 | For T >= 0 the alert condition holds if and only if S >= 59, 59c > S and (59c - S)^2 > T^2 (59Q - S^2) |
| VolumeSpike.ConstantRateNeverFires | internal/anomaly/detector.go:191-199 | A stream that fills every minute alike never fires, for any T >= 0 |
| AnomalyLaws.SinceAgreesIff | internal/anomaly/detector.go:45-67 | A trimmed window answers a lookup as the full one does if and only if nothing dropped is recent enough to be looked up |
| AnomalyLaws.TrimmingIsInvisible | internal/anomaly/detector.go:38-67 | Over every sequence of lock regions of any callers, each look reaching no further back than anything was trimmed and each firing happening whenever, the trimming detector emits the alerts of one that keeps everything |
| AnomalyLaws.ClockMakesFresh | internal/anomaly/detector.go:45-46 | Window accesses whose clock readings lag at most so far (up to 55 minutes) behind one already used, and rules that do not forget within the lag, give such sequences, for any order of event timestamps |
| AnomalyLaws.DetectorNeedsOneHour | internal/anomaly/detector.go:38-284 | So, for window accesses in the order of the clock up to that lag, the detector with hour-long windows emits exactly the alert sequence of one with the full history, for any mix of such rules |
| AnomalyForgets.OneHourSufficesIff | internal/anomaly/detector.go:45-67 | The exact condition, for every lag and every rule: trimming is invisible on all runs that look up just this rule, with window accesses in the order of the clock up to the lag, if and only if the lag is at most 55 minutes (the hour less the route check's five) and the rule is a volume spike with a lag of at most 1 ns, or looks back at most the hour less the lag, or can reach no verdict on events |
| AnomalyForgets.ForgettingShows | internal/anomaly/detector.go:161-284 | In every other case there is such a run, of the detector itself, on which the trimmed windows' alerts differ: late arrivals, a burst against a trimmed minute, or late requests of a route |
| AnomalyLaws.AlertsAreSpaced | internal/anomaly/detector.go:358-433 | In any interleaving of any callers, recorded alerts of one project and rule are at least five minutes apart, of one route ten |
| AnomalyLaws.AlertTimes | internal/anomaly/detector.go:358-433 | In nanoseconds: alerts of one project and rule are at least 300 000 000 000 apart, those of one project, path and method 600 000 000 000 |
| AnomalyLaws.AlertsPerSpan | internal/anomaly/detector.go:358-380 | So a span L of time holds at most L / cooldown + 1 of them |
| AnomalyLaws.SuppressedIffRecent | internal/anomaly/detector.go:361-368 | A verdict is dropped if and only if an earlier alert of the same project and rule is less than a cooldown old |
| AnomalyLaws.RouteSuppressedIffRecent | internal/anomaly/detector.go:427-433 | The same for routes, with colon-free project ids and methods |
| AnomalyMeaning.VerdictIsReached | internal/anomaly/detector.go:161-284 | Which rules reach a verdict, and its details, in numbers of window entries not older than the window: an error rate if and only if there are ten and 100 times those with status 400 or above reach the threshold times all; brute force on 401 and 403 of the event's identifier, mass delete on DELETE, each at the threshold or above; a volume spike on the minutes' counts |
| AnomalyMeaning.RouteMeans | internal/anomaly/detector.go:409-424 | The route check reaches a verdict if and only if at least ten entries are at most five minutes old and ten times those with status 400 or above are at least as many |
| AnomalyCalls.EventStepsHandled | internal/anomaly/detector.go:132-159 | One call told on windows, cooldowns and alerts: the entry joins its window, each active rule in turn alerts exactly when the numbers of window entries reach it and no alert of its project and rule was stamped less than five minutes before, and then the route, with ten minutes |
| AnomalyMeaning.SilentMeans | internal/anomaly/detector.go:340-341 | A service is silent when at least threshold times 60 000 000 000 nanoseconds have passed since its last arrival |
| AnomalyCalls.SilentStepsHandled | internal/anomaly/detector.go:314-354 | One window of the silent-service loop, told on its last arrival: an active rule alerts, for the project and service of the window, exactly when that arrival lies its threshold of minutes back and no alert was stamped less than five minutes before |
| AnomalyDetector.Window.Add | internal/anomaly/detector.go:38-54 | Appends, records the arrival's own timestamp as latest, drops the leading entries older than an hour and no other |
| AnomalyDetector.Window.EntriesSince | internal/anomaly/detector.go:57-67 | Returns the entries at or after t, in order |
| AnomalyDetector.CheckVolumeSpike | internal/anomaly/detector.go:178-207 | Fires when the entries less than a minute old exceed the mean of the 59 minutes before by the threshold in deviations, and that mean is at least 1 |
| AnomalyDetector.CheckErrorRate | internal/anomaly/detector.go:210-233 | A verdict if and only if at least ten entries have timestamp >= now - windowSeconds and 100 times those with status >= 400 reach the threshold times all, with these two numbers |
| AnomalyDetector.CheckBruteForce | internal/anomaly/detector.go:236-259 | For a 401 or 403 event, a verdict if and only if the entries of its identifier in the window with status 401 or 403 reach the threshold, with their number |
| AnomalyDetector.CheckMassDelete | internal/anomaly/detector.go:262-284 | For a DELETE event, a verdict if and only if the DELETE entries in the window reach the threshold, with their number |
| AnomalyDetector.CheckRoute | internal/anomaly/detector.go:409-424 | A verdict if and only if the last five minutes hold ten entries and a tenth of them have status >= 400, with these numbers |
| AnomalyDetector.Detector.ProcessEvent | internal/anomaly/detector.go:132-159 | One uninterrupted call is one run of the state machine, and does to windows, cooldowns and alerts what `AnomalyCalls.EventStepsHandled` tells; a failed rule load stops after the add |
| AnomalyDetector.Detector.FireAlert | internal/anomaly/detector.go:358-380 | Test and stamp of the cooldown as one step: no alert if the last stamp is less than five minutes old, otherwise one with the stamp |
| AnomalyDetector.Detector.CheckAllSilentServices | internal/anomaly/detector.go:301-355 | The loop over a snapshot of the keys is, uninterrupted, a run of reads of the last arrival and later firings, window after window what `AnomalyCalls.SilentStepsHandled` tells |
| AnomalyCalls.SilentRuns | internal/anomaly/detector.go:314-354 | For one window: nothing is raised before its first arrival or when the rules fail to load, and otherwise every silent-service rule is tried with the last arrival read before they were loaded |
| Sessions.QueryIsGreedy | internal/audit/repository.go:226-266 | LAG, CASE, running SUM and GROUP BY over a sorted partition give exactly the greedy splitter's sessions, ties included |
| Sessions.GreedySplits | internal/audit/repository.go:196-198 | Sessions cover every event, count the events they cover, last at most 1800 s per further event, and lie more than 1800 s apart |
| Sessions.GreedyAnchored | internal/audit/repository.go:258-262 | Each session starts and ends with an event |
| Sessions.SameSessionIff | internal/audit/repository.go:241-246 | Neighbouring events share a session if and only if at most 1800 s separate them |
| Sessions.PartitionIsSplit | internal/audit/repository.go:226-263 | All of this for the partition of any identifier and service in any table |
| Sessions.GetSessionsIsGreedy | internal/audit/repository.go:199-263 | The whole result set: for each identifier and service with a selected event the greedy sessions of its selected events, and no others |
| SessionResults.SessionsMean | internal/audit/repository.go:199-263 | Told on the rows of the table with the asked project, identifier and service (each only when given), from the start (or the last seven days) to the end: every session starts and ends at one, counts those of its identifier and service within it, has its next at most 1800 s away, and lies more than 1800 s from the others of them; every such row is in one |
| SessionResults.OnlyAskedRowsMatter | internal/audit/repository.go:199-219 | Any two tables that hold each asked row equally often give the same sessions |
| Sessions.SessionsPartitionEvents | internal/audit/repository.go:255-263 | The session counts add up to the number of selected events |
| Sessions.StoredOrderIsIrrelevant | internal/audit/repository.go:226-256 | Neither the stored order of rows nor the order among equal timestamps changes a partition's sessions |
| Scaling.DecideMonotone | internal/worker/autoscale.go:89-134 | For a fixed worker count the new count is monotone in the queue length |
| Scaling.DecideMeans | internal/worker/autoscale.go:89-134 | Under load the least count above the present one that reaches its growth by the factor, by half as much again above three times the threshold, or the maximum; idle the greatest below whose growth is no more than the present one, or the minimum; else no change |
| Scaling.LoadAddsWorkers | internal/worker/autoscale.go:100-123 | Above the up threshold one evaluation adds a worker until the maximum, and above five times it goes there at once |
| Scaling.IdleRemovesWorkers | internal/worker/autoscale.go:125-133 | Below the down threshold one evaluation removes a worker until the minimum |
| Scaling.SustainedLoad | internal/worker/autoscale.go:89-134 | n loaded evaluations reach at least min(active + n, max) |
| Scaling.SustainedIdle | internal/worker/autoscale.go:89-134 | n idle evaluations reach at most max(active - n, min) |
| WorkerPool.ScaledWithinBounds | internal/worker/autoscale.go:16-21 | With 1 <= min <= max every scale call ends within them: at the target if it is, else at the bound it passes |
| WorkerPool.Pool.ScaleWorkers | internal/worker/autoscale.go:12-33 | The clamped target is reached, workers kept stay the same ones, new ids are above every id in use, the scaling time moves only with the count |
| WorkerPool.Pool.ScaleUp | internal/worker/autoscale.go:36-58 | Grows to the target with fresh ids, existing workers untouched |
| WorkerPool.Pool.ScaleDown | internal/worker/autoscale.go:61-86 | Shrinks to the target; every send meets an open, empty channel and every close an open one, so it neither blocks nor panics |
| WorkerPool.Pool.StopWorker | internal/worker/autoscale.go:78-84 | The stopped worker's channel has exactly one send and one close |
| WorkerPool.Pool.TakeStop | internal/worker/service.go:144-146 | Only a worker that was told to stop can take a signal, and its taking it, at any moment, keeps the pool's invariant |
| WorkerPool.Pool.CountsUnsignalled | internal/worker/service.go:23-24 | activeWorkers is the number of launched workers not told to stop |
| WorkerPool.Pool.EvaluateScaling | internal/worker/autoscale.go:89-134 | The worker count becomes what the decision function says |
| WorkerPool.Pool.MonitorTick | internal/worker/service.go:88-125 | With autoscaling on and the queue read, the decision's count once more than the cooldown has passed, or in an emergency; otherwise no change, and never fewer workers within the cooldown |
| WorkerPool.EmergencyGrows | internal/worker/service.go:119-122 | The emergency branch never removes workers |
| EventQueue.RunKeepsOrder | internal/worker/service.go:170-211 | Events are dropped only when undecodable or after exactly MaxRetries failures, and the queue is first in, first out |
| EventQueue.ItemPasses | internal/worker/service.go:162-212 | The next item in an idle worker: undecodable it is dropped, otherwise, new and its store call working, stored, and seen by the detector unless it is an alert |
| EventQueue.StoredOnce | internal/worker/service.go:189-212 | No id is stored twice |
| EventQueue.RunAccounts | internal/worker/service.go:55-212 | The exact account of every interleaving of writers, workers, retries, scaling and shutdown, where a store call may work, fail, or commit and report an error: enqueued plus stored without report equals queued, in hand, stored and dropped together, and the detector misses just the unreported |
| EventQueue.RunConservesIff | internal/worker/service.go:189-212 | So each enqueued event is in exactly one of queue, hand, store or dropped, and the detector is shown each stored non-alert once, if and only if no store call of it commits and reports an error |
| EventQueue.UnreportedIsGivenUp | internal/worker/service.go:189-211 | When Start has returned, such an event is stored once, given up as well, and never seen by the detector |
| EventQueue.NothingInHandAfterReturn | internal/worker/service.go:55-73 | When Start has returned nothing is in a hand: every event is queued, stored or dropped, those stored without report in two places, and the detector has seen all stored non-alerts but these |
| EventQueue.ProcessWithRetry | internal/worker/service.go:189-212 | Succeeds if and only if the first of the MaxRetries attempts to reach the table reports it and the id is new, storing the event once; otherwise it is given up, and stored if that attempt committed without report |
| HealthPoller.Poller.Reload | internal/healthcheck/monitor.go:56-85 | The running ids become exactly those of the enabled monitors, pollers of still-enabled ids are the same objects, every other is cancelled, and a failed load changes nothing |
| HealthPoller.Poller.StopRemoved | internal/healthcheck/monitor.go:69-75 | Cancels exactly the pollers whose monitor is gone |
| HealthPoller.Poller.StartNew | internal/healthcheck/monitor.go:76-83 | Starts a poller for each enabled monitor without one, none twice |
| HealthPoller.Poller.OnePollerEach | internal/healthcheck/monitor.go:68-84 | At no point do two uncancelled pollers share an id |
| HealthHistory.Store.RecordResult | internal/healthcheck/monitor.go:162-216 | One check: the result joins the stored ones, of which a prune keeps those with fewer than 200 newer; the status is updated; an event goes out exactly on a change from a known status, whichever writes fail |
| HealthHistory.PrunedIsLast | internal/healthcheck/repository.go:103-113 | On rows of increasing time pruning keeps exactly the last ones |
| HealthHistory.ResultsAreMostRecent | internal/healthcheck/monitor.go:175-186 | Whatever fails, the stored results are the most recent saved ones, never fewer than 200 if there are that many, and exactly min(n, 200) after a prune that succeeded |
| HealthHistory.EventsTellStatusIff | internal/healthcheck/monitor.go:179-191 | First status plus events tell the stored status after every check if and only if no transition's status update fails |
| HealthHistory.EventsAlternateIff | internal/healthcheck/monitor.go:179-215 | Down and up events strictly alternate, starting opposite to the first known status, if and only if no transition that lost its status update is followed by another transition |
| HealthHistory.LostUpdateRepeatsEvent | internal/healthcheck/monitor.go:179-191 | Two failing checks whose updates are lost send two down events |
| EnsureProject.SuccessfulCallsAgree | internal/auth/service.go:214-252 | However calls interleave and whatever fails, all successful calls for one service name return the same project |
| EnsureProject.WorkingCallSucceeds | internal/auth/service.go:214-252 | However others interleave and fail, a call whose own database calls all work ends, its steps taken, with a project stored under its name |
| EnsureProject.OneProjectOneCallback | internal/auth/service.go:223-249 | At most one project per slug, and OnProjectCreated at most once for each |
| EnsureProject.RunKeepsInv | internal/auth/service.go:214-252 | Every id returned is stored under the call's slug, and ids being created are private to their call |
| EnsureProject.Service.Ensure | internal/auth/service.go:214-252 | On its own: a stored slug gives that project and changes nothing; otherwise the new project is stored, its callback started and its id returned, and for each failing call the answer and table are stated |
| EnsureProject.Service.CreateProject | internal/auth/repository.go:148-160 | The unique index refuses a taken slug; an insert may also commit and report an error |
| Csv.RoundTripIff | frontend/src/routes/app/_layout/query.tsx:7-15 | A reader for section 2 of RFC 4180 (LF breaks records, CR is text) recovers header and cells exactly when every record has a cell |
| Csv.RoundTrip | frontend/src/routes/app/_layout/query.tsx:7-15 | Every result with at least one column survives, quotes, commas and newlines included |
| Csv.CellsComeBack | frontend/src/routes/app/_layout/query.tsx:7-15 | Cell by cell: each text comes back in its row and column, a null as nothing |
| Csv.EscapedMeans | frontend/src/routes/app/_layout/query.tsx:8-11 | A null prints as nothing, a text is quoted exactly for a quote, comma or newline in it |
| Csv.DoubledReplaces | frontend/src/routes/app/_layout/query.tsx:11 | Inside quotes each quote is doubled and nothing else changed |
| Csv.ReadCell | frontend/src/routes/app/_layout/query.tsx:8-11 | Whatever a cell holds, the reader gets it back and stops where it ends |
| Sanitizer.SanitizeIsEscapeOfNormalized | internal/audit/sanitizer.go:43-53 | Collapsing after escaping equals escaping the stripped, trimmed, collapsed text |
| SanitizerMeaning.NormalizeMeans | internal/audit/sanitizer.go:43-53 | Normalizing keeps, in order, the characters that are no control characters, between the outer Unicode white space, less each blank after a blank, and nothing else |
| SanitizerMeaning.EscapeReplaces | internal/audit/sanitizer.go:47 | Five characters are replaced, each on its own, by their entities |
| Sanitizer.SanitizedDecodes | internal/audit/sanitizer.go:43-53 | Decoding the five entities returns the normalized text, and no angle bracket or quote survives |
| Sanitizer.SanitizeIdempotentIff | internal/audit/sanitizer.go:43-53 | Sanitizing again changes nothing if and only if the normalized text has none of the five markup characters |
| Sanitizer.EmailAndIPIdempotent | internal/audit/sanitizer.go:56-73 | The e-mail and IP sanitizers are idempotent |
| SanitizerMeaning.AddressesMean | internal/audit/sanitizer.go:56-73 | Only letters, digits and . @ _ + - remain of an e-mail address, only digits and . : of an IP address, and a text of these is unchanged |
| Sanitizer.EmailIsFilterIff | internal/audit/sanitizer.go:56-63 | The e-mail sanitizer only removes characters if and only if the address holds no markup character |
| Sanitizer.IPIsFilterIff | internal/audit/sanitizer.go:66-73 | The IP sanitizer only removes characters if and only if the address holds no quote |
| Sanitizer.EnvironmentCanonical | internal/audit/sanitizer.go:76-94 | The result is one of five names, is unchanged by sanitizing again, and passes the environment validator (internal/audit/validator.go:45-53) |
| SanitizerMeaning.EnvironmentNames | internal/audit/sanitizer.go:76-94 | Exactly which lower-cased texts give each of the five names |

## Left out

- TieringClock.FatesFollowCutoffs: no request arrives older than a used raw cutoff, and hours are rolled up after their requests (with the default 30 and 365 days they always are); every other run is covered request by request in `TieringRun` and `TieringReads`, without the closed form.
- TieringReads.HistoryAccount: day-aligned ranges; a range that cuts a stored bucket has no exact history in the code, and `TieringReads.HistoryShows` says what it then shows.
- AnomalyDetector.Detector.ProcessEvent: finding or creating a window and adding to it are one step; the code takes two locks in turn, and windows are never removed.
- WorkerPool.Pool.EvaluateScaling: reading the count and scaling are one step; the code locks twice, and only the monitor and the first call of Start scale.
- HealthHistory.ResultsAreMostRecent: check times strictly increase; ORDER BY does not say which of two equal times is kept.
- EnsureProject.SuccessfulCallsAgree: UUIDs are a fresh counter, and no project is deleted.
- Sanitizer.EnvironmentCanonical: of unicode lower-casing only its effect on a-z is used.
- Rounding of floating-point numbers, and `math.Round` in alert details.
- Time zones and TO_CHAR formatting; all times are UTC integers.
- The order SQL gives to points with equal start, and the ORDER BY and LIMIT 200 of the session query.
- GetUsage, parseIntEnv (which reads TIERING_HOUR=0 as the default), and the scheduler's endless loop.
- Ids of deleted audit rows becoming free for a retry: `EventQueue` has no deletes.
- An alert whose sink call fails is lost although its cooldown is stamped; the model records the call.
- Linking an API key to a created project.
- Redis pops lost to a client-side timeout, and killed processes.
- Logging and scaling metrics.
- The downtime field of up events, the monitor handler's full-row save racing with status updates, and the "test now" check.
- sanitizeJSON, the detection and masking of sensitive data, and invalid UTF-8.
- HTTP handlers, JWT and password handling, gorm and Redis internals, the React pages, SDKs and tools.
- The statistics queries, pagination, list and export filters, query limits and webhook retries, which would add only easy members.
