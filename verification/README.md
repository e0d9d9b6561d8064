# nodevitals: verified model

nodevitals watches node hardware. Samples flow from collectors through a hysteresis engine to
webhook receivers, and in parallel into a downsampled history on disk; asynchronous GPU errors
(XIDs) take a pipeline of their own. This project models the stateful parts of that path in Dafny
and proves what they guarantee, over every input and every run. `dafny verify dfyconfig.toml`
checks all of it.

| files | component |
|---|---|
| `Latch.dfy`, `EventEngine.dfy`, `EngineRuns.dfy`, `Thresholds.dfy` | the event engine: one latch per (rule, device), the classes that hold it, whole runs, and what samples call for, said without any of these |
| `SeriesKeys.dfy`, `Timestamps.dfy`, `Bolt.dfy` | series identity as a bucket name, 8-byte time keys, the ordered map under them |
| `History.dfy`, `HistoryRuns.dfy`, `HistoryStored.dfy`, `HistoryLaws.dfy`, `HistorySilence.dfy` | the history store as a class, its agreement with a plain log of samples, and what it keeps of silent series |
| `HistoryQuery.dfy`, `Range.dfy`, `HistoryAnswers.dfy` | range queries, the `?range=` parameter, and the way from samples to answers |
| `XidPipeline.dfy`, `XidShutdown.dfy` | NVML watcher, closers, forwarder and drain as interleaved steps, and how they end |
| `Backoffs.dfy`, `Delivery.dfy`, `Deduplication.dfy`, `DeliveryRuns.dfy` | jittered backoff, retried delivery, a deduplicating receiver, and these composed with the engine |
| `AgentLoop.dfy`, `AgentOrder.dfy`, `AgentLosses.dfy`, `AgentLimits.dfy`, `AgentProgress.dfy` | the tick process and the drain processes delivering concurrently: their counters, what each receiver is left with and what it misses, how many attempts an error takes, and that deliveries end |
| `Subscriber.dfy` | engine and XID pipeline together, from samples and XIDs to one receiver |
| `Quantity.dfy` | Kubernetes quantities |
| `Text.dfy`, `Sequences.dfy`, `Hardware.dfy` | byte strings; concatenation; samples, rules, events and event IDs |

What carries over from the code, and how:

- Time is an integer number of nanoseconds since Go's zero time, so `time.Time{}` is 0 and the
  Unix epoch is a positive constant. The int64 and uint64 casts of the code are written out.
- Strings are byte strings: one `char` is one byte.
- A bbolt bucket is a sequence of key/value pairs in key order, and a transaction either commits
  or leaves everything as it was; where it fails is a parameter.
- Clocks, random numbers, the network's answers, the state of a context and
  `time.ParseDuration` are parameters, quantified over in every result.
- The table of XID codes is a parameter: nothing rests on its entries.
- The digest behind event IDs is an arbitrary function with 16-byte results; where a result needs
  it not to confuse two fingerprints, that is a hypothesis.
- Methods are proved against functions of the whole history (or of the state before), and the
  promises of the source are then proved about those functions.

## Where the code and its promises part

Where the code does less than its comments or its design say, a lemma shows how, and another (or
the same one) states exactly when the promise holds.

- A query with a non-zero `since` before 1970 hides every stored point instead of returning them
  all (`HistoryQuery.WalkIsFaithfulIff`); `?range=36500d` is such a query
  (`Range.LongestRangeHidesAll`, `Range.LastDaysQueryIff`).
- A flush interval below one second makes two flushes share a key, so a mean is overwritten
  (`HistoryLaws.SubSecondOverwrites`, `HistoryLaws.NeverOverwritesIff`). It takes a direct call of
  `history.Open`: the agent configures the interval in whole minutes
  (cmd/nodevitals/main.go:191-193), where nothing is overwritten
  (`HistoryLaws.AtLeastASecondSuffices`).
- A label name with `=` lets two series share a bucket (`SeriesKeys.EqualsInNameMergesSeries`,
  `SeriesKeys.RoundTripIff`).
- Two rules that publish one condition for a common device publish two events under one ID
  (`EngineRuns.SharedConditionCollides`, `EngineRuns.DistinctIffNoSharedCondition`).
- The overflow check of the backoff window misses products that wrap back to a small positive
  value (`Backoffs.OverflowShrinksWindow`, `Backoffs.WindowExactIff`); the agent's own setting is
  safe (`Backoffs.AgentBackoffIsSafe`).
- The watcher can still send one XID after it was asked to stop, against the comment on `Close`
  (`XidPipeline.LateSendHappens`, `XidPipeline.AtMostOneLateSend`); it can exactly when it had
  passed its poll of `done` and the forwarder is ready to receive or a drain is left to make it
  so (`XidPipeline.SendAfterStopIff`). The comment's other half, no `Wait` beside or after `Free`
  and `Shutdown`, holds (`XidPipeline.ShutdownIsSafe`).
- The event channel does not always end when the reader closes the XID channel, against the comment
  on `NewGPUCollector`: when the context is cancelled while an event waits for the drain, the
  forwarder keeps it for good (`XidShutdown.DrainLeavesEvent`, `XidShutdown.ForwarderShutdown`,
  `XidShutdown.EventsCloseIff`).
- Points are pruned when their own series is flushed, not when they age: a series that falls silent
  keeps points past retention (`HistorySilence.SilentSeriesKeepsOldPoints`), exactly when one of
  its means lies between its own last cutoff and the clock's (`HistorySilence.ClockRetentionIff`).
- The drop counter counts the whole batch of a failed delivery as lost, the events that did arrive
  included: at rest it overstates what a deduplicating receiver misses, unless no failed delivery
  got anything through (`AgentLosses.MissingAtRest`, `AgentLosses.DropCounterExactIff`).

## Model

| member | source | states |
|---|---|---|
| Latch.CountersAreSuffixes | internal/event/event.go:76-82 | After any history of readings the breach and the clear counter are the lengths of its longest breaching and longest clear suffix |
| Latch.ActiveMeaning | internal/event/event.go:76-105 | The latch theorem: a latch is active exactly when the last index that ends a full window of breaches is later than the last one that ends a full window of clears |
| Latch.TransitionIffChange | internal/event/event.go:84-105 | A reading causes a transition exactly when it flips that declarative meaning, with ENTER or EXIT and the times it is stamped with accordingly |
| Latch.TransitionsAlternate | internal/event/event.go:84-105 | Over any history phases alternate from ENTER, numbers run 1, 2, 3 (odd exactly for ENTER), and each EXIT carries the start time of the ENTER before it |
| Latch.FlapBound | internal/event/event.go:43-105 | k ENTERs need at least k·enterFor + (k-1)·exitFor readings, and k EXITs at least k·(enterFor + exitFor) |
| Latch.FlapBoundIsTight | internal/event/event.go:76-105 | For every k a history of exactly k·(enterFor + exitFor) readings does cause k EXITs |
| EventEngine.DeviceState.Observe | internal/event/event.go:76-105 | One reading moves the mutable device state as one latch step does and yields that step's transition |
| EventEngine.RuleState.StateFor | internal/event/event.go:71-75 | A device met for the first time gets a fresh idle state; no other device's state changes |
| EventEngine.RuleState.Observe | internal/event/event.go:65-106 | A sample steps at most its own device's latch of a rule it matches, leaves all others alone, and yields that step's event or none |
| EventEngine.LatchInView | internal/event/event.go:65-82 | Each device's latch is the latch run on that device's own matching readings, whatever else came in between |
| EventEngine.ActiveOnSamples | internal/event/event.go:65-105 | The latch theorem on samples: a rule is active for a device exactly when, among the samples with its metric from that device (its own device or any), the last run of at least one and enterFor values above the threshold ends later than every run of at least one and exitFor values not above it |
| EventEngine.StateOnSamples | internal/event/event.go:84-105 | Its number is how often that has changed, its start the time of the sample that last made it active |
| EventEngine.EmittedIsDue | internal/event/event.go:61-112 | For any history and batch the engine's output is, event by event and in order, what the samples call for |
| EventEngine.Engine.constructor | internal/event/event.go:43-56 | A new engine has one independent idle slot per rule, in order, with windows clamped to at least 1 |
| EventEngine.Engine.EvaluateSample | internal/event/event.go:63-107 | One sample goes to every rule in construction order; the output is a function of the sample history |
| EventEngine.Engine.Evaluate | internal/event/event.go:58-112 | The events of a batch are exactly those that its samples, after all samples before, call for: one, rule by rule, whenever a sample makes a rule active or inactive for its device, with all its fields, and with its ID |
| EventEngine.AssignIds | internal/event/event.go:108-110 | Patching IDs in place changes nothing but the IDs, each computed from its own event |
| EngineRuns.Batching | internal/event/event.go:61-112 | Evaluating a then b emits what evaluating a++b emits |
| EngineRuns.TaggedRunEvents | internal/event/event.go:61-112 | Tagging each event with its sample and rule index adds nothing and drops nothing |
| EngineRuns.RunOrder | internal/event/event.go:34-37 | The output is strictly ordered by (sample index, rule index), and every field of every event is what its rule, its sample and that latch's transition say |
| EngineRuns.EventIffChange | internal/event/event.go:84-105 | There is an event for a sample and a rule exactly when that sample makes the rule active or inactive for its device |
| EngineRuns.Isolation | internal/event/event.go:14-18 | The output restricted to one rule and one device is what a lone latch makes of just the samples with that metric and device, for every interleaving of others |
| EngineRuns.SeparateConditionsSuffice | internal/event/event.go:84-110 | When no two rules publish one condition for a common device, all events of every run have distinct identities |
| EngineRuns.SharedConditionCollides | internal/event/event.go:84-110 | When two rules do, a run built from the two rules has two events of one identity |
| EngineRuns.DistinctIffNoSharedCondition | internal/event/event.go:84-110 | So identities are distinct in every run exactly when the configuration has no such pair |
| EngineRuns.IdsFollowIdentities | internal/event/event.go:108-110 | With NUL-free identity fields and no digest collision, the IDs of a list of events are unique exactly when their identities are |
| Hardware.EventIdMeaning | internal/model/model.go:54-59 | Two event IDs are equal exactly when node, tier, device, condition, phase and number agree |
| Hardware.EventIdText | internal/event/event.go:108-110 | An event ID is the digest of node, tier, device and condition joined by NULs, then -ENTER- or -EXIT-, then the number in decimal |
| SeriesKeys.SortStrings | internal/history/history.go:275 | Sorting returns the strictly ascending sequence of exactly the given names |
| SeriesKeys.CollectNames | internal/history/history.go:271-274 | Walking a map in any order collects each key once |
| SeriesKeys.SeriesKeyFor | internal/history/history.go:264-292 | A sample's bucket name begins with its metric, node, tier and device, in this order; with no NUL in its fields and no '=' in a label name it parses to exactly the sample's own metric, node, tier, device and labels, whatever order the label map is walked in |
| SeriesKeys.KeyParts | internal/history/history.go:277-291 | The NUL-separated parts of such a name are those four fields and then name=value for each label, by ascending name |
| SeriesKeys.ParseSeriesKey | internal/history/history.go:294-306 | The loop over label parts computes the parse of the name; parts without '=' are ignored, later duplicates win |
| SeriesKeys.RoundTripIff | internal/history/history.go:264-306 | Parsing a printed name returns the same metric, node, tier, device and label map exactly when no field holds a NUL and no label name an '=' |
| SeriesKeys.KeysAreInjective | internal/history/history.go:264-292 | Two such series share a bucket name exactly when they are the same series |
| SeriesKeys.EqualsInNameMergesSeries | internal/history/history.go:285-290 | Without that condition two different series do share one |
| SeriesKeys.PrefixSelectsMetric | internal/history/history.go:198-214 | For a NUL-free metric the prefix test selects exactly the names whose parsed metric it is |
| SeriesKeys.NulMetricNeverMatches | internal/history/history.go:215-219 | A requested metric with a NUL is never the metric of a parsed name |
| SeriesKeys.MatchesFilter | internal/history/history.go:244-262 | A series passes exactly when its node is the filter's "node" and its device the filter's "device", where these are given, and for every other name its label has the filter's value, or is absent where that value is empty |
| Timestamps.DecodeEncode | internal/history/history.go:308-316 | Decoding an encoded instant gives its second back, for every int64 number of seconds, negative ones included |
| Timestamps.EncodeOrder | internal/history/history.go:41-43 | Byte order on keys is time order, to the second, at and after the epoch |
| Timestamps.PreEpochWraps | internal/history/history.go:199-207 | An instant before the epoch encodes above every instant at or after it |
| Bolt.PutMeaning | internal/history/history.go:171-173 | Put keeps the key order, holds the new pair, and leaves every other key as it was |
| Bolt.SeekMeaning | internal/history/history.go:226-231 | On an ordered bucket, everything from the seek position on is exactly the pairs not below the key |
| Bolt.DeleteBelow | internal/history/history.go:177-182 | The cursor loop leaves exactly the pairs not below the cutoff |
| History.Store.constructor | internal/history/history.go:76-89 | An opened store has no accumulators, no boundary yet, and the file's content |
| History.Store.Accumulate | internal/history/history.go:105-117 | Each allowlisted sample is added to its own series' sum and count; others are ignored |
| History.Store.Flush | internal/history/history.go:142-191 | Either every series with samples is flushed and pruned and the accumulators emptied, or an error leaves file and accumulators as they were; it is an error exactly when the fault lies at one of its writes, one per series with samples, or at commit |
| History.Store.FlushSeries | internal/history/history.go:167-182 | One series' bucket gets the mean at the stamp and loses what is past retention; no other bucket changes |
| History.Store.Ingest | internal/history/history.go:93-140 | One call moves accumulators, boundary and file as one step of the run does; it fails exactly when it passes a boundary and that flush's transaction does |
| History.LastBelow | internal/history/history.go:119-133 | The catch-up loop stops with the greatest boundary not after now passed last and the next one pending |
| HistoryRuns.Boundaries | internal/history/history.go:98-138 | For arbitrary, even decreasing clocks, the pending boundary is one interval past the greatest clock's; a call flushes, once, exactly when its clock enters a later period than all before, stamped with the greatest boundary not after it |
| HistoryRuns.Partition | internal/history/history.go:98-191 | Over any run, failed transactions included, the samples behind committed flushes followed by those in flight are the log of allowlisted samples: nothing lost, nothing twice |
| HistoryRuns.InFlight | internal/history/history.go:105-117 | The accumulators are exactly the sums and counts, per series, of the samples since the last committed flush |
| HistoryStored.StampsAreSpacedOut | internal/history/history.go:119-138 | Committed stamps lie between the first and the latest boundary, at least an interval apart |
| HistoryStored.FlushAddsPoint | internal/history/history.go:145-191 | A flush turns the retained part of all pairs so far into the retained part of those and the new one; while the cutoff lies before the epoch nothing is pruned |
| HistoryStored.FileReplaysLog | internal/history/history.go:93-191 | For every flush interval, retention, initial file and clock, failed transactions included, each bucket is its initial content with the means of the series' committed windows put and pruned flush by flush, and no other bucket exists |
| HistoryStored.FileAgreesWithLog | internal/history/history.go:93-191 | With an interval of at least a second, and clocks and file as listed below, that is an exact index of the plain log: its initial content and one mean per committed window with samples, nothing overwritten, as pruned at the series' latest flush |
| HistoryLaws.PointsAreMeans | internal/history/history.go:142-173 | The recorded values of a series are the means of its windows, in order |
| HistoryLaws.ValuesConserved | internal/history/history.go:98-191 | Each series' values in the order given are those behind its means, one window after the other, then those summed in its accumulator |
| HistoryLaws.AllowedMeaning | internal/history/history.go:105-108 | The log takes each sample by itself: an allowlisted one is in, any other is out |
| HistoryLaws.MeanMeaning | internal/history/history.go:171 | A window's mean times its size is its sum, and it lies between any bounds on its values |
| HistoryStored.NewestSurvivesFlush | internal/history/history.go:146-157 | For every ordered bucket, every retention that is not negative and every stamp, the mean just written survives the prune of its own flush |
| HistoryLaws.FreshFile | internal/history/history.go:93-191 | In the same setting and from an empty file, a series is on disk exactly when a committed flush covered it, and its bucket is exactly its points within retention of its own latest one |
| HistoryLaws.AtLeastASecondSuffices | internal/history/history.go:171 | With an interval of at least a second no retained point is overwritten, for any clocks |
| HistoryLaws.SubSecondOverwrites | internal/history/history.go:171 | With a shorter one a concrete run overwrites a point |
| HistoryLaws.NeverOverwritesIff | internal/history/history.go:98-191 | So points are never overwritten exactly when the interval is at least a second |
| HistorySilence.ClockRetentionIff | internal/history/history.go:163-182 | At any instant and over any initial file of the setting, a bucket holds something past retention by the clock exactly when one of the series' means, or of the pairs it started with, lies between the series' own last cutoff and the clock's |
| HistorySilence.FlushedSeriesIsClean | internal/history/history.go:142-144 | A series flushed at that very instant holds nothing past retention, whatever the file held at the start |
| HistorySilence.SilentSeriesKeepsOldPoints | internal/history/history.go:163-182 | For every interval and retention, a run in which a series sampled only in the first window keeps its point although another series is flushed more than retention later |
| HistoryQuery.Query | internal/history/history.go:193-242 | The cursor walk returns, for each bucket in name order that has the metric's prefix and passes the filter, its parsed identity and its pairs from the start position on |
| HistoryQuery.Walk | internal/history/history.go:224-233 | One bucket's cursor, started by First or Seek, visits exactly the pairs from there to the end |
| HistoryQuery.WalkIsFaithfulIff | internal/history/history.go:199-233 | For every instant with an int64 second, a bucket is answered with exactly its points from `since` on if and only if `since` is zero, not before the epoch, or the bucket is empty; otherwise the answer is empty |
| HistoryQuery.AnswerMembers | internal/history/history.go:209-236 | The answer has one entry per hit, in name order: its parsed identity and its pairs from the start position on |
| HistoryQuery.QueryMeaning | internal/history/history.go:193-242 | For a NUL-free metric, every `since`, and any file whose names can be parsed, the answer has exactly the buckets whose parsed metric is the one asked for and whose node, device and labels the filter's entries name, each once and in order, with exactly its points from `since` on, ascending; or with none when `since` is a non-zero instant before the epoch |
| HistoryQuery.QueryIsFaithfulIff | internal/history/history.go:199-207 | So every entry has exactly its bucket's points from `since` on if and only if `since` is zero, or not before the epoch, or nothing asked for is stored |
| HistoryQuery.SeriesMeaning | internal/history/history.go:193-242 | Where every bucket name is the printed identity of a well-formed series, those are exactly the stored series with this metric that match the filter |
| HistoryQuery.NulMetricQuery | internal/history/history.go:215-219 | With a NUL in the requested metric no returned series carries it: the canonical metric is reported |
| HistoryAnswers.StoredNamesAreKeys | internal/history/history.go:294-296 | After any run over any samples, every bucket name can be parsed |
| HistoryAnswers.StoredNamesAreGood | internal/history/history.go:264-268 | After a run over well-formed samples and an empty file, every bucket name is the printed identity of some well-formed series |
| HistoryAnswers.StoredBucketsAreGood | internal/history/history.go:41-43 | After any run in the setting, every bucket's keys are ordered instants at or after the epoch if they were so at the start |
| HistoryAnswers.MeansAgree | internal/history/history.go:105-117 | Over clean samples, the means stored under a series' name are those of the samples that agree with it on metric, node, tier, device and labels, window by window |
| HistoryAnswers.QueryAfterRun | internal/history/history.go:93-242 | From samples to answers: after any run in the setting over any readable file and any samples, a query returns exactly the buckets of its metric that match the filter and were there at the start or are covered by a committed flush, each with exactly what it should hold from `since` on, or nothing when `since` is non-zero and before the epoch |
| HistoryAnswers.SeriesAfterRun | internal/history/history.go:93-242 | Over an empty file and clean samples: a series is returned exactly when a committed flush covered samples with its metric, node, tier, device and labels and it passes the filter, with exactly the means of those samples within its retention from `since` on; and every entry carries the five fields of some allowlisted sample that was given |
| Range.DayOffsetExactIff | internal/httpapi/server.go:84-90 | The wrapping int64 product of a day count is exact up to 106751 days and for no larger count |
| Range.DaysRange | internal/httpapi/server.go:106-116 | "Nd" is accepted exactly for 1 to 36500 days and reaches back N times 24 hours |
| Range.DaysTextIff | internal/httpapi/server.go:106-113 | Any text ending in "d" is accepted, reaching back to t, exactly when it is a day count of 1 to 36500 in decimal digits, a plus sign allowed, and t lies that many days back |
| Range.DurationTextIff | internal/httpapi/server.go:114-118 | Any other text is accepted, reaching back to t, exactly when ParseDuration reads it as the time from t to now, and that is positive and at most 36500 days |
| Range.AcceptedRanges | internal/httpapi/server.go:100-122 | Empty means no lower bound; every other accepted range reaches back more than nothing and at most 36500 days |
| Range.LastDaysQueryIff | internal/httpapi/server.go:100-122 | A query for the last N days returns each series with exactly its points of those days if and only if they do not reach before 1970 or nothing asked for is stored; when they do, every series comes back without a point |
| Range.LongestRangeHidesAll | internal/httpapi/server.go:92-116 | The longest accepted range, asked for in 2026, returns every series without a point although all its points lie within that range |
| XidPipeline.LifecycleStep | internal/collector/gpu_nvml.go:99-135 | Every step of every goroutine keeps the lifecycle invariant of done, stopped, the Once and both channels |
| XidPipeline.ShutdownIsSafe | internal/collector/gpu_nvml.go:237-251 | In every interleaving with any number of Close calls: no channel is closed twice or sent on when closed, nor is one about to be; Free and Shutdown happen at most once and only after the watcher is gone; a returned Close has released NVML |
| XidPipeline.PanicIff | internal/collector/gpu_nvml.go:106-135 | The one flag those results rest on is raised by exactly the steps that close a closed channel or send on one |
| XidShutdown.WaitsInTurn | internal/collector/gpu_nvml.go:117 | Wait is called before it returns, and one call at a time |
| XidShutdown.AtMostOneLateWait | internal/collector/gpu_nvml.go:110-117 | After done is closed Wait is called at most once more, and only if the watcher had passed its poll |
| XidShutdown.WatcherIsHeldUpIff | internal/collector/gpu_nvml.go:110-134 | Only a send that no one receives holds the watcher up, and only until done is closed; Wait may return anything |
| XidPipeline.XidOrder | internal/collector/gpu.go:71-90 | In every reachable state the events made so far report, in order and numbered 1, 2, 3, the XIDs sent; every XID waited for was sent except at most the last, lost only to a shutdown; once the event channel is closed (for when it is, see XidShutdown.ForwarderShutdown and EventsCloseIff) all XIDs sent have been handed over |
| XidPipeline.XidEventsAreDistinct | internal/collector/gpu.go:65-68 | No two XID events handed to the agent share an identity |
| XidShutdown.XidStamps | internal/collector/gpu.go:199-214 | The n-th event is stamped with the clock reading the forwarder took for it |
| XidShutdown.DeliveredInTurn | internal/agent/agent.go:124-147 | The drain delivers one event after the other: all received but the last are delivered, and the last too unless the drain is at it |
| XidShutdown.DrainHolds | internal/agent/agent.go:96-102 | Only a cancelled context or the end of the events ends the drain |
| XidShutdown.TailFalls | internal/collector/gpu.go:83-88 | With the XID channel closed each step of forwarder or drain lowers a rank of at most 7, and no other step changes it |
| XidShutdown.ForwarderShutdown | internal/collector/gpu.go:71-90 | From every reachable state with the XID channel closed, forwarder and drain take at most 7 further steps; when they can take none the drain is gone, and the forwarder is gone with the event channel closed, unless the context was cancelled and the drain left an event in its hand |
| XidShutdown.QuietTail | internal/agent/agent.go:124-147 | Wherever forwarder and drain come to rest: a drain that is not gone waits for an event that may still come; a forwarder that is not gone waits for an XID that may still come, or holds an event with the drain gone |
| XidShutdown.EventsCloseIff | internal/collector/gpu.go:71-90 | From any state of the protocol some continuation closes the event channel if and only if a Close call has been or can be made, and the drain is there or the forwarder has no XID or event in hand |
| XidShutdown.DrainLeavesEvent | internal/collector/gpu.go:71-90 | The exception is real: a concrete run, cancelled while an event waits for the drain, after which the event channel stays open for good |
| XidShutdown.CompleteRun | internal/collector/gpu_nvml.go:243-251 | A concrete run with one XID delivered, all channels closed, all goroutines gone and NVML released |
| XidPipeline.RankFalls | internal/collector/gpu_nvml.go:110-134 | After done is closed every watcher or closer step lowers a rank and no other step changes it |
| XidPipeline.CloseIsNeverStuck | internal/collector/gpu_nvml.go:129-133 | While a Close is pending some step is enabled that needs neither the forwarder nor the agent |
| XidShutdown.CloseCanReturn | internal/collector/gpu_nvml.go:243-251 | Whatever has happened so far, every Close call can still be made and return |
| XidPipeline.ShutdownTerminates | internal/collector/gpu_nvml.go:237-251 | After done is closed at most 7 + 6·closers further watcher and closer steps happen, and when no unaided one is left every Close called has returned and the watcher is gone |
| XidPipeline.AtMostOneLateSend | internal/collector/gpu_nvml.go:240-242 | After done is closed at most one more XID is sent, in every continuation |
| XidPipeline.LateSendHappens | internal/collector/gpu_nvml.go:240-242 | A concrete run in which done is closed and the send is still enabled |
| XidPipeline.SendAfterStopIff | internal/collector/gpu_nvml.go:110-134 | With done closed, some continuation sends another XID if and only if the watcher has passed its poll of done without having sent yet, and the forwarder is receiving or the drain is still there |
| Backoffs.WindowExactIff | internal/queue/queue.go:22-34 | An attempt's window is min(Max, Base·2^attempt) exactly unless the product left int64 and wrapped to something strictly between zero and Max |
| Backoffs.WindowIsIdeal | internal/queue/queue.go:15-34 | If doublings up to Max stay below 2^63 times Base, every attempt gets exactly that window |
| Backoffs.OverflowShrinksWindow | internal/queue/queue.go:29-32 | With a base of 2^40 + 1 and a cap of 2^41, attempt 24 gets 2^24 instead of the cap that attempt 23 got |
| Backoffs.AgentBackoffIsSafe | internal/agent/agent.go:36 | 500 ms up to 30 s meets the condition |
| Backoffs.WindowGrows | internal/queue/queue.go:20-34 | Windows never shrink from one attempt to the next and never exceed Max |
| Backoffs.ForWithinWindow | internal/queue/queue.go:20-34 | For jitter in [0,1] the delay lies between zero and the ideal window |
| Backoffs.ForIsExact | internal/queue/queue.go:20-34 | The delay is the drawn fraction of min(Max, Base·2^attempt), cut to whole nanoseconds |
| Backoffs.NegativeIsFirst | internal/queue/queue.go:23-25 | A negative attempt counts as attempt 0 |
| Backoffs.SleepBound | internal/queue/queue.go:47-53 | n sleeps take at most Base·(2^n - 1) and at most n·Max in all |
| Backoffs.SleepBoundIsTight | internal/queue/queue.go:47-53 | Drawn in full and below the cap, n sleeps take exactly Base·(2^n - 1) |
| Delivery.ArrivalsMeaning | internal/sink/webhook.go:77-102 | The arrival count of an attempt is the one number k for which all before the k-th POST were acknowledged, the k-th arrived, and the next one, if any, was lost or never made |
| Delivery.Receiver.EmitEvents | internal/sink/webhook.go:77-102 | The poster adds exactly the arriving prefix of the batch to the receiver's log and returns nil exactly when every POST was acknowledged |
| Delivery.AttemptsShape | internal/queue/queue.go:46-59 | Attempts run until the limit, a success or a cancellation; each starts uncancelled and sends its own prefix; only the last can succeed, and then it sent everything |
| Delivery.SuccessIff | internal/queue/queue.go:39-60 | Delivery returns nil exactly when some attempt within the limit is acknowledged in full and nothing was cancelled up to it |
| Delivery.Receiver.DeliverWithRetry | internal/queue/queue.go:39-60 | The loop adds exactly the traffic of those attempts to the log, returns nil exactly on success, and sleeps between attempts for the backoff's delays |
| Deduplication.DedupMeaning | internal/model/model.go:54-55 | Keeping first occurrences leaves each ID once, loses none, and keeps of each the first event that carried it |
| Deduplication.DedupFreshIff | internal/sink/webhook.go:89 | New events are kept untouched, all and in order, exactly when their IDs are distinct and unseen |
| DeliveryRuns.ReplayKeeps | internal/queue/queue.go:46-58 | However often a batch is re-posted from its start, a deduplicating receiver ends with the farthest attempt's prefix |
| DeliveryRuns.RetryKeepsPrefix | internal/queue/queue.go:39-60 | Any retry pattern is worth sending one prefix once; after a success that prefix is the whole batch |
| DeliveryRuns.RetryIsExactIff | internal/queue/queue.go:39-60 | After a success the receiver has gained exactly the batch, in order, exactly when the batch's IDs are distinct and new to it |
| DeliveryRuns.RunKeepsPrefixes | internal/agent/agent.go:57-71 | Over a run of batches the receiver keeps what sending one prefix of each would leave |
| DeliveryRuns.RunIsOrdered | internal/agent/agent.go:57-71 | With distinct IDs over the run, the receiver ends with those prefixes in order, nothing twice, even where deliveries failed |
| DeliveryRuns.EvaluatedConcat | internal/agent/agent.go:57 | The batches returned tick by tick are together the engine's output on all samples at once |
| DeliveryRuns.SamplesToSubscriber | internal/agent/agent.go:40-72 | With no shared condition, clean names and no digest collision, successful deliveries with any retry pattern leave a deduplicating receiver with exactly the engine's events for all samples, each once, in order |
| AgentLoop.ActionBalances | internal/agent/agent.go:61-71 | Each action of a process moves an event between counted, in hand, delivered and lost without creating or losing one |
| AgentLoop.ConservedStep | internal/agent/agent.go:130-144 | Every step of every process keeps the books of all sinks and all drop counters balanced |
| AgentLoop.Conservation | internal/agent/agent.go:57-71 | In every reachable state, for every sink and event: counted = delivered + dropped + still in some process's hand; and each drop counter is the sum of the losses of the sinks that share its label |
| AgentLoop.CountersAtRest | internal/sink/metrics.go:47-54 | When all processes are idle, a label's drop counter is what was counted and not delivered, summed over the sinks with that label |
| AgentLoop.Honesty | internal/sink/metrics.go:56-72 | Nothing reaches a receiver before it is counted, and what a sink's deliveries returned nil for has reached its receiver |
| AgentLoop.DropCounterBoundsLoss | internal/sink/metrics.go:26-31 | Under any interleaving in which each event is counted once under an ID of its own, a deduplicating receiver holds every event delivered and only events counted; at rest it misses no more events than its sink lost |
| AgentLosses.BooksHold | internal/agent/agent.go:64-71 | In every reachable state, what a sink has delivered and lost are the batches of its past deliveries that returned nil and an error |
| AgentLosses.ArrivedIff | internal/sink/webhook.go:77-102 | At rest, a receiver has seen an event exactly when some past delivery's farthest attempt reached it |
| AgentLosses.MissingAtRest | internal/sink/metrics.go:26-31 | At rest, where each event is counted once under an ID of its own, a deduplicating receiver misses exactly as many events as its failed deliveries did not get through; that is its sink's loss exactly when no failed delivery got anything through |
| AgentLosses.DropCounterExactIff | internal/sink/metrics.go:47-54 | Likewise a label's drop counter is never below what the receivers behind it miss, and equals it exactly when no failed delivery to any of them got anything through |
| AgentProgress.NeverStuck | internal/agent/agent.go:64-71 | In every reachable state every process that is not idle can act |
| AgentProgress.NextMoveIff | internal/queue/queue.go:46-59 | What a busy process does next is forced, the network's answers aside: below five failed attempts one more, or an end if the context is cancelled; at five, giving up. An idle one can begin any batch of its kind |
| AgentProgress.RankFalls | internal/queue/queue.go:46-58 | Every action of a process but the beginning of a batch lowers its rank: the steps its sinks, attempts and events left can take |
| AgentProgress.DeliveryTerminates | internal/agent/agent.go:57-71 | From every reachable state, whatever the others do, a busy process takes at most 2 + events + sinks·(5·(events + 2) + 3) further steps on its batch; it can act while it is not idle, and is idle once it has taken them all |
| AgentOrder.DeliveryIsRetry | internal/queue/queue.go:39-60 | Every delivery the concurrent processes finish made exactly the attempts, and ended as, the retry loop does under the answers recorded for its attempts and a context cancelled after the last of them; when that was and how many they were is AgentLimits.ErrorsAreEarned |
| AgentLimits.ErrorsAreEarned | internal/agent/agent.go:64-71 | In every reachable state, a delivery that returned an error made five attempts, none of them acknowledged in full, or fewer and the context is cancelled; one that returned nil had at most four failing ones and then one acknowledged in full |
| AgentLimits.NoAttemptAfterCancel | internal/queue/queue.go:46-49 | Once the context is cancelled no process starts another attempt |
| AgentLimits.BatchSizes | internal/agent/agent.go:124-147 | No batch is empty, and a drain's are single events |
| AgentOrder.TrackedStep | internal/agent/agent.go:64-71 | Every step of every process keeps: what a process got through to a receiver is the traffic of its finished deliveries, in order, and of the one it is at |
| AgentOrder.InTurnHolds | internal/agent/agent.go:124-147 | In every reachable state each sink has had, or is still owed, exactly the batches a process has begun, in their order |
| AgentOrder.DedupOfIds | internal/model/model.go:54-55 | Deduplicating a log and then picking a set of IDs is picking them first and deduplicating then: other processes' events do not interfere |
| AgentOrder.FromOwnHolds | internal/agent/agent.go:64-71 | In every reachable state, whatever arrived at a receiver was in a batch begun by the process that posted it |
| AgentOrder.OngoingKeeps | internal/queue/queue.go:46-58 | For a deduplicating receiver an unfinished delivery, too, is worth sending one prefix once |
| AgentOrder.OrderUnderConcurrency | internal/agent/agent.go:57-71 | In every reachable state, for a process whose batches carry distinct IDs that no other process begins, a deduplicating receiver holds of its events exactly one prefix of each batch it is done with, in order, then the farthest prefix of the batch in hand; a batch whose delivery returned nil is whole |
| Subscriber.SourcesHaveOwnIds | internal/collector/gpu.go:193-214 | With no digest collision, NUL-free names and no rule on the XID condition, no engine event shares an ID with an XID event |
| Subscriber.ProcessesHaveOwnIds | internal/agent/agent.go:91-119 | Then, when rules share no condition on a common device either, the batches of tick and drain carry distinct IDs, each process its own |
| Subscriber.HardwareToSubscriber | internal/agent/agent.go:40-147 | Under the same hypotheses, in every reachable state: where every delivery of the engine's events to a sink has returned nil, its receiver's deduplicated log has of their IDs exactly the engine's output on all samples, each once, in order; the same for the XID events begun, the n-th of which reports the n-th XID the watcher sent; and it holds no other event |
| Quantity.ReadIff | internal/ksmcompat/quantity.go:61 | Reading inverts printing: a text is read as a numeral exactly when it is that numeral's text, so no text has two readings |
| Quantity.CutIsUnique | internal/ksmcompat/quantity.go:42-59 | A text can be cut into something that ends in a digit or point and a known suffix in one way only |
| Quantity.QuantityIsUnambiguous | internal/ksmcompat/quantity.go:8-59 | Equal texts of numeral and suffix have equal numerals and equal suffixes: "Mi" is never "M", no exponent digit is taken for a suffix |
| Quantity.ValueMeaning | internal/ksmcompat/quantity.go:61 | A numeral's value is its whole part plus its fraction, times ten to its exponent, negated by a minus sign |
| Quantity.SuffixMeaning | internal/ksmcompat/quantity.go:15-30 | The 14 suffixes: thousands, powers of 1024, and the one that divides by a thousand |
| Quantity.ParseQuantity | internal/ksmcompat/quantity.go:37-66 | Over decimal numerals, the result is v exactly when the text is a numeral followed by one of the 14 suffixes and v is the numeral's value times the multiplier; every other text is an error |

## Left out

- HistoryStored.FileAgreesWithLog: the closed form needs a flush interval of at least a second, a retention that is not negative, clocks that start at or after the epoch and stay below the int64 limit, and a file older than the first boundary; without these `HistoryStored.FileReplaysLog` still says what is on disk. The lemmas of `HistoryLaws`, `HistorySilence` and `HistoryAnswers` about what a run leaves on disk share this setting.
- HistoryAnswers.SeriesAfterRun: samples have NUL-free fields and label names without '=', and the file is empty at the start; `HistoryAnswers.QueryAfterRun` has neither restriction.
- AgentLosses.MissingAtRest: counts events each recorded once under an ID of its own; where IDs repeat, a deduplicating receiver cannot tell them apart.
- XidShutdown.ForwarderShutdown: bounds the steps of forwarder and drain; that the scheduler lets them take these, and that a delivery returns, is assumed here (the latter is `AgentProgress.DeliveryTerminates`).
- AgentProgress.DeliveryTerminates: bounds a process's own steps; that the scheduler lets it take them, and that a POST returns, is assumed of Go and the network.
- HistoryRuns.Boundaries: the first clock is not before Go's zero time, where the zero value would no longer mean "not set"; the flush interval is positive, since the catch-up loop does not end otherwise.
- Backoffs.WindowIsIdeal: a sufficient condition on the setting; the exact condition per attempt is `Backoffs.WindowExactIff`. Base is at least 1 and Max is not negative.
- DeliveryRuns.SamplesToSubscriber: one process delivering its batches in turn; `Subscriber.HardwareToSubscriber` is the statement with a drain beside it.
- AgentOrder.OrderUnderConcurrency: the order between events of different processes is not fixed by the code and not stated.
- Subscriber.HardwareToSubscriber: one drain process, since the GPU collector is the only event source; `AgentOrder.OrderUnderConcurrency` holds for any number.
- AgentLoop.Conservation: the metrics sink is always present, and counters do not round at 2^53.
- Quantity.ParseQuantity: `strconv.ParseFloat` over decimal numerals only; "Inf", "NaN", hexadecimal forms and range errors are not modelled.
- Floating point: sample values, means, jitter and quantities are reals.
- Accumulators are map values, not objects behind pointers, so aliasing between them is not expressible; device and rule states are objects.
- Buckets are sequences updated as values inside a transaction; bbolt's pages, key size limits and the cursor's internals are not part of this model, and `DeleteBelow` relies on Delete followed by Next visiting the following pair.
- Fatal errors inside a transaction are one fault position per flush; a failing read transaction is not modelled.
- Integer counters (runs, sequence numbers, sample counts) do not overflow.
- The kind tag of a sample, event time zones, and the entries of the XID table.
- Restarts: an engine starts with number 1 again, and reopening a history file with an earlier clock is covered only while its content is older than the first boundary.
- `time.ParseDuration` and the response size limit of the history endpoint.
- TLS, HTTP, JSON, signatures, configuration loading, the Prometheus exposition, the compatibility exporters and the procfs, NVML and SMART readers: input and output over libraries.
