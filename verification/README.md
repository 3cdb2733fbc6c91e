# A verified model of the health monitor

The health monitor watches services, takes in alerts over a webhook, opens and
updates incidents for them, stores incidents in files, finds similar past
incidents, discovers services and their metrics, and groups services into flows.
This project models the parts of it that compute, decide or coordinate, and
proves what they promise. `dafny verify dfyconfig.toml` checks it
(Dafny 4.11).

## What is modelled

* **Similar incidents** (`edit_distance.dfy`, `similarity.dfy`, `fix_groups.dfy`).
  The edit distance is specified as the least cost over all scripts of insertions,
  deletions and substitutions; the nested matrix loops are proved to compute it, and
  the metric laws are proved of it. On top of it stand the comparisons of names,
  dependencies, signatures and patterns, the weighted score with its decay, the
  fallback score, the grouping of incidents that were fixed the same way, and the list
  that is shown of them.
* **Alert intake** (`rate_limiter.dfy`, `fingerprint_cache.dfy`, `fingerprint_key.dfy`,
  `key_collisions.dfy`, `alert_effects.dfy`, `alert_outcomes.dfy`, `alert_processor.dfy`,
  `alert_pool.dfy`, `intake_counters.dfy`, `concurrent_calls.dfy`).
  The token bucket refuses a request exactly when some time window would overflow.
  The pruned deduplication cache answers like one that forgets nothing. The text
  behind a fingerprint can be read back. `processAlert` and `apply` are methods on
  counters, a cache and an incident service whose answers are arbitrary; `Process`, alone or
  beside any number of other calls, is a state machine over the rendezvous on its channels,
  its closes, its wait group and the atomic regions of `processAlert`.
* **The incident store** (`incident_store.dfy`, `incident_listing.dfy`). Files in year
  and month directories beside files in the store's own directory refine a map from id
  to incident, over any run of saves; the merged listing has every incident once.
* **Supporting cores.** The probe pool of service discovery (`probe_pool.dfy`), the
  metric queries and the reader of metric names (`metric_queries.dfy`), the watcher of
  flow files (`flow_watcher.dfy`), the loading of flows (`flow_catalog.dfy`) and the
  state of flows under active incidents (`flow_status.dfy`).
* `text.dfy` and `sorting.dfy` are the string and sorting calls of Go's library that
  the others use; `collections.dfy` holds optional values, sums and sequences without repetition.

Text is a sequence of bytes, letters and white space are the ASCII ones, `float64` is
`real`, instants are integers (nanoseconds) or, for the token bucket, real seconds.
Where Go iterates over a map, the model picks elements in any order.

## What turned out not to hold

* `Store.Save` on a directory that was not given in clean form (`"data/"`, say) removes
  the file it has just written when the incident has no year and month directory:
  `filepath.Dir` of the path differs in spelling from the directory, so the path is
  taken for a partitioned one. `IncidentStore.SaveRefines` says exactly when, and
  `UncleanDirectoryLosesIncident` shows one. `NewStore` and `NewStoreForProfile` always give a
  clean path, so this needs a direct call of the exported `NewStoreWithDir`, which in the
  repository only tests make.
* Removing the old root copy may fail silently; then the id keeps two copies.
  `IncidentStore.SaveKeepsNoDoubles` says exactly when.
* `SaveMetadata` loads and saves under two separate holds of the lock; what was saved in
  between is lost. `IncidentStore.MetadataSavedExactly` says exactly when, and
  `SaveInBetweenIsLost` that any change of more than metadata is.
* The listing is not always what Load gives. A store whose own directory is called
  `lifecycle`, `predictions` or `seeds` lists only its root files, because the walk skips a
  directory of that name even when it starts there: incidents are missing or, with two
  copies, shown as the root copy has them (`IncidentListing.SpecialNameShowsOlderCopy`, for
  instance `SeedsShowsOlderCopy`). This too needs a direct call of `NewStoreWithDir`: the other
  constructors' directories are called `incidents`.
  And a file named by a blank id is listed although Load refuses the id.
  `IncidentListing.ReachesAllExactly` and `ListsLoadsExactly` say exactly when.
* The list of similar incidents is cut off after the groups come out of a map in any order, so
  it may show less confident entries and leave more confident ones out.
  `FixGroups.ShowsBestExactly` says exactly when it cannot.
* The alert counters stay consistent under a reset exactly if no alert is in flight when
  it begins. `IntakeCounters.ResetSafeExactlyWhenQuiet`.
* The cache forgets a key too early when a later reading is used before an earlier one:
  the clock is read before the lock is taken. `FingerprintCaching.SlipsThroughExactly` says
  exactly when a repetition slips through, `LateReadingSlipsThrough` shows one.
* Two different alerts can share a key when a value holds `|`. `KeyCollisions.SameKeyExactly`
  says exactly when any two do: when their names, services and fields, cut at their bars, are
  the same pieces in the same order. `SharedKeyExactly` and `CollidesExactly` are the case of
  one side whose labels can be read back. `BarCollides` gives a partner for any alert with two
  adjacent labels, and `OneKeyNeitherReadable` pairs in which neither side can be read back,
  for instance that of `FooPair`.
* `apply` guards some uses of the counters against nil and not others: a processor
  without counters panics exactly when an alert must be counted, after its incident was
  opened or one that was there perhaps escalated. `AlertProcessing.Processor.Apply`, `AlertEffects.PanicLeaves`.
* The warnings of the active-incident look-up are reported twice.
  `AlertEffects.ServiceWarningsReported`.
* The name of a metric is read back wrongly from a total query when the service itself
  holds `rate(`, something, and `[`. `MetricQueries.SelectorRoundTrip` says exactly when.
* The fallback score is not symmetric: an old pair of incidents of one service scores
  differently when only one of them was analysed. `Similarity.FallbackSymmetricExactly`
  says exactly when; within the default 90 days the cap hides it
  (`RecentFallbackIsCapped`), and no fallback score, being at most 0.5, reaches the default
  minimum confidence of 0.6.
* A pool without a positive number of workers probes nothing and returns no results.
  `ProbePool.ProbeReturnsAll`.
* The incidents listed for a flow compare services untrimmed, its status and count
  trimmed. `FlowStatus.ListedAtMostCounted` says exactly when they are as many.

## Model

| member | source | states |
|---|---|---|
| EditDistance.LevenshteinDistance | internal/incident/similarity.go:376-408 | the method, with its early returns for empty strings, yields the least cost over all edit scripts from s1 to s2: a script of that cost exists and none is cheaper |
| EditDistance.FillMatrix | internal/incident/similarity.go:384-405 | after the nested loops every cell holds the distance of the two prefixes |
| EditDistance.DistanceIsLeast | internal/incident/similarity.go:376-408 | the tabulated distance is the minimum over all edit scripts |
| EditDistance.Achieved | internal/incident/similarity.go:394-405 | a script of exactly the cell's cost turns one prefix into the other |
| EditDistance.NoneCheaper | internal/incident/similarity.go:394-405 | no script turning one prefix into the other costs less than the cell |
| EditDistance.ZeroIffEqual | internal/incident/similarity.go:376-408 | the distance is zero exactly when the strings are equal |
| EditDistance.Symmetric | internal/incident/similarity.go:376-408 | the distance is symmetric |
| EditDistance.TriangleInequality | internal/incident/similarity.go:376-408 | the distance obeys the triangle inequality |
| EditDistance.Compose | internal/incident/similarity.go:376-408 | two scripts one after the other are one script that costs no more |
| EditDistance.Bounds | internal/incident/similarity.go:376-408 | the distance lies between the difference of the lengths and the longer length |
| Similarity.CompareComponents | internal/incident/similarity.go:97-133 | a score is 0 or above 0.7 and at most 1 |
| Similarity.CompareComponentsFull | internal/incident/similarity.go:97-133 | the score is 1 exactly when both names are given and agree trimmed and lower-cased |
| Similarity.CompareComponentsMatch | internal/incident/similarity.go:97-133 | the score is positive exactly for equal names, aliases, one name within the other, or fewer than three edits per ten characters |
| Similarity.ComponentWorth | internal/incident/similarity.go:97-133 | what each match is worth: 1 for equal names, 0.95 for two names of one service, 0.9 for one name within the other, else the share of the longer name that needs no edit if above 0.7 |
| Similarity.NotifierMatched | internal/incident/similarity.go:110-143 | in the program's own table the notifier and the notification service score 0.95 |
| Similarity.AliasesOfOneService | internal/incident/similarity.go:135-183 | in the program's own table an alias of an alias is the same name or an alias |
| Similarity.CompareComponentsSymmetric | internal/incident/similarity.go:97-183 | the comparison, aliases included, is symmetric |
| Similarity.CompareDependenciesFull | internal/incident/similarity.go:186-211 | the score is 1 exactly when the texts agree or both ends of the two edges do |
| Similarity.DependencyWorth | internal/incident/similarity.go:186-211 | different edges are worth seven tenths of their targets' match and three tenths of their sources', anything else nothing |
| Similarity.CompareDependenciesSymmetric | internal/incident/similarity.go:186-211 | the comparison of dependencies is symmetric |
| Similarity.CompareErrorSignatures | internal/incident/similarity.go:214-232 | the score is 0, 0.8 or 1; 1 exactly when both are given and agree folded, and positive exactly when one is within the other |
| Similarity.ExtractTerms | internal/incident/similarity.go:265-284 | the loop collects exactly the terms of the pattern |
| Similarity.TermsAreKeptWords | internal/incident/similarity.go:265-284 | the terms are the maximal runs of non-space characters of the lower-cased pattern, stripped of punctuation, longer than two and no stop words |
| Similarity.PatternSimilarity | internal/incident/similarity.go:235-262 | the method computes the Jaccard index of the two term sets |
| Similarity.CountShared | internal/incident/similarity.go:248-254 | the counting loop counts the intersection, whatever the order of iteration |
| Similarity.JaccardCounted | internal/incident/similarity.go:255-261 | the union counted by sizes is the union's size, so the quotient is the Jaccard index |
| Similarity.JaccardFull | internal/incident/similarity.go:235-262 | the index is 1 exactly for equal non-empty term sets |
| Similarity.JaccardExceeds | internal/incident/similarity.go:235-262 | the index exceeds so many tenths exactly when the shared terms are more than so many tenths of all terms |
| Similarity.JaccardSymmetric | internal/incident/similarity.go:235-262 | the index is symmetric |
| Similarity.TimeDecayBounds | internal/incident/similarity.go:287-302 | decay keeps between 0.7 and 1 times the score: all of it up to 30 days, 0.7 of it from 180 days on |
| Similarity.TimeDecayAntitone | internal/incident/similarity.go:287-302 | an older incident never keeps more |
| Similarity.DecayIsLinear | internal/incident/similarity.go:287-302 | from day 30 to day 180 a score loses a five hundredth of itself a day |
| Similarity.CalculateSimilarity | internal/incident/similarity.go:37-94 | the score is the decayed weighted sum of the five comparisons and lies in [0, 1]; the matched names are those over their thresholds, in fixed order; nil gives nothing; without an analysis score and names are the fallback's, at most 0.5 |
| Similarity.Accumulate | internal/incident/similarity.go:48-91 | the branches accumulate the full weighted sum and the matched names |
| Similarity.RawScoreWeights | internal/incident/similarity.go:48-91 | the five comparisons count 30, 25, 20, 15 and 10 percent |
| Similarity.MatchedMeans | internal/incident/similarity.go:48-91 | when each name is reported: equal, alias or contained components or fewer than two edits per ten characters; equal categories; more than six tenths of the terms shared; dependencies above eight tenths; equal signatures |
| Similarity.RawScoreSymmetric | internal/incident/similarity.go:37-94 | the score before decay is symmetric |
| Similarity.RawScoreRange | internal/incident/similarity.go:37-94 | the score before decay lies in [0, 1] and is 1 exactly when all five comparisons agree in full |
| Similarity.RawScoreSelf | internal/incident/similarity.go:37-94 | an incident scores 1 against itself exactly when its five fields are filled and its pattern has a kept term |
| Similarity.FallbackSimilarity | internal/incident/similarity.go:305-373 | the evidence, weighted, decayed and capped at 0.5, and exactly which of the four names are reported, in order |
| Similarity.FallbackWorth | internal/incident/similarity.go:305-361 | what each piece of evidence pays when an analysis is missing |
| Similarity.FallbackMatchedMeans | internal/incident/similarity.go:305-361 | when each of the four names is reported, in numbers of shared terms |
| Similarity.EvidenceSymmetricExactly | internal/incident/similarity.go:305-361 | the fallback evidence is the same from both sides exactly when the services differ, both have an analysis, or neither has |
| Similarity.FallbackSymmetricExactly | internal/incident/similarity.go:305-373 | at equal ages the fallback score is the same from both sides exactly in that case or when both sides are capped |
| Similarity.RecentFallbackIsCapped | internal/incident/similarity.go:287-373 | within 90 days two incidents of one service, one of them analysed, score one half from both sides |
| Similarity.FallbackNotSymmetric | internal/incident/similarity.go:305-373 | two incidents of one service, 180 days old, that score 0.42 one way and 0.49 the other |
| FixGroups.GroupByFix | internal/incident/similarity.go:464-507 | on every path, early returns included, no two entries have the same fix, every incident has an entry with its fix, and each entry is the first incident created last among those with its fix with the number of the others noted; the list comes back unchanged exactly when no two incidents share a fix |
| FixGroups.SameFixSameGroup | internal/incident/similarity.go:472-480 | two incidents share a group exactly when their fix summaries agree trimmed and lower-cased, or neither has one that is not blank or the literal that stands for none |
| FixGroups.GroupingMeans | internal/incident/similarity.go:464-507 | any grouping, told from the fix summaries and creation times alone |
| FixGroups.BuildGroups | internal/incident/similarity.go:469-481 | the grouping loop files each incident under its fix, in order |
| FixGroups.Represent | internal/incident/similarity.go:488-506 | so does the rebuilding loop, in whatever order the map is iterated |
| FixGroups.EntryIsMostRecent | internal/incident/similarity.go:493-504 | the representative is an incident with that fix, none of which was created later, with only the note added |
| FixGroups.NoteTellsCount | internal/incident/similarity.go:502-503 | the note's text determines the extra count |
| FixGroups.Conservation | internal/incident/similarity.go:464-507 | the sum over the outputs of 1 plus the noted extra count is the number of incidents |
| FixGroups.ShowsBestExactly | internal/incident/service.go:1606-1618 | the sorted, grouped and cut-off list holds the most confident entries, whatever order the map is iterated in, exactly when no fix is shared, nothing is cut off, nothing is left, or all entries are equally confident |
| FixGroups.BestLeftOut | internal/incident/service.go:1612-1618 | otherwise some iteration order leaves out an entry more confident than one shown |
| FixGroups.TopSimilar | internal/incident/service.go:1606-1618 | what is shown is the first entries of a grouping of the sorted incidents, with the most confident ones under that guard; a negative limit panics |
| FixGroups.NothingToGroup | internal/incident/similarity.go:484-486 | when no two incidents share a fix the list is its own grouping |
| RateLimiting.RateLimiter.constructor | internal/alert/ratelimit.go:16-26 | a full bucket, with the burst defaulting to the rate |
| RateLimiting.RateLimiter.Allow | internal/alert/ratelimit.go:28-46 | a request is refused if and only if admitting it would push some window ending now above burst + rate * length |
| RateLimiting.AllowAny | internal/alert/ratelimit.go:28-31 | a nil limiter admits everything |
| RateLimiting.EveryWindowBounded | internal/alert/ratelimit.go:28-46 | every window of any run admits at most burst + rate * length requests |
| RateLimiting.FullWhenEmpty | internal/alert/ratelimit.go:41-43 | less than one token is left exactly when some window is full |
| RateLimiting.RefillMeters | internal/alert/ratelimit.go:34-40 | refilling and capping keep the level equal to the least room any window has left |
| RateLimiting.SpendMeters | internal/alert/ratelimit.go:44-45 | spending a token keeps it so |
| FingerprintCaching.FingerprintCache.Seen | internal/alert/handler.go:663-677 | a look-up answers whether the key has an entry within the ttl, and leaves the pruned entries with the key's renewed if it was not a duplicate |
| FingerprintCaching.FingerprintCache.Prune | internal/alert/handler.go:679-688 | the deleting loop keeps exactly the entries within the ttl, and all of them for a ttl of zero or less |
| FingerprintCaching.PruningForgetsNothing | internal/alert/handler.go:663-688 | for ordered readings the pruned cache answers like a never-pruned record of all accepted times |
| FingerprintCaching.NeverSpurious | internal/alert/handler.go:663-688 | whatever the clock does, a refused look-up repeats an accepted one within the ttl |
| FingerprintCaching.RefusedExactly | internal/alert/handler.go:663-688 | for readings in any order a look-up is refused exactly when some look-up of its key stands, accepted last and outlived by no reading since, that was accepted within the ttl |
| FingerprintCaching.SlipsThroughExactly | internal/alert/handler.go:663-688 | for readings in any order a look-up is accepted exactly when every look-up of its key accepted within the ttl was followed by a reading that outlived it |
| FingerprintCaching.EntryStands | internal/alert/handler.go:663-688 | a key has an entry exactly when a look-up stands for it, and the entry is its time |
| FingerprintCaching.LateReadingSlipsThrough | internal/alert/handler.go:663-688 | three look-ups of which the last is accepted although its key was accepted within the ttl |
| FingerprintCaching.NothingStale | internal/alert/handler.go:669-688 | after each call every stored entry is within the ttl of its reading |
| FingerprintCaching.AcceptedFarApart | internal/alert/handler.go:663-688 | accepted look-ups of one key are more than the ttl apart |
| FingerprintCaching.WindowAccepts | internal/alert/handler.go:663-688 | a window of length L accepts a key at most floor(L / ttl) + 1 times |
| FingerprintCaching.ExactlyOnePasses | internal/alert/handler.go:663-688 | of look-ups read within one ttl of each other, in any order, exactly one passes for a key without a live entry |
| FingerprintCaching.TheOneThatPasses | internal/alert/handler.go:663-688 | which one it is, and that there is no other |
| FingerprintKeys.HashInput | internal/alert/handler.go:630-645 | collecting, sorting and writing the keys yields a text that depends on the label map alone |
| FingerprintKeys.FingerprintKey | internal/alert/handler.go:618-628 | an explicit fingerprint wins; otherwise name and service are required and the text is hashed |
| FingerprintKeys.ParseCanonical | internal/alert/handler.go:630-645 | without bars, and equals signs in keys, the text can be read back |
| FingerprintKeys.CanonicalInjective | internal/alert/handler.go:630-645 | on such labels the text is injective |
| FingerprintKeys.CanonicalOf | internal/alert/handler.go:631-645 | any sorted arrangement of the keys gives the same text |
| KeyCollisions.SameKeyExactly | internal/alert/handler.go:618-648 | if the digest has no collisions, any two alerts hashed share a key exactly when their names, services and fields in key order, cut at their bars, are the same pieces |
| KeyCollisions.OneKeyNeitherReadable | internal/alert/handler.go:618-648 | a family of pairs of different alerts of one key neither of whose labels can be read back |
| KeyCollisions.SharedKeyExactly | internal/alert/handler.go:618-648 | if the digest has no collisions, an alert shares its key with one of readable labels exactly when its text, cut at its bars, has fields that all hold an equals sign, with strictly ascending keys, that read as those labels, and begins with their name and service |
| KeyCollisions.CollidesExactly | internal/alert/handler.go:618-648 | different readable labels with the same key exist exactly when the text reads so although the labels are not readable |
| KeyCollisions.ReadableText | internal/alert/handler.go:630-645 | a text that reads so is the text of the labels read |
| KeyCollisions.BarCollides | internal/alert/handler.go:618-648 | for any hashed labels with two adjacent keys besides name and service, writing one into the value of the other behind a bar gives another alert with the same key |
| KeyCollisions.OneKeyTwoAlerts | internal/alert/handler.go:618-648 | a family of pairs of different alerts of one key, with the names and labels spelt out |
| KeyCollisions.SameKeySameLabels | internal/alert/handler.go:618-648 | without explicit fingerprints two alerts share a key exactly when their labels are the same, if the digest has no collisions |
| AlertEffects.DryRunWritesNothing | internal/alert/handler.go:232-238 | a dry run of apply writes nothing and counts no alert as settled |
| AlertEffects.OneSubject | internal/alert/handler.go:240-575 | all writes of one alert are about one incident |
| AlertEffects.SuggestAbout | internal/alert/handler.go:448-487 | so are those of opening a suggested incident |
| AlertEffects.SuggestOpens | internal/alert/handler.go:448-455 | opening a suggested incident opens one exactly when the service agrees |
| AlertEffects.CountersTellWhatHappened | internal/alert/handler.go:240-575 | at most one incident is opened, exactly when counted as created or suggested; deduplicated means noted on an incident that was there; an alert counted nowhere was a resolution, a dry run or a counted failure |
| AlertEffects.PanicLeaves | internal/alert/handler.go:299-574 | what a panic without counters leaves: an incident opened and noted but not in the history, or one that was there, at most escalated |
| AlertEffects.ServiceWarningsReported | internal/alert/handler.go:243-353 | each warning of the look-up of active incidents is reported exactly twice, each of the look-up of suggested incidents once |
| AlertOutcomes.WritesExactly | internal/alert/handler.go:240-575 | each write is made, once and in its turn, exactly when the alert and the answers call for it: a resolution for a resolved alert with an active incident, an escalation when attaching and strictly more severe, and so on |
| AlertOutcomes.DecisionsExactly | internal/alert/handler.go:240-575 | the decision of each branch is given exactly then, an escalation before the note |
| AlertOutcomes.WarningsExactly | internal/alert/handler.go:240-575 | each warning is given once exactly when its call was made and failed; the service's are passed on |
| AlertOutcomes.CountersExactly | internal/alert/handler.go:240-575 | which of the three counters an alert is counted in, and which failures are counted |
| AlertOutcomes.RankMeans | internal/incident/models.go:143-160 | higher severity is P1 over P2 over P3 over P4 over anything else |
| AlertOutcomes.PanicExactly | internal/alert/handler.go:299-574 | the writes made before a panic without counters: those called for but the history and the note on an incident that was there |
| AlertProcessing.Processor.Apply | internal/alert/handler.go:240-575 | apply makes exactly the writes, decisions, warnings and counts that the alert and the answers call for; without counters it panics exactly when an alert joins or opens an incident, with exactly the writes before that made |
| AlertProcessing.Processor.ProcessAlert | internal/alert/handler.go:173-230 | one alert adds one to received and at most one to the other three together, is looked up once, and is handled by the first rule that applies, by the default of the SLO source, or with a warning alone |
| AlertProcessing.MatchRule | internal/alert/handler.go:577-594 | the loop finds the first rule all of whose labels have the values asked for, a missing label counting as empty, or none if no rule applies |
| AlertProcessing.LookupKeyMeans | internal/alert/handler.go:180-185 | which key an alert is looked up by |
| AlertProcessing.AlertHandled | internal/alert/handler.go:173-230 | what becomes of an alert: warned of, or handled as the first rule that applies asks, with its service, severity, mode and title, or as the SLO default asks |
| AlertProcessing.TitleGiven | internal/alert/handler.go:596-604 | the title is the rule's, else the summary, else the name, each trimmed, else the name as it is |
| AlertProcessing.DryRunOfAlert | internal/alert/handler.go:173-230 | a dry run writes nothing and counts only duplicates, which still go through the cache |
| AlertPool.RunKeepsInv | internal/alert/handler.go:113-171 | every state of every run keeps the shape of the goroutines, the wait group's count, each alert in one place, and the agreement with the cache |
| AlertPool.ChannelsAreSafe | internal/alert/handler.go:145-165 | nothing is sent on a closed channel, no channel is closed twice, results are closed after every worker has exited |
| AlertPool.NeverStuck | internal/alert/handler.go:145-170 | until the caller has returned some step can be taken |
| AlertPool.StepsCountDown | internal/alert/handler.go:145-170 | every step lowers the measure |
| AlertPool.RunsEnd | internal/alert/handler.go:145-170 | every run has at most two steps a worker, seven an alert, and five more |
| AlertPool.ProcessReturnsAll | internal/alert/handler.go:113-171 | on return each alert was handled exactly once, the decisions returned are the decisions of all results and the warnings those of all results, one result after the other, and each result is all of what the alert can give |
| AlertPool.ExactlyOneGetsPast | internal/alert/handler.go:138-192 | in every interleaving, with readings within one ttl and no live entry, exactly one of the alerts with a key gets past deduplication |
| AlertPool.TaskAgrees | internal/alert/handler.go:173-230 | a task's stage always agrees with what the cache told it |
| AlertPool.LogStep | internal/alert/handler.go:185-192 | every step extends any run of the cache, its own or one with other calls' look-ups, by the look-ups it logs |
| AlertPool.NamedStep | internal/alert/handler.go:185-192 | at most one look-up is logged for each alert, with the alert's key |
| ConcurrentCalls.ExactlyOneOfAll | internal/alert/handler.go:113-192 | whatever number of calls share the cache, in every interleaving, with readings within one ttl and no live entry, of the alerts of all calls with a key exactly one gets past deduplication |
| ConcurrentCalls.LoggedStep | internal/alert/handler.go:113-192 | every step of any call or reset keeps each call's own invariants and the one run of the cache they make together |
| IntakeCounters.SettledAtMostReceived | internal/alert/metrics.go:27-99 | in every interleaving with resets that begin only while nothing is in flight, deduped + created + suggested never exceeds received once the last reset is done |
| IntakeCounters.ResetSafeExactlyWhenQuiet | internal/alert/metrics.go:87-99 | a reset keeps that in every continuation exactly when no alert is in flight at its start |
| IntakeCounters.LateAlert | internal/alert/metrics.go:87-99 | the run in which an alert received before a reset settles after it |
| IntakeCounters.TaskStepIsEvent | internal/alert/handler.go:173-230 | each atomic step of processAlert leaves the counters, receives an alert, or finishes one with at most one more counter |
| IntakeCounters.SystemStepIsEvent | internal/alert/handler.go:113-230 | a step of any of several pools on the same counters and cache is no event, an alert received or an alert finished |
| IntakeCounters.SystemCountersBounded | internal/alert/metrics.go:27-99 | in every state of every run of any number of pools with resets, overlapping or not, that begin while nothing is in flight, settled and in-flight alerts are at most the received ones |
| IncidentStore.Store.Save | internal/incident/store.go:71-98 | the files and the error after a save, including failing writes, removals and ownership |
| IncidentStore.Store.SaveNew | internal/incident/store.go:126-159 | refuses exactly the ids that either tier holds |
| IncidentStore.Store.Load | internal/incident/store.go:161-190 | gives what the map view holds: the partitioned copy, else the root copy, else not found; blank ids and unreadable content are errors |
| IncidentStore.Store.SaveMetadata | internal/incident/store.go:100-107 | loads, lets anything be done between the two times it holds the lock, and saves what it loaded with the new metadata; a failed load changes nothing |
| IncidentStore.PathByDate | internal/incident/store.go:337-347 | an id with a date is kept in the directories of its year and month |
| IncidentStore.PartitionedExactly | internal/incident/store.go:337-347 | which ids these are; every other is kept in the store's own directory |
| IncidentStore.MetadataSavedExactly | internal/incident/store.go:100-107 | the incident as it then stands gets the metadata exactly when nothing but metadata was changed of it in between and the save does not remove its file; content that names another id is saved under that id, and then exactly when it has that metadata already |
| IncidentStore.SaveInBetweenIsLost | internal/incident/store.go:100-107 | any save in between that changes more than metadata is undone |
| IncidentStore.PathNamesId | internal/incident/store.go:337-347 | both paths of an id determine it |
| IncidentStore.PathsApart | internal/incident/store.go:337-347 | files of different ids are different files |
| IncidentStore.SaveRefines | internal/incident/store.go:71-98 | a save sets the id's entry in the map and nothing else, exactly unless it removes the file it wrote |
| IncidentStore.UncleanDirectoryLosesIncident | internal/incident/store.go:71-98 | a save into a directory given as "data/" that reports no error and stores nothing |
| IncidentStore.SaveLeavesOthers | internal/incident/store.go:71-98 | on any directory a save leaves the other ids' entries alone |
| IncidentStore.SaveNewRefines | internal/incident/store.go:126-159 | adds the id to the map exactly when it is new |
| IncidentStore.SaveKeepsNoDoubles | internal/incident/store.go:89-95 | no id gets both copies, exactly unless the removal of the old one fails |
| IncidentStore.SaveNewKeepsNoDoubles | internal/incident/store.go:126-159 | no id gets both copies |
| IncidentStore.RunsRefineMap | internal/incident/store.go:71-190 | over any run of saves on a clean directory the store cannot be told from a plain map |
| IncidentStore.RunsKeepFilesInPlace | internal/incident/store.go:71-159 | over any run each incident file holds the incident its name says and each id has one copy |
| IncidentListing.ListForMonth | internal/incident/store.go:192-289 | by non-increasing creation; whatever the files hold, one incident for each id that a file read for the month holds, and warnings of just the unreadable files read; on well-named files exactly what is held for the month where the scans get to, and where they get to all and no id is blank exactly what Load gives; without a positive month and year, for all ids |
| IncidentListing.PrefixMeans | internal/incident/store.go:204-207 | a name has a month's prefix exactly when it begins with INC-, the year in four digits or as many as it takes, and the month in two |
| IncidentListing.ScansListFiles | internal/incident/store.go:192-289 | which files both scans read, and that each id read is listed once |
| IncidentListing.ScanWarns | internal/incident/store.go:243-251 | a scan warns of just the files it reads and cannot make out |
| IncidentListing.ScanFiles | internal/incident/store.go:243-251 | one scan adds the first file for each id not seen before and warns of unreadable ones |
| IncidentListing.EachOnce | internal/incident/store.go:192-289 | on well-named files the listing has every incident held for the month where the scans get to exactly once, and no warnings |
| IncidentListing.ListsLoadsExactly | internal/incident/store.go:161-289 | on well-named files the listing is what Load gives for the stored ids if and only if the scans get to all and no id is blank |
| IncidentListing.SeenExactly | internal/incident/store.go:214-279 | an id is listed exactly when it is stored where the scans get to and named for the month |
| IncidentListing.ShownAsLoaded | internal/incident/store.go:214-279 | what is listed for an id is what the scans get to, the partitioned copy first, and what Load gives where they get to all and no id is blank |
| IncidentListing.ScanAdds | internal/incident/store.go:243-251 | what a scan adds is the first of its files for that id |
| IncidentListing.ReachesAllExactly | internal/incident/store.go:218-224 | the scans get to the same contents as Load exactly unless the directory itself has a special name and some partitioned copy has not its like in the root |
| IncidentListing.SpecialNameShowsOlderCopy | internal/incident/store.go:161-289 | a store in a directory of a special name whose listing shows the root copy where Load gives the partitioned one |
| IncidentListing.SeedsShowsOlderCopy | internal/incident/store.go:161-289 | such a store in a directory called seeds, with its two files |
| IncidentListing.PartitionComesFirst | internal/incident/store.go:212-233 | the walk meets a partitioned copy before a root copy |
| IncidentListing.NameHasPrefix | internal/incident/store.go:239-241 | filtering by file name is filtering by id |
| IncidentListing.MonthIsDirectory | internal/incident/store.go:204-207 | the name prefix of a month selects exactly the files of that month's directory |
| ProbePool.ProbeReturnsAll | internal/discovery/pool.go:30-78 | in every schedule the results are the multiset of services with their outcomes, exactly when there are workers or nothing to probe |
| ProbePool.NewPoolReturnsAll | internal/discovery/pool.go:13-20 | a pool from NewServicePool, of ten workers if none are asked for, always returns all results |
| ProbePool.SendsNeverBlock | internal/discovery/pool.go:40-41 | both channels have room whenever a send is due |
| ProbePool.ChannelsAreSafe | internal/discovery/pool.go:40-70 | no send on a closed channel, results closed after every worker has exited, no send ever blocks, in any run; as many workers as asked for, and no more than services |
| ProbePool.NeverStuck | internal/discovery/pool.go:40-78 | until the caller has returned some step can be taken, even without workers |
| ProbePool.StepsCountDown | internal/discovery/pool.go:40-78 | every step lowers the measure |
| ProbePool.RunsEnd | internal/discovery/pool.go:40-78 | every run has at most two steps a worker, five a service, and seven more |
| ProbePool.PlacesStep | internal/discovery/pool.go:49-75 | each step moves a service from one place to the next and only feeding adds one |
| ProbePool.ConservedStep | internal/discovery/pool.go:49-75 | every service sent is in exactly one place |
| MetricQueries.ExtractMetricName | internal/config/wizard.go:2046-2074 | the successive reassignments compute the metric name, and the inner branch for quantiles is never taken |
| MetricQueries.SelectorRoundTrip | internal/config/wizard.go:2046-2074 | the metric of a selector is read back, for every metric, exactly when the quoted service holds nothing that looks like a rate over a range |
| MetricQueries.TotalQueryRoundTrip | internal/config/wizard.go:1858-1893 | from every total query the metric it selects is read back |
| MetricQueries.TotalQueryForm | internal/config/wizard.go:1858-1893 | a total query is a selector of the selected metric by the service under the span metrics' own label, the label detected, the one configured, or `service`, or the bare metric |
| MetricQueries.SelectorTells | internal/config/wizard.go:1858-1893 | from a selector its metric, label and service can be told, whatever bytes the quoted service holds |
| MetricQueries.SameTotalQuery | internal/config/wizard.go:1858-1893 | two services get the same total query exactly when they are the same or no label selects either |
| MetricQueries.LatencyQueryForm | internal/config/wizard.go:1956-1979 | which label a latency query selects the service by, if any |
| MetricQueries.SameLatencyQuery | internal/config/wizard.go:1956-1979 | two services get the same latency query exactly when they are the same or no label selects either |
| MetricQueries.BucketFormMeans | internal/config/wizard.go:1966-1969 | a name ending in _bucket is kept, to any other the ending is added |
| MetricQueries.FirstGenericIsFirst | internal/config/wizard.go:1872-1878 | the scan finds the first generic metric |
| MetricQueries.LatencyQueryRoundTrip | internal/config/wizard.go:1956-1979 | from every latency query, for every service, the metric is read back in its bucket form |
| MetricQueries.PlainServicesHideNothing | internal/config/wizard.go:2046-2063 | services without an opening parenthesis or without an opening bracket are never misread |
| MetricQueries.HiddenRateMisread | internal/config/wizard.go:2046-2063 | services for which another name is read back, whatever the metric |
| FlowWatcher.Compare | internal/flow/loader.go:64-80 | the loop and the size test report a change if and only if the new manifest differs from the last |
| FlowWatcher.Watcher.Tick | internal/flow/loader.go:51-89 | over any run of polls, failed ones included, the flows are reloaded once for every change seen, and the manifest kept is the last one seen |
| FlowWatcher.SameSizeWithin | internal/flow/loader.go:77-80 | with nothing added or edited the sizes differ exactly when something was removed |
| FlowCatalog.NormalizeServices | internal/flow/loader.go:435-457 | the loop computes the normal form or the error |
| FlowCatalog.NormalizedMeans | internal/flow/loader.go:435-457 | a normal list is sorted, without repetition, and has exactly the trimmed names; only empty lists and blank names are refused, each with its own error |
| FlowCatalog.NormalizedFixed | internal/flow/loader.go:435-457 | normal lists, and only they, are left as they are |
| FlowCatalog.LoadFiles | internal/flow/loader.go:337-433 | the flows by strictly ascending id, or an error exactly when there are files and no flow |
| FlowCatalog.AddEntry | internal/flow/loader.go:359-420 | an entry is added unless its id is blank or taken or its services are refused |
| FlowCatalog.AcceptMeans | internal/flow/loader.go:359-420 | which entries are acceptable, and what flow they describe |
| FlowCatalog.FirstEntryCounts | internal/flow/loader.go:365-373 | for each id the flow is that of the first acceptable entry |
| FlowCatalog.FirstForIsFirst | internal/flow/loader.go:365-373 | what being the first acceptable entry means |
| FlowCatalog.SortedFlows | internal/flow/loader.go:422-428 | sorting lists each flow once by ascending id |
| FlowCatalog.LoadedFlows | internal/flow/loader.go:359-420 | loaded flows have trimmed ids and normal services |
| FlowStatus.ActiveServiceSet | internal/flow/commands.go:190-199 | the set of the trimmed services of the incidents that are not blank |
| FlowStatus.FlowIncidentCounts | internal/flow/commands.go:248-258 | the nested loops count, for each id, the incidents at its flows' services, and leave out zeros |
| FlowStatus.DegradedMeans | internal/flow/service.go:45-61 | a flow is degraded exactly when an incident with a service that is not blank is at one of its services |
| FlowStatus.DegradedIffCounted | internal/flow/service.go:45-61 | for flows with unique ids, degraded and counted agree on all incident lists exactly when no service of the flow is the empty name |
| FlowStatus.LoadedFlowsAgree | internal/flow/commands.go:190-258 | a loaded flow is degraded if and only if its count is positive |
| FlowStatus.ListedAtMostCounted | internal/flow/commands.go:180-188 | the incidents listed for a loaded flow are at most those counted, and as many exactly when the services counted carry no blanks |
| FlowStatus.ListedMeans | internal/flow/commands.go:180-188 | the incidents listed are those whose service, as written, is one of the flow's, in their order |
| FlowStatus.Catalog.constructor | internal/flow/service.go:10-19 | the catalog keeps, for each id, the last flow with it |
| FlowStatus.Catalog.Get | internal/flow/service.go:25-29 | the last flow with the trimmed id, or nothing |
| FlowStatus.LastWithIsLast | internal/flow/service.go:10-19 | what being the last flow with an id means |
| FlowStatus.Catalog.ImpactedFlows | internal/flow/service.go:31-43 | exactly the flows with the service, in order, and none for a blank one |
| FlowStatus.FlowsWithHave | internal/flow/service.go:31-43 | these are the flows that list the service |
| FlowStatus.DegradedIffImpacted | internal/flow/service.go:31-52 | a flow is degraded if and only if some active incident's service impacts it |
| Text.TrimKeepsMiddle | internal/incident/similarity.go:275-276 | trimming drops cut characters from both ends and nothing else |
| Text.FoldMeans | internal/incident/similarity.go:102-103 | names are compared without white space at their ends and in lower case |
| Text.ContainsMeans | internal/incident/similarity.go:116-116 | one text is inside another when it stands between two parts of it |
| Text.FieldsAreWords | internal/incident/similarity.go:273-274 | the fields of a text are its maximal runs of non-space characters |
| Text.SplitThenJoin | internal/incident/similarity.go:199-201 | the pieces of a split hold no separator and join back to the text |
| Sorting.SortedStringsUnique | internal/alert/handler.go:635-635 | strings have one sorted arrangement, so iteration order does not matter |

## Left out

- The filters of FindSimilarIncidents by age, state and least confidence, which choose what is sorted, grouped and shown.
- Process's sequential path for one worker or one alert, which runs processAlert in a loop; it has no interleaving.
- The incident service, the history log and its rotation: their answers are arbitrary. A nil history is not modelled.
- Texts of messages, and the metadata maps and log lines apply builds: decisions, warnings and writes are datatype values.
- In the pool the failure counter is added to in the step that settles the alert, not in steps of its own.
- Reloading the rule set while alerts are processed: a call works on one rule set.
- normalizeLabels, and keys that collide after trimming and lower-casing: labels are taken as normalized, because the outcome depends on map iteration order.
- SHA-256: any function from text to text. SameKeySameLabels assumes it has no collisions.
- Letters and white space beyond ASCII; %q keeps bytes above 127 as they are.
- Floating-point rounding, wrap-around of the 64-bit counters, saturation of durations.
- Sharing of the backing array when groupByFix appends its note to a slice.
- sort.Slice is modelled as one sorted permutation; which of several incidents created at the same instant comes first is left open.
- Ids that hold a path separator; symbolic links; read errors other than a missing or malformed file; filepath.Clean and filepath.Base, whose results for the store's directory are given.
- The JSON and YAML codecs: a file holds an incident, or the parsed entries, or something unreadable.
- GetActiveIncident, which looks at the current month's names only, and SaveRunbookSuggestion, which is SaveMetadata with fixed keys.
- SLO entries of a flow, and the warnings about them, which never keep a flow from being loaded.
- LoadOnce and its cache: loading and invalidating interleave, so it promises no freshness.
- generateErrorQuery, which needs the error label Prometheus reports, and the cache of testQuery, whose answers are arbitrary.
- formatAge and the demo incidents: fixed tables and texts.
- HTTP handlers, signals, clients of other systems, terminal screens and output formatting.
