# Verified core of the gateway

A Dafny model of the parts of the LLM gateway that carry state, concurrency or
arithmetic, with proofs of what they are relied on for. `dafny verify
dfyconfig.toml` checks the whole project.

| module | component |
|---|---|
| `WorkerPool` | the channel-test worker pool, as a step relation over its goroutines |
| `UpstreamModels` | detecting upstream model changes and applying an operator's selection |
| `Pricing`, `Differences`, `ModelsDev` | price normalisation, the difference report, the models.dev choice |
| `ObservationLimiter` | four-scope admission of plugin protocol observations |
| `RateLimiter` | the in-memory rate limiter and its sweeper |
| `MultiKey` | multi-key channel management |
| `ObservationStream` | the streaming observation loop |
| `BodyStorage` | request bodies in memory or on disk, and the shared counters |
| `OggScan` | the Opus duration scan |
| `Quota` | quota saturation and rounding, the test price |
| `VerificationStore` | the expiring verification codes |
| `Text` | trimming, splitting, joining and filtering used by the others |

Code that updates state is modelled by classes and methods with loops, each tied
to a specification function; the properties of whole runs are lemmas about those
functions, and `Serve` methods run the classes themselves along them. What the
specification functions compute is stated apart from them, in plain sums, counts
and literals. Map iteration order is left open (`:|`), so what a method ensures
holds for every order. The clock, the database, the network, the regular
expression engine and the plugin hook are parameters. Floats are reals with NaN
and infinities.

## What does not hold, and exactly when it does

- Detect and apply commute only for names that do not act as patterns or hold
  commas. A name beginning with `regex:` that is ignored goes into the list that
  holds patterns; a name with a comma is stored as several names. Every selection
  on every channel commutes exactly when each name the upstream offers is free of
  commas and, read as an ignore entry, hits itself and no other offered name
  (`AlwaysCommutesIff`). `DetectApplyCommute` gives the exact condition for one
  row and selection. `IgnoredPatternComesBack` and `CommaComesBack` are the
  failing families, `PatternOffer` and `CommaOffer` the smallest members of each.
- The difference report marks "no difference" with the word `same`, which is also
  a possible billing expression, and keeps one cell per channel name.
  `NothingLostIff` says that no difference is ever lost exactly when the names are
  distinct and `same` is not a word the expressions can be; `SameIsLost` and
  `OverwrittenIsLost` show the losses.
- A key list is written one key per line, and read as a JSON array if the text
  begins with a bracket and decodes. It survives being written exactly if it is
  `Writable`: the text decodes to no other array, the ends are not empty and no
  key holds a newline. Appending reads the old text on its own and finds no keys
  in one that begins with a bracket and does not decode. An empty array has no
  keys but a size, whose positions can be disabled. `Torn` collects these cases,
  and every action's contract says that they are the only ones in which keys and
  positions come apart. `EmptyLineEnablesKey`, `ArrayKeyReadsApart` and
  `BracketedKeyLosesAll` show the failures, `ArrayKeyExample` (keys `a` and `[1]`)
  and `BracketedKeyExample` (keys `[abc` and `k2`) the last two at given keys.
- Deleting the automatically disabled keys of a channel that has no others deletes
  nothing and enables all of them: the empty key text is not written back.
  `DeleteDisabledIsFilterIff` gives the exact condition for the intended effect.
- The rate limiter means "fewer than max in the last duration seconds" if and only
  if max is at least 1 and the duration is at most one second above the sweeper's
  expiration (`FaithfulIffSound`). With max 0 the first request is admitted, with
  a negative max it panics (`NoRoomMissed`).
- The two body storages differ on one operation, a zero-length read at or after
  the end (`KindsAgreeIff`).
- Disk usage can pass its maximum, and does so exactly through a call that
  declares a positive length, smaller than the body, for a body that can be stored
  (`UsageBoundedIff`); without such calls no run passes it (`UsageStaysBounded`).
- Verification codes are kept under purpose and key written together; they are
  independent if and only if no purpose is the beginning of another
  (`FaithfulIffPrefixFree`). The two purposes in use are.

## Model

| member | source | states |
|---|---|---|
| `WorkerPool.StepKeepsInv` | controller/channel-test.go:979-1056 | every step of feeder, workers, closer and reducer, and cancellation at any point, keeps: each job in exactly one place, run called once per begun job, totals the sum of received results, flags and phases consistent, reports gapless |
| `WorkerPool.EveryRunIsSafe` | controller/channel-test.go:969-1057 | in every interleaving: no channel run twice, nil and manually disabled ones never, no send on the closed results channel, each of the five totals the plain sum over results of distinct channels, reports are 0,1,2,..., from 1 to 32 workers as asked for but no more than channels, and a bound on the run's length |
| `WorkerPool.EveryResultIsReducedOnce` | controller/channel-test.go:993-1055 | when the pool returns, a channel was run if and only if exactly one result of it was reduced, and that result is what run returned |
| `WorkerPool.UncancelledRunSumsAllChannels` | controller/channel-test.go:1042-1056 | without cancellation each of the five counts is the plain sum over all channels and the reports are 0 to total, whatever the order of completion |
| `WorkerPool.MeasureDecreases` | controller/channel-test.go:990-1055 | every step uses up a measure, so every run ends |
| `WorkerPool.NoDeadlock` | controller/channel-test.go:990-1055 | until caller and goroutines are all finished, some goroutine can move without a cancellation |
| `WorkerPool.CanAlwaysFinish` | controller/channel-test.go:990-1055 | from every reachable state the pool can wind down with no goroutine left |
| `WorkerPool.StoppedRunHasReturned` | controller/channel-test.go:969-1057 | a run nobody can continue has returned and left no goroutine, and uncancelled it returned the full sum |
| `WorkerPool.NothingAfterCancel` | controller/channel-test.go:997-1055 | once cancelled, no further test begins and no further progress is reported, however the run goes on |
| `WorkerPool.HealthCounts` | controller/channel-test.go:920-964 | when a health check counts as tested, succeeded, failed, disabled and enabled |
| `WorkerPool.HealthTotalsBalance` | controller/channel-test.go:920-964 | with the health check as the test: tested = succeeded + failed, disabled at most failed, disabled + enabled at most tested, at every point of every run |
| `UpstreamModels.MergeModelNames` | controller/channel_upstream_update.go:109-123 | the loop with a seen-set appends exactly the new normalised names, in order |
| `UpstreamModels.ApplySelectedMembers` | controller/channel_upstream_update.go:147-152 | the result holds the added names and the original ones not removed; adding wins |
| `UpstreamModels.NormalizeFixes` | controller/channel_upstream_update.go:102-107 | a trimmed, non-empty, duplicate-free list is its own normal form |
| `UpstreamModels.NormalizeIs` | controller/channel_upstream_update.go:102-107 | normalising keeps exactly the trimmed, non-empty names, once each, in order of first occurrence |
| `UpstreamModels.PendingIs` | controller/channel_upstream_update.go:181-240 | which names detection finds to add and to remove, with redirects in both directions and the `regex:` entries written out |
| `UpstreamModels.CheckedIs` | controller/channel_upstream_update.go:536-552 | what a check stores, with automatic sync and without |
| `UpstreamModels.AppliedIs` | controller/channel_upstream_update.go:980-1007 | for any row and selection: which names end up among the models, the ignored, and both staged lists |
| `UpstreamModels.StoreRoundTrip` | model/channel.go:299-304 | a normalised comma-free list survives being joined, stored and read back |
| `UpstreamModels.Channel.CheckAndPersist` | controller/channel_upstream_update.go:514-561 | the stored row and the answer in every case (too early, fetch error, save error, auto-sync, failing index rebuild), and how many models were added |
| `UpstreamModels.Channel.Apply` | controller/channel_upstream_update.go:970-1018 | models, ignore list and both staged lists change together, or nothing changes if saving fails; a failing index rebuild is reported after the change |
| `UpstreamModels.NextModelsStored` | controller/channel_upstream_update.go:990-996 | for any selection the stored list reads back as the kept models followed by the names the added ones turn into, commas included |
| `UpstreamModels.RemovalsCommute` | controller/channel_upstream_update.go:229-239 | after any selection, re-detection finds exactly the removals left staged, in order, if and only if no added name turns into one that counts as removed |
| `UpstreamModels.FoundAgainIff` | controller/channel_upstream_update.go:206-228 | a pending name is found again exactly when the selection did not take it, and is still staged exactly when it was not selected |
| `UpstreamModels.DetectApplyCommute` | controller/channel_upstream_update.go:181-240 | for any fresh row and any selection: re-detection finds exactly both lists left staged, in order, if and only if no added name turns into a removed one and the selection takes exactly what was selected |
| `UpstreamModels.CheckApplyDetect` | controller/channel_upstream_update.go:514-561 | from any stored row and for any selection: check, apply, detect again; the exact condition for finding what was left staged, and its reduction to "no selected add holds a comma" when no selected name reads as a pattern |
| `UpstreamModels.AlwaysCommutesIff` | controller/channel_upstream_update.go:181-240 | every selection on every fresh row leaves what re-detection finds if and only if every offered name that is no redirect target is free of commas and, as an ignore entry, hits exactly itself among the offered ones |
| `UpstreamModels.CommaComesBack` | controller/channel_upstream_update.go:993-996 | after any selection an added name with a comma is offered again, unless a newly ignored pattern hits it |
| `UpstreamModels.CommaOffer` | controller/channel_upstream_update.go:993-996 | the single offered name with a comma: added, and the only one offered right after |
| `UpstreamModels.IgnoredPatternComesBack` | controller/channel_upstream_update.go:219-227 | after any selection an ignored name that reads as a pattern and is hit by no newly ignored one is offered again, unless an added name turned into it |
| `UpstreamModels.PatternOffer` | controller/channel_upstream_update.go:219-227 | the single offered name that reads as a pattern and does not match itself: ignored, and the only one offered right after |
| `UpstreamModels.AutoSyncSettles` | controller/channel_upstream_update.go:538-550 | after an automatic sync re-detection finds nothing to add and the same removals, if and only if no added name holds a comma |
| `Pricing.Effective` | controller/ratio_sync.go:145-199 | for every iteration order the result is the row-by-row resolution of the table |
| `Pricing.ExactlyOneRegime` | controller/ratio_sync.go:166-197 | a surviving model is in exactly one of three regimes, and each regime is reached exactly from the rows the precedence assigns to it |
| `Pricing.EffectiveFields` | controller/ratio_sync.go:151-197 | field by field, what a surviving row holds: its mode, the trimmed expression, its own usable numbers |
| `Pricing.EffectiveIdempotent` | controller/ratio_sync.go:145-199 | normalising a row twice is normalising it once |
| `Pricing.EffectiveTableIdempotent` | controller/ratio_sync.go:639-648 | the second normalisation inside the difference builder changes nothing |
| `Differences.BuildItem` | controller/ratio_sync.go:713-763 | an item holds exactly the names of the eligible channels, each with the cell and trust of the last of that name, and is included exactly when one of them differs |
| `Differences.BuildDifferences` | controller/ratio_sync.go:634-816 | for any channels, also of one name: exactly which pairs are reported, which names each item lists, and with which cell and trust |
| `Differences.ValuesEqualIff` | controller/ratio_sync.go:48-63 | two numbers are equal exactly if finite and less than 1e-9 apart, other values exactly if the same |
| `Differences.DistinctKept` | controller/ratio_sync.go:634-816 | with distinct names a pair is reported exactly when some channel's value is new or different and not the word `same`; if some side prices the model by an expression, only mode and expression count, and only channels that do so |
| `Differences.ListedIff` | controller/ratio_sync.go:766-786 | a reported item lists exactly the channels with a value worth showing somewhere, and of those only the ones pricing by an expression if some side does |
| `Differences.ItemIs` | controller/ratio_sync.go:668-752 | what an item shows of a channel: its own value, nil or `same`, and trust unless its ratios are the placeholders 37.5 and 1 |
| `Differences.ChangedPriceReported` | controller/ratio_sync.go:724-763 | one channel: a fixed price is reported exactly when it differs from the local one by at least 1e-9 |
| `Differences.PrunedPair` | controller/ratio_sync.go:776-813 | the final pass keeps exactly the pairs in which a name that visibly differs somewhere is not `same`, and what it keeps is exact |
| `Differences.NothingLostIff` | controller/ratio_sync.go:733-752 | for channels of the given names with expressions from the given words: no difference is lost, whatever the tables, if and only if the names are distinct and `same` is not among the words |
| `Differences.SameIsLost` | controller/ratio_sync.go:738-745 | a new model priced by the expression `same` is not reported |
| `Differences.OverwrittenIsLost` | controller/ratio_sync.go:750-752 | a price is not reported if a later channel has the same name and no price |
| `ModelsDev.Select` | controller/ratio_sync.go:1035-1064 | whatever the map order, each model ends with the choice over the providers in ascending order |
| `ModelsDev.ChoiceIsCheapest` | controller/ratio_sync.go:965-1013 | a price is chosen exactly when a valid one is offered; if any is not free the choice is not free and less than 1e-9 above the cheapest such; if all are free it is the first provider's |
| `ModelsDev.Build` | controller/ratio_sync.go:966-1000 | exactly which costs make a candidate, and that its prices are those of the feed |
| `ModelsDev.ChosenIsListed` | controller/ratio_sync.go:1052-1064 | the chosen price is what its provider lists for the model |
| `ModelsDev.LessIff` | controller/ratio_sync.go:1039 | the order of names is decided by the first difference |
| `ModelsDev.AscendingUnique` | controller/ratio_sync.go:1035-1039 | sorting the provider names leaves one possible order |
| `ObservationLimiter.Limiter.Acquire` | controller/plugin_protocol_limiter.go:65-134 | the outcome names the first full scope; a refusal, after any staged increments, leaves all counters as they were |
| `ObservationLimiter.Lease.Release` | controller/plugin_protocol_limiter.go:136-156 | the first call gives back all four scopes, later calls nothing |
| `ObservationLimiter.EveryRunCounts` | controller/plugin_protocol_limiter.go:65-157 | after every run each of the four counters is the number of live leases of its kind, within its own limit, and the maps hold exactly the keys with a live lease |
| `ObservationLimiter.AdmissionIsExact` | controller/plugin_protocol_limiter.go:70-130 | in every run: a bad identity is turned away, else the first of global, plugin, user and token whose live leases have reached its own limit is named with that limit, else granted; an immediate release restores the counters |
| `ObservationLimiter.DefaultAdmission` | controller/plugin_protocol_limiter.go:23-28 | the same with the default limits 128, 32, 4 and 2 |
| `ObservationLimiter.Serve` | controller/plugin_protocol_limiter.go:65-157 | the limiter and its leases, run over any operations, stay with the system the run theorems are about |
| `RateLimiter.Limiter.Request` | common/rate-limit.go:45-70 | answer, panic and new queues in every branch, for every maximum; queues are never empty |
| `RateLimiter.Limiter.Sweep` | common/rate-limit.go:28-42 | one sweep removes exactly the stale keys, in any order |
| `RateLimiter.Serve` | common/rate-limit.go:28-70 | the limiter, run over any requests and sweeps, gives the answers the run theorems are about |
| `RateLimiter.FaithfulIffSound` | common/rate-limit.go:28-70 | over every run the answers are those of the log specification if and only if the limits are sound |
| `RateLimiter.SweepsNeverChangeAnswers` | common/rate-limit.go:28-42 | runs with the same requests get the same answers however sweeps are interleaved |
| `RateLimiter.LongWindowForgets` | common/constants.go:208-209 | a window more than a second above the expiration lets the sweeper forget requests inside it |
| `RateLimiter.NoRoomMissed` | common/rate-limit.go:64-69 | with max 0 the first request for a key is admitted, with a negative max it panics; the log specification admits neither |
| `MultiKey.Channel.DisableKey` | controller/channel.go:1688-1729 | only that record changes, to manually disabled, for any row; an aligned row stays aligned unless the position is one of an empty array; rejected exactly when the index is missing or out of range |
| `MultiKey.Channel.EnableKey` | controller/channel.go:1731-1771 | only that record is reset, for any row, and an aligned row stays aligned |
| `MultiKey.Channel.EnableAllKeys` | controller/channel.go:1773-1795 | every record is reset and the row is aligned, whatever it was |
| `MultiKey.Channel.DisableAllKeys` | controller/channel.go:1797-1842 | every enabled record becomes manually disabled, for any row; an aligned row stays aligned unless its text is an empty array; rejected when no position is enabled |
| `MultiKey.Channel.DeleteKey` | controller/channel.go:1844-1922 | exactly that record disappears, the others keep key, status, time, reason and order, if and only if their keys are writable; the last key is never deleted |
| `MultiKey.Channel.DeleteDisabledKeys` | controller/channel.go:1924-1991 | the exact condition for leaving the order-preserving filter, and what happens to the records otherwise, including the case where no key would remain |
| `MultiKey.Channel.AppendKeys` | controller/channel.go:1036-1109 | the exact condition for old records staying in place with trimmed, new, distinct keys following as enabled ones; the lines, the Vertex AI array and the whole Vertex AI text as offered keys; an empty channel takes the text as it is |
| `MultiKey.Channel.PerformAll` | controller/channel.go:1576-1999 | under every sequence of actions, saved or not, the maps stay within the keys and the row reads as the text and records the actions give, as long as none is torn |
| `MultiKey.ReadBackIff` | model/channel.go:185-208 | a key list survives being joined and read back if and only if it is empty or writable, for every JSON decoder |
| `MultiKey.WrittenIff` | model/channel.go:560-598 | committing a changed key list: the row reads as what was written if it is writable, and otherwise has other keys |
| `MultiKey.EffectIs` | controller/channel.go:1688-1922 | record by record, what the in-place actions and deleting do |
| `MultiKey.AppendAdds` | controller/channel.go:1058-1107 | what appending is to add: the offered keys, trimmed, that are neither empty nor there, once each, in order of first occurrence, as enabled records after the old ones |
| `MultiKey.DeleteKeyExactIff` | controller/channel.go:1871-1912 | deleting leaves exactly the other records if and only if their keys are writable |
| `MultiKey.AppendExactIff` | controller/channel.go:1041-1109 | appending leaves the old records and the new ones if and only if the old text can be read and the whole list is writable, or nothing is written, or the new keys alone read as that list |
| `MultiKey.EmptyLineEnablesKey` | controller/channel.go:1871-1912 | keys x, empty, y with y automatically disabled: after deleting x, y is the only key and enabled |
| `MultiKey.ArrayKeyReadsApart` | model/channel.go:192-203 | keys x and y where y decodes as an array: after deleting x the keys are the elements of y |
| `MultiKey.UnreadableLosesKeys` | controller/channel.go:1044-1057 | appending an ordinary key to a text that begins with a bracket and does not decode leaves that key alone, with the maps' entries of the first old one |
| `MultiKey.BracketedKeyLosesAll` | controller/channel.go:1044-1057 | two keys, the first beginning with a bracket and automatically disabled: after appending, the new key alone is left, and disabled |
| `MultiKey.DeleteDisabledIsFilterIff` | controller/channel.go:1932-1980 | with keys to delete, the stored row reads as the order-preserving filter if and only if the others are writable and no enabled key carries leftover disable information |
| `MultiKey.PurgedIs` | controller/channel.go:1932-1965 | record by record, what deleting the automatically disabled keys keeps |
| `MultiKey.DeletingEveryKeyEnablesAll` | model/channel.go:563-571 | when all keys are automatically disabled the stored row keeps them all and reads them as enabled |
| `MultiKey.KeyStatusPage` | controller/channel.go:1577-1686 | the clamped page of the filtered listing and the counts over all keys |
| `MultiKey.FilteredIs` | controller/channel.go:1641-1650 | filtering by status keeps as many lines as keys have it, all of that status |
| `MultiKey.AllPagesGiveTheListing` | controller/channel.go:1651-1670 | all pages together are the filtered listing, once each, and there are no more pages than needed |
| `ObservationStream.StreamObservation` | controller/plugin_protocol.go:378-618 | created event first, nothing after a failure, a timeout, a cut batch or a terminal batch, batches as the response machine made them of the hook's answers, and each hook call given the state of the latest call that was not overloaded |
| `ObservationStream.TickIs` | controller/plugin_protocol.go:418-618 | a round writes a timeout event exactly when the deadline passes in it, a failure event exactly when something fails, a batch exactly when the hook's answer is used |
| `ObservationStream.WrittenIff` | controller/plugin_protocol.go:378-618 | over the whole observation something is written exactly when a round that is reached writes it |
| `ObservationStream.LatestIs` | controller/plugin_protocol.go:480-592 | the state given to the hook is that of the last call whose answer was used |
| `ObservationStream.Round` | controller/plugin_protocol.go:418-592 | what one round writes and whether it goes on, in every branch |
| `ObservationStream.WaitForTick` | controller/plugin_protocol.go:620-643 | heartbeats, then the next round or, past the deadline, a timeout event |
| `ObservationStream.EventsTerminal` | controller/plugin_protocol.go:1217-1225 | true exactly when some event is terminal |
| `BodyStorage.MemoryStorage.Read` | common/body_storage.go:64-71 | the memory kind of the common byte store: bytes, cursor, closed flag |
| `BodyStorage.MemoryStorage.Seek` | common/body_storage.go:73-80 | cursor and error cases of seeking in memory |
| `BodyStorage.MemoryStorage.Close` | common/body_storage.go:82-89 | closes, and counts down once |
| `BodyStorage.DiskStorage.Read` | common/body_storage.go:198-205 | the disk kind of the common byte store |
| `BodyStorage.DiskStorage.Seek` | common/body_storage.go:207-214 | cursor and error cases of seeking in the file |
| `BodyStorage.DiskStorage.Bytes` | common/body_storage.go:227-259 | returns the whole content and leaves the cursor where it was |
| `BodyStorage.DiskStorage.Close` | common/body_storage.go:216-225 | closes, and counts down once |
| `BodyStorage.KindsAgreeIff` | common/body_storage.go:64-285 | over any operations both kinds end in the same state, with the same answers if and only if no empty buffer is read at the end |
| `BodyStorage.ReadsGiveTheBytes` | common/body_storage.go:64-71 | reads of any positive sizes give the stored bytes without gap or repeat |
| `BodyStorage.CreateBodyStorage` | common/body_storage.go:288-306 | which kind is chosen, the exact content, the counters |
| `BodyStorage.CreateFromReader` | common/body_storage.go:309-350 | on either path the exact body is stored if and only if the reader gives all of it and it is at most maxBytes long, disk failure while streaming aside; a failing reader is reported unless the limit comes first |
| `BodyStorage.CountersAreTotals` | common/disk_cache_config.go:109-134 | in every run each of the four counters is the plain number or total size of the open storages of its kind; the clamp at zero never acts |
| `BodyStorage.Serve` | common/body_storage.go:288-350 | the storages themselves, created and closed in any order, stay with the ledger the run theorems are about |
| `BodyStorage.UsageBoundedIff` | common/body_storage.go:309-331 | a creation keeps disk usage within the maximum after every run and under every configuration if and only if no length is declared, or it covers the body, or the body is too large to store |
| `BodyStorage.UsageStaysBounded` | common/disk_cache_config.go:170-177 | over every run of such creations, and closes, usage never exceeds the maximum |
| `BodyStorage.UnderstatedLengthExceeds` | common/body_storage.go:312-317 | a one-byte declared length admits a body of twice the maximum |
| `OggScan.OpusGranule` | common/audio.go:197-249 | the loop ends on every byte string and computes the scan |
| `OggScan.OpusDuration` | common/audio.go:251-254 | the duration is the scan's result over 48000 |
| `OggScan.OnePage` | common/audio.go:226-248 | from a page boundary the scan takes in the granule position and lands on the next boundary |
| `OggScan.GranuleIs` | common/audio.go:226-227 | eight bytes as a signed integer, the least significant first, written out |
| `OggScan.PageIs` | common/audio.go:219-248 | a page written field by field is one exactly if its payload is as long as the lacing values add up to, and its granule position is where it was written |
| `OggScan.CutPageCounts` | common/audio.go:233-238 | a page cut off inside its segment table still counts and ends the scan |
| `OggScan.ScanFindsLargest` | common/audio.go:205-249 | on well-formed pages with any silent bytes before, between and after them the scan finds the largest granule position |
| `OggScan.LargestIsMaximum` | common/audio.go:226-230 | that value bounds all granule positions and is one of them or 0 |
| `Quota.FormsAreClamps` | common/quota_math.go:86-142 | the int32 forms are the rounded or truncated value, clamped |
| `Quota.FormsMonotone` | common/quota_math.go:86-142 | and they are monotone, infinities included |
| `Quota.RoundNearest` | common/quota_math.go:130-142 | rounding goes to the nearest integer, ties away from zero |
| `Quota.TruncateIs` | common/quota_math.go:86-131 | truncation goes toward zero by less than one |
| `Quota.SaturationIs` | common/quota_math.go:82-144 | the int32 bounds, the special values, and when which clamp is reported |
| `Quota.DecimalIsClamp` | common/quota_math.go:159-175 | for every range within 2^53 the detour through float64 neither accepts nor changes a wrong value |
| `Quota.DecimalForms` | common/quota_math.go:152-175 | the strict wallet form accepts exactly the decimals that round into the wallet range and returns that integer; the int32 form is the clamp |
| `Quota.TestQuotaMonotone` | controller/channel-test.go:548-557 | more prompt or completion tokens never cost less |
| `Quota.FreeIffZeroRatio` | controller/channel-test.go:548-557 | a test is free if and only if the model ratio is zero, and never negative |
| `Quota.TestQuotaAccurate` | controller/channel-test.go:550-555 | unless a conversion saturates, the charged quota is within 1/2 + ratio/2 of the exact price; only where the rounded price is not positive is 1 charged instead, and then the exact price is at most 1/2 + ratio/2 |
| `VerificationStore.Store.Register` | common/verification.go:37-47 | stores the code and evicts expired ones past the size limit |
| `VerificationStore.Store.RemoveExpired` | common/verification.go:67-74 | removes exactly the expired codes, in any order |
| `VerificationStore.RegisteredIs` | common/verification.go:37-47 | up to ten codes are kept; beyond that those of 600 seconds and more go, and no other |
| `VerificationStore.Serve` | common/verification.go:37-74 | the store, run over any events, gives the answers the run theorem is about |
| `VerificationStore.FaithfulIffPrefixFree` | common/verification.go:37-74 | over every run the answers are those of a map that never evicts, keyed by purpose and key apart, with codes good for 600 seconds, if and only if no purpose begins another |
| `VerificationStore.PurposesInUse` | common/verification.go:17-20 | the two purposes in use are independent |

## Left out

- The HTTP handlers, JSON binding, audit logs and translations around these components.
- Everything behind the database: a save is a parameter that succeeds or fails as a whole, and in `UpstreamModels` so is the rebuild of the ability index after it; in `MultiKey` that rebuild, which changes only the reply, is not modelled.
- The nil progress reporter of the worker pool: a reporter is always present.
- The choice of channels for an automatic test, and the tiered and fixed-price branches of the test price.
- Parsing a channel's model redirects from JSON: the redirects are a parameter, already trimmed.
- JSON decoding itself: what an array text decodes to is a parameter, about which nothing is assumed. The key preview and the replace mode are not modelled.
- MultiKey: the stored size is taken to be what a commit counts, as every commit leaves it.
- The conversion of chosen models.dev candidates into ratio maps, and the other feed formats.
- ObservationStream.StreamObservation: the delay before a round and log output are not modelled; a write counts only when it succeeds in full.
- The non-streaming observation and the response machine's own states.
- BodyStorage: aliasing of the slice that the memory kind returns, positions beyond int64, the platform's extra seek modes, cache hit counts, cache cleanup and concurrent creation are not modelled; I/O on an open file succeeds.
- Quota.TestQuotaAccurate: products are exact reals; float64 rounding inside a product is not modelled. The intermediate values are parameters fixed by the requires clauses, which keeps the products out of the rounding lemmas.
- ObservationLimiter.Limiter.Acquire: takes counters without zero entries, which is what every run has by `EveryRunCounts`; only then does a rollback restore the maps exactly.
- Concurrent use of the rate limiter, the limiter of observations and the code store is modelled by interleaved atomic operations, as their mutexes make them.
