# Verified models of the gateway's protocols, sync loops and accounting

A Dafny model of the parts of this LLM gateway whose correctness is not visible from one function at a time:
two concurrent protocols, stateful structures that are rebuilt in place, list and counter transformations, a
buffered submission with deferred effects, and two pieces of exact arithmetic. Each component has its own
module. Code that changes state step by step is modelled by classes and methods with loops, proved against
specification functions; protocols of several goroutines are transition systems, and their theorems quantify
over every run, that is over every sequence of enabled steps.

| module | models | main results |
|---|---|---|
| `WorkerPool` | the channel-test worker pool | safe, complete and draining in every interleaving |
| `OrderLock` | the reference-counted lock per trade number | mutual exclusion, the right mutex found, no entry leaked, no deadlock |
| `RateLimiter` | the in-memory sliding window with its sweeper | refines a limiter that keeps the whole history; exact condition |
| `KeyList`, `MultiKey` | multi-key channels | what the row holds after every run of requests; exactly when that is, and shows as, plain edits of a list |
| `UpstreamSync`, `Iteration` | upstream model detection and application | list algebra; convergence of one cycle and of any number of cycles, exact conditions |
| `Monitoring` | the group monitoring rollup | equals direct sums over the rows; exact condition |
| `CommonModels` | the models a list of groups shares | the sorted intersection, independent of map order |
| `PricingDiff` | the pricing comparison with its two pruning passes | what survives and what it lists, on all inputs |
| `ModelsDev` | selecting a price per model | cheapest up to an epsilon, though the comparison is not transitive |
| `TaskRelay` | buffered task submission | one answer, its status and body from the last attempt alone, after the task is stored; exact condition for its headers |
| `OggScan` | the Ogg page scan for Opus files | terminates on any bytes, finds every page, a cut-off last one included |
| `TopUp` | top-up bounds | the maximum is tight; the minimum holds exactly when it fits |
| `Text`, `Basics` | strings, lists and types shared by the others | reading a stored list back, order of `sort.Strings` |

Numbers are unbounded integers and exact reals unless a module says otherwise. Clocks, the answers of upstream
services, regular expressions, the encoding of JSON answers and the number of retries are parameters.

## Where the code does less than it seems to

These properties hold only under a condition; each is proved as an equivalence or comes with the input that
breaks it. Model and code agree in all of them.

- Rate limiter: the answers are those of a full history exactly when every key's limit is at least 1 and, if there
  is a sweeper, its duration is at most one second more than the expiration. A limit of 0 acts as a limit of 1
  (`RateLimiter.ZeroActsAsOne`), and with a longer duration a sweep can forget a full window. A limiter initialized
  with an expiration that is not positive starts no sweeper, so it is right for every duration
  (`RateLimiter.AgreesExactlyWhenSound`).
- Multi-key deletion of disabled keys: it leaves the other keys exactly when there was nothing to delete or the
  others are not none and have no empty key at either end (`KeyList.DeletesExactlyWhen`). Two things happen
  otherwise. When every key is disabled automatically, or the only other key is empty, the new key string is empty,
  the row update leaves empty columns alone, and all keys stay although some are reported as deleted
  (`KeyList.OnlyKeyComesBack`, `KeyList.EmptySurvivor`, `KeyList.EmptySurvivorExample`). When more keys are left
  with an empty one at an end, more keys are gone than are reported (`KeyList.CountIsGoneExactlyWhen`).
- Multi-key display: a status report that enables a key leaves its disabled time and reason behind; a later manual
  disable shows them again (`KeyList.StaleReasonShows`, `KeyList.ShowsExactlyWhen`,
  `KeyList.AutoKeepsFreshExactlyWhen`).
- Multi-key storage: the list is one string whose ends are trimmed, so an empty key that a deletion leaves at
  either end is lost while statuses, times and reasons stay at their indices. A request leaves the edited list
  exactly when the keys did not change or their ends are not empty; otherwise every key takes over what was stored
  as many places before it as empty keys were lost in front (`MultiKey.MultiKeyChannel.Manage`,
  `KeyList.ReloadsExactlyWhen`, `KeyList.ShiftsBy`, `KeyList.EmptyKeyExample`). So every request of a run shows as a
  plain edit exactly when every list on the way can be stored and no request is to delete every key
  (`KeyList.RunActsPlainlyExactlyWhen`). Times and reasons may then be left behind the last key, and a key appended
  there takes them over (`MultiKey.MultiKeyChannel.AppendKeys`).
- Upstream sync: detecting, applying everything and detecting again finds nothing exactly when no added name holds
  a comma and no added name was the only ignore pattern hiding another name (`UpstreamSync.ConvergesExactlyWhen`).
  Repeated, the cycle settles after at most one round more than there are ignore rules, exactly when some of the
  rules guard the list: an offered name that is neither in the list nor a redirect target, and that is one of these
  rules or holds a comma, is ignored by one of them. Otherwise no number of rounds settles it
  (`UpstreamSync.SettlesExactlyWhen`, `UpstreamSync.CommaExample`, `UpstreamSync.PatternExample`). Automatic sync
  drops no rule, so it settles at once exactly when no pending name holds a comma
  (`UpstreamSync.AutoSettlesExactlyWhen`).
- Task submission: the response buffer holds back status and body but not headers, which pass through it at once and
  survive a reset. So an error that replaces a discarded answer, for a failed insert for instance, goes out with the
  `X-New-Api-Other-Ratios` of the discarded attempt. The response is that of the answer alone exactly when every
  header is set by the answer itself or was left by the discarded attempts as they found it
  (`TaskRelay.CleanExactlyWhen`, `TaskRelay.ErrorKeepsRatios`).
- Monitoring: a model is counted right for all rows exactly when the series starts on the display grid, which the
  page guarantees, and no source is named twice (`Monitoring.RightExactlyWhen`).
- Pricing comparison: a null price and the text "same" can disagree with the local value without being shown
  (`PricingDiff.SurvivesExactlyWhen`, `PricingDiff.UnshownIsLost`).
- Price selection: the order of the providers matters; against it, a chain of near-ties drifts
  (`ModelsDev.UnsortedDrifts`).
- Top-up minimum in token display: accepted orders respect the configured minimum exactly when that minimum, in
  quota, fits a wallet (`TopUp.MinimumHoldsExactlyWhen`).

## Model

| member | source | states |
|---|---|---|
| `WorkerPool.PoolIsSafe` | controller/channel-test.go:965-1053 | in every interleaving, cancelled or not: no send on a closed channel, no negative wait group; as many workers as asked for but at least 1, at most 32 and no more than channels, and no more calls of run open at a time; run at most once per channel and never on a nil or manually disabled one; progress reported as 0, 1, 2, ..; and each of the five counters is the integer sum of that counter over the delivered results |
| `WorkerPool.PoolCompletes` | controller/channel-test.go:984-1052 | in every run that is not cancelled, when the caller returns: run was called exactly once on every channel that is neither nil nor manually disabled, every channel was delivered, counted and reported, and each of the five counters is the sum of that counter over the per-channel results |
| `WorkerPool.NothingLost` | controller/channel-test.go:1004-1051 | at every moment, counter by counter, what run has returned is the summary plus what workers are still trying to send |
| `WorkerPool.OpenRuns` | controller/channel-test.go:1004-1009 | at every moment the calls of run made and not returned are the workers that are in one |
| `WorkerPool.ReturnedResultsAreReduced` | controller/channel-test.go:1039-1052 | when the caller returns, cancelled or not, each counter of the summary is the sum of that counter over all results that run returned |
| `WorkerPool.NothingStartsAfterCancel` | controller/channel-test.go:996-1003 | from a cancellation on, run is not called again and nothing is reported |
| `WorkerPool.PausesAfterResults` | controller/channel-test.go:1010-1016 | a worker goes into the wait for the request interval once after each result it sends, if there is an interval, and never otherwise |
| `WorkerPool.PoolNeverDeadlocks` | controller/channel-test.go:989-1051 | every reachable state with a goroutine left has an enabled step that is not a cancellation |
| `WorkerPool.PoolDrains` | controller/channel-test.go:989-1051 | every step uses up a measure, so no run is longer than six steps per channel, one per worker and four |
| `WorkerPool.StepKeepsInv` | controller/channel-test.go:989-1051 | the pool invariant (control, wait group, custody of every job, calls, totals, results, progress) is kept by every step |
| `WorkerPool.RunKeepsInv` | controller/channel-test.go:965-1053 | the invariant holds at the end of every run |
| `WorkerPool.ControlKept` | controller/channel-test.go:1023-1037 | closed flags, feeder, wait group and exits stay consistent, and nothing panics |
| `WorkerPool.CustodyKept` | controller/channel-test.go:996-1009 | every job handed out is with exactly one worker, delivered, or dropped after a cancellation |
| `WorkerPool.CallsKept` | controller/channel-test.go:1000-1007 | the calls of run are those jobs that passed the checks, once each |
| `WorkerPool.BookedKeepsTotals` | controller/channel-test.go:1041-1047 | the processed count and the summary are those of the delivered jobs |
| `WorkerPool.ResultsKept` | controller/channel-test.go:1004-1009 | without cancellation a pending or delivered result is the one for its job |
| `WorkerPool.ProgressKept` | controller/channel-test.go:1047-1050 | the reports are 0, 1, .. without gaps and follow the processed count |
| `WorkerPool.StepDecreasesRank` | controller/channel-test.go:989-1051 | every step strictly lowers the measure |
| `OrderLock.MutualExclusion` | controller/topup.go:362-392 | in every interleaving of any number of threads at most one is between lock and unlock for a trade number |
| `OrderLock.UnlockFindsItsMutex` | controller/topup.go:378-384 | unlock finds an entry, it is the mutex that was locked and the caller still holds it; no unlocked mutex is ever unlocked |
| `OrderLock.TableTracksUsers` | controller/topup.go:363-391 | the reference count is the number of threads counted in and not out, and outside the table lock an entry exists exactly when there are any; an idle system keeps no entry |
| `OrderLock.LockNeverDeadlocks` | controller/topup.go:363-392 | while a thread is inside or between the two functions some thread can move |
| `OrderLock.TwelveStepsPerCall` | controller/topup.go:363-392 | in every run a thread makes twelve accesses per call of the pair and is out after them; it takes a mutex in the fifth and frees it in the eighth, so that whenever it is out it has taken and freed one exactly once per call |
| `OrderLock.StepGoesOn` | controller/topup.go:363-392 | every access of a thread brings it one nearer to the end, so none can be repeated or skipped |
| `OrderLock.StepTakesAndFrees` | controller/topup.go:374-384 | exactly the access eight before the end takes a mutex and the one five before the end frees one |
| `OrderLock.HoldsWhatItTook` | controller/topup.go:374-384 | a thread holds a mutex only while it has taken one more than it has freed, and one at a time |
| `OrderLock.KeepsItsTradeNo` | controller/topup.go:363-379 | a thread works on the trade number of its latest call throughout |
| `OrderLock.StepKeepsInv` | controller/topup.go:363-392 | the lock invariant is kept by every shared-memory access |
| `OrderLock.RunKeepsInv` | controller/topup.go:353-392 | the invariant holds at the end of every run |
| `OrderLock.CountKept` | controller/topup.go:372-388 | each mutex counts exactly the threads that refer to it |
| `OrderLock.HolderKept` | controller/topup.go:374-384 | a mutex is held exactly by the thread that is past its lock and before its unlock |
| `OrderLock.EntryKept` | controller/topup.go:365-390 | an entry is in use, or its count is just being decided under the table lock |
| `RateLimiter.InMemoryRateLimiter.constructor` | common/rate-limit.go:14-26 | starts with no queues |
| `RateLimiter.InMemoryRateLimiter.Request` | common/rate-limit.go:45-70 | answers and updates the store as the specification says, and keeps stored queues nonempty |
| `RateLimiter.InMemoryRateLimiter.Sweep` | common/rate-limit.go:31-40 | when there is a sweeper, removes exactly the expired keys, whatever order they are visited in |
| `RateLimiter.LimiterRefinesNaive` | common/rate-limit.go:28-70 | after every run of requests and sweeps the answer is that of a limiter that keeps all acceptances, so sweeping cannot be observed |
| `RateLimiter.SameLog` | common/rate-limit.go:45-70 | both limiters accept the same requests over the whole run |
| `RateLimiter.NoWindowOverflows` | common/rate-limit.go:45-70 | no half-open window of the duration holds more acceptances of a key than its limit |
| `RateLimiter.RunRepresents` | common/rate-limit.go:28-70 | every queue is the end of the full history and what it lacks has left the window |
| `RateLimiter.SameAnswer` | common/rate-limit.go:51-69 | comparing the oldest queued time is counting the recent part of the history |
| `RateLimiter.UnsoundPolicyDisagrees` | common/rate-limit.go:20-38 | for every policy outside the condition there is a run with a wrong answer, without a sweep if there is no sweeper |
| `RateLimiter.AgreesExactlyWhenSound` | common/rate-limit.go:20-70 | all answers are right exactly when every limit is positive and, if the configured expiration in nanoseconds is positive so that a sweeper is started, every duration is at most a second longer than it |
| `RateLimiter.ZeroActsAsOne` | common/rate-limit.go:51-69 | in every run a limit of 0 leaves the same queues and gives the same answers as a limit of 1 |
| `KeyList.RunShows` | controller/channel.go:1739-2042 | from a list whose times and reasons are tied to statuses, over every run of requests in which every list on the way can be stored and none is to delete every key, the list shown is the result of plain edits of a list of records |
| `KeyList.RunActsPlainlyExactlyWhen` | controller/channel.go:1739-2042 | from such a list, over every run, times and reasons stay tied to statuses, and each request does to the list shown of the stored row what the record edit says exactly when every list on the way can be stored and no request is to delete every key |
| `KeyList.ShowsExactlyWhen` | controller/channel.go:1739-2042 | one request does to the list shown of the stored row what the record edit says exactly when the edited list can be stored, it disables no enabled key with a stored time or reason and it is not to delete every key |
| `KeyList.EditsExactlyWhen` | controller/channel.go:1739-2042 | the row holds the edited list after a request exactly when that can be stored |
| `KeyList.StorableRunEdits` | controller/channel.go:1739-2042 | over a run whose lists can all be stored the row holds the edited list throughout |
| `KeyList.ReloadsExactlyWhen` | model/channel.go:215-237 | an edited list is read back as it is exactly when its keys are those from before or have no empty end |
| `KeyList.ShiftsBy` | model/channel.go:215-237 | otherwise each key takes the status, time and reason stored as many places before it as empty keys were lost in front |
| `KeyList.EmptyKeyExample` | controller/channel.go:1895-1973 | keys a, empty and b with the empty one disabled: deleting a leaves b alone, disabled |
| `KeyList.PlainRunIsStorable` | controller/channel.go:1739-2042 | without empty keys every list on the way of every run can be stored and read back |
| `KeyList.EditKeepsFresh` | controller/channel.go:1739-2042 | every request keeps times and reasons to keys that have a status |
| `KeyList.EditKeepsPlain` | controller/channel.go:1895-2042 | without empty keys every edit can be stored and read back |
| `KeyList.DeletesExactlyWhen` | controller/channel.go:1975-2042 | deleting disabled keys shows exactly the others exactly when there is nothing to delete, or others are left and neither end of them is empty |
| `KeyList.EmptySurvivor` | model/channel.go:833-880 | when one empty key is all that is left, all keys stay: the first takes over what was stored about the empty one and the others are enabled |
| `KeyList.EmptySurvivorExample` | controller/channel.go:1997-2032 | three keys, an empty one between two that are disabled automatically: two are reported as deleted and all three stay, enabled |
| `KeyList.OnlyKeyComesBack` | controller/channel.go:1997-2032 | one automatically disabled key is enabled by being deleted, and reported as deleted |
| `KeyList.CountsAreChanges` | controller/channel.go:1824-1893 | the counts that enable-all and disable-all report are the numbers of keys of the row that changed |
| `KeyList.CountIsGoneExactlyWhen` | controller/channel.go:1975-2042 | the count that delete-disabled reports is the number of keys gone from the row exactly when there is nothing to delete, or others are left and neither end of them is empty; when every key was to be deleted it is the number of keys that were enabled |
| `KeyList.SurvivorCount` | controller/channel.go:1984-2013 | survivors and deleted keys make up the list |
| `KeyList.OneKeyEdits` | controller/channel.go:1739-1973 | a request on one key changes its entry as asked, an enabled one losing time and reason, and leaves every other entry as it was; deleting leaves the others in order |
| `KeyList.SurvivorsAre` | controller/channel.go:1975-2013 | deleting disabled keys keeps exactly the entries not disabled automatically, in order, with the time and reason of manually disabled ones |
| `KeyList.CountIs` | controller/channel.go:1638-1686 | the counts are the numbers of places with the status |
| `KeyList.AutoKeepsFreshExactlyWhen` | model/channel.go:948-998 | a status report keeps times and reasons tied to statuses exactly when it does not enable a key that has either |
| `KeyList.ReportChangesOne` | model/channel.go:948-998 | a status report changes the first entry with the key in use and no other: its status and, unless it is enabled, its time and reason |
| `KeyList.RefusedChangesNothing` | controller/channel.go:1739-2042 | a request that is refused or finds nothing to do changes nothing |
| `KeyList.OneKeyAnswers` | controller/channel.go:1739-1954 | a request on one key is done exactly when the index is given and in range and the key to delete is not the only one; which error otherwise |
| `KeyList.StaleReasonShows` | model/channel.go:975-987 | disabled and enabled by reports, then disabled by hand, a key shows the old time and reason |
| `KeyList.Filtered` | controller/channel.go:1688-1698 | the filtered list holds exactly the keys of the status asked for |
| `KeyList.FilteredIs` | controller/channel.go:1688-1698 | every key of the status asked for is there, once and in order |
| `KeyList.PagesAreFull` | controller/channel.go:1700-1721 | no page before the last is short, and the last is empty only if there is nothing to show |
| `KeyList.PagesConcatenate` | controller/channel.go:1700-1721 | for every page size, pages 1 to the last one after another are the filtered list |
| `MultiKey.MultiKeyChannel.Manage` | controller/channel.go:1624-2042 | each action keeps the row valid, answers as specified and leaves what the edited list is reloaded as; that is the edited list exactly when it can be stored, and shows as the plain edit exactly when, besides, no stale key is disabled and not every key was to be deleted |
| `MultiKey.MultiKeyChannel.ManageAll` | controller/channel.go:1739-2042 | after every run of actions the row is valid and holds what the edits, reloaded one after the other, leave, with the matching answers; if every list on the way can be stored, that is the edited list |
| `MultiKey.MultiKeyChannel.DisableKey` | controller/channel.go:1739-1780 | disables the key named and no other; errors change nothing |
| `MultiKey.MultiKeyChannel.EnableKey` | controller/channel.go:1782-1822 | enables the key named and forgets its time and reason |
| `MultiKey.MultiKeyChannel.EnableAllKeys` | controller/channel.go:1824-1846 | enables all keys and reports how many were not |
| `MultiKey.MultiKeyChannel.DisableAllKeys` | controller/channel.go:1848-1893 | disables exactly the enabled keys and reports how many |
| `MultiKey.MultiKeyChannel.DeleteKey` | controller/channel.go:1895-1973 | removes one entry, the others keeping order, status, time and reason at their new indices, exactly when the rest can be stored; what is left otherwise; the last key is refused |
| `MultiKey.MultiKeyChannel.DeleteDisabledKeys` | controller/channel.go:1975-2042 | removes the automatically disabled entries, or enables them when those are all, exactly when the rest can be stored; what is left otherwise |
| `MultiKey.MultiKeyChannel.Update` | model/channel.go:833-880 | an empty key keeps the stored one, the size is counted again and statuses beyond it are dropped |
| `MultiKey.MultiKeyChannel.Replace` | controller/channel.go:1955-1962 | what a shorter list is read back as: its keys stripped of empty ends, or the old keys when nothing is left to store, over its statuses, times and reasons in place |
| `MultiKey.MultiKeyChannel.AutoUpdate` | model/channel.go:948-998 | changes the first entry with the key in use and no other |
| `MultiKey.MultiKeyChannel.GetKeyStatus` | controller/channel.go:1625-1737 | the three counts are right and add up to the number of keys; the page returned is the page asked for, clamped, of the filtered list |
| `MultiKey.MultiKeyChannel.AppendKeys` | controller/channel.go:1085-1159 | into an empty row the input is stored, otherwise the old keys and the new lines, trimmed and once each, without empty ends, all over what is stored at each index; where no old end is lost this keeps every entry and adds bare enabled keys exactly when no time or reason was left behind at their indices |
| `MultiKey.RebuildWithout` | controller/channel.go:1913-1945 | re-indexing without one key is removing its entry |
| `MultiKey.RebuildSurvivors` | controller/channel.go:1976-2013 | re-indexing without disabled keys is keeping the other entries, and the count is right |
| `MultiKey.Keep` | controller/channel.go:1926-1944 | a kept key carries its status, time and reason to the next index |
| `MultiKey.DisableEnabled` | controller/channel.go:1860-1872 | exactly the enabled indices get the disabled status, and are counted |
| `MultiKey.DisabledCount` | controller/channel.go:1824-1830 | the number of status entries is the number of keys that are not enabled |
| `MultiKey.Prune` | model/channel.go:863-870 | exactly the statuses beyond the size are dropped |
| `MultiKey.BuildStatus` | controller/channel.go:1638-1686 | the list shown and the three counts, which add up |
| `MultiKey.ApplyFilter` | controller/channel.go:1688-1698 | the filter loop gives the filtered list |
| `MultiKey.CollectNew` | controller/channel.go:1126-1155 | the new keys are the cleaned lines, once each, that no existing key equals after trimming |
| `KeyList.NewKeysAre` | controller/channel.go:1126-1155 | line by line: a line brings a key exactly when it is not blank and neither a line before it nor an existing key is the same once trimmed; the new keys are these, trimmed and in order |
| `MultiKey.AppendedReads` | controller/channel.go:1157-1158 | what the joined list is read back as |
| `Text.ReadsBackExactlyWhen` | model/channel.go:215-237 | a separator-free list is read back as it was joined exactly when its ends are not empty |
| `Text.ReadsBackStripped` | model/channel.go:215-237 | and in all cases without its empty ends |
| `Text.NormalizeIsNormal` | controller/channel_upstream_update.go:100-105 | normalization gives trimmed, nonempty, distinct names and leaves such a list alone |
| `Text.CleanedIs` | controller/channel_upstream_update.go:100-105 | exactly the names that are not blank are kept, trimmed and in order |
| `Text.UniqIs` | controller/channel_upstream_update.go:100-105 | of equal names the first is kept, in order |
| `Text.TrimIs` | controller/channel_upstream_update.go:100-105 | trimming takes only cut characters off the two ends, and leaves none there |
| `Text.JoinSplit` | model/channel.go:215-237 | joining the parts of a split string gives it back |
| `Text.LessIs` | controller/group_monitoring.go:222-224 | the order of strings: one is the beginning of the other, or has the smaller character where they first differ |
| `UpstreamSync.MergeModelNames` | controller/channel_upstream_update.go:107-121 | merging keeps the base and appends what is new, in order |
| `UpstreamSync.OnNormalLists` | controller/channel_upstream_update.go:107-143 | merge, subtract and intersect on normalized lists, in order and without duplicates |
| `UpstreamSync.ApplySelectedAlgebra` | controller/channel_upstream_update.go:145-150 | survivors in their order, then the new names; the set is (origin + add) - (remove - add) |
| `UpstreamSync.PendingIsNormal` | controller/channel_upstream_update.go:188-247 | pending names are normalized; which names they are |
| `UpstreamSync.PendingExactly` | controller/channel_upstream_update.go:188-247 | an offered name that is neither in the list nor a redirect target is left out exactly when it is itself an ignore entry that does not start with `regex:`, or an entry is `regex:` followed by a pattern that, spaces around it cut, matches it |
| `UpstreamSync.Channel.CheckUpdates` | controller/channel_upstream_update.go:511-558 | the stored state after a check in all cases, failed fetch and early return included; models change exactly when a check that is due or forced may apply, succeeds and finds additions, and then by as many as it found |
| `UpstreamSync.Channel.AutoApply` | controller/channel_upstream_update.go:535-548 | automatic sync adds exactly as many models as were pending |
| `UpstreamSync.Channel.ApplyUpdates` | controller/channel_upstream_update.go:956-1004 | the stored state and the returned lists after an application |
| `UpstreamSync.ApplyAlgebra` | controller/channel_upstream_update.go:956-1004 | the new list, its order and its set; a pending addition remains exactly when neither added nor ignored; a name added and ignored is added and leaves the ignore list |
| `UpstreamSync.RoundSets` | controller/channel_upstream_update.go:956-1004 | what a detection and its full application do to models and ignore list, as sets |
| `UpstreamSync.NextIsStored` | controller/channel_upstream_update.go:977-982 | without commas the new list is stored as it is |
| `UpstreamSync.SecondAdditions` | controller/channel_upstream_update.go:222-236 | exactly which names a second detection would add |
| `UpstreamSync.SecondRemovals` | controller/channel_upstream_update.go:237-245 | a second detection removes nothing |
| `UpstreamSync.ConvergesExactlyWhen` | controller/channel_upstream_update.go:145-1004 | detect, apply all, detect again finds nothing exactly when no added name holds a comma and the remaining rules suffice |
| `UpstreamSync.ConvergesOnPlainNames` | controller/channel_upstream_update.go:145-1004 | it does whenever no upstream name holds a comma or starts with `regex:` |
| `UpstreamSync.RoundExactlyWhen` | controller/channel_upstream_update.go:145-1004 | the same for the request that asks for everything |
| `UpstreamSync.RoundProgresses` | controller/channel_upstream_update.go:956-1004 | a cycle that adds no name with a comma settles the list or drops an ignore rule |
| `UpstreamSync.CommaStaysPending` | controller/channel_upstream_update.go:977-982 | after a cycle that adds a name with a comma the next one does so again |
| `UpstreamSync.SettlesExactlyWhen` | controller/channel_upstream_update.go:145-1004 | after any number of cycles larger than the number of ignore rules nothing is pending exactly when some of the rules guard the list, as read off the channel, the redirects and the upstream list; and if none do, no number of cycles settles it |
| `UpstreamSync.RoundGuards` | controller/channel_upstream_update.go:956-1004 | a cycle keeps rules that guard the list, and one that adds no name with a comma does not make them up |
| `UpstreamSync.AutoSettlesExactlyWhen` | controller/channel_upstream_update.go:535-548 | after automatic sync a second check adds nothing exactly when no pending name held a comma |
| `UpstreamSync.SettlesWithoutCommas` | controller/channel_upstream_update.go:145-1004 | when no upstream name holds a comma every such number of cycles settles it |
| `UpstreamSync.NeverSettles` | controller/channel_upstream_update.go:977-982 | when the first cycle adds a name with a comma none does |
| `UpstreamSync.CommaExample` | controller/channel_upstream_update.go:977-982 | an empty channel that is offered the one name "a,b" is not settled by any number of cycles |
| `UpstreamSync.PatternExample` | controller/channel_upstream_update.go:984-987 | one that ignores by a pattern and is offered a name spelled like it and a name it hides is not settled by the first cycle, and is by two or more |
| `UpstreamSync.CommaFails` | model/channel.go:329-334 | a name with a comma that is added breaks it |
| `UpstreamSync.PatternFails` | controller/channel_upstream_update.go:226-234 | adding a name spelled like the only pattern that hides another breaks it |
| `Monitoring.BuildGroups` | controller/group_monitoring.go:359-462 | every card holds the sums of its sources and models, and the overall figure counts each covered row once |
| `Monitoring.CoverageOf` | controller/group_monitoring.go:361-368 | a key is covered exactly when some monitor has its source and model |
| `Monitoring.Roll` | controller/group_monitoring.go:369-399 | buckets, recent, last-day and overall counters are the sums of the rows they should hold |
| `Monitoring.Summarize` | controller/group_monitoring.go:410-446 | a model's buckets, total, recent and last-day counters as sums over its sources |
| `Monitoring.SummarizeCard` | controller/group_monitoring.go:402-456 | a card's total is the sum of its models' totals |
| `Monitoring.SummaryIsDirect` | controller/group_monitoring.go:374-446 | on the grid and with distinct sources, total, recent and last-day counters equal direct sums over the rows of the sources with a timestamp in the window |
| `Monitoring.TotalIsItsBuckets` | controller/group_monitoring.go:419-434 | a model's total is what its displayed buckets add up to, always |
| `Monitoring.CardIsDirect` | controller/group_monitoring.go:408-455 | a card's total is the direct sum over the rows of its sources and models |
| `Monitoring.OverallIsDirect` | controller/group_monitoring.go:374-399 | the overall figure is the direct sum over the rows some monitor watches, each once however monitors overlap |
| `Monitoring.SeriesIs` | controller/group_monitoring.go:418-425 | on the grid the series adds up to the window, off it to nothing |
| `Monitoring.SumSlot` | controller/group_monitoring.go:374-378 | what falls into a slot is displayed at its start, and nothing is displayed off the grid |
| `Monitoring.DisplayInWindow` | controller/group_monitoring.go:375-378 | a timestamp is displayed in a grid window exactly when it lies in it |
| `Monitoring.RightExactlyWhen` | controller/group_monitoring.go:374-425 | request counts are right for all rows exactly when the series starts on the grid and no source is named twice |
| `Monitoring.SeriesSettled` | controller/group_monitoring.go:251-255 | the series ends on the grid, one flush interval back and less than a bucket more, so it starts on the grid |
| `Monitoring.LatencyWindow` | controller/group_monitoring.go:485-492 | the latency window is a whole number of storage buckets, the longest within an hour |
| `CommonModels.Common` | controller/group_monitoring.go:200-225 | exactly the models of every group, ascending; groups and models may repeat |
| `CommonModels.CountGroup` | controller/group_monitoring.go:205-215 | after each group a model's count is the number of groups from the first on, without a gap, that have it |
| `CommonModels.LeadIsAll` | controller/group_monitoring.go:217-221 | a full count means every group has the model |
| `CommonModels.AscendingIsUnique` | controller/group_monitoring.go:217-224 | the sorted answer has no duplicates and does not depend on the order of the map |
| `PricingDiff.BuildDifferences` | controller/ratio_sync.go:536-696 | with distinct channel names, exactly which entries the result holds, said of the lists alone; on plain reports exactly those where a channel has a value apart from the local one; no model without an entry |
| `PricingDiff.CompareCell` | controller/ratio_sync.go:606-626 | what an entry shows for one channel and whether it differs |
| `PricingDiff.Compare` | controller/ratio_sync.go:595-652 | an entry is included exactly when a channel differs, or reports where there is no local value |
| `PricingDiff.CompareAll` | controller/ratio_sync.go:540-654 | all entries to include and no model without one |
| `PricingDiff.DiffChannels` | controller/ratio_sync.go:656-665 | the channels that some entry shows a difference for |
| `PricingDiff.PruneItem` | controller/ratio_sync.go:669-683 | other channels are dropped, and whether anything is left to show |
| `PricingDiff.Prune` | controller/ratio_sync.go:667-693 | entries with nothing left are dropped, and models with no entry |
| `PricingDiff.SurvivesExactlyWhen` | controller/ratio_sync.go:536-696 | on all inputs with distinct names, read off the lists: an entry survives exactly when a channel disagrees on it with a value that is neither null nor "same", or one disagrees with the local value and a channel that does so elsewhere has no value here |
| `PricingDiff.SurvivorLists` | controller/ratio_sync.go:656-687 | a surviving entry lists exactly the channels that disagree visibly somewhere: one that disagrees here with its own value, one that agrees with "same", one that is silent with null |
| `PricingDiff.DisagreesIs` | controller/ratio_sync.go:48-63 | the comparison of the code is this: the channel has a value where there is none here, or two numbers at least 1e-9 apart, or two values that are not both numbers and not the same |
| `PricingDiff.CellIs` | controller/ratio_sync.go:606-626 | what an entry shows for a channel, said of the lists |
| `PricingDiff.EntryIs` | controller/ratio_sync.go:560-652 | a surviving entry has the local value or null, and trusts a listed channel exactly when that does not have 37.5 and 1, up to 1e-9, for the model |
| `PricingDiff.PlainSurvives` | controller/ratio_sync.go:536-696 | without null and "same": exactly when some channel disagrees |
| `PricingDiff.PlainLists` | controller/ratio_sync.go:656-687 | then a surviving entry lists exactly the channels that disagree somewhere, each with its own value where it disagrees here |
| `PricingDiff.VisibleIs` | controller/ratio_sync.go:606-624 | a difference is shown exactly for a differing value that is neither null nor "same" |
| `PricingDiff.UnshownIsLost` | controller/ratio_sync.go:608-624 | a null price and the text "same" differ and are pruned |
| `ModelsDev.BuildCandidate` | controller/ratio_sync.go:845-878 | exactly which prices make a candidate, and what it carries, a negative cache price dropped |
| `ModelsDev.SelectFrom` | controller/ratio_sync.go:922-943 | one provider's pass takes each of its models one step on |
| `ModelsDev.Select` | controller/ratio_sync.go:915-944 | every model with a valid candidate keeps one that is free only if all are, and otherwise dearer than no other paid one by 1e-9 or more; of equal prices the first provider's |
| `ModelsDev.KeptIsCheapest` | controller/ratio_sync.go:881-944 | the same after any number of providers in ascending order |
| `ModelsDev.KeptIsFirst` | controller/ratio_sync.go:881-944 | among candidates of the same price the first provider's is kept |
| `ModelsDev.CheapestNext` | controller/ratio_sync.go:881-893 | one replacement decision keeps it |
| `ModelsDev.UnsortedDrifts` | controller/ratio_sync.go:881-893 | in descending order three near-ties end 1.2e-9 above the cheapest |
| `TaskRelay.TaskResponseBuffer.constructor` | controller/task_response_buffer.go:31-33 | an empty buffer over the client's writer |
| `TaskRelay.TaskResponseBuffer.WriteHeader` | controller/task_response_buffer.go:36-45 | the first status counts, the client's writer sees nothing before the flush and everything after |
| `TaskRelay.TaskResponseBuffer.Write` | controller/task_response_buffer.go:55-67 | bytes are held before the flush and passed on after |
| `TaskRelay.TaskResponseBuffer.Do` | controller/task_response_buffer.go:23-67 | whatever an attempt does before the flush, nothing goes out: status and body stay in the buffer, and headers go to the client's writer at once |
| `TaskRelay.TaskResponseBuffer.Reset` | controller/task_response_buffer.go:99-106 | forgets the status and body not sent, and leaves the client's writer with its headers alone |
| `TaskRelay.TaskResponseBuffer.FlushToClient` | controller/task_response_buffer.go:110-130 | sends exactly the answer the operations amount to, with the headers of that moment, once; a second flush does nothing |
| `TaskRelay.RunTurns` | controller/relay.go:710-762 | it ends with the first turn that is refused, succeeds or is not to be retried, or the last, all before it having failed and been retried; whatever attempts wrote, the buffer holds that turn's status and body only, and the headers are those of all attempts up to it |
| `TaskRelay.RelayTask` | controller/relay.go:686-822 | of the one log that writer, settlement, insert and refund share, for that turn: refused or failed, the client heard its error, nothing was settled or inserted, and it was refunded once if there is something to refund and the upstream has certainly not taken the task; successful, it was settled and inserted once and never refunded, and the client heard what it wrote itself, or a server error if the insert failed; one delivery at most; for a stored task no byte before the insert |
| `TaskRelay.EndsAt` | controller/relay.go:710-762 | the deciding turn, by the outcomes of the turns alone: exactly the one that is refused, succeeds, is not to be retried or is last, with every turn before it failed and retried |
| `TaskRelay.FirstStatusIs` | controller/task_response_buffer.go:36-45 | the status of an answer is the first one written |
| `TaskRelay.WrittenBoth` | controller/task_response_buffer.go:55-67 | its body is all that was written, in order |
| `TaskRelay.SameDecider` | controller/relay.go:710-822 | any two runs with the same deciding turn answer with the same status and body, and with the same headers exactly when, name by name, the answer sets the header or both runs left it alike |
| `TaskRelay.CleanExactlyWhen` | controller/task_response_buffer.go:99-130 | the response, headers included, is that of the answer alone exactly when every header is set by the answer or was left by the discarded operations as they found it |
| `TaskRelay.RatiosAreOwn` | relay/relay_task.go:310-316 | a stored submission shows its own ratios, whatever was tried before |
| `TaskRelay.ErrorKeepsRatios` | controller/relay.go:809-820 | after a failed insert or a failed response the error goes out with the ratios of the discarded attempt, which the error alone would not have |
| `TaskRelay.AgreeExactlyWhen` | controller/task_response_buffer.go:23-33 | two header maps are the same after the same operations exactly when each name is set by them, or has the same value once they have filled it in |
| `TaskRelay.JsonIs` | controller/relay.go:826-831 | the answer an error response amounts to |
| `OggScan.Turn` | common/audio.go:207-249 | every turn ends the scan or moves the position strictly forward |
| `OggScan.ScanGranules` | common/audio.go:204-249 | on any bytes the scan ends with the largest granule position of the headers it saw, or 0 |
| `OggScan.Duration` | common/audio.go:251-253 | 48000 samples make a second |
| `OggScan.ScanFindsPages` | common/audio.go:207-249 | on well-formed pages, after junk and before less than a header or a page that is cut off anywhere, it lands on every header in turn and finds the largest signed granule position or 0, the cut-off page counting once its header is complete |
| `OggScan.PageFields` | common/audio.go:219-248 | the fields of a page, whole or cut off behind its header, are where the scan reads them, and the page is stepped over |
| `OggScan.SignedBack` | common/audio.go:228-229 | every signed 64-bit position is read back from its eight bytes |
| `OggScan.ValueNext` | common/audio.go:228-229 | positions are little-endian |
| `OggScan.SignedIs` | common/audio.go:228-229 | and two's complement |
| `OggScan.TotalIs` | common/audio.go:233-241 | the size of a page body is the sum of its segment table |
| `OggScan.JunkIsPassed` | common/audio.go:219-225 | bytes before the first mark are passed one by one |
| `OggScan.LargestIs` | common/audio.go:228-231 | the value kept is the maximum; negative positions never count |
| `TopUp.WalletQuotaStrict` | common/quota_math.go:86-184 | converts exactly the values within the wallet bounds, unchanged |
| `TopUp.DivIntIs` | controller/topup.go:198-199 | for every price up to the largest wallet, rounded decimal division and truncation are integer division |
| `TopUp.RoundedIntPart` | controller/topup.go:209-212 | rounding at sixteen digits never carries into the integer part |
| `TopUp.BoundIsTight` | controller/topup.go:194-221 | in both displays a positive amount converts without overflow exactly when it is at most the maximum |
| `TopUp.ValidationIs` | controller/topup.go:234-244 | on every amount: valid exactly between the least and the largest, told the maximum exactly above it |
| `TopUp.AcceptsExactly` | controller/topup.go:180-244 | in both displays exactly which amounts are accepted, in terms of price, minimum and wallet alone |
| `TopUp.RoundDivIs` | controller/topup.go:198-199 | decimal division rounds to the nearest unit, halves away from zero |
| `TopUp.StoredIsValidated` | controller/topup.go:326-331 | the stored amount times the price is the validated quota |
| `TopUp.MinimumHoldsExactlyWhen` | controller/topup.go:180-192 | in token display accepted orders respect the minimum exactly when the minimum in quota fits a wallet |

## Left out

- Channel selection, retry limits and the failover loop of the synchronous relay: the number of attempts and the
  outcome of each are parameters.
- `selectChannelsForAutomaticTest`, health states, availability rates and latency averages: one-line decisions and
  display divisions.
- Payment callbacks, order completion, capacity checks, pay amounts and leases: decided in the database layer.
- JSON-array key lists and key previews: keys are the newline-separated form, without an element that parses as JSON.
- The channel's own status in `handlerMultiKeyUpdate`: only what it does to the keys is modelled.
- The database: row updates either happen or report an error before anything changes; an update leaves columns
  with empty values alone, as the object-relational mapper does for a struct.
- Errors before the response buffer is installed in `RelayTask`, which answer directly.
- Several values of one response header and the spelling of header names: a header has one value and names are compared as they are.
- Fractional and non-positive unit prices in `TopUp`, and a zero one, on which token display divides by zero.
- Sixty-four-bit overflow of counters, floating-point rounding of ratios and prices, and NaN.
- A short read before the end of a file, which a reader is allowed to make.
- `canonicalGroupMonitoringModel`, the case folding of configured model names: monitored names are compared as they are.
- RateLimiter.InMemoryRateLimiter.Request: a negative limit is not modelled, because allocating the queue fails on it.
- RateLimiter.LimiterRefinesNaive: each key keeps one policy through a run.
- Monitoring.SummaryIsDirect: assumes timestamps from the epoch on and group names without the zero character that separates key parts.
- PricingDiff.SurvivesExactlyWhen: assumes distinct channel names, which the caller makes unique.
- TaskRelay.RelayTask: assumes at least one attempt; with a negative retry setting there is none and the handler fails.
- OggScan.Turn: the reader is a byte string with a position, and seeking in it never fails.
