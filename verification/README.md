# GamifyKit in Dafny

A model of the parts of GamifyKit whose correctness is not evident from reading them, with proofs
that they do what the library promises. `dafny verify dfyconfig.toml` checks the whole project.

| file | what it models |
|---|---|
| `Board.dfy`, `SkipList.dfy` | the skip-list leaderboard as heap nodes with sixteen forward links, and the plain score map it must agree with |
| `RateLimiter.dfy` | the per-client token bucket of the HTTP API |
| `Core.dfy`, `Memory.dfy`, `Service.dfy`, `SerialRuns.dfy` | points, badges, levels and the event log, one service call at a time |
| `Adds.dfy`, `Interleaving.dfy`, `CallSteps.dfy` | concurrent `AddPoints` calls over the in-memory storage, step by step |
| `LevelMark.dfy`, `SoloCalls.dfy` | when the stored level survives concurrency, and agreement with the serial model |
| `EventBus.dfy`, `Delivery.dfy` | the event bus as a step relation of publishers, workers, subscribers and `Close`, and that nothing on it gets stuck |
| `Numbers.dfy`, `Calendar.dfy`, `Metrics.dfy`, `Aggregation.dfy`, `TopMetrics.dfy` | analytics counters, ISO weeks and months, roll-ups, and the ranking of metrics |
| `Splitting.dfy`, `RedisKeys.dfy`, `Redis.dfy` | path and key splitting, the Redis key codec, and the read-through state cache |

## Main results

- **Leaderboard.** For every choice of node heights, `Update` is map assignment, `Remove` is map
  deletion, `Get` is lookup and `TopN(n)` is the first `n` entries of the one listing of the map by
  (score descending, user ascending). After every operation each level links exactly the nodes
  tall enough for it, in listing order. Two histories that end in the same scores show the same
  top entries, whatever the random heights were.
- **Rate limiter.** A request is admitted if and only if, seen from every earlier request of the
  same key, it still fits into a full bucket plus what the rate has paid out since. This holds for
  any rate and any clock readings, ordered or not; the only exception is the first request of a
  bucket smaller than one token, which the code lets through. (The server builds a limiter only for
  a positive rate and burst, api/httpapi/httpapi.go:126, so it never meets that case.) Every stretch of requests that ends
  in a given one is within burst plus payout if and only if that request does not leave the bucket
  overdrawn, which with ordered readings and a burst of at least one never happens. These bounds, key isolation and freedom from
  starvation hold of the decisions of any interleaved run.
- **Engine.** After any serial run the event log, folded from nothing, rebuilds the store; with the
  default rules the stored experience level is the level of the highest total ever reached and the
  announced levels rise strictly up to it. Under any interleaving totals are still exact sums and
  every successful add is announced once. The level keeps its mark in every interleaving in which
  one user's experience adds do not overlap, which a caller can arrange; for every user there are
  two overlapping adds that leave it behind, in either of two ways. Every serial run is
  the outcome of an interleaving without overlap.
- **Event bus.** In every run each event that a publisher sent is dropped, queued, in flight or
  dispatched; the queue is bounded and first-in first-out; a dispatch calls exactly the handlers
  subscribed for its type at one moment of the run, once each. From every reachable state any
  worker that has not stopped can finish what it holds and dispatch the whole queue, in order.
- **Analytics.** Every counter equals a total over the events seen, on a calendar that is anchored
  at 1 January of year 1 and steps from each date to the next; the weekly and monthly roll-ups
  are those of exactly the events whose ISO week or month key is the current one.
- **Redis.** Over any run with cached states expiring at any time, the Redis store and the
  in-memory store give the same answers, given user ids that are of one piece when split at ':' and
  free of glob characters, and metrics that are non-empty and free of ':'. The condition is exact:
  for every other metric, every other user id without '[' and '\', and for a zero delta, there is a
  run in which the answers differ.

## How the source is rendered

- Objects whose methods change their fields are classes; lists and dictionaries they mutate are
  fields of type `seq` and `map`. The skip list's nodes are heap objects. A node's
  `[16]*node` is a value inside the node in Go, so it is a sequence of sixteen links replaced one
  slot at a time.
- Randomness, the clock and map iteration order are parameters or arbitrary choices, so each
  statement holds for all of them. Times are seconds and UTC day numbers; day, week and month keys
  are tuples instead of formatted text. Day 0 is Monday, 0001-01-01.
- `DefaultLevel` is taken over exact integers, as the comment above it describes it. The code goes
  through float64, which can differ from the exact curve for totals around 2^52 and above. The rate
  limiter's tokens and minutes are exact reals.
- `int64` overflow is explicit: `AddSafe` fails exactly when the sum leaves int64, and the point
  counters of the analytics wrap around. Counters that grow by one per event are unbounded.
- User-id normalisation and badge validation are parameters of the service model: its theorems hold
  for any such functions.
- Where code and documentation differ the model follows the code. The limiter admits the first
  request of a key even if `burst` is below one, which its only caller never asks for. The Redis store rejects a zero delta while the
  in-memory one accepts it and creates the metric; the service rejects it before either sees it.
- Redis is a map from keys to typed values; a command on a key of another type fails. Its glob
  matcher is a parameter that is pinned down on patterns without '[' and '\'.
- Proofs hide definitions that a step does not need; nothing is assumed.

## Model

| member | source | states |
|---|---|---|
| Board.LessIsStrictTotalOrder | leaderboard/skiplist.go:66-71 | the ranking order is transitive, asymmetric and total on distinct entries |
| Board.StringLessIsTextOrder | leaderboard/skiplist.go:68-68 | one text is before another exactly when, after some common beginning, it ends first or has the smaller character |
| Board.ListingOrder | leaderboard/skiplist.go:66-71 | of two entries of a listing the earlier has the higher score, or the same score and the user that comes first in text order |
| Board.ListingUnique | leaderboard/skiplist.go:11-11 | a score map has one listing by (score descending, user ascending) |
| Board.Listing | leaderboard/skiplist.go:11-11 | that listing exists for every score map |
| Board.TopLength | leaderboard/skiplist.go:137-150 | the top `n` are `min(n, size)` entries, none when `n` is not positive |
| Board.TopRanks | leaderboard/skiplist.go:137-150 | the top entries are entries of the map, highest score first and ties by user, and nobody left out ranks before anybody listed |
| Board.LastOperationDecides | leaderboard/skiplist.go:74-135 | after any history a user has the score of the last update, or none if the last operation was a removal |
| SkipLists.RandomLevel | leaderboard/skiplist.go:35-56 | a height is in 1..16 and is settled by the draws: a non-zero word by the zero pairs at its low end, a zero word by one level more and the next word, a failure by stopping |
| SkipLists.HeightOfWord | leaderboard/skiplist.go:41-54 | a word that ends in exactly `k` zero pairs of bits gives height `k + 1`, and 16 at most |
| SkipLists.EveryHeightIsDrawn | leaderboard/skiplist.go:35-56 | each height from 1 to 16 is drawn by some word |
| SkipLists.SkipList.FindPredecessors | leaderboard/skiplist.go:82-89 | the multi-level search terminates and leaves in `update[i]` the last node of level `i` that precedes the key |
| SkipLists.StopIsLastBefore | leaderboard/skiplist.go:108-113 | where the walk along a level stops is the predecessor on that level |
| SkipLists.SkipList.Raise | leaderboard/skiplist.go:90-96 | above the current top level the head is the predecessor |
| SkipLists.SkipList.Link | leaderboard/skiplist.go:97-101 | splicing a node in after its predecessors leaves every link of every level right |
| SkipLists.InsertAfterPredecessor | leaderboard/skiplist.go:98-101 | on one level, the predecessor's next is the new node and the new node's next is what the predecessor had |
| SkipLists.SkipList.Unlink | leaderboard/skiplist.go:118-122 | unlinking takes the node out of every level it occupies and leaves all other links right |
| SkipLists.PredecessorUnique | leaderboard/skiplist.go:118-122 | on a level nobody but the node found by the search links to the target |
| SkipLists.PredecessorLinks | leaderboard/skiplist.go:114-117 | the node after the predecessor found for an indexed entry is that entry's own node |
| SkipLists.SkipList.Attach | leaderboard/skiplist.go:97-102 | the new node is linked on its levels and indexed, and the structure is whole again |
| SkipLists.SkipList.Insert | leaderboard/skiplist.go:81-103 | inserting a user who is not in the list assigns the score in the map, for any height, and keeps the structure |
| SkipLists.SkipList.Update | leaderboard/skiplist.go:74-103 | `Update` is map assignment and keeps sortedness, level membership, the user index and `lvl` = greatest live height |
| SkipLists.SkipList.RemoveLocked | leaderboard/skiplist.go:105-127 | removing an indexed user never takes the early return, deletes it from the map and the index, and keeps the structure |
| SkipLists.SkipList.Lower | leaderboard/skiplist.go:124-126 | afterwards `lvl` is the greatest live height, or 1 |
| SkipLists.SkipList.Remove | leaderboard/skiplist.go:129-135 | `Remove` is map deletion, also for an unknown user |
| SkipLists.SkipList.TopN | leaderboard/skiplist.go:137-150 | the result is the first `n` entries of the listing of the score map: `min(n, size)` of its entries, highest score first and ties by user, and nobody left out ranks before anybody listed |
| SkipLists.SkipList.Get | leaderboard/skiplist.go:152-159 | found exactly when the user has a score, and then with that score |
| SkipLists.SkipList.LevelIsListing | leaderboard/skiplist.go:74-135 | following level `i` from the head meets exactly the live nodes taller than `i`, in listing order; level 0 is the whole listing |
| SkipLists.Replay | leaderboard/skiplist.go:74-135 | any history of updates and removals, with any randomness, leaves the map that the history leaves |
| SkipLists.HistoryIndependence | leaderboard/skiplist.go:35-150 | histories that end in equal maps return equal top entries for every `n`, whatever the heights |
| RateLimits.RateLimiter.constructor | api/httpapi/httpapi.go:297-303 | a new limiter has no buckets |
| RateLimits.RateLimiter.Allow | api/httpapi/httpapi.go:305-328 | the decision, and the bucket left behind, are those of the key's own requests alone: a full bucket less one token at first, afterwards the old tokens plus elapsed minutes times rpm, capped at burst, less one if there is one |
| RateLimits.Serve | api/httpapi/httpapi.go:305-328 | key isolation: in any interleaved run each decision equals that of the run projected to its key, and what a key is granted in any stretch is its admissions there |
| RateLimits.GrantedAreAdmissions | api/httpapi/httpapi.go:305-328 | the decisions of a key in a stretch of an interleaved run are the admissions the one-key laws count |
| RateLimits.GrantsWithinBound | api/httpapi/httpapi.go:305-328 | with ordered readings no key is granted more, in any stretch of any interleaved run, than burst plus payout |
| RateLimits.PacedKeyAlwaysGranted | api/httpapi/httpapi.go:305-328 | a key that waits 1/rpm minutes between requests is granted each, whatever other keys do |
| RateLimits.AvailableIsLeastAllowance | api/httpapi/httpapi.go:316-320 | the tokens at hand are the least, over all earlier requests, of burst plus payout minus admissions since |
| RateLimits.ExactAdmission | api/httpapi/httpapi.go:305-328 | admitted if and only if the request fits as seen from every earlier one; this fails exactly for the first request of a bucket below one token |
| RateLimits.StretchesWithinBound | api/httpapi/httpapi.go:316-327 | for any configuration and readings, every stretch ending in a request is within burst plus payout if and only if that request does not leave the bucket overdrawn |
| RateLimits.StretchesWithinBoundBefore | api/httpapi/httpapi.go:316-320 | for a burst of at least one that is known before the decision: if and only if the refilled bucket is not below zero |
| RateLimits.WindowBound | api/httpapi/httpapi.go:305-328 | a stretch ending in an admitted request has at most burst plus payout admissions, in any clock order |
| RateLimits.OrderedWindowBound | api/httpapi/httpapi.go:305-328 | with ordered readings every stretch is within burst plus payout |
| RateLimits.UnorderedStretchExceedsBound | api/httpapi/httpapi.go:306-307 | for every rate and burst of at least one, the second of two requests exceeds the bound exactly when its reading is stale enough, and then it is refused and overdraws the bucket |
| RateLimits.TokensStayInRange | api/httpapi/httpapi.go:316-327 | with ordered readings tokens stay between 0 and burst |
| RateLimits.PacedClientNeverRefused | api/httpapi/httpapi.go:305-328 | requests at least 1/rpm minutes apart are never refused |
| Splitting.Split | api/httpapi/httpapi.go:171-192 | all leading slashes and nothing else are trimmed, and the result is the non-empty separator-free pieces of the rest; for '/' trimming changes nothing |
| Splitting.KeyParts | adapters/redis/storage.go:287-304 | the result is the non-empty ':'-free pieces of the key |
| Splitting.FieldsRecoverParts | api/httpapi/httpapi.go:171-192 | any list of non-empty separator-free parts is recovered from any text with separators around them |
| Splitting.FieldsDecompose | api/httpapi/httpapi.go:171-192 | every text is its pieces woven with runs of separators: nothing else is lost |
| Splitting.SplitOfJoin | api/httpapi/httpapi.go:171-192 | splitting the re-joined pieces changes nothing |
| Core.AddSafe | core/types.go:55-61 | fails exactly when the sum leaves int64, and is the sum otherwise |
| Core.LevelCurve | core/types.go:88-99 | level `l` holds from 100(l-1)^2 up to below 100 l^2 points, and is at least 1 |
| Core.LevelOf | core/types.go:88-99 | those bounds determine the level |
| Core.LevelMonotone | core/types.go:88-99 | more points never mean a lower level |
| Core.RuleFollowsCurve | core/rules.go:13-24 | a level-up rule answers to adds of its own metric only, and reports the level the curve gives the total exactly when it is above the stored one |
| Core.DerivedInOrder | engine/service.go:104-110 | what two lists of rules derive together is what the first derives, then what the second does |
| Adds.PeakIsHighest | core/rules.go:17-21 | the peak is the greatest experience total of the user, attained, and there is none without one |
| Memory.Store.GetOrCreate | adapters/memory/storage.go:23-36 | creates an empty record on first use and changes nothing a reader sees |
| Memory.Store.AddPoints | adapters/memory/storage.go:38-50 | adds safely to one metric of one user, or fails and changes nothing a reader sees |
| Memory.Store.AwardBadge | adapters/memory/storage.go:52-59 | adds the badge to one user's set |
| Memory.Store.GetState | adapters/memory/storage.go:61-66 | returns the user's state, empty if unknown |
| Memory.Store.SetLevel | adapters/memory/storage.go:68-75 | sets one level of one user |
| Service.GamifyService.AddPoints | engine/service.go:37-63 | zero delta, empty user and a sum outside int64 are errors, in this order, that change neither the log nor what a reader sees; otherwise the total becomes the sum, the log gains the add and after it level-ups of that user only, and no badge, other metric or other user changes |
| Service.GamifyService.PublishDerived | engine/service.go:53-60 | each derived level-up is stored and announced, in order |
| Service.GamifyService.AwardBadge | engine/service.go:65-78 | an empty user and then an invalid badge are errors that change nothing; otherwise the badge joins the user's set, its event ends the log, and nothing else a reader sees changes |
| Service.GamifyService.GetState | engine/service.go:96-98 | returns what the store holds for the id as given |
| Service.GamifyService.Evaluate | engine/service.go:104-110 | the rules' events in rule order |
| Service.DerivedAreLevelUps | core/rules.go:13-24 | level-up rules derive level-ups of the snapshot's own user only |
| Service.AddEffect | engine/service.go:45-60 | an add and its level-ups change one metric and the levels of one user, and the log by exactly these events |
| SerialRuns.LogReplaysToStore | engine/service.go:37-78 | after any serial run, with any level-up rules, folding the log rebuilds every user's points, badges and levels, and every published total is the sum of the deltas so far |
| SerialRuns.RejectedCallsChangeNothing | engine/service.go:37-78 | a rejected call changes neither the log nor what any reader sees |
| SerialRuns.OverflowNeedsARecord | adapters/memory/storage.go:38-50 | an overflowing add never leaves a fresh record behind |
| SerialRuns.XPAddEffect | core/rules.go:13-24 | an experience add is followed by a level-up exactly when the curve is above the stored level |
| SerialRuns.LevelIsHighWaterMark | engine/service.go:37-63 | with the default rules the stored level is that of the highest total ever reached; announced levels rise strictly and end at it |
| SerialRuns.LevelNeverFalls | engine/service.go:37-63 | no continuation of a run lowers the level, spending included |
| SerialRuns.Execute | engine/service.go:37-98 | the service itself, given any calls, ends in the state and log the serial theorems are about |
| Interleaving.RunKeepsInv | engine/service.go:45-60 | every step of every interleaving keeps: one record per user, totals are sums, levels are earned, each call's pending work is justified |
| Interleaving.EveryInterleaving | adapters/memory/storage.go:23-75 | totals are exact sums of successful deltas within int64, each recorded total is the sum up to it in lock order, levels lie between 1 and the level of the peak, and nothing is announced that did not happen |
| Interleaving.CreateKeepsStore | adapters/memory/storage.go:23-36 | storing a fresh record changes nothing a reader sees and keeps the invariant |
| Interleaving.LoserTakesWinnersRecord | adapters/memory/storage.go:34-35 | a caller that finds the record made in the meantime takes it and leaves index and records alone |
| Interleaving.OneRecordPerUser | adapters/memory/storage.go:23-36 | in every interleaving all calls at work on a user's record hold the one the index has |
| Interleaving.EveryAddAnnouncedOnce | engine/service.go:45-50 | in every interleaving each successful add is announced exactly once, or its call is still about to |
| SoloCalls.SoloCallIsServiceCall | engine/service.go:37-63 | a call driven to its end alone leaves the log and every user's state as the serial service call does |
| SoloCalls.SerialRunIsInterleaving | engine/service.go:37-63 | every serial run of adds is the outcome, log and states alike, of an interleaving in which no two calls overlap |
| SoloCalls.Resolve | adapters/memory/storage.go:23-36 | finding or creating the record takes at most two steps and changes nothing a reader sees |
| SoloCalls.NoOverlapIsSerialised | engine/service.go:37-63 | runs in which no two calls overlap are among those that keep the level at the mark |
| LevelMark.SerialisedAddsKeepMark | engine/service.go:45-60 | in every interleaving in which one user's experience adds do not overlap, whenever none is under way the stored level is that of the highest total, and absent without one |
| LevelMark.RunKeepsMark | engine/service.go:45-60 | the invariant behind it: the level stands where the progress of the one add under way says |
| LevelMark.SnapshotKeepsTrack | core/rules.go:13-24 | a snapshot leads to a level-up exactly when the level is behind the peak, and then to the peak's level |
| LevelMark.LevelCanFallBehind | engine/service.go:51-57 | for every user, two overlapping adds whose levels are written in the wrong order leave the level behind |
| LevelMark.PeakCanBeMissed | engine/service.go:49-53 | for every user, points spent before the snapshot that would have seen them leave the peak's level unwritten |
| EventBus.EveryRun | engine/eventbus.go:52-118 | what is published is exactly what the `Publish` moves sent, in order; conservation of it, queue of at most 2048 and first-in first-out, four workers that stop only after `Close`, each finished dispatch exactly once per copied subscriber |
| EventBus.ApplyConserves | engine/eventbus.go:94-118 | every move keeps published = dropped + queued + in flight + dispatched, per event |
| EventBus.ApplyQueue | engine/eventbus.go:94-104 | events leave in acceptance order and are dropped only when 2048 are waiting |
| EventBus.PublishEffect | engine/eventbus.go:94-104 | a publish puts the event in the publisher's own hands in synchronous mode, at the end of the queue while fewer than 2048 wait, and among the dropped otherwise |
| EventBus.CloseLetsWorkersStop | engine/eventbus.go:52-72 | `Close` closes the bus and changes nothing else, and an idle worker can then stop |
| EventBus.AllCalled | engine/eventbus.go:106-118 | a dispatch that went through its copy called each subscriber once with its own handler, and nobody else |
| EventBus.SnapshotsAreReal | engine/eventbus.go:106-118 | the copy a dispatch works on is the subscribers of its event's type at one moment of the run |
| EventBus.SubscribeRoundTrip | engine/eventbus.go:75-91 | subscribing adds one subscription under an unused id; unsubscribing undoes exactly that, and twice is as once |
| EventBus.RunIDs | engine/eventbus.go:78-83 | ids are never above the counter |
| Delivery.SomeOrder | engine/eventbus.go:111-113 | there is always an order that visits each subscriber once |
| Delivery.DeliverTaken | engine/eventbus.go:106-118 | an event in somebody's hands can be brought to all present subscribers of its type, once each |
| Delivery.FinishCalls | engine/eventbus.go:115-117 | a dispatch under way can be carried through over its own copy |
| Delivery.DrainQueue | engine/eventbus.go:52-65 | one idle worker can dispatch the whole queue in order of publishing |
| Delivery.BacklogCanBeDispatched | engine/eventbus.go:52-118 | in every reachable state any worker that has not stopped can finish what it holds and dispatch all that is queued, in order and to the present subscribers, once each |
| Delivery.SyncPublishDelivers | engine/eventbus.go:103-118 | in synchronous mode a published event can be brought at once to exactly the subscribers its type has then |
| EventBus.UnsubscribedForGood | engine/eventbus.go:75-91 | a subscription that is gone is never there again |
| Calendar.SameWeek | analytics/hooks.go:333-337 | two days share an ISO week key exactly when they share their Monday |
| Calendar.FourthOfJanuary | analytics/hooks.go:333-337 | 4 January is in week 1 of its year, as section 4.1.4 of ISO 8601:2004 has it |
| Calendar.NextWeek | analytics/hooks.go:333-337 | the week after has the next number, or is week 1 of the next year after week 52 or 53 |
| Calendar.Weekdays | analytics/aggregation.go:140-145 | weekdays follow one another from Sunday = 0, 1 January 1970 is a Thursday, and the week starts on the last Monday up to the day |
| Calendar.WeekRange | analytics/hooks.go:333-337 | week numbers are 1 to 53 |
| Calendar.SameMonth | analytics/hooks.go:339-341 | two days share a month key exactly when both lie between the first of the month and the first of the next |
| Calendar.MonthLengths | analytics/aggregation.go:178-195 | a month has 28, 29, 30 or 31 days as the Gregorian rule says |
| Calendar.DayBounds | analytics/hooks.go:135-135 | a day is 86400 seconds |
| Calendar.Epoch | analytics/hooks.go:135-135 | day 0 is 1 January of year 1 and day 719162 is 1 January 1970 |
| Calendar.NextDate | analytics/hooks.go:135-135 | the day after a date is the next of the month, or the first of the next month, or the next 1 January, with the Gregorian month lengths and leap years |
| Calendar.DateUnique | analytics/hooks.go:135-135 | the day number computed for a valid date has that date |
| Calendar.DateInjective | analytics/hooks.go:135-135 | a day key names one day |
| Metrics.ComprehensiveMetrics.constructor | analytics/hooks.go:104-129 | all counters start at nothing |
| Metrics.ComprehensiveMetrics.TrackUserEngagement | analytics/hooks.go:187-205 | the user joins the day's, week's and month's active sets |
| Metrics.ComprehensiveMetrics.CountEvent | analytics/hooks.go:142-176 | from the old and the new maps: a positive delta is added to its day and metric and any other delta counts nowhere; a badge, level-up or named achievement adds one to each of its counters, a badge its holder; all other entries stay |
| Metrics.ComprehensiveMetrics.OnEvent | analytics/hooks.go:131-185 | the same effect on the counters, the user joins the active sets of the day, week and month, and every counter and set stays the one the events seen determine |
| Metrics.ComprehensiveMetrics.CountersBalance | analytics/hooks.go:131-185 | by-day and by-key counters have equal sums (points modulo 2^64), the level distribution too, and holders never exceed awards |
| Metrics.TotalStep | analytics/hooks.go:142-176 | one more event adds to the totals it matches its delta if positive, or one badge, level-up or named achievement, and nothing else |
| Metrics.PointsStep | analytics/hooks.go:144-151 | points by day and by metric are the wrapped sums of positive deltas, and have equal wrapped sums |
| Metrics.BumpEntry | analytics/hooks.go:144-176 | `m[k] += x` adds to one entry, a missing one counting as zero, modulo 2^64 for points |
| Numbers.WrapCongruent | analytics/hooks.go:148-150 | what int64 arithmetic keeps is in its range and differs by a multiple of 2^64 |
| Metrics.HoldersStep | analytics/hooks.go:161-169 | the holders of a badge are the users it was awarded to, no more than its awards |
| Metrics.LevelsStep | analytics/hooks.go:152-160 | level counters by day, by metric and per level of the distribution count the level-ups |
| Aggregation.AggregationEngine.AggregateDaily | analytics/aggregation.go:108-132 | the daily roll-up is that of the day's events |
| Aggregation.AggregationEngine.SumDays | analytics/aggregation.go:162-167 | adding up day counters gives the totals over the events of those days |
| Aggregation.AggregationEngine.AggregateWeekly | analytics/aggregation.go:134-171 | the weekly roll-up starts on Monday and is that of exactly the events whose week key is this week's |
| Aggregation.AggregationEngine.AggregateMonthly | analytics/aggregation.go:173-205 | the monthly roll-up is that of exactly the events whose month key is this month's |
| Aggregation.WeekIsItsDays | analytics/aggregation.go:160-167 | the week key selects the same events as the seven days from Monday |
| Aggregation.MonthIsItsDays | analytics/aggregation.go:193-201 | the month key selects the same events as the days of the month |
| Aggregation.WeeklyUsersAreDailyUnion | analytics/hooks.go:187-205 | the week's active users are the union of its seven daily sets |
| Aggregation.MonthlyUsersAreDailyUnion | analytics/hooks.go:187-205 | the month's active users are the union of its daily sets |
| Aggregation.SinceMonday | analytics/aggregation.go:140-145 | the truncating `%` and its correction find the Monday, Sundays included |
| Aggregation.Report | analytics/aggregation.go:86-106 | from any sequence of events, the three roll-ups span the current day, the seven days from its Monday and its month, with the users, points and badges of exactly the events of those days |
| TopMetrics.ExchangeSort | analytics/hooks.go:304-311 | the in-place exchange sort yields a descending permutation |
| TopMetrics.SumWrapped | analytics/hooks.go:343-349 | the sum over a map does not depend on iteration order, modulo 2^64 |
| TopMetrics.SumExact | analytics/hooks.go:351-357 | likewise for badge counts |
| TopMetrics.GetTopMetrics | analytics/hooks.go:285-330 | descending rows of the table, each metric once, none left out has more points; totals are over all metrics and badges |
| TopMetrics.TopOfEvents | analytics/hooks.go:285-330 | listed points are those the events seen have awarded, no other counted metric has more, and the totals are those of all events |
| RedisKeys.KeyTexts | adapters/redis/storage.go:86-103 | the texts of the four kinds of keys and of the two listing patterns |
| RedisKeys.FieldsOfKey | adapters/redis/storage.go:86-103 | the pieces of any key, whatever the ids |
| RedisKeys.GlobMeaning | adapters/redis/storage.go:238-239 | in a pattern '*' matches any text, '?' any one character, and anything else but '[' and '\' itself |
| RedisKeys.KeyRoundTrip | adapters/redis/storage.go:86-103 | a key parses back into what it was built from if and only if its ids are non-empty and free of ':' |
| RedisKeys.MetricReadsBack | adapters/redis/storage.go:244-248 | for a user id of one piece the rebuild reads a metric back if and only if it is non-empty and free of ':' |
| RedisKeys.UserReadsBack | adapters/redis/storage.go:244-248 | all proper metrics of a user are read back if and only if the user id is of one piece |
| RedisKeys.KeyInjective | adapters/redis/storage.go:86-103 | keys of such ids never collide, across kinds too |
| RedisKeys.PrefixListed | adapters/redis/storage.go:238-239 | a literal without '[' and '\' followed by '*' lists exactly the keys with that prefix |
| RedisKeys.PatternSelects | adapters/redis/storage.go:238-248 | for a user id of one piece without wildcards, '[' and '\' the pattern lists exactly the user's keys of that kind |
| RedisKeys.WildcardLeaks | adapters/redis/storage.go:238-239 | for every user id of one piece with a wildcard, and no '[' or '\', it also lists every metric of another user |
| RedisKeys.PatternExact | adapters/redis/storage.go:238-239 | of the user ids of one piece without '[' and '\', exactly those without wildcards have a pattern that lists their own keys only |
| Redis.Store.AddPoints | adapters/redis/storage.go:122-142 | for any ids: zero delta, overflow and a key of another type are errors that change nothing; otherwise the key holds the sum and the cached state is gone |
| Redis.Store.AwardBadge | adapters/redis/storage.go:145-156 | for any ids: the set gains the badge and the cached state is gone, or the key is of another type and nothing changes |
| Redis.Store.SetLevel | adapters/redis/storage.go:181-192 | for any ids: the key holds the level and the cached state is gone |
| Redis.Store.Invalidate | adapters/redis/storage.go:223-225 | removes the user's cached state and nothing else |
| Redis.ExpireAgrees | adapters/redis/storage.go:218-219 | losing a cached state at any time keeps the agreement with the in-memory state |
| Redis.Store.CollectNumbers | adapters/redis/storage.go:237-255 | for any ids and any order: every entry comes from a listed number parsed to its metric, and no such metric is missing |
| Redis.Store.BuildStateFromKeys | adapters/redis/storage.go:228-284 | the state is made of the listed points, the badge set and the listed levels |
| Redis.Store.GetState | adapters/redis/storage.go:159-178 | a cached state is returned as it is, anything else leads to a rebuild that is then cached |
| Redis.WriteAgrees | adapters/redis/storage.go:138-139 | a write followed by invalidation keeps database and cache in agreement with the in-memory state |
| Redis.AddAgrees | adapters/redis/storage.go:122-142 | for proper ids an add has the in-memory outcome and keeps the agreement |
| Redis.AwardAgrees | adapters/redis/storage.go:145-156 | likewise for badges |
| Redis.LevelAgrees | adapters/redis/storage.go:181-192 | likewise for levels |
| Redis.RebuiltIsView | adapters/redis/storage.go:228-284 | for proper ids every rebuild, in any order of the keys, is the in-memory state |
| Redis.ReadAgrees | adapters/redis/storage.go:159-178 | cached or rebuilt, the state is the in-memory one |
| Redis.RunBoth | adapters/redis/storage.go:122-284 | over any run of proper ids with expiry at any time both stores give the same answers |
| Redis.ImproperMetricIsLost | adapters/redis/storage.go:244-253 | every metric that is empty or has a ':' is in the in-memory state and not in the one read from Redis |
| Redis.ImproperUserLoses | adapters/redis/storage.go:244-253 | every user id of several pieces or none loses a proper metric |
| Redis.WildcardUserSeesOthers | adapters/redis/storage.go:238-253 | every user id of one piece with a wildcard, and no '[' or '\', sees the points of another user |
| Redis.ZeroDeltaDiffers | adapters/redis/storage.go:123-125 | a zero delta is an error in Redis and an entry of zero in memory |

## Left out

- HTTP handlers, CORS, API keys, JSON, the SDK, webhooks, exporters, server wiring and configuration: input/output plumbing or single-branch logic.
- SQL storage: whether its read-then-write is atomic depends on the database's isolation level.
- JSON-file storage: its state is the in-memory one written to a file after each change, so what is left to model is file input/output.
- The realtime hub: it sends after releasing its lock, so what a subscriber receives depends on timing that is not modelled.
- The Redis script's number handling: the add is an exact atomic step; Lua numbers are doubles.
- Redis and network failures, and concurrent readers and writers of the Redis cache: rebuild and cache-fill are separate commands, so transparency is claimed for serial runs.
- Redis glob classes and escapes ('[' and '\'): what the matcher does with them is not pinned down, so nothing is claimed about reading user ids that have them.
- The 24-hour realtime counters and the points-spent maps: the former depend on the wall clock, the latter are never written.
- Aggregate fields that the source declares but never fills (points by metric, badges by type, levels, achievements), and the creation time.
- Rules other than `LevelUpRule`, `EvaluateRules`, and direct calls to `GamifyService.Publish`.
- The time of the last change of a user's state, and aliasing of the maps in a snapshot: states are values, so the deep copy of `Clone` is the identity here. In-memory records and rate-limiter buckets, reached only through their map, are values of that map; `Interleaving` gives records their identity.
- Levels while one user's experience adds overlap: only the bound of `EveryInterleaving` holds then.
- The locks of the skip list, limiter and analytics: their methods are atomic steps. The order in which goroutines get scheduled is arbitrary: that a queued event can be dispatched is proved, that it will be is not.
- Expected cost of the skip list, and float64 rounding.
- Text beyond code points: strings are sequences of characters, so invalid UTF-8 is not modelled; Go compares UTF-8 bytes, which orders valid text as its code points.
