# Study scheduler: spaced repetition and review notifications

A Dafny model of the scheduling core of a study-planner backend. A user owns
subjects, a subject holds topics, and each topic moves through a small state
machine: it is created with schema defaults, **completed** (points awarded,
first review scheduled from a difficulty table), and **reviewed** any number
of times (the interval doubles with a floor of one day, more points). Every
transition appends a reward event to the user's ledger and increments the
cached points total in one combined update. A periodic scanner selects the
completed topics whose review date has passed, groups them by owner and
creates one unread notification per (user, topic) unless an unread one is
already pending. Users list their notifications, newest first, with an
unread count, and mark them read; they read back a summary of their rewards.
The AI summariser's deterministic parts (chunking, the retry loop around a
model call, the JSON fallback, merging per-chunk results, request checks)
are modelled with the model call as a parameter.

Modules, one per source file or concept:

- `Wrappers`: `Option` and `Result`.
- `Time`: instants as integer milliseconds on one local-time axis; `Day(t)`
  is the day number, `StartOfDay` is `setHours(0, 0, 0, 0)`, `AddDays` is
  `setDate(getDate() + n)`.
- `Text`: JavaScript's `trim()`.
- `Sorting`: one stable insertion sort by an integer key, newest first. It
  stands for `Array.prototype.sort` (stable) and the store's `sort({ f: -1 })`.
- `SpacedRepetition`: `utils/spacedRepetition.js`.
- `Models`: the topic and notification schemas with their defaults, and the
  subject, user and reward-event shapes the core reads. Request bodies are
  maps from an enumerated `Key` to a small JSON `Value`.
- `Ledger`: the user's `points` / `rewardHistory` pair and the combined
  `$inc` + `$push` update.
- `Store`: the in-memory database (class `Db`): topics in natural order,
  subjects, users, notifications, and a fresh-id counter. Its `Valid()`
  says ids are unique and already handed out, and every stored topic
  passes the schema validators.
- `TopicsController`, `ReviewNotifier`, `NotificationsController`,
  `RewardsController`, `AiController`: the handlers. A handler that writes
  is a method with `modifies db`, proved against pure functions of the old
  state. Those functions carry the lemmas.

Inputs the code takes from its environment are parameters:
- `now` stands for the `new Date()` calls of one request or scan (one value each).
- `userId` stands for the id the auth middleware puts on the request.
  `MarkComplete` and `RecordReview`, which update the user's points, require
  it to name an existing user, because the middleware
  (`Backend/middleware/auth.js:22-28`) answers 401 otherwise.
- `reply` is the reply each model-call attempt receives.
- `parse` is what `JSON.parse` makes of a reply text.
- `hasKey` says whether the API key is configured.

Behaviour of the code that its helpers or names do not suggest, which the model keeps:
- The scanner selects with the exact instant (`nextReview <= now`), not at
  day granularity as `isDue` does. `ReviewNotifier.DueButNotSelected` shows a
  topic that `isDue` reports due but the scan does not pick up yet.
- The rewards summary reports the cached total and the history sum side by
  side; it never checks them against each other.
- The per-action counts of the rewards summary cover only the ten most
  recent events, not the whole history.
- `splitIntoChunks` advances by `maxLen` and so never ends for a `maxLen`
  of zero or less; its one caller passes 3000. `AiController.Chunks` and
  `AiController.SplitIntoChunks` require `maxLen > 0` for this reason.
- The topic save and the ledger update are two store calls. The model takes
  them as one step (see Left out).

## Model

| member | source | states |
|---|---|---|
| Time.StartOfDay | Backend/utils/spacedRepetition.js:52-56 | midnight of the instant's day: at most the instant, less than a day before it, same day number |
| Time.AddDays | Backend/utils/spacedRepetition.js:36-37 | moving n days moves the day number, and the midnight, by exactly n days |
| Text.IsSpace | Backend/models/Topic.js:15 | the characters `trim()` removes: tab, vertical tab, form feed, byte-order mark, every Unicode space separator (Zs), and the four line terminators |
| Text.WideSpaces | Backend/models/Topic.js:15 | the ideographic, em, ogham and medium mathematical spaces count as white space; letters, the zero-width space and U+0085 do not |
| Text.Trim | Backend/models/Topic.js:12-16 | definition: `String.prototype.trim`, as also called at topicsController.js:27 and aiController.js:109, cutting `IsSpace` characters off both ends (stated by `TrimIsSlice`, `TrimEmptyIffAllSpace`, `TrimmedIffFixed`, `TrimIdempotent`) |
| Text.TrimIsSlice | Backend/models/Topic.js:12-16 | `trim()` yields a contiguous slice with only white space cut off either end, starting and ending in non-space |
| Text.TrimEmptyIffAllSpace | Backend/controllers/topicsController.js:27 | a string trims to "" exactly when all of it is white space |
| Text.TrimmedIffFixed | Backend/models/Topic.js:12-16 | a string has no white space at either end exactly when `trim()` leaves it unchanged, and `trim()` always yields such a string |
| Text.TrimIdempotent | Backend/models/Topic.js:15 | trimming a trimmed title changes nothing |
| Sorting.InsertDesc | Backend/controllers/rewardsController.js:19 | inserting adds exactly that element (multiset) |
| Sorting.SortDesc | Backend/controllers/rewardsController.js:17-21 | the sort is a permutation of its input |
| Sorting.WithKey | Backend/controllers/rewardsController.js:19 | the elements with one key, in input order, never more than the input |
| Sorting.WithKeyMembers | Backend/controllers/rewardsController.js:19 | the key filter holds exactly the input's elements with that key |
| Sorting.InsertKeepsSorted | Backend/controllers/rewardsController.js:19 | inserting into a newest-first sequence keeps it newest first |
| Sorting.InsertWithKey | Backend/controllers/rewardsController.js:19 | inserting puts the element before every equal-key element already there |
| Sorting.SortIsSorted | Backend/controllers/notificationsController.js:10 | the result is ordered by descending key |
| Sorting.SortIsStable | Backend/controllers/rewardsController.js:19 | elements with equal keys keep their input order |
| SpacedRepetition.DefaultInterval | Backend/utils/spacedRepetition.js:66-77 | the first interval is between 7 and 15 days; an unknown difficulty gets 10 |
| SpacedRepetition.ReviewPoints | Backend/utils/spacedRepetition.js:84-95 | a review pays 1 to 3 points; an unknown difficulty gets 2 |
| SpacedRepetition.DefaultIntervalOrder | Backend/utils/spacedRepetition.js:66-77 | easier topics wait longer (15 > 10 > 7 > 0); unknown tiers behave as medium |
| SpacedRepetition.ReviewPointsOrder | Backend/utils/spacedRepetition.js:84-95 | harder topics pay more per review (1 < 2 < 3); unknown tiers behave as medium |
| SpacedRepetition.ComputeNextReview | Backend/utils/spacedRepetition.js:11-40 | for a non-negative interval the next review is strictly later, at least two days ahead |
| SpacedRepetition.ComputeNextReviewFirstInterval | Backend/utils/spacedRepetition.js:13-29 | with no interval yet the table of `getDefaultInterval` decides the date |
| SpacedRepetition.ComputeNextReviewDoubles | Backend/utils/spacedRepetition.js:30-37 | with an interval n the review lands exactly 2n whole days after today, at the same time of day |
| SpacedRepetition.IsDue | Backend/utils/spacedRepetition.js:47-59 | due exactly when a review date exists and its day is not after today |
| SpacedRepetition.DueLaterToday | Backend/utils/spacedRepetition.js:52-58 | a review later today is already due (day granularity) |
| SpacedRepetition.DueStaysDue | Backend/utils/spacedRepetition.js:47-59 | once due, a topic stays due as time passes |
| SpacedRepetition.PastIsDue | Backend/utils/spacedRepetition.js:47-59 | any date not after now is due |
| Models.Falsy | Backend/controllers/topicsController.js:24-27 | definition: JavaScript falsiness of a body field, a missing one being `undefined` (stated by `TopicsController.ValidateCreate`, `AiController.CheckText`) |
| Models.ValidTopic | Backend/models/Topic.js:5-47 | definition: the schema validators a saved topic passes: a required, trimmed, non-empty title, a difficulty in the enum, `min: 0` points and interval (kept by `Store.Db.SaveTopic`, `Store.Db.InsertTopic`) |
| Models.ValidNotification | Backend/models/Notification.js:3-29 | definition: the `required` title and message validators a created notification passes (stated for the review notification by `ReviewNotifier.ReviewNotificationValid`) |
| Models.NewTopic | Backend/models/Topic.js:5-56 | `Topic.create` fills the schema defaults; a trimmed non-empty title and an enum difficulty give a valid topic |
| Models.NewNotification | Backend/models/Notification.js:3-29 | a new notification is unread with both timestamps at creation time, and valid when title and message are non-empty |
| Ledger.CurrentPoints | Backend/controllers/rewardsController.js:41 | definition: `user.points || 0` (stated by `RewardsController.GetUserRewards`, `ConsistentTotalsAgree`) |
| Ledger.History | Backend/controllers/rewardsController.js:17-27 | definition: `user.rewardHistory` when present, otherwise the empty history that the `? ... : []` and `: 0` branches stand for (stated by `RewardsController.GetUserRewards`) |
| Ledger.Award | Backend/controllers/topicsController.js:138-152 | the combined update raises the total by the event's points and appends the event |
| Ledger.SumPoints | Backend/controllers/rewardsController.js:25-27 | definition: the `reduce` that adds up the points of the history, from the left |
| Ledger.SumPointsAppend | Backend/controllers/rewardsController.js:25-27 | the history sum grows by the appended event's points |
| Ledger.AwardKeepsConsistent | Backend/controllers/topicsController.js:138-152 | an award keeps total == sum of history |
| Ledger.AwardAll | Backend/controllers/topicsController.js:194-208 | a run of awards appends exactly those events, in order |
| Ledger.AwardAllAdds | Backend/controllers/topicsController.js:138-152 | a run of awards raises the total by their sum and keeps the ledger consistent |
| Ledger.SumPointsPrepend | Backend/controllers/rewardsController.js:25-27 | the left fold also splits off the first event |
| Store.IndexOfTopic | Backend/controllers/topicsController.js:95-98 | `findById`: a position holding that id, or none exactly when no topic has it |
| Store.ReplaceTopicValid | Backend/controllers/topicsController.js:135 | saving a valid topic under its own id keeps the store valid |
| Store.AppendTopicValid | Backend/controllers/topicsController.js:34 | inserting a valid topic under a fresh id keeps the store valid |
| Store.AppendNotificationValid | Backend/jobs/reviewNotifier.js:26-31 | inserting a notification under a fresh id keeps the store valid |
| Store.ReplaceNotificationValid | Backend/controllers/notificationsController.js:33-37 | updating a notification in place keeps the store valid |
| Store.Db.SaveTopic | Backend/controllers/topicsController.js:135 | replaces the topic at one position with a valid document of the same id and keeps the store valid; nothing else changes |
| Store.Db.InsertTopic | Backend/controllers/topicsController.js:34 | appends a valid topic under the next fresh id, consumes that id, keeps the store valid |
| Store.Db.FreshId | Backend/jobs/reviewNotifier.js:26-31 | hands out the next unused id and keeps the store valid |
| TopicsController.EnsureSubjectOwnership | Backend/controllers/topicsController.js:7-16 | success exactly when the subject exists and the user owns it; 404 exactly when it is missing; 403 exactly when someone else owns it |
| TopicsController.Authorize | Backend/controllers/topicsController.js:95-102 | success exactly when the topic exists and the user owns its subject; 404 exactly when the topic or its subject is missing; only 404 or 403 |
| TopicsController.CompletionPoints | Backend/controllers/topicsController.js:118-131 | completion pays 5 to 15 points; an unknown difficulty gets 10 |
| TopicsController.CompletionPointsOrder | Backend/controllers/topicsController.js:118-131 | harder tiers pay more for completion, and completion outpays a review in every tier |
| TopicsController.GrowInterval | Backend/controllers/topicsController.js:182-183 | the new interval is at least one day and never below a non-negative old one |
| TopicsController.Completed | Backend/controllers/topicsController.js:104-133 | completed with interval 1, completion and review stamps now, next review exactly the default interval of whole days after now (same time of day), points from the table, nothing else changed, validity kept |
| TopicsController.CompletionEvent | Backend/controllers/topicsController.js:142-148 | definition: the `topic_completed` entry pushed on completion, its points from the completion table and its description `Completed topic: <title> (<difficulty>)` (used by `MarkComplete`) |
| TopicsController.CompletedScheduling | Backend/controllers/topicsController.js:109-114 | after a completion `isDue` holds from the start of the due day, but the scan selects the topic only from now plus the interval in milliseconds on |
| TopicsController.Reviewed | Backend/controllers/topicsController.js:181-188 | interval grown, reviewed now, next review exactly that many whole days after now (same time of day), nothing else (not even `completed`) changed, validity kept |
| TopicsController.ReviewEvent | Backend/controllers/topicsController.js:198-204 | definition: the `topic_reviewed` entry pushed on a review, its points from the review table and its description `Reviewed topic: <title> (<difficulty>)` (used by `RecordReview`) |
| TopicsController.MarkComplete | Backend/controllers/topicsController.js:90-164 | on an owned topic: the topic becomes `Completed`, the user is awarded the completion event, the response carries its points and the new total; otherwise 404/403 with nothing changed; ledger consistency kept |
| TopicsController.RecordReview | Backend/controllers/topicsController.js:167-220 | on an owned topic: the topic becomes `Reviewed` and the review event is awarded; otherwise 404/403 with nothing changed; ledger consistency kept |
| TopicsController.CompleteTwice | Backend/controllers/topicsController.js:104-152 | completing again re-applies the same effects and pays the points a second time |
| TopicsController.ReviewIntervalGrowth | Backend/controllers/topicsController.js:182-183 | from a fresh topic, reviews give intervals 1, 2, 4 |
| TopicsController.ReviewVersusComputeNextReview | Backend/utils/spacedRepetition.js:16-33 | `recordReview` and `computeNextReview` disagree: the first uses one day where the second uses the table, and they coincide when the interval is positive |
| TopicsController.SetField | Backend/controllers/topicsController.js:77 | assigning one path leaves every other path as it was |
| TopicsController.UpdatableKeys | Backend/controllers/topicsController.js:74 | definition: the `allowed` list, in its order (stated by `UpdateWhitelist`, `PatchKeepsOtherKeys`) |
| TopicsController.ApplyPatch | Backend/controllers/topicsController.js:74-79 | definition: the `for (const key of allowed)` loop over values, copying each listed key the body has, failing when a value does not cast (stated by `PatchSetsListedKeys`, `PatchKeepsOtherKeys`, `UpdateWhitelist`) |
| TopicsController.PatchStep | Backend/controllers/topicsController.js:75-79 | one more key of the list: the copy so far, then that key's value when the body has it |
| TopicsController.PatchKeepsOtherKeys | Backend/controllers/topicsController.js:74-79 | paths outside the list keep their value whatever the body holds |
| TopicsController.SetFieldStores | Backend/controllers/topicsController.js:77 | an accepted value is what the path then holds (titles trimmed) |
| TopicsController.PatchSetsListedKeys | Backend/controllers/topicsController.js:74-79 | each listed path takes the body's value when present and is untouched when absent |
| TopicsController.UpdateWhitelist | Backend/controllers/topicsController.js:74-79 | only the seven listed paths can change; `intervalDays`, `subject`, `completedAt` and the rest never do |
| TopicsController.CopyAllowed | Backend/controllers/topicsController.js:75-79 | the copy loop computes exactly the patch of the listed keys |
| TopicsController.UpdateTopic | Backend/controllers/topicsController.js:60-87 | on an owned topic: saved as patched when the patch casts and validates, else 500 with nothing changed; otherwise 404/403 with nothing changed |
| TopicsController.WideSpaceTitleBlank | Backend/controllers/topicsController.js:27 | a title of one ideographic space is blank to `trim()` and gets 400 |
| TopicsController.WideSpaceTitleTrimmed | Backend/controllers/topicsController.js:34 | leading ordinary and em spaces are cut off the title that is stored |
| TopicsController.ValidateCreate | Backend/controllers/topicsController.js:22-29 | accepted exactly when the subject is truthy and the title is a string that is not all white space; the title is kept trimmed |
| TopicsController.OptionalString | Backend/controllers/topicsController.js:34 | definition: the cast of an optional `difficulty` or `notes` passed to `Topic.create`: absent takes the schema default, a string is stored, anything else fails (stated by `CreateOutcomeSucceeds`) |
| TopicsController.CreateOutcome | Backend/controllers/topicsController.js:19-40 | the response `createTopic` decides on from the body and the subjects read; a success is a valid topic under the given id (its order of checks is stated by `CreateOutcomeCases`, when it succeeds by `CreateOutcomeSucceeds`) |
| TopicsController.CreateOutcomeCases | Backend/controllers/topicsController.js:19-40 | 400 on a rejected body before any lookup, then 404/403 from the ownership check; a created topic is valid, under the given id, for the owned subject, with the trimmed title, the `medium` default, the given notes and the schema defaults |
| TopicsController.CreateOutcomeSucceeds | Backend/controllers/topicsController.js:19-40 | the converse: the outcome is a success exactly when the body passes the 400 checks, its subject is an id of an existing subject the caller owns, and a given difficulty is an enum string and given notes a string |
| TopicsController.CreateTopic | Backend/controllers/topicsController.js:19-40 | responds as `CreateOutcome` decides; a success appends exactly that topic and consumes one fresh id, a failure changes nothing |
| ReviewNotifier.Selected | Backend/jobs/reviewNotifier.js:47-50 | definition: the `{completed: true, nextReview: {$lte: now}}` filter on one topic, comparing the exact instant (stated by `SelectedIsDue`, `DueButNotSelected`, `TopicsController.CompletedScheduling`) |
| ReviewNotifier.DueTopics | Backend/jobs/reviewNotifier.js:47-50 | definition: the `Topic.find` of completed topics whose review instant is at or before now, in collection order (stated by `DueTopicsMembers`) |
| ReviewNotifier.DueTopicsMembers | Backend/jobs/reviewNotifier.js:47-50 | the query returns exactly the completed topics with a review date at or before now |
| ReviewNotifier.SelectedIsDue | Backend/jobs/reviewNotifier.js:47-50 | every selected topic is due in the sense of `isDue` |
| ReviewNotifier.DueButNotSelected | Backend/jobs/reviewNotifier.js:49 | a topic due later today is due for `isDue` but not yet selected |
| ReviewNotifier.Resolved | Backend/jobs/reviewNotifier.js:50-68 | definition: the populated due topics that pass the `topic.subject && topic.subject.user` test, each paired with its subject, in query order (stated by `ResolvedMembers`) |
| ReviewNotifier.ResolvedMembers | Backend/jobs/reviewNotifier.js:61-62 | an item is kept exactly when its subject resolves, paired with that subject |
| ReviewNotifier.OwnedBy | Backend/jobs/reviewNotifier.js:63-67 | definition: the `topicsByUser[userId]` array, the resolved items of one user pushed in order (stated by `OwnedByMembers`, `GroupByUser`) |
| ReviewNotifier.OwnedByMembers | Backend/jobs/reviewNotifier.js:63-67 | a user's group holds exactly that user's items |
| ReviewNotifier.UserOrder | Backend/jobs/reviewNotifier.js:63-73 | definition: the keys of `topicsByUser` in first-insertion order, as `Object.entries` yields them (stated by `UserOrderMembers`, `GroupByUser`) |
| ReviewNotifier.UserOrderMembers | Backend/jobs/reviewNotifier.js:64-66 | the group keys are exactly the owners, each once |
| ReviewNotifier.Visit | Backend/jobs/reviewNotifier.js:73-81 | definition: the outer loop over the users, taking the items of each user in turn (stated by `VisitMembers`) |
| ReviewNotifier.VisitMembers | Backend/jobs/reviewNotifier.js:73-81 | visiting a list of users reaches exactly their items |
| ReviewNotifier.ScanOrder | Backend/jobs/reviewNotifier.js:73-81 | definition: the order in which the nested loops reach the resolved items (stated by `ScanOrderCovers`, `CheckDueReviews`) |
| ReviewNotifier.ScanOrderCovers | Backend/jobs/reviewNotifier.js:73-81 | the nested loops process every resolved item and nothing else |
| ReviewNotifier.CountUnread | Backend/jobs/reviewNotifier.js:14-18 | a pair's unread count is bounded by the store size |
| ReviewNotifier.HasUnread | Backend/jobs/reviewNotifier.js:14-18 | definition: the `findOne` for an unread notification of that user and topic (stated by `HasUnreadIffCount`, `CreateReviewNotification`) |
| ReviewNotifier.HasUnreadIffCount | Backend/jobs/reviewNotifier.js:14-20 | `findOne` finds an unread notification exactly when the pair's count is positive |
| ReviewNotifier.ReviewNotification | Backend/jobs/reviewNotifier.js:26-31 | the created notification is unread, for the subject's owner and the topic, titled "Review Due: " + title |
| ReviewNotifier.ReviewNotificationValid | Backend/models/Notification.js:3-29 | the review template always passes the required validators (non-empty title and message) |
| ReviewNotifier.Created | Backend/jobs/reviewNotifier.js:72-82 | a scan creates at most one notification per processed item |
| ReviewNotifier.CreatedFromWork | Backend/jobs/reviewNotifier.js:26-31 | each created notification is the review notification of a processed item, with the ids handed out in turn |
| ReviewNotifier.CreatedUnreadCount | Backend/jobs/reviewNotifier.js:11-37 | after a scan each processed pair has max(before, 1) unread notifications and every other pair keeps its count |
| ReviewNotifier.CreatedIdempotent | Backend/jobs/reviewNotifier.js:14-23 | a second scan over the same work right after the first creates nothing |
| ReviewNotifier.CreatedAgainIsEmpty | Backend/jobs/reviewNotifier.js:14-23 | re-processing any items of an earlier scan creates nothing |
| ReviewNotifier.CreateReviewNotification | Backend/jobs/reviewNotifier.js:11-38 | with an unread notification for the pair nothing changes; otherwise exactly the review notification is appended under a fresh id and returned |
| ReviewNotifier.GroupByUser | Backend/jobs/reviewNotifier.js:60-69 | the `forEach` builds the groups of the resolved items, keys in first-seen order |
| ReviewNotifier.NotifyOne | Backend/jobs/reviewNotifier.js:76-80 | one inner iteration: the store grows by exactly the next step of `Created`, ids are consumed in turn, the store stays valid, and `created` says whether the count goes up |
| ReviewNotifier.NotifyGroup | Backend/jobs/reviewNotifier.js:76-81 | the inner loop extends the created list by one user's group and counts what it created |
| ReviewNotifier.CheckDueReviews | Backend/jobs/reviewNotifier.js:40-89 | one scan appends exactly `Created` for the selected items in scan order, changes nothing else, and returns how many were created, the count the source only logs as `totalNotifications` (line 84) |
| NotificationsController.OfUser | Backend/controllers/notificationsController.js:8 | definition: the `find({ user: userId })` filter in collection order (stated by `OfUserMembers`) |
| NotificationsController.OfUserMembers | Backend/controllers/notificationsController.js:8 | the query returns exactly the caller's notifications |
| NotificationsController.Unread | Backend/controllers/notificationsController.js:17 | the unread count is at most the list length |
| NotificationsController.UnreadSort | Backend/controllers/notificationsController.js:10-17 | sorting does not change the unread count |
| NotificationsController.GetUserNotifications | Backend/controllers/notificationsController.js:4-25 | count is the list length, unread count at most count, the list a permutation of the caller's notifications |
| NotificationsController.ListingIsTheUsersNewestFirst | Backend/controllers/notificationsController.js:8-17 | the list holds exactly the caller's notifications, newest first, equal timestamps in store order, with their unread count |
| NotificationsController.Owns | Backend/controllers/notificationsController.js:34 | definition: the `{ _id: id, user: userId }` filter on one notification (stated by `FindOwned`) |
| NotificationsController.FindOwned | Backend/controllers/notificationsController.js:33-34 | the lookup finds the first document with that id and owner, or none exactly when there is none |
| NotificationsController.MarkedRead | Backend/controllers/notificationsController.js:35 | the update sets `read` and `updatedAt` and nothing else |
| NotificationsController.MarkRead | Backend/controllers/notificationsController.js:33-41 | 404 exactly when the caller owns no notification with that id; otherwise the returned document is read, the caller's, and in the store |
| NotificationsController.MarkReadChangesOnlyTarget | Backend/controllers/notificationsController.js:33-37 | only the document with that id changes, only in `read` and `updatedAt`, and the store stays valid |
| NotificationsController.MarkReadIdempotent | Backend/controllers/notificationsController.js:33-37 | marking the same notification again at the same instant changes nothing |
| NotificationsController.CountUnreadUpdate | Backend/controllers/notificationsController.js:35 | replacing a document changes a pair's unread count by the difference of the two versions |
| NotificationsController.CountUnreadConcat | Backend/jobs/reviewNotifier.js:14-18 | unread counts add over concatenated stores |
| NotificationsController.ReadThenScan | Backend/controllers/notificationsController.js:33-37 | marking the pending notification read lets the next scan create exactly one new unread one for the pair |
| NotificationsController.MarkNotificationRead | Backend/controllers/notificationsController.js:28-53 | the store becomes `MarkRead`'s store and the updated document is returned, or 404 with nothing changed |
| RewardsController.RecentRewards | Backend/controllers/rewardsController.js:17-21 | min(10, n) events, drawn from the history |
| RewardsController.OfAction | Backend/controllers/rewardsController.js:30-36 | one action's events are no more than all events |
| RewardsController.GetUserRewards | Backend/controllers/rewardsController.js:4-59 | 404 exactly for an unknown user; otherwise the cached total, the history length and sum, the recent events exactly `RecentRewards` of the history (at most ten) grouped exactly by `ByAction` |
| RewardsController.RecentAreNewest | Backend/controllers/rewardsController.js:17-21 | the recent events are a newest-first prefix of the sorted history, none left out is newer, ties keep history order |
| RewardsController.ByAction | Backend/controllers/rewardsController.js:30-36 | definition: the `reduce` into `rewardsByAction`, one group per action, pushed in order (stated by `ByActionGroups`) |
| RewardsController.ByActionGroups | Backend/controllers/rewardsController.js:30-36 | a group exists exactly for each action present, holding that action's events in order |
| RewardsController.GroupSize | Backend/controllers/rewardsController.js:47-50 | definition: `rewardsByAction[action]?.length || 0`, zero for an absent group (stated by `ActionsPartition`, `StatsCountRecent`) |
| RewardsController.ActionsPartition | Backend/controllers/rewardsController.js:46-51 | the four action counts add up to the number of events |
| RewardsController.StatsCountRecent | Backend/controllers/rewardsController.js:30-51 | each stat counts its action among the recent events, and the four sum to the recent count |
| RewardsController.ConsistentTotalsAgree | Backend/controllers/rewardsController.js:24-41 | the two totals agree exactly when the ledger is consistent |
| AiController.ChunksConcat | Backend/controllers/aiController.js:11-19 | joining the chunks gives back the text exactly |
| AiController.ChunksLengths | Backend/controllers/aiController.js:14-17 | every chunk is non-empty and at most maxLen; all but the last are exactly maxLen |
| AiController.ChunksCount | Backend/controllers/aiController.js:13-18 | there are ceil(len / maxLen) chunks, none for empty text |
| AiController.Chunks | Backend/controllers/aiController.js:11-19 | definition: consecutive slices of `maxLen` characters, the last possibly shorter (stated by `ChunksConcat`, `ChunksLengths`, `ChunksCount`) |
| AiController.SplitIntoChunks | Backend/controllers/aiController.js:11-19 | the `while` loop computes exactly the chunks |
| AiController.Fallback | Backend/controllers/aiController.js:53-56 | definition: the whole text as summary, no bullets (its behaviour is stated by `UnparsableReplyFallsBack`) |
| AiController.Interpret | Backend/controllers/aiController.js:45-57 | definition: empty text throws, otherwise the parsed object or the fallback (stated through the call by the three lemmas below) |
| AiController.UnparsableReplyFallsBack | Backend/controllers/aiController.js:50-57 | a non-empty reply that is not JSON ends the call after that one request with the whole text as summary and no bullets, and the response passes both on |
| AiController.ParsedReplyReturned | Backend/controllers/aiController.js:50-57 | a reply that parses ends the call after that one request with the parsed object |
| AiController.EmptyReplyNotRetried | Backend/controllers/aiController.js:45-48 | an empty reply throws after exactly one request and is never retried, even with attempts left |
| AiController.ErrorStatus | Backend/controllers/aiController.js:60-61 | definition: `error.response?.status`, present only for an HTTP error (stated by `CallFrom`, `RetryOnlyWhenRetryable`) |
| AiController.ShouldRetry | Backend/controllers/aiController.js:61-64 | definition: a 429 or a status of at least 500, with attempts left |
| AiController.RetryDelay | Backend/controllers/aiController.js:64-65 | the back-off is at least one second |
| AiController.DefaultBackoff | Backend/controllers/aiController.js:60-65 | with three retries the waits are 1 s, 2 s, 4 s and the last attempt never retries |
| AiController.RetryDelayDoubles | Backend/controllers/aiController.js:65 | each wait doubles the previous one |
| AiController.CallFrom | Backend/controllers/aiController.js:38-74 | between one and the remaining attempts are made; an HTTP error that is not to be retried is rethrown at once; a rethrown status is either not retryable or came on the last permitted attempt |
| AiController.CallGemini | Backend/controllers/aiController.js:21-75 | at most retries + 1 requests; none, and a thrown error, without an API key |
| AiController.Backoffs | Backend/controllers/aiController.js:63-68 | one wait per retry, the i-th being 2^i s |
| AiController.RetryOnlyWhenRetryable | Backend/controllers/aiController.js:59-72 | a further attempt happens exactly when the status is 429 or at least 500 and attempts remain |
| AiController.CallGeminiForJson | Backend/controllers/aiController.js:21-75 | the `for` loop ends with `CallGemini`'s outcome and attempt count, having waited the back-offs before each retry |
| AiController.BulletsOf | Backend/controllers/aiController.js:97 | definition: `Array.isArray(r.bullets) ? r.bullets : []` for one chunk (stated by `CombinedBulletsOfOne`, `SeveralChunksCombined`) |
| AiController.CombinedBullets | Backend/controllers/aiController.js:97 | definition: the `flatMap` of each result's bullets when they are an array |
| AiController.CombinedBulletsAppend | Backend/controllers/aiController.js:97 | the combined bullets of two runs of chunks are the two concatenated |
| AiController.CombinedBulletsOfOne | Backend/controllers/aiController.js:97 | a chunk contributes its bullets if they are an array and nothing otherwise |
| AiController.FirstThrown | Backend/controllers/aiController.js:81-91 | the first failing chunk call, all before it having parsed |
| AiController.SingleChunkReturnedAsIs | Backend/controllers/aiController.js:93-95 | with one chunk its result is returned and no combining call is made |
| AiController.SummarizeLarge | Backend/controllers/aiController.js:77-103 | definition: the first thrown chunk call propagates; one chunk is returned as is; otherwise the combining call on all bullets (stated by `SingleChunkReturnedAsIs`, `SeveralChunksCombined`) |
| AiController.SeveralChunksCombined | Backend/controllers/aiController.js:93-102 | with several parsed chunks the combining call gets every chunk's bullets in order |
| AiController.CheckText | Backend/controllers/aiController.js:108-111 | accepted exactly when `text` is a string that is not all white space; otherwise 400 |
| AiController.WideSpaceTextRejected | Backend/controllers/aiController.js:109-111 | text of em and ideographic spaces only is blank to `trim()` and gets 400 |
| AiController.AcceptedTextHasChunks | Backend/controllers/aiController.js:109-113 | accepted text has at least one chunk |
| AiController.OrDefault | Backend/controllers/aiController.js:114 | definition: `x || d`, replacing a falsy field by the default (stated by `Response`) |
| AiController.Response | Backend/controllers/aiController.js:114 | a string summary and an array of bullets pass through; missing ones become "" and [] |

## Left out

- Persistence: Mongoose queries, `populate`, `save` and connection handling are replaced by the in-memory `Store.Db`; store failures (the `catch` blocks that answer 500 or log) are not modelled except a failed cast or validation on save.
- TopicsController.MarkComplete: the topic save and the user update are two store calls in the source; the model performs them as one step, so a crash between them is not captured.
- TopicsController.RecordReview: the same two-step gap as `markComplete`.
- Concurrency: overlapping scans racing past the duplicate check, and concurrent requests for one user, are not modelled; each operation runs alone.
- Timers: the cron schedule, the start-up `setTimeout`, the retry sleeps and the one-second pause between chunks. The retry waits are recorded as numbers.
- Dates: time zones, DST and calendar rollover; an instant is an integer and a day is 86 400 000 ms.
- ReviewNotifier.CheckDueReviews: a store error that ends the scan early is not modelled; every scan runs to completion and every creation succeeds.
- Notification `populate('topic', 'title')` only shapes the response and is not modelled.
- A malformed id in a URL (a cast error answered with 500) is not modelled; ids are numbers.
- Request-body casts are approximated: a value of the wrong JSON kind makes the save fail with 500; `null` for a string or number path is treated as such a failure.
- User.js is not part of this model; the user record is taken as its optional `points` and optional `rewardHistory`, with the four actions the handlers and the summary use.
- NotificationsController.GetUserNotifications: the store leaves the order of equal `createdAt` values unspecified; the model keeps store order.
- `getTopicsBySubject` is a read-only query behind the same ownership check and is not modelled.
- Authentication (JWT, cookies, passwords) is not modelled; the caller's id is a parameter.
- The Gemini request itself, `pdf-parse`, the file upload and its cleanup (`summarizePdf`) are I/O and are not modelled.
- AiController.SummarizeLarge: the prompt texts, including the joined chunk summaries, are not modelled; the combining call is a parameter that receives the combined bullets.
- AiController.Interpret: `JSON.parse` is a parameter; a reply that parses to something other than an object (e.g. `null`, whose field access throws) is not distinguished.
- AiController.SplitIntoChunks: JavaScript slices UTF-16 code units and can split a surrogate pair; the model slices characters.
- AiController.ChunksCount: states ceil(len / maxLen) as its defining bounds, (k - 1)·maxLen < len <= k·maxLen, rather than through division.
