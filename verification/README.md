# StudyLab flashcard scheduler and achievement rules, in Dafny

This project models the two pieces of StudyLab with real logic in them:

- the **review scheduler** of `lib/spaced-repetition.ts`, a variant of the
  SuperMemo SM-2 algorithm (Wozniak). Each flashcard carries a review record
  (ease factor, interval in days, consecutive successes, due date, last
  review). A rating of the learner's recall (quality 0..5) moves the record
  to its next state. Queries say which cards are due, order them by due date
  and label how far away the next review is;
- the **achievement progress rules** of `lib/achievement-service.ts`: progress
  capped at a maximum, and an unlock that happens, with its time stamp, exactly
  once, on first reaching the cap.

Everything is a pure function over immutable datatypes. The clock (`Date.now()`)
is the parameter `now` (epoch milliseconds). The IndexedDB store of
achievements is a `map<string, Achievement>` that goes in and comes back out.

| file | module | models |
|---|---|---|
| `review_record.dfy` | `ReviewRecord` | the `ReviewData` record, its documented domains, the default record, `isDue` |
| `scheduler.dfy` | `Scheduler` | `calculateNextReview` and its properties over single steps and sequences of reviews |
| `due_queries.dfy` | `DueQueries` | `getDueCards`, `daysUntilReview`, `formatDueDate` |
| `due_sort.dfy` | `DueSort` | `sortByDueDate` (stable), and the due queue the deck page builds from it |
| `achievements.dfy` | `Achievements` | update, increment, unlock, the unlocked and recently-unlocked filters, runs of actions |
| `wrappers.dfy` | `Wrappers` | `Option`, the model of `null` results |

Numbers: the ease factor is a `real`, so +0.1, 0 and -0.14 are exact.
`Math.round` is `floor(x + 1/2)`. `Math.ceil` of a millisecond difference
divided by a day is an exact integer ceiling division. Timestamps,
intervals, repetitions and progress values are unbounded integers.

## Model

| member | source | states |
|---|---|---|
| `ReviewRecord.CreateDefaultReviewData` | lib/spaced-repetition.ts:13-21 | a new card's record has ease 2.5, interval 0, no repetitions, due date equal to its creation time, never reviewed; it lies in the documented domains and is due at its creation time and at every later time |
| `ReviewRecord.DefaultsAgree` | lib/spaced-repetition.ts:13-21 | two default records differ at most in the due date; created at the same instant they are equal |
| `Scheduler.ClampQuality` | lib/spaced-repetition.ts:27 | quality is saturated into [0, 5]: in-range values pass unchanged, below 0 gives 0, above 5 gives 5 |
| `Scheduler.ClampEase` | lib/spaced-repetition.ts:56 | the ease is saturated into [1.3, 2.5], in-range values unchanged |
| `Scheduler.Round` | lib/spaced-repetition.ts:49 | `Math.round` gives the integer within half a unit, ties upwards |
| `Scheduler.EaseDeltaValues` | lib/spaced-repetition.ts:53 | the SM-2 ease change is exactly +0.1, 0 and -0.14 for qualities 5, 4 and 3 |
| `Scheduler.CalculateNextReview` | lib/spaced-repetition.ts:25-69 | the review time becomes `lastReview`; due date is review time plus interval whole days; the interval never exceeds 365; a failure (clamped quality below 3) gives 0 repetitions, a one-day interval and the same ease; a success counts one more repetition, ends with ease in [1.3, 2.5], and gives 1 day at the first and 6 days at the second repetition |
| `Scheduler.MatureInterval` | lib/spaced-repetition.ts:47-50 | from the third success on, the interval is the old interval times the OLD ease, rounded, capped at 365 |
| `Scheduler.SuccessEase` | lib/spaced-repetition.ts:52-56 | after a success the ease is the old ease plus the SM-2 delta of the clamped quality, then clamped |
| `Scheduler.QualitySaturates` | lib/spaced-repetition.ts:26-27 | any integer quality is accepted, and it behaves exactly as its clamped value; below 0 as 0, above 5 as 5 |
| `Scheduler.AnchoredToReviewTime` | lib/spaced-repetition.ts:62-66 | the new record does not depend on the old due date or old review time: intervals count from the actual review, so late reviews do not compound delay |
| `Scheduler.BoundsPreserved` | lib/spaced-repetition.ts:4-10 | a record with ease in [1.3, 2.5], interval in [0, 365] and non-negative repetitions keeps all three after any review of any integer quality |
| `Scheduler.RoundGrows` | lib/spaced-repetition.ts:49 | an interval of at least two days multiplied by an ease of at least 1.3 rounds to a strictly longer interval |
| `Scheduler.MatureStep` | lib/spaced-repetition.ts:47-60 | a success on a card with two or more repetitions lengthens the interval by at least a day, up to the 365 cap |
| `Scheduler.WellFormedPreserved` | lib/spaced-repetition.ts:36-60 | the shape of reachable records (learning: at most 1 day; one success: 1 day; mature: at least 6 days) survives every review |
| `Scheduler.EaseMonotone` | lib/spaced-repetition.ts:53-56 | inside the domain, quality 4 keeps the ease, 5 strictly raises it below the 2.5 ceiling (stays 2.5 at it), 3 strictly lowers it above the 1.3 floor (stays 1.3 at it) |
| `Scheduler.FailureResets` | lib/spaced-repetition.ts:36-38 | any quality below 3 resets a card of any maturity to 0 repetitions, a 1-day interval due one day after the review, with the ease unchanged |
| `Scheduler.CapIsAbsorbing` | lib/spaced-repetition.ts:59-60 | a mature card at the 365-day cap stays at 365 after any further success |
| `Scheduler.MatureGrowth` | lib/spaced-repetition.ts:40-60 | n consecutive successes of a mature card grow its interval by at least n days (capped at 365) and keep it mature and in range |
| `Scheduler.EventuallyCapped` | lib/spaced-repetition.ts:40-60 | from any reachable record, 361 or more consecutive successes put the interval at exactly 365 days |
| `Scheduler.FirstThreeSuccesses` | lib/spaced-repetition.ts:41-56 | from a new card, three perfect reviews give intervals 1, 6 and 15 days with the ease held at 2.5 |
| `DueQueries.GetDueCards` | lib/spaced-repetition.ts:77-79 | the result keeps only due cards of the input, and every due input card is in it |
| `DueQueries.GetDueCardsAppend` | lib/spaced-repetition.ts:77-79 | filtering distributes over concatenation, so input order is preserved |
| `DueQueries.GetDueCardsSingle` | lib/spaced-repetition.ts:77-79 | one card is kept exactly when it is due |
| `DueQueries.CeilDiv` | lib/spaced-repetition.ts:90 | ceiling division yields the least multiple count covering the dividend |
| `DueQueries.DaysUntilReview` | lib/spaced-repetition.ts:87-91 | the day count is never negative, is 0 exactly when the card is due, and otherwise is the number of whole days that covers the time left |
| `DueQueries.Decimal` | lib/spaced-repetition.ts:102 | a day count renders as a non-empty string of digits without a leading zero |
| `DueQueries.DecimalRoundTrip` | lib/spaced-repetition.ts:102 | reading the rendered digits back gives the day count |
| `DueQueries.FormatDueDateCases` | lib/spaced-repetition.ts:94-104 | the label is "Oggi" exactly when the card is due, "Domani" exactly when it falls due within the next day, and otherwise "Tra " + digits + " giorni" where the digits read back as the day count, at least 2 |
| `DueSort.Insert` | lib/spaced-repetition.ts:83 | insertion adds exactly the one card to the sequence |
| `DueSort.InsertSorted` | lib/spaced-repetition.ts:83 | inserting into a sequence ascending by due date keeps it ascending |
| `DueSort.InsertStable` | lib/spaced-repetition.ts:83 | the inserted card comes before the cards with its own due date |
| `DueSort.SortByDueDate` | lib/spaced-repetition.ts:82-84 | the result is a permutation of the input, ascending by due date, and keeps the input order of cards with equal due dates |
| `DueSort.SortedStableUnique` | lib/spaced-repetition.ts:82-84 | ascending order plus the input order on ties determine the result uniquely |
| `DueSort.SortExample` | lib/spaced-repetition.ts:82-84 | cards due 100, 50, 100 (A, B, C) are ordered B, A, C |
| `DueSort.DueQueue` | lib/spaced-repetition.ts:77-84 | the due queue (the due cards, then sorted, as the deck page composes them) holds exactly the due cards with their multiplicities, ascending by due date, with cards due at the same time in deck order |
| `Achievements.ApplyProgress` | lib/achievement-service.ts:14-23 | progress becomes min(request, max); the record is unlocked afterwards exactly when it was already or the request reaches the max; a first unlock is stamped with the time, an earlier stamp is kept; no other field changes |
| `Achievements.UpdateAchievementProgress` | lib/achievement-service.ts:8-33 | an unknown id gives no result and the same store; otherwise the new record is returned and stored under its id |
| `Achievements.IncrementAchievementProgress` | lib/achievement-service.ts:36-46 | an unknown id gives no result and the same store; otherwise it is the update with current progress plus the increment |
| `Achievements.UnlockAchievement` | lib/achievement-service.ts:92-103 | an unknown id changes nothing; a known achievement whose maximum is a safe integer ends unlocked with progress equal to its maximum; in a well-keyed store exactly that record replaces the old entry |
| `Achievements.GetUnlockedAchievements` | lib/achievement-service.ts:59-67 | exactly the unlocked entries of the store, unchanged |
| `Achievements.RecentUnlocks` | lib/achievement-service.ts:70-86 | exactly the entries that are unlocked, carry a non-null, non-zero stamp, and were stamped less than 60000 ms before now |
| `Achievements.UpdateGrowsUnlocked` | lib/achievement-service.ts:59-67 | after an update the unlocked filter keeps every entry it had, and holds the target exactly when it was unlocked or the request reaches its maximum |
| `Achievements.RecentUnlocksAreUnlocked` | lib/achievement-service.ts:73 | every recent unlock is among the unlocked achievements |
| `Achievements.FreshUnlockIsRecent` | lib/achievement-service.ts:20-23 | an achievement first unlocked at a non-zero time is announced by every check in the following minute |
| `Achievements.UpdateFrame` | lib/achievement-service.ts:26 | an update on a well-keyed store keeps its ids and changes only the target's entry, which becomes the returned record |
| `Achievements.UpdateKeepsUnlocked` | lib/achievement-service.ts:20-23 | no update re-locks an achievement or changes its stamp |
| `Achievements.UpdateIdempotent` | lib/achievement-service.ts:8-33 | repeating an update, at any later time, changes nothing further |
| `Achievements.Perform` | lib/achievement-service.ts:105-111 | each action of the hook keeps a well-keyed store well keyed with the same ids |
| `Achievements.PerformStep` | lib/achievement-service.ts:105-111 | one action keeps the progress caps and every unlock with its stamp, and touches only its target |
| `Achievements.Run` | lib/achievement-service.ts:105-111 | any sequence of actions keeps a well-keyed store well keyed with the same ids |
| `Achievements.RunKeepsUnlocks` | lib/achievement-service.ts:14-23 | over any sequence of actions an unlocked achievement stays unlocked with its original stamp |
| `Achievements.StampedOnFirstUnlock` | lib/achievement-service.ts:20-23 | an achievement that starts locked and ends unlocked turned unlocked at one action, and its stamp is that action's time |
| `Achievements.StampOfUnlockingStep` | lib/achievement-service.ts:20-23 | the action that unlocks an achievement stamps it with its own time |
| `Achievements.RunKeepsProgressCapped` | lib/achievement-service.ts:14-17 | starting within the caps, progress never exceeds the maximum over any sequence of actions |

## Left out

- Calendar-day addition: `Date.setDate` (lib/spaced-repetition.ts:63-66) follows the local calendar across month ends and daylight-saving changes; the model adds `interval * 86400000` ms to the review time.
- Floating point: the ease sums and `Math.round` use exact reals, so IEEE-754 drift (for example 2.5 - 0.14 not being exact) is not modelled.
- Non-integer or NaN quality: `quality` is a JavaScript number; the model takes integers only, as the study UI (components/flashcard-study.tsx:169-175) only passes 1, 3 and 5.
- `Scheduler.CalculateNextReview`: reads the clock twice (lines 33 and 63); the model uses one `now` for both the review time and the due date.
- `isDue`, `createDefaultReviewData`, `daysUntilReview`: their `Date.now()` is the parameter `now`.
- Sort algorithm: JavaScript's `Array.prototype.sort` is stable but its algorithm is unspecified; the model is an insertion sort, and `SortedStableUnique` shows any stable ascending sort gives the same result.
- Label text: the Italian strings of `formatDueDate` are kept as they are; no locale formatting is involved.
- IndexedDB: `get`/`put`/`getAll` are a map passed in and returned; the async read-modify-write (including the second read inside the increment) is assumed serialised, and store errors (the `catch` branches returning `null` or `[]`) are not modelled.
- `getAllAchievements` (lib/achievement-service.ts:49-56) returns the whole store; as a map it is the identity and has no member.
- Result order: `getUnlockedAchievements` and the recent-unlock filter return arrays in key order; the model returns maps, which keep the entries but not an order.
- The toast and console notifications of `useAchievements` and `checkAchievements` are UI output and are not modelled.
- `Achievements.IncrementAchievementProgress`: the default `increment = 1` is not a default parameter here; callers pass it.
- `Achievements.UnlockAchievement`: the unlock is guaranteed only when the maximum is at most `Number.MAX_SAFE_INTEGER`; a larger maximum is never reached by the request, and the contract is conditional on that.
