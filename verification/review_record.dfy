/**
 The per-card scheduling record of the flashcard scheduler (a variant of the
 SuperMemo SM-2 algorithm), its default value and the value domains the
 scheduler keeps.
 */
module ReviewRecord {

  /** Milliseconds in one day: the scheduler adds whole days to the review time. */
  const DayMs: int := 86_400_000

  /** The interval ceiling, one year. */
  const MaxInterval: int := 365

  /** Bounds of the ease factor. */
  const MinEase: real := 1.3
  const MaxEase: real := 2.5

  /**
   The scheduling record attached to each flashcard. Timestamps are epoch
   milliseconds; `lastReview == 0` means "never reviewed".
   */
  datatype ReviewData = ReviewData(
    easeFactor: real,
    interval: int,
    repetitions: int,
    dueDate: int,
    lastReview: int
  )

  /** The documented domains of the fields: ease in [1.3, 2.5], interval in [0, 365]. */
  predicate InDomain(d: ReviewData) {
    && MinEase <= d.easeFactor <= MaxEase
    && 0 <= d.interval <= MaxInterval
    && d.repetitions >= 0
  }

  /**
   The shape every record reachable from the default has: a card still
   learning has an interval of at most one day, a card with one success has
   exactly one day, and a mature card (two or more successes) at least six.
   */
  predicate WellFormed(d: ReviewData) {
    && (d.repetitions == 0 ==> d.interval <= 1)
    && (d.repetitions == 1 ==> d.interval == 1)
    && (d.repetitions >= 2 ==> d.interval >= 6)
  }

  /** True iff the card must be shown at time `now`. */
  predicate IsDue(d: ReviewData, now: int) {
    now >= d.dueDate
  }

  /** The record of a card created at time `now`. */
  function CreateDefaultReviewData(now: int): (d: ReviewData)
    ensures InDomain(d) && WellFormed(d)
    ensures d.easeFactor == MaxEase && d.interval == 0 && d.dueDate == now
    ensures d.repetitions == 0 && d.lastReview == 0
    ensures IsDue(d, now)
    ensures forall later :: later >= now ==> IsDue(d, later)
  {
    ReviewData(easeFactor := 2.5, interval := 0, repetitions := 0, dueDate := now, lastReview := 0)
  }

  /** Two cards created at the same instant get the same record, and any two differ at most in their due date. */
  lemma DefaultsAgree(now1: int, now2: int)
    ensures CreateDefaultReviewData(now1).(dueDate := now2) == CreateDefaultReviewData(now2)
    ensures now1 == now2 ==> CreateDefaultReviewData(now1) == CreateDefaultReviewData(now2)
  {
  }
}
