/**
 The review transition of the flashcard scheduler: from the current record
 and the learner's self-rated recall quality, the record of the next review.
 The clock is the parameter `now`.
 */
module Scheduler {
  import opened ReviewRecord

  /** Quality is saturated into [0, 5] before use, so every integer is accepted. */
  function ClampQuality(quality: int): (q: int)
    ensures 0 <= q <= 5
    ensures 0 <= quality <= 5 ==> q == quality
    ensures quality < 0 ==> q == 0
    ensures quality > 5 ==> q == 5
  {
    if quality < 0 then 0 else if quality > 5 then 5 else quality
  }

  /** The ease factor is saturated into [1.3, 2.5]. */
  function ClampEase(e: real): (r: real)
    ensures MinEase <= r <= MaxEase
    ensures MinEase <= e <= MaxEase ==> r == e
    ensures e < MinEase ==> r == MinEase
    ensures e > MaxEase ==> r == MaxEase
  {
    if e < MinEase then MinEase else if e > MaxEase then MaxEase else e
  }

  /** Rounding half up, as JavaScript's `Math.round` does: the nearest integer, ties upwards. */
  function Round(x: real): (r: int)
    ensures x - 0.5 < r as real <= x + 0.5
  {
    (x + 0.5).Floor
  }

  /** The SM-2 change of the ease factor after a successful review of quality `q`. */
  function EaseDelta(q: int): real {
    0.1 - (5 - q) as real * (0.08 + (5 - q) as real * 0.02)
  }

  /** The three successful qualities move the ease by exactly +0.1, 0 and -0.14. */
  lemma EaseDeltaValues()
    ensures EaseDelta(5) == 0.1
    ensures EaseDelta(4) == 0.0
    ensures EaseDelta(3) == -0.14
  {
  }

  /** A review counts as a success when its clamped quality is at least 3. */
  predicate Success(quality: int) {
    ClampQuality(quality) >= 3
  }

  /** The interval a successful review grows to, before the one-year cap. */
  function GrownInterval(d: ReviewData): int {
    var repetitions := d.repetitions + 1;
    if repetitions == 1 then 1
    else if repetitions == 2 then 6
    else Round(d.interval as real * d.easeFactor)
  }

  /**
   The record after a review of the given quality at time `now`. A failure
   restarts the card with a one-day interval and leaves the ease alone; a
   success counts one more repetition, grows the interval with the OLD ease
   and then moves the ease. The interval is capped at a year and the card is
   due that many whole days after the review.
   */
  function CalculateNextReview(d: ReviewData, quality: int, now: int): (r: ReviewData)
    ensures r.lastReview == now
    ensures r.dueDate == now + r.interval * DayMs
    ensures r.interval <= MaxInterval
    ensures !Success(quality) ==>
      r.repetitions == 0 && r.interval == 1 && r.easeFactor == d.easeFactor
    ensures Success(quality) ==>
      && r.repetitions == d.repetitions + 1
      && MinEase <= r.easeFactor <= MaxEase
      && (r.repetitions == 1 ==> r.interval == 1)
      && (r.repetitions == 2 ==> r.interval == 6)
  {
    var q := ClampQuality(quality);
    var next :=
      if q < 3 then
        d.(repetitions := 0, interval := 1)
      else
        d.(repetitions := d.repetitions + 1,
           interval := GrownInterval(d),
           easeFactor := ClampEase(d.easeFactor + EaseDelta(q)));
    var interval := if next.interval < MaxInterval then next.interval else MaxInterval;
    next.(interval := interval, lastReview := now, dueDate := now + interval * DayMs)
  }

  /** The interval after a third or later success: the old interval times the OLD ease, rounded, capped at a year. */
  lemma MatureInterval(d: ReviewData, quality: int, now: int)
    requires Success(quality) && d.repetitions + 1 >= 3
    ensures var r := CalculateNextReview(d, quality, now);
      var grown := Round(d.interval as real * d.easeFactor);
      r.interval == (if grown < MaxInterval then grown else MaxInterval)
  {
  }

  /** After a success the ease is the old ease moved by the SM-2 delta, then clamped. */
  lemma SuccessEase(d: ReviewData, quality: int, now: int)
    requires Success(quality)
    ensures CalculateNextReview(d, quality, now).easeFactor
         == ClampEase(d.easeFactor + EaseDelta(ClampQuality(quality)))
  {
  }

  /** Out-of-range qualities behave exactly like the nearest bound. */
  lemma QualitySaturates(d: ReviewData, quality: int, now: int)
    ensures CalculateNextReview(d, quality, now) == CalculateNextReview(d, ClampQuality(quality), now)
    ensures quality < 0 ==> CalculateNextReview(d, quality, now) == CalculateNextReview(d, 0, now)
    ensures quality > 5 ==> CalculateNextReview(d, quality, now) == CalculateNextReview(d, 5, now)
  {
  }

  /**
   Intervals are anchored to the moment of review: neither the old due date
   nor the old review time influences the new record, so reviewing late does
   not compound the delay.
   */
  lemma AnchoredToReviewTime(d: ReviewData, dueDate: int, lastReview: int, quality: int, now: int)
    ensures CalculateNextReview(d.(dueDate := dueDate, lastReview := lastReview), quality, now)
         == CalculateNextReview(d, quality, now)
  {
  }

  /** Multiplying by a non-negative factor keeps the order of the other factors (a step Z3 needs spelled out). */
  lemma ScaleAtLeast(i: real, e: real, lo: real)
    requires i >= 0.0 && e >= lo
    ensures i * e >= i * lo
  {
    assert i * e - i * lo == i * (e - lo);
  }

  /** Growing a non-negative interval by a non-negative ease never gives a negative interval. */
  lemma NonNegativeProduct(i: real, e: real)
    requires i >= 0.0 && e >= 0.0
    ensures Round(i * e) >= 0
  {
    assert i * e >= 0.0;
  }

  /** Bounds invariant: a record inside the documented domains stays inside them, whatever the quality. */
  lemma BoundsPreserved(d: ReviewData, quality: int, now: int)
    requires InDomain(d)
    ensures InDomain(CalculateNextReview(d, quality, now))
  {
    if Success(quality) && d.repetitions + 1 >= 3 {
      NonNegativeProduct(d.interval as real, d.easeFactor);
      MatureInterval(d, quality, now);
    }
  }

  /** A mature interval of at least two days strictly grows when the ease is at least 1.3. */
  lemma {:induction false} RoundGrows(i: int, e: real)
    requires i >= 2 && e >= MinEase
    ensures Round(i as real * e) >= i + 1
  {
    ScaleAtLeast(i as real, e, MinEase);
    assert Round(i as real * e) as real > i as real * MinEase - 0.5 >= i as real + 0.1;
  }

  /** A success of a mature card grows its interval by at least one day, up to the cap. */
  lemma MatureStep(d: ReviewData, quality: int, now: int)
    requires InDomain(d) && d.repetitions >= 2 && d.interval >= 2 && Success(quality)
    ensures var r := CalculateNextReview(d, quality, now);
      r.interval >= (if d.interval + 1 < MaxInterval then d.interval + 1 else MaxInterval)
  {
    RoundGrows(d.interval, d.easeFactor);
    MatureInterval(d, quality, now);
  }

  /** The shape of reachable records is kept by every review. */
  lemma WellFormedPreserved(d: ReviewData, quality: int, now: int)
    requires InDomain(d) && WellFormed(d)
    ensures WellFormed(CalculateNextReview(d, quality, now))
  {
    var r := CalculateNextReview(d, quality, now);
    if !Success(quality) {
      assert r.repetitions == 0 && r.interval == 1;
    } else if d.repetitions == 0 {
      assert r.repetitions == 1 && r.interval == 1;
    } else if d.repetitions == 1 {
      assert r.repetitions == 2 && r.interval == 6;
    } else {
      MatureStep(d, quality, now);
      assert r.repetitions >= 3 && r.interval >= 6;
    }
  }

  /**
   Ease factor monotonicity (inside the domain): quality 4 keeps the ease,
   quality 5 raises it until the 2.5 ceiling, quality 3 lowers it until the
   1.3 floor.
   */
  lemma EaseMonotone(d: ReviewData, now: int)
    requires InDomain(d)
    ensures CalculateNextReview(d, 4, now).easeFactor == d.easeFactor
    ensures d.easeFactor < MaxEase ==> CalculateNextReview(d, 5, now).easeFactor > d.easeFactor
    ensures d.easeFactor == MaxEase ==> CalculateNextReview(d, 5, now).easeFactor == MaxEase
    ensures d.easeFactor > MinEase ==> CalculateNextReview(d, 3, now).easeFactor < d.easeFactor
    ensures d.easeFactor == MinEase ==> CalculateNextReview(d, 3, now).easeFactor == MinEase
  {
    EaseDeltaValues();
  }

  /** A failed review restarts a card of any maturity. */
  lemma FailureResets(d: ReviewData, quality: int, now: int)
    requires quality < 3
    ensures var r := CalculateNextReview(d, quality, now);
      r.repetitions == 0 && r.interval == 1 && r.easeFactor == d.easeFactor && r.dueDate == now + DayMs
  {
  }

  /** Once a mature card sits at the one-year cap, further successes keep it there. */
  lemma CapIsAbsorbing(d: ReviewData, quality: int, now: int)
    requires InDomain(d) && d.repetitions >= 2 && d.interval == MaxInterval && Success(quality)
    ensures CalculateNextReview(d, quality, now).interval == MaxInterval
  {
    MatureStep(d, quality, now);
  }

  /** One rating event: the quality chosen and the time it was given. */
  datatype Review = Review(quality: int, at: int)

  /** The record after a sequence of rating events, applied in order. */
  function Replay(d: ReviewData, reviews: seq<Review>): ReviewData
    decreases |reviews|
  {
    if |reviews| == 0 then d
    else Replay(CalculateNextReview(d, reviews[0].quality, reviews[0].at), reviews[1..])
  }

  predicate AllSuccessful(reviews: seq<Review>) {
    forall i :: 0 <= i < |reviews| ==> Success(reviews[i].quality)
  }

  /** Successive successes of a mature card grow its interval by at least a day each, up to the cap. */
  lemma {:induction false} MatureGrowth(d: ReviewData, reviews: seq<Review>)
    requires InDomain(d) && WellFormed(d) && d.repetitions >= 2
    requires AllSuccessful(reviews)
    ensures var r := Replay(d, reviews);
      && InDomain(r) && WellFormed(r) && r.repetitions >= 2
      && r.interval >= (if d.interval + |reviews| < MaxInterval then d.interval + |reviews| else MaxInterval)
    decreases |reviews|
  {
    if |reviews| > 0 {
      var next := CalculateNextReview(d, reviews[0].quality, reviews[0].at);
      BoundsPreserved(d, reviews[0].quality, reviews[0].at);
      WellFormedPreserved(d, reviews[0].quality, reviews[0].at);
      MatureStep(d, reviews[0].quality, reviews[0].at);
      assert next.interval >= (if d.interval + 1 < MaxInterval then d.interval + 1 else MaxInterval);
      assert AllSuccessful(reviews[1..]) by {
        forall i | 0 <= i < |reviews[1..]|
          ensures Success(reviews[1..][i].quality)
        {
          assert reviews[1..][i] == reviews[i + 1];
        }
      }
      MatureGrowth(next, reviews[1..]);
    }
  }

  /**
   Interval ceiling: from any reachable record, enough consecutive successes
   drive the interval to exactly 365 days (never beyond).
   */
  lemma EventuallyCapped(d: ReviewData, reviews: seq<Review>)
    requires InDomain(d) && WellFormed(d)
    requires AllSuccessful(reviews) && |reviews| >= 361
    ensures Replay(d, reviews).interval == MaxInterval
  {
    var r0, r1 := reviews[0], reviews[1];
    var d1 := CalculateNextReview(d, r0.quality, r0.at);
    BoundsPreserved(d, r0.quality, r0.at);
    WellFormedPreserved(d, r0.quality, r0.at);
    var d2 := CalculateNextReview(d1, r1.quality, r1.at);
    BoundsPreserved(d1, r1.quality, r1.at);
    WellFormedPreserved(d1, r1.quality, r1.at);
    assert Replay(d, reviews) == Replay(d1, reviews[1..]);
    assert reviews[1..][0] == r1 && reviews[1..][1..] == reviews[2..];
    assert Replay(d1, reviews[1..]) == Replay(d2, reviews[2..]);
    assert AllSuccessful(reviews[2..]) by {
      forall i | 0 <= i < |reviews[2..]|
        ensures Success(reviews[2..][i].quality)
      {
        assert reviews[2..][i] == reviews[i + 2];
      }
    }
    MatureGrowth(d2, reviews[2..]);
  }

  /** From a new card, three perfect reviews give the canonical intervals 1, 6 and 15 days, with the ease held at 2.5. */
  lemma FirstThreeSuccesses(created: int, t1: int, t2: int, t3: int)
    ensures var d0 := CreateDefaultReviewData(created);
      var d1 := CalculateNextReview(d0, 5, t1);
      var d2 := CalculateNextReview(d1, 5, t2);
      var d3 := CalculateNextReview(d2, 5, t3);
      && d1.interval == 1 && d2.interval == 6 && d3.interval == 15
      && d1.easeFactor == 2.5 && d2.easeFactor == 2.5 && d3.easeFactor == 2.5
      && d3.repetitions == 3
  {
    var d2 := CalculateNextReview(CalculateNextReview(CreateDefaultReviewData(created), 5, t1), 5, t2);
    assert Round(d2.interval as real * d2.easeFactor) == 15;
  }
}
