/**
 Queries over review records: which cards are due, how many days remain
 until a card is due, and the three-way label shown to the learner.
 */
module DueQueries {
  import opened ReviewRecord

  /** A flashcard of any kind: some content together with its review record. */
  datatype Card<T> = Card(content: T, reviewData: ReviewData)

  /** The cards due at `now`, in their input order. */
  function GetDueCards<T(==)>(cards: seq<Card<T>>, now: int): (r: seq<Card<T>>)
    ensures |r| <= |cards|
    ensures forall i :: 0 <= i < |r| ==> r[i] in cards && IsDue(r[i].reviewData, now)
    ensures forall i :: 0 <= i < |cards| && IsDue(cards[i].reviewData, now) ==> cards[i] in r
  {
    if |cards| == 0 then []
    else (if IsDue(cards[0].reviewData, now) then [cards[0]] else []) + GetDueCards(cards[1..], now)
  }

  /** Filtering keeps input order: it distributes over concatenation. */
  lemma {:induction false} GetDueCardsAppend<T>(a: seq<Card<T>>, b: seq<Card<T>>, now: int)
    ensures GetDueCards(a + b, now) == GetDueCards(a, now) + GetDueCards(b, now)
    decreases |a|
  {
    if |a| > 0 {
      assert (a + b)[0] == a[0];
      assert (a + b)[1..] == a[1..] + b;
      GetDueCardsAppend(a[1..], b, now);
      var head := if IsDue(a[0].reviewData, now) then [a[0]] else [];
      assert head + (GetDueCards(a[1..], now) + GetDueCards(b, now))
          == (head + GetDueCards(a[1..], now)) + GetDueCards(b, now);
    } else {
      assert a + b == b;
    }
  }

  /** A single card is kept exactly when it is due. */
  lemma GetDueCardsSingle<T>(c: Card<T>, now: int)
    ensures GetDueCards([c], now) == (if IsDue(c.reviewData, now) then [c] else [])
  {
    assert [c][1..] == [];
  }

  /** Ceiling division by a positive divisor: the least `r` with `n <= r * m`. */
  function CeilDiv(n: int, m: int): (r: int)
    requires m > 0
    ensures (r - 1) * m < n <= r * m
  {
    -((-n) / m)
  }

  /**
   Whole days until the card is due: the time left, rounded up to days, and
   never negative.
   */
  function DaysUntilReview(d: ReviewData, now: int): (days: int)
    ensures days >= 0
    ensures days == 0 <==> IsDue(d, now)
    ensures days > 0 ==> (days - 1) * DayMs < d.dueDate - now <= days * DayMs
  {
    var days := CeilDiv(d.dueDate - now, DayMs);
    if days > 0 then days else 0
  }

  /** A digit character for a value 0..9. */
  function DigitChar(v: int): char
    requires 0 <= v < 10
  {
    "0123456789"[v]
  }

  predicate IsDigit(c: char) {
    '0' <= c <= '9'
  }

  /** Decimal rendering of a natural number, as JavaScript's template literals print it. */
  function Decimal(n: nat): (s: string)
    ensures |s| > 0
    ensures forall i :: 0 <= i < |s| ==> IsDigit(s[i])
    ensures |s| > 1 ==> s[0] != '0'
  {
    if n < 10 then [DigitChar(n)] else Decimal(n / 10) + [DigitChar(n % 10)]
  }

  /** Reading a string of digits back as a number. */
  function ParseDecimal(s: string): nat
    requires forall i :: 0 <= i < |s| ==> IsDigit(s[i])
  {
    if |s| == 0 then 0
    else
      assert IsDigit(s[|s| - 1]);
      10 * ParseDecimal(s[..|s| - 1]) + (s[|s| - 1] as int - '0' as int)
  }

  /** The decimal rendering loses nothing: parsing it gives back the number. */
  lemma {:induction false} DecimalRoundTrip(n: nat)
    ensures ParseDecimal(Decimal(n)) == n
    decreases n
  {
    var s := Decimal(n);
    if n >= 10 {
      DecimalRoundTrip(n / 10);
      assert s[..|s| - 1] == Decimal(n / 10);
    }
  }

  /** The label shown for a card's next review: "today", "tomorrow" or "in N days". */
  function FormatDueDate(d: ReviewData, now: int): string {
    var days := DaysUntilReview(d, now);
    if days == 0 then "Oggi"
    else if days == 1 then "Domani"
    else "Tra " + Decimal(days) + " giorni"
  }

  /**
   The label classifies the card three ways: "today" exactly when the card is
   due, "tomorrow" exactly when it falls due within the next day, and
   otherwise "Tra ", a day count of at least two that reads back as the whole
   days remaining, and " giorni".
   */
  lemma FormatDueDateCases(d: ReviewData, now: int)
    ensures FormatDueDate(d, now) == "Oggi" <==> IsDue(d, now)
    ensures FormatDueDate(d, now) == "Domani" <==> 0 < d.dueDate - now <= DayMs
    ensures d.dueDate - now > DayMs ==>
      var s := FormatDueDate(d, now);
      && |s| > 11
      && s[..4] == "Tra "
      && s[|s| - 7..] == " giorni"
      && (forall i :: 4 <= i < |s| - 7 ==> IsDigit(s[i]))
      && ParseDecimal(s[4..|s| - 7]) == DaysUntilReview(d, now) >= 2
  {
    var days := DaysUntilReview(d, now);
    if days >= 2 {
      var digits := Decimal(days);
      DecimalRoundTrip(days);
      var s := FormatDueDate(d, now);
      assert s == "Tra " + digits + " giorni";
      assert s[0] == 'T';
      assert s[4..|s| - 7] == digits;
      forall i | 4 <= i < |s| - 7
        ensures IsDigit(s[i])
      {
        assert s[i] == digits[i - 4];
      }
    }
  }
}
