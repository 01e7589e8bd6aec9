/**
 Ordering cards for a study session: a stable sort ascending by due date,
 returning a new sequence, and the due queue built from it.
 */
module DueSort {
  import opened ReviewRecord
  import opened DueQueries

  function Due<T>(c: Card<T>): int {
    c.reviewData.dueDate
  }

  /** Ascending by due date. */
  predicate SortedByDue<T>(s: seq<Card<T>>) {
    forall i, j :: 0 <= i < j < |s| ==> Due(s[i]) <= Due(s[j])
  }

  /** The cards of `s` with due date `key`, in their order in `s`. */
  function WithDue<T>(s: seq<Card<T>>, key: int): (r: seq<Card<T>>)
    ensures |r| <= |s|
  {
    if |s| == 0 then []
    else (if Due(s[0]) == key then [s[0]] else []) + WithDue(s[1..], key)
  }

  /**
   Stability: for every due date, the cards sharing it appear in the same
   relative order in `t` as in `s`.
   */
  ghost predicate SameOrderOnTies<T>(s: seq<Card<T>>, t: seq<Card<T>>) {
    forall key :: WithDue(t, key) == WithDue(s, key)
  }

  /** Filtering a sequence with one card in front. */
  lemma WithDueCons<T>(c: Card<T>, s: seq<Card<T>>, key: int)
    ensures WithDue([c] + s, key) == (if Due(c) == key then [c] else []) + WithDue(s, key)
  {
    assert ([c] + s)[1..] == s;
  }

  /** Places `c` before the first card of `s` that is due no earlier than it. */
  function Insert<T>(c: Card<T>, s: seq<Card<T>>): (r: seq<Card<T>>)
    ensures |r| == |s| + 1
    ensures multiset(r) == multiset(s) + multiset{c}
  {
    if |s| == 0 || Due(c) <= Due(s[0]) then [c] + s
    else
      assert s == [s[0]] + s[1..];
      [s[0]] + Insert(c, s[1..])
  }

  /** Inserting into a sorted sequence keeps it sorted. */
  lemma {:induction false} InsertSorted<T>(c: Card<T>, s: seq<Card<T>>)
    requires SortedByDue(s)
    ensures SortedByDue(Insert(c, s))
    decreases |s|
  {
    var r := Insert(c, s);
    if |s| == 0 || Due(c) <= Due(s[0]) {
      assert r == [c] + s;
      forall i, j | 0 <= i < j < |r|
        ensures Due(r[i]) <= Due(r[j])
      {
        assert r[j] == s[j - 1];
        if i > 0 {
          assert r[i] == s[i - 1];
        } else {
          assert Due(s[0]) <= Due(s[j - 1]);
        }
      }
    } else {
      SortedTail(s);
      InsertSorted(c, s[1..]);
      var rest := Insert(c, s[1..]);
      assert r == [s[0]] + rest;
      forall j | 0 <= j < |rest|
        ensures Due(s[0]) <= Due(rest[j])
      {
        assert rest[j] in multiset(rest);
        if rest[j] != c {
          assert rest[j] in multiset(s[1..]);
          var m :| 0 <= m < |s[1..]| && s[1..][m] == rest[j];
          assert s[1..][m] == s[m + 1];
        }
      }
      forall i, j | 0 <= i < j < |r|
        ensures Due(r[i]) <= Due(r[j])
      {
        assert r[j] == rest[j - 1];
        if i > 0 {
          assert r[i] == rest[i - 1];
        }
      }
    }
  }

  /** Inserting `c` puts it before every card of `s` with its own due date, so ties keep `c` first. */
  lemma {:induction false} InsertStable<T>(c: Card<T>, s: seq<Card<T>>, key: int)
    ensures WithDue(Insert(c, s), key) == WithDue([c] + s, key)
    decreases |s|
  {
    if |s| > 0 && Due(c) > Due(s[0]) {
      var x, tail := s[0], s[1..];
      var hx := if Due(x) == key then [x] else [];
      var hc := if Due(c) == key then [c] else [];
      InsertStable(c, tail, key);
      assert Insert(c, s) == [x] + Insert(c, tail);
      WithDueCons(x, Insert(c, tail), key);
      WithDueCons(c, tail, key);
      assert s == [x] + tail;
      WithDueCons(x, tail, key);
      WithDueCons(c, s, key);
      // At most one of x and c carries the key, since their due dates differ.
      assert hx == [] || hc == [];
      calc {
        WithDue(Insert(c, s), key);
        hx + WithDue([c] + tail, key);
        hx + (hc + WithDue(tail, key));
        { assert hx + (hc + WithDue(tail, key)) == hc + (hx + WithDue(tail, key)); }
        hc + (hx + WithDue(tail, key));
        hc + WithDue(s, key);
        WithDue([c] + s, key);
      }
    }
  }

  /**
   The cards ordered by due date, earliest first: a permutation of the input,
   ascending, and stable on equal due dates. The input is a value and is left
   as it was.
   */
  function SortByDueDate<T>(cards: seq<Card<T>>): (r: seq<Card<T>>)
    ensures |r| == |cards|
    ensures multiset(r) == multiset(cards)
    ensures SortedByDue(r)
    ensures SameOrderOnTies(cards, r)
  {
    if |cards| == 0 then []
    else
      var rest := SortByDueDate(cards[1..]);
      InsertSorted(cards[0], rest);
      assert cards == [cards[0]] + cards[1..];
      assert forall key :: WithDue(Insert(cards[0], rest), key) == WithDue(cards, key) by {
        forall key
          ensures WithDue(Insert(cards[0], rest), key) == WithDue(cards, key)
        {
          InsertStable(cards[0], rest, key);
          WithDueCons(cards[0], rest, key);
          WithDueCons(cards[0], cards[1..], key);
        }
      }
      Insert(cards[0], rest)
  }

  /**
   The three constraints pin the order down: two sequences that are both
   sorted by due date and keep the input's order on every due date are equal.
   */
  lemma {:induction false} SortedStableUnique<T>(s: seq<Card<T>>, t: seq<Card<T>>)
    requires SortedByDue(s) && SortedByDue(t)
    requires SameOrderOnTies(s, t)
    ensures s == t
    decreases |s| + |t|
  {
    if |s| == 0 {
      if |t| != 0 {
        FirstWithKey(t, Due(t[0]));
        assert false;
      }
    } else if |t| == 0 {
      FirstWithKey(s, Due(s[0]));
      assert false;
    } else {
      var ks, kt := Due(s[0]), Due(t[0]);
      // The smallest due date of each is the same.
      if ks < kt {
        FirstWithKey(s, ks);
        AllAtLeast(t, kt, ks);
        assert false;
      } else if kt < ks {
        FirstWithKey(t, kt);
        AllAtLeast(s, ks, kt);
        assert false;
      }
      FirstWithKey(s, ks);
      FirstWithKey(t, kt);
      assert s[0] == WithDue(s, ks)[0] == WithDue(t, ks)[0] == t[0];
      forall key
        ensures WithDue(t[1..], key) == WithDue(s[1..], key)
      {
        assert WithDue(s, key) == (if Due(s[0]) == key then [s[0]] else []) + WithDue(s[1..], key);
        assert WithDue(t, key) == (if Due(t[0]) == key then [t[0]] else []) + WithDue(t[1..], key);
        var head := if Due(s[0]) == key then [s[0]] else [];
        assert (head + WithDue(s[1..], key))[|head|..] == WithDue(s[1..], key);
        assert (head + WithDue(t[1..], key))[|head|..] == WithDue(t[1..], key);
      }
      SortedTail(s);
      SortedTail(t);
      SortedStableUnique(s[1..], t[1..]);
      assert s == [s[0]] + s[1..] && t == [t[0]] + t[1..];
    }
  }

  lemma SortedTail<T>(s: seq<Card<T>>)
    requires SortedByDue(s) && |s| > 0
    ensures SortedByDue(s[1..])
  {
    forall i, j | 0 <= i < j < |s[1..]|
      ensures Due(s[1..][i]) <= Due(s[1..][j])
    {
      assert s[1..][i] == s[i + 1] && s[1..][j] == s[j + 1];
    }
  }

  /** The first card of a non-empty sequence is the first one carrying its due date. */
  lemma FirstWithKey<T>(s: seq<Card<T>>, key: int)
    requires |s| > 0 && Due(s[0]) == key
    ensures |WithDue(s, key)| > 0 && WithDue(s, key)[0] == s[0]
  {
  }

  /** In a sorted sequence starting at `low`, no card is due before `low`. */
  lemma {:induction false} AllAtLeast<T>(s: seq<Card<T>>, low: int, key: int)
    requires SortedByDue(s) && |s| > 0 && Due(s[0]) == low && key < low
    ensures WithDue(s, key) == []
    decreases |s|
  {
    if |s| > 1 {
      SortedTail(s);
      assert Due(s[1..][0]) >= low;
      AllAtLeastFrom(s[1..], low, key);
    }
  }

  lemma {:induction false} AllAtLeastFrom<T>(s: seq<Card<T>>, low: int, key: int)
    requires SortedByDue(s) && key < low
    requires forall i :: 0 <= i < |s| ==> Due(s[i]) >= low
    ensures WithDue(s, key) == []
    decreases |s|
  {
    if |s| > 0 {
      SortedTail(s);
      AllAtLeastFrom(s[1..], low, key);
    }
  }

  /**
   The due queue of a deck page: the due cards, earliest due first, each due
   card exactly as often as in the deck, and cards due at the same time in
   deck order.
   */
  function DueQueue<T(==)>(cards: seq<Card<T>>, now: int): (r: seq<Card<T>>)
    ensures SortedByDue(r)
    ensures multiset(r) == multiset(GetDueCards(cards, now))
    ensures SameOrderOnTies(GetDueCards(cards, now), r)
    ensures forall i :: 0 <= i < |r| ==> r[i] in cards && IsDue(r[i].reviewData, now)
    ensures forall i :: 0 <= i < |cards| && IsDue(cards[i].reviewData, now) ==> cards[i] in r
  {
    var due := GetDueCards(cards, now);
    var r := SortByDueDate(due);
    forall i | 0 <= i < |r|
      ensures r[i] in due
    {
      assert r[i] in multiset(r);
    }
    forall i | 0 <= i < |due|
      ensures due[i] in r
    {
      assert due[i] in multiset(due);
    }
    r
  }

  /** The sort is stable: on the three cards A (due 100), B (due 50), C (due 100) it yields B, A, C. */
  lemma SortExample()
    ensures var a := Card('A', ReviewData(2.5, 0, 0, 100, 0));
      var b := Card('B', ReviewData(2.5, 0, 0, 50, 0));
      var c := Card('C', ReviewData(2.5, 0, 0, 100, 0));
      SortByDueDate([a, b, c]) == [b, a, c]
  {
    var a := Card('A', ReviewData(2.5, 0, 0, 100, 0));
    var b := Card('B', ReviewData(2.5, 0, 0, 50, 0));
    var c := Card('C', ReviewData(2.5, 0, 0, 100, 0));
    assert [a, b, c][1..] == [b, c] && [b, c][1..] == [c] && [c][1..] == [];
    assert SortByDueDate([c]) == [c];
    assert SortByDueDate([b, c]) == [b, c];
    assert Insert(a, [c]) == [a, c];
    assert Insert(a, [b, c]) == [b] + Insert(a, [c]);
  }
}
