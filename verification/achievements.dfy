/**
 Achievement progress for gamification. Each achievement is a small state
 machine: progress is capped at its maximum, and the first time the cap is
 reached it is unlocked and stamped with the time. The persistent store is a
 map from id to achievement passed in and returned; the clock is `now`.
 */
module Achievements {
  import opened Wrappers

  /** `Number.MAX_SAFE_INTEGER`, the progress the unlock path requests. */
  const MaxSafeInteger: int := 9_007_199_254_740_991

  /** How long, in milliseconds, an unlock counts as recent. */
  const RecentWindowMs: int := 60_000

  datatype Achievement = Achievement(
    id: string,
    title: string,
    description: string,
    icon: string,
    unlocked: bool,
    progress: int,
    maxProgress: int,
    unlockedAt: Option<int>
  )

  type Store = map<string, Achievement>

  /** Every record sits under its own id, as the store's key path guarantees. */
  predicate WellKeyed(store: Store) {
    forall k :: k in store ==> store[k].id == k
  }

  /** What an update returns (`null` or the new record) together with the store after it. */
  datatype Outcome = Outcome(result: Option<Achievement>, store: Store)

  /** The smaller of two integers. */
  function Min(a: int, b: int): (m: int)
    ensures m <= a && m <= b && (m == a || m == b)
  {
    if a <= b then a else b
  }

  /**
   The new record for a requested progress: progress is the request capped at
   the maximum, and a record not yet unlocked whose capped progress reaches
   the maximum is unlocked and stamped with `now`.
   */
  function ApplyProgress(a: Achievement, requested: int, now: int): (r: Achievement)
    ensures r.progress == Min(requested, a.maxProgress) <= a.maxProgress
    ensures r.unlocked <==> a.unlocked || requested >= a.maxProgress
    ensures a.unlocked ==> r.unlockedAt == a.unlockedAt
    ensures !a.unlocked && requested >= a.maxProgress ==> r.unlockedAt == Some(now)
    ensures !a.unlocked && requested < a.maxProgress ==> r.unlockedAt == a.unlockedAt
    ensures r.(progress := a.progress, unlocked := a.unlocked, unlockedAt := a.unlockedAt) == a
  {
    var capped := a.(progress := Min(requested, a.maxProgress));
    if capped.progress >= capped.maxProgress && !capped.unlocked then
      capped.(unlocked := true, unlockedAt := Some(now))
    else
      capped
  }

  /**
   Sets the progress of achievement `id`. An unknown id yields `None` and
   leaves the store as it was; otherwise the new record is stored under its id
   and returned.
   */
  function UpdateAchievementProgress(store: Store, id: string, progress: int, now: int): (o: Outcome)
    ensures id !in store ==> o.result == None && o.store == store
    ensures id in store ==>
      && o.result == Some(ApplyProgress(store[id], progress, now))
      && o.store == store[o.result.value.id := o.result.value]
  {
    if id !in store then Outcome(None, store)
    else
      var updated := ApplyProgress(store[id], progress, now);
      Outcome(Some(updated), store[updated.id := updated])
  }

  /** Adds `increment` to the progress of achievement `id`, through the update. */
  function IncrementAchievementProgress(store: Store, id: string, increment: int, now: int): (o: Outcome)
    ensures id !in store ==> o.result == None && o.store == store
    ensures id in store ==> o == UpdateAchievementProgress(store, id, store[id].progress + increment, now)
  {
    if id !in store then Outcome(None, store)
    else UpdateAchievementProgress(store, id, store[id].progress + increment, now)
  }

  /**
   The unlock action: requests the largest safe progress, so a known
   achievement whose maximum is a safe integer ends unlocked at full progress.
   */
  function UnlockAchievement(store: Store, id: string, now: int): (o: Outcome)
    ensures id !in store ==> o.result == None && o.store == store
    ensures id in store && store[id].maxProgress <= MaxSafeInteger ==>
      && o.result.Some?
      && o.result.value.unlocked
      && o.result.value.progress == store[id].maxProgress
    ensures WellKeyed(store) && id in store ==>
      o.result.Some? && o.store == store[id := o.result.value]
  {
    UpdateAchievementProgress(store, id, MaxSafeInteger, now)
  }

  /** The unlocked achievements of the store. */
  function GetUnlockedAchievements(store: Store): (r: Store)
    ensures forall k :: k in r <==> k in store && store[k].unlocked
    ensures forall k :: k in r ==> r[k] == store[k]
  {
    map k | k in store && store[k].unlocked :: store[k]
  }

  /**
   An unlock that counts as recent at `now`: unlocked, with a stamp that is
   present and non-zero (JavaScript truthiness), less than a minute ago.
   */
  predicate RecentlyUnlocked(a: Achievement, now: int) {
    && a.unlocked
    && a.unlockedAt.Some?
    && a.unlockedAt.value != 0
    && now - a.unlockedAt.value < RecentWindowMs
  }

  /** The achievements announced as newly unlocked at `now`. */
  function RecentUnlocks(store: Store, now: int): (r: Store)
    ensures forall k :: k in r <==> k in store && RecentlyUnlocked(store[k], now)
    ensures forall k :: k in r ==> r[k] == store[k]
  {
    map k | k in store && RecentlyUnlocked(store[k], now) :: store[k]
  }

  /**
   The unlocked set only grows under an update, and gains the target exactly
   when the request reaches its maximum.
   */
  lemma UpdateGrowsUnlocked(store: Store, id: string, progress: int, now: int)
    requires WellKeyed(store)
    ensures var o := UpdateAchievementProgress(store, id, progress, now);
      && GetUnlockedAchievements(store).Keys <= GetUnlockedAchievements(o.store).Keys
      && (id in store ==>
            (id in GetUnlockedAchievements(o.store) <==> store[id].unlocked || progress >= store[id].maxProgress))
  {
    UpdateFrame(store, id, progress, now);
  }

  /** Every recent unlock is an unlock. */
  lemma RecentUnlocksAreUnlocked(store: Store, now: int)
    ensures RecentUnlocks(store, now).Keys <= GetUnlockedAchievements(store).Keys
  {
  }

  /**
   An achievement unlocked by an update at a non-zero time `now` is announced
   by every check within the following minute.
   */
  lemma FreshUnlockIsRecent(store: Store, id: string, progress: int, now: int, later: int)
    requires WellKeyed(store) && id in store && !store[id].unlocked
    requires progress >= store[id].maxProgress
    requires now != 0 && now <= later < now + RecentWindowMs
    ensures var o := UpdateAchievementProgress(store, id, progress, now);
      id in RecentUnlocks(o.store, later)
  {
  }

  /**
   Frame: an update touches only the target's entry; the set of ids is
   unchanged and the store stays well keyed.
   */
  lemma UpdateFrame(store: Store, id: string, progress: int, now: int)
    requires WellKeyed(store)
    ensures var o := UpdateAchievementProgress(store, id, progress, now);
      && WellKeyed(o.store)
      && o.store.Keys == store.Keys
      && (forall k :: k in store && k != id ==> o.store[k] == store[k])
      && (id in store ==> o.store[id] == o.result.value)
  {
  }

  /** Unlocking is permanent and its stamp is kept: no update re-locks or re-stamps. */
  lemma UpdateKeepsUnlocked(store: Store, id: string, progress: int, now: int, k: string)
    requires WellKeyed(store) && k in store && store[k].unlocked
    ensures var o := UpdateAchievementProgress(store, id, progress, now);
      && k in o.store && o.store[k].unlocked && o.store[k].unlockedAt == store[k].unlockedAt
  {
  }

  /** Repeating an update changes nothing further, whenever it is repeated. */
  lemma UpdateIdempotent(store: Store, id: string, progress: int, now: int, later: int)
    requires WellKeyed(store)
    ensures var o := UpdateAchievementProgress(store, id, progress, now);
      UpdateAchievementProgress(o.store, id, progress, later) == o
  {
    if id in store {
      var o := UpdateAchievementProgress(store, id, progress, now);
      var a := o.result.value;
      assert ApplyProgress(a, progress, later) == a;
      assert o.store[id := a] == o.store;
    }
  }

  /** A store action of the application, with the time it happens. */
  datatype Action =
    | SetProgress(target: string, value: int, at: int)
    | Increment(target: string, amount: int, at: int)
    | Unlock(target: string, at: int)

  /** The store after one action. A well-keyed store keeps its ids and stays well keyed. */
  function Perform(store: Store, act: Action): (s: Store)
    ensures WellKeyed(store) ==> WellKeyed(s) && s.Keys == store.Keys
  {
    match act
    case SetProgress(id, value, at) => UpdateAchievementProgress(store, id, value, at).store
    case Increment(id, amount, at) => IncrementAchievementProgress(store, id, amount, at).store
    case Unlock(id, at) => UnlockAchievement(store, id, at).store
  }

  /** One action keeps the store well keyed, its ids, the cap on progress and every unlock with its stamp. */
  lemma PerformStep(store: Store, act: Action)
    requires WellKeyed(store)
    ensures var s := Perform(store, act);
      && WellKeyed(s) && s.Keys == store.Keys
      && (forall k :: k in store && store[k].progress <= store[k].maxProgress ==>
            s[k].progress <= s[k].maxProgress)
      && (forall k :: k in store && store[k].unlocked ==>
            s[k].unlocked && s[k].unlockedAt == store[k].unlockedAt)
      && (forall k :: k in store && k != act.target ==> s[k] == store[k])
  {
    match act
    case SetProgress(id, value, at) => UpdateFrame(store, id, value, at);
    case Increment(id, amount, at) =>
      if id in store {
        UpdateFrame(store, id, store[id].progress + amount, at);
      }
    case Unlock(id, at) => UpdateFrame(store, id, MaxSafeInteger, at);
  }

  /** The store after a sequence of actions, applied in order. */
  function Run(store: Store, acts: seq<Action>): (s: Store)
    ensures WellKeyed(store) ==> WellKeyed(s) && s.Keys == store.Keys
    decreases |acts|
  {
    if |acts| == 0 then store else Perform(Run(store, acts[..|acts| - 1]), acts[|acts| - 1])
  }

  /**
   Over any sequence of actions: the ids stay the same, the store stays well
   keyed, and an unlocked achievement stays unlocked with its original stamp.
   */
  lemma {:induction false} RunKeepsUnlocks(store: Store, acts: seq<Action>)
    requires WellKeyed(store)
    ensures var s := Run(store, acts);
      && WellKeyed(s) && s.Keys == store.Keys
      && (forall k :: k in store && store[k].unlocked ==>
            s[k].unlocked && s[k].unlockedAt == store[k].unlockedAt)
    decreases |acts|
  {
    if |acts| > 0 {
      var prefix := acts[..|acts| - 1];
      RunKeepsUnlocks(store, prefix);
      PerformStep(Run(store, prefix), acts[|acts| - 1]);
    }
  }

  /**
   Unlocked exactly once: if an achievement ends unlocked but started locked,
   there is one action at which it turned from locked to unlocked, and its
   stamp is that action's time.
   */
  lemma {:induction false} StampedOnFirstUnlock(store: Store, acts: seq<Action>, k: string)
    requires WellKeyed(store) && k in store && !store[k].unlocked
    requires Run(store, acts)[k].unlocked
    ensures exists i :: (
      && 0 <= i < |acts|
      && !Run(store, acts[..i])[k].unlocked
      && Run(store, acts[..i + 1])[k].unlocked
      && Run(store, acts)[k].unlockedAt == Some(acts[i].at))
    decreases |acts|
  {
    var n := |acts|;
    var prefix := acts[..n - 1];
    var before := Run(store, prefix);
    assert acts[..n] == acts;
    assert Run(store, acts) == Perform(before, acts[n - 1]);
    if before[k].unlocked {
      StampedOnFirstUnlock(store, prefix, k);
      var i :|
        && 0 <= i < |prefix|
        && !Run(store, prefix[..i])[k].unlocked
        && Run(store, prefix[..i + 1])[k].unlocked
        && before[k].unlockedAt == Some(prefix[i].at);
      PrefixOfPrefix(acts, i);
      UnlockSurvivesStep(before, acts[n - 1], k);
    } else {
      StampOfUnlockingStep(before, acts[n - 1], k);
      assert acts[..n - 1] == prefix;
      assert !Run(store, acts[..n - 1])[k].unlocked;
    }
  }

  lemma PrefixOfPrefix<X>(xs: seq<X>, i: nat)
    requires i < |xs| - 1
    ensures xs[..|xs| - 1][..i] == xs[..i]
    ensures xs[..|xs| - 1][..i + 1] == xs[..i + 1]
    ensures xs[..|xs| - 1][i] == xs[i]
  {
  }

  /** An unlocked achievement keeps its unlock and its stamp through one action. */
  lemma UnlockSurvivesStep(store: Store, act: Action, k: string)
    requires WellKeyed(store) && k in store && store[k].unlocked
    ensures Perform(store, act)[k].unlocked
    ensures Perform(store, act)[k].unlockedAt == store[k].unlockedAt
  {
    PerformStep(store, act);
  }

  /** An action that unlocks an achievement stamps it with the action's time. */
  lemma StampOfUnlockingStep(store: Store, act: Action, k: string)
    requires WellKeyed(store) && k in store && !store[k].unlocked
    requires Perform(store, act)[k].unlocked
    ensures Perform(store, act)[k].unlockedAt == Some(act.at)
  {
    PerformStep(store, act);
  }

  /** Progress never exceeds the maximum over any run that starts within the caps. */
  lemma {:induction false} RunKeepsProgressCapped(store: Store, acts: seq<Action>)
    requires WellKeyed(store)
    requires forall k :: k in store ==> store[k].progress <= store[k].maxProgress
    ensures var s := Run(store, acts);
      forall k :: k in s ==> s[k].progress <= s[k].maxProgress
    decreases |acts|
  {
    if |acts| > 0 {
      var prefix := acts[..|acts| - 1];
      RunKeepsProgressCapped(store, prefix);
      RunKeepsUnlocks(store, prefix);
      PerformStep(Run(store, prefix), acts[|acts| - 1]);
    }
  }
}
