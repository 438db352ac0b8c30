/** When a lock of the throttle holds until it runs out. */
module ThrottleLocks {
  import opened Counting
  import opened Schedules
  import opened Throttle
  import opened ThrottleLimits
  import opened ThrottleRuns
  import opened Wrappers

  predicate HasLock(counters: Counters, k: Key, until: Instant) {
    k in counters && counters[k].lockedUntil == Some(until)
  }

  /** `k` is locked until `until`. */
  predicate LockedUntil(s: State, k: Key, until: Instant) {
    HasLock(s.counters, k, until) && s.now < until
  }

  /** The attempt is held to `k`, reserved there or not. */
  predicate Touches(r: Reserved, k: Key) {
    exists i :: 0 <= i < |r| && r[i].0 == k
  }

  lemma TouchedSomehow(r: Reserved, k: Key)
    ensures Touches(r, k) ==> (k, true) in r || (k, false) in r
  {
    if Touches(r, k) {
      var i :| 0 <= i < |r| && r[i].0 == k;
      if r[i].1 {
        assert r[i] == (k, true);
      } else {
        assert r[i] == (k, false);
      }
    }
  }

  lemma {:induction false} TouchesFront(r: Reserved, k: Key)
    requires r != []
    ensures Touches(r, k) <==> Touches(r[..|r| - 1], k) || r[|r| - 1].0 == k
  {
    var front := r[..|r| - 1];
    if Touches(front, k) {
      var i :| 0 <= i < |front| && front[i].0 == k;
      assert r[i].0 == k;
    }
    if Touches(r, k) {
      var i :| 0 <= i < |r| && r[i].0 == k;
      assert i < |front| ==> front[i].0 == k;
    }
  }

  // What a lock survives.

  lemma {:induction false} OpenedKeepsLock(
    p: Policy, counters: Counters, key: Key, now: Instant, k: Key, until: Instant)
    requires HasLock(counters, k, until) && now < until && Opened(p, counters, key, now).Some?
    ensures HasLock(Opened(p, counters, key, now).value, k, until)
  {
    if k != key {
      OpenedLeavesOthers(p, counters, key, now, k);
    }
  }

  lemma {:induction false} ReserveKeepsLock(
    p: Policy, counters: Counters, keys: seq<Key>, now: Instant, k: Key, until: Instant)
    requires HasLock(counters, k, until) && now < until
    ensures HasLock(ReserveAll(p, counters, keys, now).counters, k, until)
  {
    if keys != [] {
      var front, last := keys[..|keys| - 1], keys[|keys| - 1];
      ReserveKeepsLock(p, counters, front, now, k, until);
      var r := ReserveAll(p, counters, front, now);
      if !r.full && Opened(p, r.counters, last, now).Some? {
        OpenedKeepsLock(p, r.counters, last, now, k, until);
      }
    }
  }

  /** Settling keeps a lock, but that a success clears one of a name at an address. */
  lemma {:induction false} SettleOneKeepsLock(
    p: Policy, counters: Counters, log: seq<Entry>, begun: Instant, key: Key, reserved: bool, outcome: Outcome,
    now: Instant, k: Key, until: Instant)
    requires HasLock(counters, k, until) && now < until
    requires k.Address? || k != key || !outcome.Succeeded?
    ensures HasLock(SettleOne(p, counters, log, begun, key, reserved, outcome, now).0, k, until)
  {
    var given := Unreserved(counters, key, reserved);
    if outcome.Failed? && Opened(p, given, key, now).Some? {
      OpenedKeepsLock(p, given, key, now, k, until);
    }
  }

  lemma {:induction false} SettleAllKeepsLock(
    p: Policy, counters: Counters, log: seq<Entry>, begun: Instant, r: Reserved, outcome: Outcome, now: Instant,
    k: Key, until: Instant)
    requires HasLock(counters, k, until) && now < until
    requires k.Address? || !Touches(r, k) || !outcome.Succeeded?
    ensures HasLock(SettleAll(p, counters, log, begun, r, outcome, now).0, k, until)
  {
    if r != [] {
      var last := |r| - 1;
      TouchesFront(r, k);
      SettleAllKeepsLock(p, counters, log, begun, r[..last], outcome, now, k, until);
      var (before, logged) := SettleAll(p, counters, log, begun, r[..last], outcome, now);
      SettleOneKeepsLock(p, before, logged, begun, r[last].0, r[last].1, outcome, now, k, until);
    }
  }

  lemma {:induction false} SuccessClears(
    p: Policy, counters: Counters, log: seq<Entry>, begun: Instant, r: Reserved, now: Instant, k: Key)
    requires k.Pair? && Touches(r, k)
    ensures
      var after := SettleAll(p, counters, log, begun, r, Succeeded, now).0;
      k in after ==> after[k].lockedUntil.None?
  {
    TouchesFront(r, k);
    if r[|r| - 1].0 != k {
      SuccessClears(p, counters, log, begun, r[..|r| - 1], now, k);
    }
  }

  // Runs on from a lock.

  /** An address keeps its lock; a name at an address keeps it while nobody held to it is in flight. */
  predicate LockIsFirm(s: State, k: Key) {
    k.Address? || forall id :: id in s.attempts ==> !Touches(s.attempts[id].keys, k)
  }

  /** Whoever is in flight on `k` in `t` was in `s`. */
  predicate NobodyNew(s: State, t: State, k: Key) {
    forall id :: id in t.attempts && Touches(t.attempts[id].keys, k) ==>
      id in s.attempts && s.attempts[id] == t.attempts[id]
  }

  lemma {:induction false} BeginKeepsLock(p: Policy, s: State, id: nat, keys: seq<Key>, k: Key, until: Instant)
    requires LockedUntil(s, k, until)
    ensures
      var t := BeginStep(p, s, id, keys);
      LockedUntil(t, k, until) && NobodyNew(s, t, k)
  {
    if !(id in s.attempts || Refuses(p, s, keys)) {
      assert k !in keys;
      var r := ReserveAll(p, s.counters, keys, s.now);
      ReserveKeepsLock(p, s.counters, keys, s.now, k, until);
      ReservedAreAsked(p, s.counters, keys, s.now);
      if r.full {
        SettleAllKeepsLock(p, r.counters, s.log, s.now, r.reserved, Refunded, s.now, k, until);
      }
    }
  }

  lemma {:induction false} SettleKeepsLock(p: Policy, s: State, id: nat, outcome: Outcome, k: Key, until: Instant)
    requires LockedUntil(s, k, until) && LockIsFirm(s, k)
    ensures
      var t := SettleStep(p, s, id, outcome);
      LockedUntil(t, k, until) && LockIsFirm(t, k) && NobodyNew(s, t, k)
  {
    if id in s.attempts {
      var a := s.attempts[id];
      SettleAllKeepsLock(p, s.counters, s.log, a.begun, a.keys, outcome, s.now, k, until);
    }
  }

  lemma {:induction false} LockStep(p: Policy, s: State, a: Action, k: Key, until: Instant)
    requires LockedUntil(s, k, until) && LockIsFirm(s, k) && Step(p, s, a).now < until
    ensures
      var t := Step(p, s, a);
      LockedUntil(t, k, until) && LockIsFirm(t, k) && NobodyNew(s, t, k)
  {
    match a
    case Tick(_) =>
    case Begin(id, name, address) => BeginKeepsLock(p, s, id, KeysOf(p, name, address), k, until);
    case Settle(id, outcome) => SettleKeepsLock(p, s, id, outcome, k, until);
    case Drop(id) => SettleKeepsLock(p, s, id, p.onDrop, k, until);
  }

  lemma {:induction false} ClockNeverGoesBack(p: Policy, s: State, a: Action)
    ensures s.now <= Step(p, s, a).now
  {
  }

  /** In every run on from a firm lock, until it runs out, the lock is as it was and no attempt held
      to the key is let through. */
  lemma {:induction false} LocksHold(p: Policy, s: State, after: seq<Action>, k: Key, until: Instant)
    requires LockedUntil(s, k, until) && LockIsFirm(s, k) && Run(Next(p), s, after).now < until
    ensures
      var t := Run(Next(p), s, after);
      LockedUntil(t, k, until) && LockIsFirm(t, k) && NobodyNew(s, t, k)
  {
    if after != [] {
      var front, last := after[..|after| - 1], after[|after| - 1];
      ClockNeverGoesBack(p, Run(Next(p), s, front), last);
      LocksHold(p, s, front, k, until);
      LockStep(p, Run(Next(p), s, front), last, k, until);
    }
  }

  /** A lock holds in every run on until it runs out if and only if it is firm: a success of an
      attempt in flight on a name at an address clears its lock at once. */
  lemma {:induction false} LocksHoldIff(p: Policy, s: State, k: Key, until: Instant)
    requires LockedUntil(s, k, until)
    ensures LockIsFirm(s, k) <==>
            forall after :: Run(Next(p), s, after).now < until ==> LockedUntil(Run(Next(p), s, after), k, until)
  {
    if LockIsFirm(s, k) {
      forall after | Run(Next(p), s, after).now < until ensures LockedUntil(Run(Next(p), s, after), k, until) {
        LocksHold(p, s, after, k, until);
      }
    } else {
      var id :| id in s.attempts && Touches(s.attempts[id].keys, k);
      SuccessClears(p, s.counters, s.log, s.attempts[id].begun, s.attempts[id].keys, s.now, k);
      RunOne(Next(p), s, [], Settle(id, Succeeded));
      assert !LockedUntil(Run(Next(p), s, [] + [Settle(id, Succeeded)]), k, until);
    }
  }

  /** Every lock of a key on which nothing went uncounted is firm, with nobody in flight at all. */
  lemma {:induction false} CountedLocksAreFirm(p: Policy, schedule: seq<Action>, k: Key, until: Instant)
    requires Sensible(p) && AllCounted(p, schedule, k) && LockedUntil(Run(Next(p), INIT, schedule), k, until)
    ensures
      var s := Run(Next(p), INIT, schedule);
      LockIsFirm(s, k) && forall id :: id in s.attempts ==> !Touches(s.attempts[id].keys, k)
  {
    var s := Run(Next(p), INIT, schedule);
    LockedExactlyAtTheLimit(p, schedule, k);
    CountedBurstsAreBounded(p, schedule, k);
    CountedIsOnTime(p, schedule, k);
    forall id | id in s.attempts ensures !Touches(s.attempts[id].keys, k) {
      var a := s.attempts[id];
      if Holds(k)(a) {
        CountSome(s.attempts, Holds(k), id);
      }
      TouchedSomehow(a.keys, k);
    }
  }
}
