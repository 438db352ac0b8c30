/**
  What every run of the throttle keeps, whatever is sent and however full the counters are, and
  how few failures that lets through.
*/
module ThrottleLimits {
  import opened Counting
  import opened Schedules
  import opened Sorting
  import opened Throttle
  import opened Wrappers

  // The failures of one key.

  function OfKey(k: Key): Entry -> bool {
    (e: Entry) => e.key == k
  }

  function Entries(log: seq<Entry>, k: Key): seq<Entry> {
    Filter(log, OfKey(k))
  }

  function OfWindow(since: Instant): Entry -> bool {
    (e: Entry) => e.since == since
  }

  /** Of that window, from attempts that held a reservation. */
  function InTime(since: Instant): Entry -> bool {
    (e: Entry) => e.since == since && e.reserved
  }

  /** Of that window, from attempts let through uncounted because the counters were full. */
  function Late(since: Instant): Entry -> bool {
    (e: Entry) => e.since == since && !e.reserved
  }

  /** `e` is of a window that ended before one that begins at `since`. */
  predicate Before(e: Entry, since: Instant, rule: Rule) {
    e.since + rule.window <= since && e.at <= since
  }

  /** A window that reached the limit was locked from then on, and is followed only after the lock. */
  ghost predicate Released(es: seq<Entry>, window: Instant, until: Instant, rule: Rule) {
    |Filter(es, OfWindow(window))| >= rule.limit ==> LockEndsBy(es, window, until, rule)
  }

  ghost predicate LockEndsBy(es: seq<Entry>, window: Instant, until: Instant, rule: Rule) {
    exists f :: f in es && f.since == window && f.at + rule.lock <= until
  }

  /** A failure of the window set the lock that lasts until `until`. */
  ghost predicate LockSetBy(es: seq<Entry>, window: Instant, until: Instant, rule: Rule) {
    exists f :: f in es && f.since == window && f.at + rule.lock == until
  }

  ghost predicate Past(es: seq<Entry>, e: Entry, since: Instant, rule: Rule) {
    Before(e, since, rule) && Released(es, e.since, since, rule)
  }

  /** Any two failures are of one window or of windows that do not meet. */
  ghost predicate Apart(es: seq<Entry>, rule: Rule) {
    forall e, g :: e in es && g in es ==>
      e.since == g.since || Past(es, e, g.since, rule) || Past(es, g, e.since, rule)
  }

  /** No window holds more failures in time than the limit. */
  ghost predicate Small(es: seq<Entry>, rule: Rule) {
    forall since :: |Filter(es, InTime(since))| <= rule.limit
  }

  ghost predicate LogOk(es: seq<Entry>, rule: Rule) {
    (forall e :: e in es ==> e.since <= e.at) && Apart(es, rule) && Small(es, rule)
  }

  // How a key's counter, the reservations on it and its failures agree.

  ghost predicate CounterOk(c: Counter, pending: nat, es: seq<Entry>, rule: Rule, now: Instant) {
    && c.pending == pending <= rule.limit
    && c.failures + c.pending <= rule.limit + |Filter(es, Late(c.since))|
    && c.since <= now
    && (c.lockedUntil.Some? <==> c.failures >= rule.limit)
  }

  /** The failures counted are those of the counter's own window, and the rest are past. */
  ghost predicate WindowOk(c: Counter, es: seq<Entry>, rule: Rule, now: Instant) {
    && c.failures == |Filter(es, OfWindow(c.since))|
    && (forall e :: e in es ==> (e.since == c.since && e.at <= now) || Past(es, e, c.since, rule))
    && (c.lockedUntil.Some? ==> LockSetBy(es, c.since, c.lockedUntil.value, rule))
  }

  ghost predicate KeyOk(k: Key, c: Option<Counter>, pending: nat, es: seq<Entry>, rule: Rule, now: Instant) {
    && (c.None? ==> pending == 0)
    && (c.Some? ==> CounterOk(c.value, pending, es, rule, now))
    && (k.Address? ==>
          && LogOk(es, rule)
          && (c.None? ==> forall e :: e in es ==> Past(es, e, now, rule))
          && (c.Some? ==> WindowOk(c.value, es, rule, now)))
  }

  function Restarted(c: Counter, rule: Rule, now: Instant): Counter {
    if Lapsed(c, rule, now) then Counter(0, c.pending, now, None) else c
  }

  lemma {:induction false} NoneOfWindow(es: seq<Entry>, since: Instant)
    requires forall e :: e in es ==> e.since != since
    ensures Filter(es, OfWindow(since)) == []
  {
    if es != [] {
      assert es[0] in es;
      assert forall e :: e in es[1..] ==> e in es;
      NoneOfWindow(es[1..], since);
    }
  }

  /** A window's failures are those in time and those that were late. */
  lemma {:induction false} WindowSplits(es: seq<Entry>, since: Instant)
    ensures |Filter(es, OfWindow(since))| == |Filter(es, InTime(since))| + |Filter(es, Late(since))|
  {
    if es != [] {
      WindowSplits(es[1..], since);
    }
  }

  lemma PastLater(es: seq<Entry>, e: Entry, since: Instant, later: Instant, rule: Rule)
    requires Past(es, e, since, rule) && since <= later
    ensures Past(es, e, later, rule)
  {
    if LockEndsBy(es, e.since, since, rule) {
      var f :| f in es && f.since == e.since && f.at + rule.lock <= since;
      assert f.at + rule.lock <= later;
    }
  }

  lemma {:induction false} FreshIsOk(k: Key, pending: nat, es: seq<Entry>, rule: Rule, now: Instant)
    requires rule.window > 0 && rule.limit > 0 && KeyOk(k, None, pending, es, rule, now)
    ensures KeyOk(k, Some(Fresh(now)), pending, es, rule, now)
  {
    if k.Address? {
      forall e | e in es ensures e.since != now {
        assert Past(es, e, now, rule);
      }
      NoneOfWindow(es, now);
    }
  }

  /** Once a counter has lapsed, every failure of its key is past. */
  lemma {:induction false} LapsedIsPast(c: Counter, pending: nat, es: seq<Entry>, rule: Rule, now: Instant)
    requires CounterOk(c, pending, es, rule, now) && WindowOk(c, es, rule, now) && Lapsed(c, rule, now)
    ensures forall e :: e in es ==> Past(es, e, now, rule)
  {
    forall e | e in es ensures Past(es, e, now, rule) {
      if e.since == c.since {
        if c.failures >= rule.limit {
          var f :| f in es && f.since == c.since && f.at + rule.lock == c.lockedUntil.value;
          assert f.at + rule.lock <= now;
        }
      } else {
        PastLater(es, e, c.since, now, rule);
      }
    }
  }

  lemma {:induction false} RestartIsOk(k: Key, c: Counter, pending: nat, es: seq<Entry>, rule: Rule, now: Instant)
    requires rule.window > 0 && rule.limit > 0 && KeyOk(k, Some(c), pending, es, rule, now)
    ensures KeyOk(k, Some(Restarted(c, rule, now)), pending, es, rule, now)
  {
    if k.Address? && Lapsed(c, rule, now) {
      LapsedIsPast(c, pending, es, rule, now);
      forall e | e in es ensures e.since != now {
        assert Past(es, e, now, rule);
      }
      NoneOfWindow(es, now);
    }
  }

  /** What goes because it expired or holds nothing takes no failure that still counts with it. */
  lemma {:induction false} GoneIsOk(k: Key, c: Counter, pending: nat, es: seq<Entry>, rule: Rule, now: Instant)
    requires KeyOk(k, Some(c), pending, es, rule, now)
    requires Expired(c, rule, now) || (c.pending == 0 && c.failures == 0)
    ensures KeyOk(k, None, pending, es, rule, now)
  {
    if k.Address? {
      if Expired(c, rule, now) {
        LapsedIsPast(c, pending, es, rule, now);
      } else {
        forall e | e in es ensures Past(es, e, now, rule) {
          FilterHolds(es, OfWindow(c.since), e);
          PastLater(es, e, c.since, now, rule);
        }
      }
    }
  }

  lemma {:induction false} LaterIsOk(
    k: Key, c: Option<Counter>, pending: nat, es: seq<Entry>, rule: Rule, now: Instant, later: Instant)
    requires KeyOk(k, c, pending, es, rule, now) && now <= later
    ensures KeyOk(k, c, pending, es, rule, later)
  {
    if k.Address? && c.None? {
      forall e | e in es ensures Past(es, e, later, rule) {
        PastLater(es, e, now, later, rule);
      }
    }
  }

  // One failure more.

  lemma {:induction false} OneMoreOfWindow(es: seq<Entry>, e: Entry, since: Instant)
    ensures |Filter(es + [e], OfWindow(since))| == |Filter(es, OfWindow(since))| + if e.since == since then 1 else 0
    ensures |Filter(es + [e], InTime(since))| ==
            |Filter(es, InTime(since))| + if e.since == since && e.reserved then 1 else 0
    ensures |Filter(es + [e], Late(since))| ==
            |Filter(es, Late(since))| + if e.since == since && !e.reserved then 1 else 0
  {
    FilterJoined(es, [e], OfWindow(since));
    FilterJoined(es, [e], InTime(since));
    FilterJoined(es, [e], Late(since));
  }

  /** A failure added to another window changes nothing about one that is past. */
  lemma {:induction false} StillPast(es: seq<Entry>, more: Entry, e: Entry, since: Instant, rule: Rule)
    requires Past(es, e, since, rule) && more.since != e.since
    ensures Past(es + [more], e, since, rule)
  {
    OneMoreOfWindow(es, more, e.since);
    if LockEndsBy(es, e.since, since, rule) {
      var f :| f in es && f.since == e.since && f.at + rule.lock <= since;
      assert f in es + [more];
    }
  }

  lemma {:induction false} StillApart(es: seq<Entry>, more: Entry, rule: Rule)
    requires rule.window > 0 && Apart(es, rule)
    requires forall e :: e in es ==> e.since == more.since || Past(es, e, more.since, rule)
    ensures Apart(es + [more], rule)
  {
    var longer := es + [more];
    forall e, g | e in longer && g in longer
      ensures e.since == g.since || Past(longer, e, g.since, rule) || Past(longer, g, e.since, rule)
    {
      if e.since != g.since {
        if e.since == more.since {
          StillPast(es, more, g, more.since, rule);
        } else if g.since == more.since {
          StillPast(es, more, e, more.since, rule);
        } else if Past(es, e, g.since, rule) {
          StillPast(es, more, e, g.since, rule);
        } else {
          StillPast(es, more, g, e.since, rule);
        }
      }
    }
  }

  lemma {:induction false} StillSmall(es: seq<Entry>, more: Entry, rule: Rule)
    requires Small(es, rule)
    requires more.reserved ==> |Filter(es, InTime(more.since))| < rule.limit
    ensures Small(es + [more], rule)
  {
    forall since ensures |Filter(es + [more], InTime(since))| <= rule.limit {
      OneMoreOfWindow(es, more, since);
      assert |Filter(es, InTime(since))| <= rule.limit;
    }
  }

  /** A failure is counted: one that held a reservation has just given it back, one that was late
      had none. */
  lemma {:induction false} FailureIsOk(
    k: Key, c: Counter, pending: nat, es: seq<Entry>, rule: Rule, begun: Instant, now: Instant, reserved: bool)
    requires rule.window > 0 && KeyOk(k, Some(c), pending, es, rule, now)
    requires reserved ==> c.failures + c.pending < rule.limit + |Filter(es, Late(c.since))|
    ensures KeyOk(k, Some(Failure(c, rule, now)), pending, es + [Entry(k, begun, now, c.since, reserved)], rule, now)
  {
    var e := Entry(k, begun, now, c.since, reserved);
    OneMoreOfWindow(es, e, c.since);
    if k.Address? {
      WindowSplits(es, c.since);
      StillApart(es, e, rule);
      StillSmall(es, e, rule);
      FailedWindowIsOk(c, es, e, rule, now);
    }
  }

  lemma {:induction false} FailedWindowIsOk(c: Counter, es: seq<Entry>, e: Entry, rule: Rule, now: Instant)
    requires rule.window > 0 && WindowOk(c, es, rule, now) && e.since == c.since && e.at == now
    requires c.lockedUntil.Some? <==> c.failures >= rule.limit
    ensures WindowOk(Failure(c, rule, now), es + [e], rule, now)
  {
    var d, longer := Failure(c, rule, now), es + [e];
    OneMoreOfWindow(es, e, c.since);
    forall x | x in longer ensures (x.since == c.since && x.at <= now) || Past(longer, x, c.since, rule) {
      if x.since != c.since {
        StillPast(es, e, x, c.since, rule);
      }
    }
    if d.lockedUntil.Some? {
      if d.lockedUntil == c.lockedUntil {
        var f :| f in es && f.since == c.since && f.at + rule.lock == c.lockedUntil.value;
        assert f in longer;
      } else {
        assert e in longer && e.at + rule.lock == d.lockedUntil.value;
      }
    }
  }

  // All keys together, with the reservations on each given by `pending`.

  function At(counters: Counters, k: Key): Option<Counter> {
    if k in counters then Some(counters[k]) else None
  }

  ghost predicate TableOk(p: Policy, counters: Counters, pending: Key -> nat, log: seq<Entry>, now: Instant) {
    forall k :: KeyOk(k, At(counters, k), pending(k), Entries(log, k), RuleOf(p, k), now)
  }

  /** One reservation more on `key`, if there is one. */
  function Plus(pending: Key -> nat, key: Key, reserved: bool): Key -> nat {
    k => pending(k) + if k == key && reserved then 1 else 0
  }

  predicate Roomy(p: Policy, counters: Counters, key: Key, now: Instant) {
    key in counters ==> !MustWait(counters[key], RuleOf(p, key), now)
  }

  /** Other counters are as they were, or gone because they expired. */
  lemma {:induction false} OpenedLeavesOthers(p: Policy, counters: Counters, key: Key, now: Instant, k: Key)
    requires Opened(p, counters, key, now).Some? && k != key
    ensures
      var ready := Opened(p, counters, key, now).value;
      || At(ready, k) == At(counters, k)
      || (At(ready, k).None? && k in counters && Expired(counters[k], RuleOf(p, k), now))
  {
  }

  lemma {:induction false} OpenedIsFreshOrRestarted(p: Policy, counters: Counters, key: Key, now: Instant)
    requires Sensible(p) && Opened(p, counters, key, now).Some?
    ensures At(Opened(p, counters, key, now).value, key) ==
            Some(if key in counters then Restarted(counters[key], RuleOf(p, key), now) else Fresh(now))
  {
    assert RuleOf(p, key).window > 0;
  }

  lemma {:induction false} OpenedKeeps(
    p: Policy, counters: Counters, pending: Key -> nat, log: seq<Entry>, key: Key, now: Instant)
    requires Sensible(p) && TableOk(p, counters, pending, log, now) && Opened(p, counters, key, now).Some?
    ensures TableOk(p, Opened(p, counters, key, now).value, pending, log, now)
  {
    var ready := Opened(p, counters, key, now).value;
    forall k ensures KeyOk(k, At(ready, k), pending(k), Entries(log, k), RuleOf(p, k), now) {
      assert KeyOk(k, At(counters, k), pending(k), Entries(log, k), RuleOf(p, k), now);
      assert RuleOf(p, k).window > 0 && RuleOf(p, k).limit > 0;
      if k == key {
        OpenedIsFreshOrRestarted(p, counters, key, now);
        if key in counters {
          RestartIsOk(k, counters[k], pending(k), Entries(log, k), RuleOf(p, k), now);
        } else {
          FreshIsOk(k, pending(k), Entries(log, k), RuleOf(p, k), now);
        }
      } else {
        OpenedLeavesOthers(p, counters, key, now, k);
        if At(ready, k) != At(counters, k) {
          GoneIsOk(k, counters[k], pending(k), Entries(log, k), RuleOf(p, k), now);
        }
      }
    }
  }

  /** Changing one counter leaves the others as they were. */
  lemma {:induction false} OtherKeysKeep(
    p: Policy, counters: Counters, pending: Key -> nat, log: seq<Entry>, now: Instant,
    key: Key, after: Counters, less: Key -> nat, longer: seq<Entry>)
    requires TableOk(p, counters, pending, log, now)
    requires forall k :: k != key ==>
               At(after, k) == At(counters, k) && less(k) == pending(k) && Entries(longer, k) == Entries(log, k)
    requires KeyOk(key, At(after, key), less(key), Entries(longer, key), RuleOf(p, key), now)
    ensures TableOk(p, after, less, longer, now)
  {
    forall k ensures KeyOk(k, At(after, k), less(k), Entries(longer, k), RuleOf(p, k), now) {
      assert KeyOk(k, At(counters, k), pending(k), Entries(log, k), RuleOf(p, k), now);
    }
  }

  lemma {:induction false} ReserveKeeps(
    p: Policy, counters: Counters, pending: Key -> nat, log: seq<Entry>, key: Key, now: Instant)
    requires Sensible(p) && TableOk(p, counters, pending, log, now) && Roomy(p, counters, key, now)
    requires Opened(p, counters, key, now).Some?
    ensures
      var ready := Opened(p, counters, key, now).value;
      && key in ready
      && TableOk(p, ready[key := ready[key].(pending := ready[key].pending + 1)], Plus(pending, key, true), log, now)
  {
    var ready := Opened(p, counters, key, now).value;
    OpenedKeeps(p, counters, pending, log, key, now);
    OpenedIsFreshOrRestarted(p, counters, key, now);
    assert KeyOk(key, At(ready, key), pending(key), Entries(log, key), RuleOf(p, key), now);
    var after := ready[key := ready[key].(pending := ready[key].pending + 1)];
    assert RuleOf(p, key).limit > 0;
    assert KeyOk(key, At(after, key), Plus(pending, key, true)(key), Entries(log, key), RuleOf(p, key), now);
    OtherKeysKeep(p, ready, pending, log, now, key, after, Plus(pending, key, true), log);
  }

  // Settling one key.

  lemma {:induction false} EntriesOneMore(log: seq<Entry>, e: Entry, k: Key)
    ensures Entries(log + [e], k) == if e.key == k then Entries(log, k) + [e] else Entries(log, k)
  {
    FilterJoined(log, [e], OfKey(k));
    assert Filter([e], OfKey(k)) == if e.key == k then [e] else [];
  }

  lemma {:induction false} TidiedKeeps(
    p: Policy, counters: Counters, pending: Key -> nat, log: seq<Entry>, key: Key, now: Instant)
    requires TableOk(p, counters, pending, log, now)
    ensures TableOk(p, Tidied(counters, key), pending, log, now)
  {
    var after := Tidied(counters, key);
    assert KeyOk(key, At(counters, key), pending(key), Entries(log, key), RuleOf(p, key), now);
    if after != counters {
      GoneIsOk(key, counters[key], pending(key), Entries(log, key), RuleOf(p, key), now);
      OtherKeysKeep(p, counters, pending, log, now, key, after, pending, log);
    }
  }

  /** Room for one failure more in the window of `key`'s counter, beside those that were late. */
  ghost predicate FailureFits(p: Policy, counters: Counters, log: seq<Entry>, key: Key) {
    && key in counters
    && counters[key].failures + counters[key].pending <
       RuleOf(p, key).limit + |Filter(Entries(log, key), Late(counters[key].since))|
  }

  lemma {:induction false} UnreservedKeeps(
    p: Policy, counters: Counters, pending: Key -> nat, log: seq<Entry>, key: Key, reserved: bool, now: Instant)
    requires TableOk(p, counters, Plus(pending, key, reserved), log, now)
    ensures TableOk(p, Unreserved(counters, key, reserved), pending, log, now)
    ensures reserved ==>
              && FailureFits(p, Unreserved(counters, key, reserved), log, key)
              && Unreserved(counters, key, reserved)[key].pending < RuleOf(p, key).limit
  {
    var after := Unreserved(counters, key, reserved);
    assert KeyOk(key, At(counters, key), Plus(pending, key, reserved)(key), Entries(log, key), RuleOf(p, key), now);
    assert KeyOk(key, At(after, key), pending(key), Entries(log, key), RuleOf(p, key), now);
    OtherKeysKeep(p, counters, Plus(pending, key, reserved), log, now, key, after, pending, log);
  }

  /** Restarting a counter leaves as much room as there was, or the whole limit. */
  lemma {:induction false} FailureStillFits(
    p: Policy, given: Counters, log: seq<Entry>, key: Key, now: Instant)
    requires Sensible(p) && FailureFits(p, given, log, key) && given[key].pending < RuleOf(p, key).limit
    ensures Opened(p, given, key, now).Some? && FailureFits(p, Opened(p, given, key, now).value, log, key)
  {
    OpenedIsFreshOrRestarted(p, given, key, now);
  }

  lemma {:induction false} FailedKeeps(
    p: Policy, given: Counters, pending: Key -> nat, log: seq<Entry>, begun: Instant, key: Key, reserved: bool,
    now: Instant)
    requires Sensible(p) && TableOk(p, given, pending, log, now) && Opened(p, given, key, now).Some?
    requires reserved ==> FailureFits(p, Opened(p, given, key, now).value, log, key)
    ensures
      var ready := Opened(p, given, key, now).value;
      && key in ready
      && TableOk(p, ready[key := Failure(ready[key], RuleOf(p, key), now)], pending,
                 log + [Entry(key, begun, now, ready[key].since, reserved)], now)
  {
    var ready := Opened(p, given, key, now).value;
    OpenedKeeps(p, given, pending, log, key, now);
    OpenedIsFreshOrRestarted(p, given, key, now);
    var c := ready[key];
    var e := Entry(key, begun, now, c.since, reserved);
    assert KeyOk(key, At(ready, key), pending(key), Entries(log, key), RuleOf(p, key), now);
    assert RuleOf(p, key).window > 0;
    FailureIsOk(key, c, pending(key), Entries(log, key), RuleOf(p, key), begun, now, reserved);
    var after := ready[key := Failure(c, RuleOf(p, key), now)];
    forall k ensures Entries(log + [e], k) == if k == key then Entries(log, k) + [e] else Entries(log, k) {
      EntriesOneMore(log, e, k);
    }
    OtherKeysKeep(p, ready, pending, log, now, key, after, pending, log + [e]);
  }

  lemma {:induction false} ClearedKeeps(
    p: Policy, given: Counters, pending: Key -> nat, log: seq<Entry>, key: Key, now: Instant)
    requires Sensible(p) && TableOk(p, given, pending, log, now)
    ensures TableOk(p, Cleared(given, key), pending, log, now)
  {
    var after := Cleared(given, key);
    assert RuleOf(p, key).limit > 0;
    assert KeyOk(key, At(given, key), pending(key), Entries(log, key), RuleOf(p, key), now);
    assert KeyOk(key, At(after, key), pending(key), Entries(log, key), RuleOf(p, key), now);
    OtherKeysKeep(p, given, pending, log, now, key, after, pending, log);
  }

  lemma {:induction false} SettleOneKeeps(
    p: Policy, counters: Counters, pending: Key -> nat, log: seq<Entry>, begun: Instant, key: Key, reserved: bool,
    outcome: Outcome, now: Instant)
    requires Sensible(p) && TableOk(p, counters, Plus(pending, key, reserved), log, now)
    ensures
      var (after, longer) := SettleOne(p, counters, log, begun, key, reserved, outcome, now);
      TableOk(p, after, pending, longer, now)
  {
    var given := Unreserved(counters, key, reserved);
    UnreservedKeeps(p, counters, pending, log, key, reserved, now);
    match outcome
    case Failed =>
      if reserved {
        FailureStillFits(p, given, log, key, now);
      }
      if Opened(p, given, key, now).Some? {
        var ready := Opened(p, given, key, now).value;
        FailedKeeps(p, given, pending, log, begun, key, reserved, now);
        TidiedKeeps(
          p, ready[key := Failure(ready[key], RuleOf(p, key), now)], pending,
          log + [Entry(key, begun, now, ready[key].since, reserved)], key, now);
      } else {
        TidiedKeeps(p, given, pending, log, key, now);
      }
    case Succeeded =>
      ClearedKeeps(p, given, pending, log, key, now);
      TidiedKeeps(p, Cleared(given, key), pending, log, key, now);
    case Refunded => TidiedKeeps(p, given, pending, log, key, now);
  }

  // A whole attempt.

  predicate DistinctKeys(r: Reserved) {
    forall i, j :: 0 <= i < j < |r| ==> r[i].0 != r[j].0
  }

  function WithAll(pending: Key -> nat, r: Reserved): Key -> nat {
    k => pending(k) + if (k, true) in r then 1 else 0
  }

  lemma {:induction false} TableOkAlike(
    p: Policy, counters: Counters, pending: Key -> nat, same: Key -> nat, log: seq<Entry>, now: Instant)
    requires TableOk(p, counters, pending, log, now) && forall k :: pending(k) == same(k)
    ensures TableOk(p, counters, same, log, now)
  {
    forall k ensures KeyOk(k, At(counters, k), same(k), Entries(log, k), RuleOf(p, k), now) {
      assert KeyOk(k, At(counters, k), pending(k), Entries(log, k), RuleOf(p, k), now);
    }
  }

  /** Taking the last key of a reservation first or last makes no difference to the count. */
  lemma {:induction false} WithLast(pending: Key -> nat, front: Reserved, key: Key, reserved: bool)
    requires DistinctKeys(front + [(key, reserved)])
    ensures DistinctKeys(front)
    ensures forall k ::
              WithAll(Plus(pending, key, reserved), front)(k) == WithAll(pending, front + [(key, reserved)])(k)
    ensures forall k ::
              Plus(WithAll(pending, front), key, reserved)(k) == WithAll(pending, front + [(key, reserved)])(k)
  {
    var r := front + [(key, reserved)];
    forall i | 0 <= i < |front| ensures front[i].0 != key {
      assert r[i].0 != r[|front|].0;
    }
    forall i, j | 0 <= i < j < |front| ensures front[i].0 != front[j].0 {
      assert r[i].0 != r[j].0;
    }
  }

  lemma {:induction false} SettleAllKeeps(
    p: Policy, counters: Counters, pending: Key -> nat, log: seq<Entry>, begun: Instant, r: Reserved, outcome: Outcome,
    now: Instant)
    requires Sensible(p) && DistinctKeys(r) && TableOk(p, counters, WithAll(pending, r), log, now)
    ensures
      var (after, longer) := SettleAll(p, counters, log, begun, r, outcome, now);
      TableOk(p, after, pending, longer, now)
  {
    if r == [] {
      TableOkAlike(p, counters, WithAll(pending, r), pending, log, now);
    } else {
      var front := r[..|r| - 1];
      var (key, reserved) := r[|r| - 1];
      assert r == front + [(key, reserved)];
      WithLast(pending, front, key, reserved);
      var more := Plus(pending, key, reserved);
      TableOkAlike(p, counters, WithAll(pending, r), WithAll(more, front), log, now);
      SettleAllKeeps(p, counters, more, log, begun, front, outcome, now);
      var (before, logged) := SettleAll(p, counters, log, begun, front, outcome, now);
      SettleOneKeeps(p, before, pending, logged, begun, key, reserved, outcome, now);
    }
  }

  /** What is reserved is a prefix of the keys asked for, all of them when nothing was full. */
  ghost predicate Asked(p: Policy, r: Reservation, keys: seq<Key>) {
    && |r.reserved| <= |keys|
    && (forall i :: 0 <= i < |r.reserved| ==> r.reserved[i].0 == keys[i])
    && (!r.full ==> |r.reserved| == |keys|)
    && (p.failClosed ==> forall i :: 0 <= i < |r.reserved| ==> r.reserved[i].1)
  }

  lemma {:induction false} AskedOneMore(p: Policy, r: Reservation, keys: seq<Key>, key: Key, now: Instant)
    requires Asked(p, r, keys)
    ensures Asked(p, ReserveOne(p, r, key, now), keys + [key])
  {
  }

  lemma {:induction false} ReservedAreAsked(p: Policy, counters: Counters, keys: seq<Key>, now: Instant)
    ensures Asked(p, ReserveAll(p, counters, keys, now), keys)
  {
    if keys != [] {
      var front, last := keys[..|keys| - 1], keys[|keys| - 1];
      ReservedAreAsked(p, counters, front, now);
      AskedOneMore(p, ReserveAll(p, counters, front, now), front, last, now);
      assert keys == front + [last];
    }
  }

  lemma {:induction false} StillRoomy(p: Policy, counters: Counters, keys: seq<Key>, now: Instant, k: Key)
    requires Roomy(p, counters, k, now) && k !in keys
    ensures Roomy(p, ReserveAll(p, counters, keys, now).counters, k, now)
  {
    if keys != [] {
      var last := |keys| - 1;
      StillRoomy(p, counters, keys[..last], now, k);
      var r := ReserveAll(p, counters, keys[..last], now);
      assert keys[last] in keys;
      if !r.full && Opened(p, r.counters, keys[last], now).Some? {
        OpenedLeavesOthers(p, r.counters, keys[last], now, k);
      }
    }
  }

  lemma {:induction false} ReservedKeyKeeps(
    p: Policy, counters: Counters, pending: Key -> nat, log: seq<Entry>, front: Reserved, key: Key, now: Instant)
    requires Sensible(p) && TableOk(p, counters, WithAll(pending, front), log, now) && Roomy(p, counters, key, now)
    requires Opened(p, counters, key, now).Some? && DistinctKeys(front + [(key, true)])
    ensures
      var ready := Opened(p, counters, key, now).value;
      && key in ready
      && TableOk(p, ready[key := ready[key].(pending := ready[key].pending + 1)],
                 WithAll(pending, front + [(key, true)]), log, now)
  {
    WithLast(pending, front, key, true);
    ReserveKeeps(p, counters, WithAll(pending, front), log, key, now);
    var ready := Opened(p, counters, key, now).value;
    TableOkAlike(
      p, ready[key := ready[key].(pending := ready[key].pending + 1)],
      Plus(WithAll(pending, front), key, true), WithAll(pending, front + [(key, true)]), log, now);
  }

  lemma {:induction false} ReserveOneKeeps(
    p: Policy, r: Reservation, pending: Key -> nat, log: seq<Entry>, key: Key, now: Instant)
    requires Sensible(p) && TableOk(p, r.counters, WithAll(pending, r.reserved), log, now)
    requires Roomy(p, r.counters, key, now) && DistinctKeys(ReserveOne(p, r, key, now).reserved)
    ensures
      var after := ReserveOne(p, r, key, now);
      TableOk(p, after.counters, WithAll(pending, after.reserved), log, now)
  {
    if !r.full {
      if Opened(p, r.counters, key, now).Some? {
        ReservedKeyKeeps(p, r.counters, pending, log, r.reserved, key, now);
      } else if !p.failClosed {
        WithLast(pending, r.reserved, key, false);
        TableOkAlike(
          p, r.counters, WithAll(pending, r.reserved), WithAll(pending, r.reserved + [(key, false)]), log, now);
      }
    }
  }

  lemma {:induction false} AskedAreDistinct(p: Policy, r: Reservation, keys: seq<Key>)
    requires Asked(p, r, keys) && NoRepeats(keys)
    ensures DistinctKeys(r.reserved)
  {
  }

  lemma {:induction false} ReserveAllKeeps(
    p: Policy, counters: Counters, pending: Key -> nat, log: seq<Entry>, keys: seq<Key>, now: Instant)
    requires Sensible(p) && TableOk(p, counters, pending, log, now) && NoRepeats(keys)
    requires forall i :: 0 <= i < |keys| ==> Roomy(p, counters, keys[i], now)
    ensures
      var r := ReserveAll(p, counters, keys, now);
      DistinctKeys(r.reserved) && TableOk(p, r.counters, WithAll(pending, r.reserved), log, now)
  {
    ReservedAreAsked(p, counters, keys, now);
    AskedAreDistinct(p, ReserveAll(p, counters, keys, now), keys);
    if keys == [] {
      TableOkAlike(p, counters, pending, WithAll(pending, []), log, now);
    } else {
      var last := |keys| - 1;
      ReserveAllKeeps(p, counters, pending, log, keys[..last], now);
      StillRoomy(p, counters, keys[..last], now, keys[last]);
      ReserveOneKeeps(p, ReserveAll(p, counters, keys[..last], now), pending, log, keys[last], now);
    }
  }

  // Every run.

  function Holds(k: Key): Attempt -> bool {
    (a: Attempt) => (k, true) in a.keys
  }

  /** The attempts in flight that hold a reservation on each key. */
  function InFlight(attempts: map<nat, Attempt>): Key -> nat {
    k => Count(attempts, Holds(k))
  }

  ghost predicate Inv(p: Policy, s: State) {
    && (forall id :: id in s.attempts ==> DistinctKeys(s.attempts[id].keys))
    && TableOk(p, s.counters, InFlight(s.attempts), s.log, s.now)
  }

  lemma {:induction false} AttemptsReserve(attempts: map<nat, Attempt>, id: nat, a: Attempt)
    requires id !in attempts
    ensures forall k :: InFlight(attempts[id := a])(k) == WithAll(InFlight(attempts), a.keys)(k)
  {
    forall k ensures InFlight(attempts[id := a])(k) == WithAll(InFlight(attempts), a.keys)(k) {
      CountUpdate(attempts, Holds(k), id, a);
    }
  }

  lemma {:induction false} AttemptsSettle(attempts: map<nat, Attempt>, id: nat)
    requires id in attempts
    ensures forall k :: InFlight(attempts)(k) == WithAll(InFlight(attempts - {id}), attempts[id].keys)(k)
  {
    forall k ensures InFlight(attempts)(k) == WithAll(InFlight(attempts - {id}), attempts[id].keys)(k) {
      CountRemove(attempts, Holds(k), id);
    }
  }

  lemma {:induction false} BeginKeepsInv(p: Policy, s: State, id: nat, keys: seq<Key>)
    requires Sensible(p) && Inv(p, s) && NoRepeats(keys)
    ensures Inv(p, BeginStep(p, s, id, keys))
  {
    if !(id in s.attempts || Refuses(p, s, keys)) {
      var r := ReserveAll(p, s.counters, keys, s.now);
      ReserveAllKeeps(p, s.counters, InFlight(s.attempts), s.log, keys, s.now);
      if r.full {
        SettleAllKeeps(p, r.counters, InFlight(s.attempts), s.log, s.now, r.reserved, Refunded, s.now);
      } else {
        var a := Attempt(s.now, r.reserved);
        AttemptsReserve(s.attempts, id, a);
        TableOkAlike(
          p, r.counters, WithAll(InFlight(s.attempts), r.reserved), InFlight(s.attempts[id := a]), s.log, s.now);
      }
    }
  }

  lemma {:induction false} SettleKeepsInv(p: Policy, s: State, id: nat, outcome: Outcome)
    requires Sensible(p) && Inv(p, s)
    ensures Inv(p, SettleStep(p, s, id, outcome))
  {
    if id in s.attempts {
      var rest, a := s.attempts - {id}, s.attempts[id];
      AttemptsSettle(s.attempts, id);
      TableOkAlike(p, s.counters, InFlight(s.attempts), WithAll(InFlight(rest), a.keys), s.log, s.now);
      SettleAllKeeps(p, s.counters, InFlight(rest), s.log, a.begun, a.keys, outcome, s.now);
    }
  }

  /** Every step keeps it, of a policy that fails open or closed, with room in the table or without. */
  lemma {:induction false} StepKeepsInv(p: Policy, s: State, a: Action)
    requires Sensible(p) && Inv(p, s)
    ensures Inv(p, Step(p, s, a))
  {
    match a
    case Tick(later) =>
      forall k
        ensures KeyOk(k, At(s.counters, k), InFlight(s.attempts)(k), Entries(s.log, k), RuleOf(p, k), s.now + later)
      {
        LaterIsOk(
          k, At(s.counters, k), InFlight(s.attempts)(k), Entries(s.log, k), RuleOf(p, k), s.now, s.now + later);
      }
    case Begin(id, name, address) =>
      KeysAreDistinct(p, name, address);
      BeginKeepsInv(p, s, id, KeysOf(p, name, address));
    case Settle(id, outcome) => SettleKeepsInv(p, s, id, outcome);
    case Drop(id) => SettleKeepsInv(p, s, id, p.onDrop);
  }

  lemma InitIsOk(p: Policy)
    ensures Inv(p, INIT)
  {
    forall k ensures KeyOk(k, None, InFlight(INIT.attempts)(k), [], RuleOf(p, k), 0) {
      CountNone(INIT.attempts, Holds(k));
    }
  }

  lemma {:induction false} RunKeepsInv(p: Policy, schedule: seq<Action>)
    requires Sensible(p)
    ensures Inv(p, Run(Next(p), INIT, schedule))
  {
    InitIsOk(p);
    forall s, a | Inv(p, s) ensures Inv(p, Next(p)(s, a)) {
      StepKeepsInv(p, s, a);
    }
    RunKeeps(Next(p), s => Inv(p, s), INIT, schedule);
  }

  lemma {:induction false} EveryKeyIsOk(p: Policy, schedule: seq<Action>, k: Key)
    requires Sensible(p)
    ensures
      var s := Run(Next(p), INIT, schedule);
      KeyOk(k, At(s.counters, k), Count(s.attempts, Holds(k)), Entries(s.log, k), RuleOf(p, k), s.now)
  {
    RunKeepsInv(p, schedule);
    var s := Run(Next(p), INIT, schedule);
    assert KeyOk(k, At(s.counters, k), InFlight(s.attempts)(k), Entries(s.log, k), RuleOf(p, k), s.now);
  }
}
