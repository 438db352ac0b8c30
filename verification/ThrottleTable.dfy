/** The throttle's table of counters: how large it gets, and when it has no room for another. */
module ThrottleTable {
  import opened Counting
  import opened Schedules
  import opened Throttle
  import opened Wrappers

  /** The counters that still say something. */
  function Telling(p: Policy, counters: Counters, now: Instant): set<Key> {
    set k | k in counters && !Expired(counters[k], RuleOf(p, k), now)
  }

  lemma {:induction false} UnexpiredAreTelling(p: Policy, counters: Counters, now: Instant)
    ensures Unexpired(p, counters, now).Keys == Telling(p, counters, now) <= counters.Keys
    ensures |Unexpired(p, counters, now)| == |Telling(p, counters, now)| <= |counters|
  {
    var kept := Unexpired(p, counters, now);
    assert kept.Keys == Telling(p, counters, now);
    assert |kept.Keys| == |kept| && |counters.Keys| == |counters|;
    SubsetSize(Telling(p, counters, now), counters.Keys);
  }

  /** There is no counter for a key, and none can be made, if and only if the counters that still say
      something fill the table: those that do not are dropped first. */
  lemma {:induction false} FullIff(p: Policy, counters: Counters, key: Key, now: Instant)
    ensures Opened(p, counters, key, now).None? <==>
            key !in counters && |Telling(p, counters, now)| >= p.capacity
  {
    UnexpiredAreTelling(p, counters, now);
  }

  lemma {:induction false} OpenedStaysSmall(p: Policy, counters: Counters, key: Key, now: Instant)
    requires |counters| <= p.capacity && Opened(p, counters, key, now).Some?
    ensures |Opened(p, counters, key, now).value| <= p.capacity && key in Opened(p, counters, key, now).value
  {
    UnexpiredAreTelling(p, counters, now);
  }

  lemma {:induction false} ReserveStaysSmall(p: Policy, counters: Counters, keys: seq<Key>, now: Instant)
    requires |counters| <= p.capacity
    ensures |ReserveAll(p, counters, keys, now).counters| <= p.capacity
  {
    if keys != [] {
      var front, key := ReserveAll(p, counters, keys[..|keys| - 1], now), keys[|keys| - 1];
      ReserveStaysSmall(p, counters, keys[..|keys| - 1], now);
      if Opened(p, front.counters, key, now).Some? {
        OpenedStaysSmall(p, front.counters, key, now);
      }
    }
  }

  lemma {:induction false} TidiedStaysSmall(counters: Counters, key: Key)
    ensures |Tidied(counters, key)| <= |counters|
  {
    SubsetSize(Tidied(counters, key).Keys, counters.Keys);
  }

  lemma {:induction false} SettleOneStaysSmall(
    p: Policy, counters: Counters, log: seq<Entry>, begun: Instant, key: Key, reserved: bool, outcome: Outcome,
    now: Instant)
    requires |counters| <= p.capacity
    ensures |SettleOne(p, counters, log, begun, key, reserved, outcome, now).0| <= p.capacity
  {
    var given := Unreserved(counters, key, reserved);
    match outcome
    case Failed =>
      if Opened(p, given, key, now).Some? {
        OpenedStaysSmall(p, given, key, now);
        var ready := Opened(p, given, key, now).value;
        TidiedStaysSmall(ready[key := Failure(ready[key], RuleOf(p, key), now)], key);
      } else {
        TidiedStaysSmall(given, key);
      }
    case Succeeded => TidiedStaysSmall(Cleared(given, key), key);
    case Refunded => TidiedStaysSmall(given, key);
  }

  lemma {:induction false} SettleAllStaysSmall(
    p: Policy, counters: Counters, log: seq<Entry>, begun: Instant, keys: Reserved, outcome: Outcome, now: Instant)
    requires |counters| <= p.capacity
    ensures |SettleAll(p, counters, log, begun, keys, outcome, now).0| <= p.capacity
  {
    if keys != [] {
      var last := |keys| - 1;
      SettleAllStaysSmall(p, counters, log, begun, keys[..last], outcome, now);
      var (before, logged) := SettleAll(p, counters, log, begun, keys[..last], outcome, now);
      SettleOneStaysSmall(p, before, logged, begun, keys[last].0, keys[last].1, outcome, now);
    }
  }

  lemma {:induction false} StepStaysSmall(p: Policy, s: State, a: Action)
    requires |s.counters| <= p.capacity
    ensures |Step(p, s, a).counters| <= p.capacity
  {
    match a
    case Tick(_) =>
    case Begin(id, name, address) =>
      var keys := KeysOf(p, name, address);
      ReserveStaysSmall(p, s.counters, keys, s.now);
      var r := ReserveAll(p, s.counters, keys, s.now);
      SettleAllStaysSmall(p, r.counters, s.log, s.now, r.reserved, Refunded, s.now);
    case Settle(id, outcome) =>
      if id in s.attempts {
        SettleAllStaysSmall(p, s.counters, s.log, s.attempts[id].begun, s.attempts[id].keys, outcome, s.now);
      }
    case Drop(id) =>
      if id in s.attempts {
        SettleAllStaysSmall(p, s.counters, s.log, s.attempts[id].begun, s.attempts[id].keys, p.onDrop, s.now);
      }
  }

  /** Whatever is sent, from however many addresses, there are never more counters than the table
      holds: a hundred thousand for sign-ins, and as many for sign-ups. */
  lemma {:induction false} TableIsBounded(p: Policy, schedule: seq<Action>)
    ensures |Run(Next(p), INIT, schedule).counters| <= p.capacity
    ensures p == SIGN_IN || p == SIGN_UP ==> |Run(Next(p), INIT, schedule).counters| <= 100_000
  {
    forall t: State, a | |t.counters| <= p.capacity ensures |Next(p)(t, a).counters| <= p.capacity {
      StepStaysSmall(p, t, a);
    }
    RunKeeps(Next(p), (t: State) => |t.counters| <= p.capacity, INIT, schedule);
  }
}
