/**
  What the throttle writes down: no key without a rule is ever asked for one, an attempt settled
  leaves at most one failure against each of its keys, and every rule of an address counts the same.
*/
module ThrottleHistory {
  import opened Counting
  import opened Schedules
  import opened Throttle
  import opened ThrottleLimits
  import opened ThrottleLocks
  import opened Wrappers

  // Every key has its rule.

  ghost predicate AllRuled(p: Policy, counters: Counters) {
    forall k :: k in counters ==> HasRule(p, k)
  }

  ghost predicate RuledKeys(p: Policy, r: Reserved) {
    forall i :: 0 <= i < |r| ==> HasRule(p, r[i].0)
  }

  ghost predicate RuledLog(p: Policy, log: seq<Entry>) {
    forall e :: e in log ==> HasRule(p, e.key)
  }

  ghost predicate Ruled(p: Policy, s: State) {
    && AllRuled(p, s.counters)
    && (forall id :: id in s.attempts ==> RuledKeys(p, s.attempts[id].keys))
    && RuledLog(p, s.log)
  }

  lemma {:induction false} OpenedIsRuled(p: Policy, counters: Counters, key: Key, now: Instant)
    requires AllRuled(p, counters) && HasRule(p, key) && Opened(p, counters, key, now).Some?
    ensures AllRuled(p, Opened(p, counters, key, now).value)
  {
  }

  lemma {:induction false} ReserveIsRuled(p: Policy, counters: Counters, keys: seq<Key>, now: Instant)
    requires AllRuled(p, counters) && forall k :: k in keys ==> HasRule(p, k)
    ensures
      var r := ReserveAll(p, counters, keys, now);
      AllRuled(p, r.counters) && RuledKeys(p, r.reserved)
  {
    if keys != [] {
      var front, last := keys[..|keys| - 1], keys[|keys| - 1];
      assert last in keys && forall k :: k in front ==> k in keys;
      ReserveIsRuled(p, counters, front, now);
      var r := ReserveAll(p, counters, front, now);
      if Opened(p, r.counters, last, now).Some? {
        OpenedIsRuled(p, r.counters, last, now);
      }
    }
  }

  lemma {:induction false} SettleIsRuled(
    p: Policy, counters: Counters, log: seq<Entry>, begun: Instant, r: Reserved, outcome: Outcome, now: Instant)
    requires AllRuled(p, counters) && RuledLog(p, log) && RuledKeys(p, r)
    ensures
      var (after, longer) := SettleAll(p, counters, log, begun, r, outcome, now);
      AllRuled(p, after) && RuledLog(p, longer)
  {
    if r != [] {
      var front := r[..|r| - 1];
      var (key, reserved) := r[|r| - 1];
      SettleIsRuled(p, counters, log, begun, front, outcome, now);
      var (before, logged) := SettleAll(p, counters, log, begun, front, outcome, now);
      var given := Unreserved(before, key, reserved);
      assert AllRuled(p, given) && HasRule(p, key);
      if Opened(p, given, key, now).Some? {
        OpenedIsRuled(p, given, key, now);
      }
    }
  }

  lemma {:induction false} StepIsRuled(p: Policy, s: State, a: Action)
    requires Ruled(p, s)
    ensures Ruled(p, Step(p, s, a))
  {
    match a
    case Tick(_) =>
    case Begin(id, name, address) =>
      var keys := KeysOf(p, name, address);
      KeysAreDistinct(p, name, address);
      ReserveIsRuled(p, s.counters, keys, s.now);
      var r := ReserveAll(p, s.counters, keys, s.now);
      SettleIsRuled(p, r.counters, s.log, s.now, r.reserved, Refunded, s.now);
    case Settle(id, outcome) =>
      if id in s.attempts {
        SettleIsRuled(p, s.counters, s.log, s.attempts[id].begun, s.attempts[id].keys, outcome, s.now);
      }
    case Drop(id) =>
      if id in s.attempts {
        SettleIsRuled(p, s.counters, s.log, s.attempts[id].begun, s.attempts[id].keys, p.onDrop, s.now);
      }
  }

  /** In every run, whatever is counted, in flight or logged has a rule, so asking for one never fails. */
  lemma {:induction false} EveryKeyHasItsRule(p: Policy, schedule: seq<Action>)
    ensures Ruled(p, Run(Next(p), INIT, schedule))
  {
    forall s, a | Ruled(p, s) ensures Ruled(p, Next(p)(s, a)) {
      StepIsRuled(p, s, a);
    }
    RunKeeps(Next(p), s => Ruled(p, s), INIT, schedule);
  }

  // What is written when an attempt is settled.

  /** One failure more, of an attempt let through at `begun`. */
  ghost predicate Added(es: seq<Entry>, longer: seq<Entry>, k: Key, begun: Instant, now: Instant, reserved: bool) {
    && |longer| == |es| + 1
    && longer[..|es|] == es
    && longer[|es|] == Entry(k, begun, now, longer[|es|].since, reserved)
  }

  lemma {:induction false} SettledOne(
    p: Policy, counters: Counters, log: seq<Entry>, begun: Instant, key: Key, reserved: bool, outcome: Outcome,
    now: Instant, k: Key)
    ensures
      var es, longer := Entries(log, k), Entries(SettleOne(p, counters, log, begun, key, reserved, outcome, now).1, k);
      longer == es || (k == key && outcome.Failed? && Added(es, longer, k, begun, now, reserved))
    ensures
      var es, longer := Entries(log, k), Entries(SettleOne(p, counters, log, begun, key, reserved, outcome, now).1, k);
      k == key && k in counters && outcome.Failed? ==> Added(es, longer, k, begun, now, reserved)
  {
    var given := Unreserved(counters, key, reserved);
    if outcome.Failed? && Opened(p, given, key, now).Some? {
      EntriesOneMore(log, Entry(key, begun, now, Opened(p, given, key, now).value[key].since, reserved), k);
    }
  }

  /** Settling an attempt writes at most one failure against each of its keys, and nothing else. */
  lemma {:induction false} SettledEntries(
    p: Policy, counters: Counters, log: seq<Entry>, begun: Instant, r: Reserved, outcome: Outcome, now: Instant,
    k: Key)
    requires DistinctKeys(r)
    ensures
      var es, longer := Entries(log, k), Entries(SettleAll(p, counters, log, begun, r, outcome, now).1, k);
      longer == es || (outcome.Failed? && Touches(r, k) && Added(es, longer, k, begun, now, (k, true) in r))
  {
    if r != [] {
      var front := r[..|r| - 1];
      var (key, reserved) := r[|r| - 1];
      assert r == front + [(key, reserved)];
      WithLast(_ => 0, front, key, reserved);
      TouchesFront(r, k);
      SettledEntries(p, counters, log, begun, front, outcome, now, k);
      var (before, logged) := SettleAll(p, counters, log, begun, front, outcome, now);
      SettledOne(p, before, logged, begun, key, reserved, outcome, now, k);
    }
  }

  lemma {:induction false} SettleLeavesPending(
    p: Policy, counters: Counters, log: seq<Entry>, begun: Instant, key: Key, reserved: bool, outcome: Outcome,
    now: Instant, k: Key)
    requires k in counters && counters[k].pending > 0 && k != key
    ensures At(SettleOne(p, counters, log, begun, key, reserved, outcome, now).0, k) == Some(counters[k])
  {
    var given := Unreserved(counters, key, reserved);
    if Opened(p, given, key, now).Some? {
      OpenedLeavesOthers(p, given, key, now, k);
    }
  }

  /** A failure is written against every key the attempt holds a reservation on. */
  lemma {:induction false} FailedEntries(
    p: Policy, counters: Counters, log: seq<Entry>, begun: Instant, r: Reserved, now: Instant, k: Key)
    requires DistinctKeys(r) && k in counters && counters[k].pending > 0
    ensures
      var (after, longer) := SettleAll(p, counters, log, begun, r, Failed, now);
      if (k, true) in r then Added(Entries(log, k), Entries(longer, k), k, begun, now, true)
      else !Touches(r, k) ==> At(after, k) == Some(counters[k])
  {
    if r != [] {
      var front := r[..|r| - 1];
      var (key, reserved) := r[|r| - 1];
      assert r == front + [(key, reserved)];
      WithLast(_ => 0, front, key, reserved);
      TouchesFront(r, k);
      FailedEntries(p, counters, log, begun, front, now, k);
      var (before, logged) := SettleAll(p, counters, log, begun, front, Failed, now);
      SettledOne(p, before, logged, begun, key, reserved, Failed, now, k);
      SettledEntries(p, counters, log, begun, front, Failed, now, k);
      if key != k && !Touches(front, k) {
        SettleLeavesPending(p, before, logged, begun, key, reserved, Failed, now, k);
      }
    }
  }

  lemma {:induction false} HeldIsPending(p: Policy, s: State, id: nat, k: Key)
    requires Inv(p, s) && id in s.attempts && (k, true) in s.attempts[id].keys
    ensures k in s.counters && s.counters[k].pending > 0
  {
    assert KeyOk(k, At(s.counters, k), InFlight(s.attempts)(k), Entries(s.log, k), RuleOf(p, k), s.now);
    CountSome(s.attempts, Holds(k), id);
  }

  lemma {:induction false} SettleCounts(p: Policy, s: State, id: nat, outcome: Outcome, k: Key)
    requires Inv(p, s) && id in s.attempts
    ensures
      var a, es, longer := s.attempts[id], Entries(s.log, k), Entries(SettleStep(p, s, id, outcome).log, k);
      && (!outcome.Failed? || !Touches(a.keys, k) ==> longer == es)
      && (outcome.Failed? && (k, true) in a.keys ==> Added(es, longer, k, a.begun, s.now, true))
  {
    var a := s.attempts[id];
    SettledEntries(p, s.counters, s.log, a.begun, a.keys, outcome, s.now, k);
    if (k, true) in a.keys {
      HeldIsPending(p, s, id, k);
      FailedEntries(p, s.counters, s.log, a.begun, a.keys, s.now, k);
    }
  }

  /** An attempt dropped unsettled counts as a failure against every key it is reserved on exactly if
      the policy takes it as one; taken as anything else it leaves no failure anywhere. */
  lemma {:induction false} DroppedCountsIff(p: Policy, schedule: seq<Action>, id: nat, k: Key)
    requires Sensible(p) && id in Run(Next(p), INIT, schedule).attempts
    requires (k, true) in Run(Next(p), INIT, schedule).attempts[id].keys
    ensures
      var s := Run(Next(p), INIT, schedule);
      var t := Step(p, s, Drop(id));
      && id !in t.attempts
      && (p.onDrop.Failed? ==> Added(Entries(s.log, k), Entries(t.log, k), k, s.attempts[id].begun, s.now, true))
      && (!p.onDrop.Failed? ==> Entries(t.log, k) == Entries(s.log, k))
  {
    RunKeepsInv(p, schedule);
    SettleCounts(p, Run(Next(p), INIT, schedule), id, p.onDrop, k);
  }

  // Every rule of an address counts the same attempts.

  /** When the attempts that failed were let through, and when they failed. */
  function Times(es: seq<Entry>): (r: seq<(Instant, Instant)>)
    ensures |r| == |es| && forall i :: 0 <= i < |es| ==> r[i] == (es[i].begun, es[i].at)
  {
    seq(|es|, i requires 0 <= i < |es| => (es[i].begun, es[i].at))
  }

  lemma TimesOneMore(es: seq<Entry>, longer: seq<Entry>, k: Key, begun: Instant, now: Instant)
    requires Added(es, longer, k, begun, now, true)
    ensures Times(longer) == Times(es) + [(begun, now)]
  {
    assert forall i :: 0 <= i < |es| ==> longer[i] == longer[..|es|][i] == es[i];
  }

  /** An attempt in flight is held to all rules of an address or to none. */
  ghost predicate Alike(s: State, k: Key, other: Key) {
    && (forall id :: id in s.attempts ==>
          ((k, true) in s.attempts[id].keys <==> (other, true) in s.attempts[id].keys)
          && (Touches(s.attempts[id].keys, k) <==> (k, true) in s.attempts[id].keys)
          && (Touches(s.attempts[id].keys, other) <==> (other, true) in s.attempts[id].keys))
    && Times(Entries(s.log, k)) == Times(Entries(s.log, other))
  }

  lemma {:induction false} SettleStaysAlike(p: Policy, s: State, id: nat, outcome: Outcome, k: Key, other: Key)
    requires Inv(p, s) && Alike(s, k, other)
    ensures Alike(SettleStep(p, s, id, outcome), k, other)
  {
    if id in s.attempts {
      var a, t := s.attempts[id], SettleStep(p, s, id, outcome);
      SettleCounts(p, s, id, outcome, k);
      SettleCounts(p, s, id, outcome, other);
      if outcome.Failed? && (k, true) in a.keys {
        TimesOneMore(Entries(s.log, k), Entries(t.log, k), k, a.begun, s.now);
        TimesOneMore(Entries(s.log, other), Entries(t.log, other), other, a.begun, s.now);
      }
    }
  }

  /** A policy that fails closed reserves an address's keys all together. */
  lemma {:induction false} ClosedReservesAll(p: Policy, s: State, name: Option<string>, address: nat, k: Key)
    requires p.failClosed && k.Address? && k.rule < Windows(p)
    ensures
      var r := ReserveAll(p, s.counters, KeysOf(p, name, address), s.now);
      !r.full ==>
        && ((k, true) in r.reserved <==> k.address == address)
        && (Touches(r.reserved, k) <==> k.address == address)
  {
    var keys := KeysOf(p, name, address);
    var r := ReserveAll(p, s.counters, keys, s.now);
    ReservedAreAsked(p, s.counters, keys, s.now);
    KeysAreDistinct(p, name, address);
    if !r.full && k.address == address {
      var i := |keys| - Windows(p) + k.rule;
      assert keys[i] == k;
      assert r.reserved[i] == (k, true);
    }
    if !r.full && Touches(r.reserved, k) {
      var i :| 0 <= i < |r.reserved| && r.reserved[i].0 == k;
      assert keys[i] in keys;
    }
  }

  lemma {:induction false} BeginStaysAlike(
    p: Policy, s: State, id: nat, name: Option<string>, address: nat, k: Key, other: Key)
    requires Alike(s, k, other) && p.failClosed && k.Address? && other.Address? && k.address == other.address
    requires k.rule < Windows(p) && other.rule < Windows(p)
    ensures Alike(BeginStep(p, s, id, KeysOf(p, name, address)), k, other)
  {
    var keys := KeysOf(p, name, address);
    var r := ReserveAll(p, s.counters, keys, s.now);
    if r.full {
      KeysAreDistinct(p, name, address);
      ReservedAreAsked(p, s.counters, keys, s.now);
      AskedAreDistinct(p, r, keys);
      SettledEntries(p, r.counters, s.log, s.now, r.reserved, Refunded, s.now, k);
      SettledEntries(p, r.counters, s.log, s.now, r.reserved, Refunded, s.now, other);
    } else {
      ClosedReservesAll(p, s, name, address, k);
      ClosedReservesAll(p, s, name, address, other);
    }
  }

  lemma {:induction false} StepStaysAlike(p: Policy, s: State, a: Action, k: Key, other: Key)
    requires Sensible(p) && Inv(p, s) && Alike(s, k, other) && p.failClosed
    requires k.Address? && other.Address? && k.address == other.address
    requires k.rule < Windows(p) && other.rule < Windows(p)
    ensures Alike(Step(p, s, a), k, other)
  {
    match a
    case Tick(_) =>
    case Begin(id, name, address) => BeginStaysAlike(p, s, id, name, address, k, other);
    case Settle(id, outcome) => SettleStaysAlike(p, s, id, outcome, k, other);
    case Drop(id) => SettleStaysAlike(p, s, id, p.onDrop, k, other);
  }

  /** Under a policy that fails closed, every rule of an address counts the same attempts: those in
      flight are held to each, and those that failed were let through and failed at the same times. */
  lemma {:induction false} RulesCountAlike(p: Policy, schedule: seq<Action>, k: Key, other: Key)
    requires Sensible(p) && p.failClosed && k.Address? && other.Address? && k.address == other.address
    requires k.rule < Windows(p) && other.rule < Windows(p)
    ensures
      var s := Run(Next(p), INIT, schedule);
      && (forall id :: id in s.attempts ==>
            ((k, true) in s.attempts[id].keys <==> (other, true) in s.attempts[id].keys))
      && Times(Entries(s.log, k)) == Times(Entries(s.log, other))
  {
    InitIsOk(p);
    forall s, a | Inv(p, s) && Alike(s, k, other) ensures Inv(p, Next(p)(s, a)) && Alike(Next(p)(s, a), k, other) {
      StepKeepsInv(p, s, a);
      StepStaysAlike(p, s, a, k, other);
    }
    RunKeeps(Next(p), s => Inv(p, s) && Alike(s, k, other), INIT, schedule);
  }
}
