/** What the polls are told about: the commits of a schedule, the connection it leaves, and that every
    notification is delivered, lost with the connection, or on its way. */
module LongPollStore {
  import opened LongPoll
  import opened Schedules

  // The log.

  function Commits(schedule: seq<Action>): seq<Snapshot> {
    if schedule == [] then []
    else
      var last := schedule[|schedule| - 1];
      Commits(schedule[..|schedule| - 1]) + if last.Commit? then [last.snapshot] else []
  }

  // The connection.

  /** A connection made at `i` was not lost. */
  predicate ConnectedAt(schedule: seq<Action>, i: nat) {
    i < |schedule| && schedule[i].Connect? && forall j :: i < j < |schedule| ==> !schedule[j].LoseLink?
  }

  predicate AnnouncedAt(schedule: seq<Action>, i: nat, j: nat) {
    i < j < |schedule| && ConnectedAt(schedule, i) && schedule[j].Announce?
  }

  ghost predicate IsConnected(schedule: seq<Action>) {
    exists i: nat :: ConnectedAt(schedule, i)
  }

  ghost predicate IsAnnounced(schedule: seq<Action>) {
    exists i: nat, j: nat :: AnnouncedAt(schedule, i, j)
  }

  lemma {:induction false} ConnectedOneMore(schedule: seq<Action>, a: Action)
    ensures IsConnected(schedule + [a]) <==> a.Connect? || (!a.LoseLink? && IsConnected(schedule))
    ensures IsAnnounced(schedule + [a]) <==>
            !a.LoseLink? && (IsAnnounced(schedule) || (a.Announce? && IsConnected(schedule)))
  {
    var more, last := schedule + [a], |schedule|;
    forall i: nat
      ensures ConnectedAt(more, i) <==>
              if i < last then ConnectedAt(schedule, i) && !a.LoseLink? else i == last && a.Connect?
    {
      ConnectedThen(schedule, a, i);
    }
    if a.Connect? {
      assert ConnectedAt(more, last);
    }
    if IsConnected(schedule) && !a.LoseLink? {
      var i: nat :| ConnectedAt(schedule, i);
      assert ConnectedAt(more, i);
      if a.Announce? {
        assert AnnouncedAt(more, i, last);
      }
    }
    if IsAnnounced(schedule) && !a.LoseLink? {
      var i: nat, j: nat :| AnnouncedAt(schedule, i, j);
      assert AnnouncedAt(more, i, j);
    }
    if IsAnnounced(more) {
      var i: nat, j: nat :| AnnouncedAt(more, i, j);
      assert j < last ==> AnnouncedAt(schedule, i, j);
    }
  }

  lemma {:induction false} ConnectedThen(schedule: seq<Action>, a: Action, i: nat)
    ensures ConnectedAt(schedule + [a], i) <==>
            if i < |schedule| then ConnectedAt(schedule, i) && !a.LoseLink? else i == |schedule| && a.Connect?
  {
    var more := schedule + [a];
    assert more[|schedule|] == a;
    if i < |schedule| && ConnectedAt(more, i) {
      assert forall j :: i < j < |schedule| ==> schedule[j] == more[j];
    }
  }

  /** After every run the log is the first snapshot and what was committed, in order; and the connection
      is down, listening or up as the schedule left it: down unless it was made and not lost since, and
      up once that was announced. */
  lemma {:induction false} StoreIsAsLeft(c: Compiler, first: Snapshot, schedule: seq<Action>)
    ensures
      var s := Run(Next(c), Init(first), schedule);
      && s.log == [first] + Commits(schedule)
      && (s.link == Down <==> !IsConnected(schedule))
      && (s.link == Up <==> IsAnnounced(schedule))
  {
    if schedule != [] {
      var front, a := schedule[..|schedule| - 1], schedule[|schedule| - 1];
      assert schedule == front + [a];
      StoreIsAsLeft(c, first, front);
      ConnectedOneMore(front, a);
      StoreMoves(c, Run(Next(c), Init(first), front), a);
    }
  }

  lemma {:induction false} StoreMoves(c: Compiler, s: State, a: Action)
    ensures
      var t := Step(c, s, a);
      && t.log == s.log + (if a.Commit? then [a.snapshot] else [])
      && (t.link == Down <==> a.LoseLink? || (s.link == Down && !a.Connect?))
      && (t.link == Up <==> !a.LoseLink? && (s.link == Up || (s.link == Listening && a.Announce?)))
  {
  }

  // Notifications.

  /** How many notifications were sent, delivered and lost, and how many connections announced. */
  datatype Tally = Tally(sent: nat, delivered: nat, lost: nat, announced: nat)

  /** A commit is notified of while the connection is there; a notification is delivered once it is
      announced, or lost with it. */
  function After(tally: Tally, s: State, a: Action): Tally {
    match a
    case Commit(_) => if s.link.Down? then tally else tally.(sent := tally.sent + 1)
    case Announce => if s.link.Listening? then tally.(announced := tally.announced + 1) else tally
    case Deliver =>
      if s.link.Up? && tally.sent > tally.delivered + tally.lost
      then tally.(delivered := tally.delivered + 1) else tally
    case LoseLink =>
      if tally.sent > tally.delivered + tally.lost then tally.(lost := tally.sent - tally.delivered) else tally
    case _ => tally
  }

  function TallyOf(c: Compiler, first: Snapshot, schedule: seq<Action>): Tally {
    if schedule == [] then Tally(0, 0, 0, 0)
    else
      var front := schedule[..|schedule| - 1];
      After(TallyOf(c, first, front), Run(Next(c), Init(first), front), schedule[|schedule| - 1])
  }

  predicate AddsUp(tally: Tally, s: State) {
    tally.sent == tally.delivered + tally.lost + s.undelivered && s.counter == tally.delivered + tally.announced
  }

  lemma {:induction false} StepAddsUp(c: Compiler, s: State, a: Action, tally: Tally)
    requires AddsUp(tally, s)
    ensures AddsUp(After(tally, s, a), Step(c, s, a))
  {
  }

  /** After every run, each notification sent was delivered, was lost with the connection or is on its
      way, and the counter counts those delivered and the connections announced. */
  lemma {:induction false} NotificationsAddUp(c: Compiler, first: Snapshot, schedule: seq<Action>)
    ensures AddsUp(TallyOf(c, first, schedule), Run(Next(c), Init(first), schedule))
  {
    if schedule != [] {
      var front := schedule[..|schedule| - 1];
      NotificationsAddUp(c, first, front);
      StepAddsUp(
        c, Run(Next(c), Init(first), front), schedule[|schedule| - 1], TallyOf(c, first, front));
    }
  }
}
