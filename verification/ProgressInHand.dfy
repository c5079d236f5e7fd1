/**
 The report the delivery loop holds while other reports come in: what is marked as in flight
 keeps its place, and what was handed over without the mark can be replaced.
 */
module ProgressInHand {
  import opened Wrappers
  import opened ProgressSpec

  // ---------------------------------------------------------------------
  // Marked as in flight

  /** A running report alone in its run, and the oldest of all expendable ones. */
  ghost predicate FirstToGo(p: Pending, d: Delivery) {
    && SequenceOf(p, d.report.run) == [d] && !d.terminal
    && forall run :: Expendable(p, run) ==> d.version <= Last(p[run]).version
  }

  /** How a running report that is being delivered gives way: a terminal report finds the
      queue full and takes its room, it being the oldest expendable one, or the queue closes
      and no terminal report follows it. */
  ghost predicate GivesWay(q: Queue, e: Event, d: Delivery, policy: Policy) {
    && !q.closed && !d.terminal
    && match e
       case Enqueue(report, _) =>
         && TerminalState(report.state) && !Coalesces(q, report) && q.queued >= policy.capacity
         && FirstToGo(q.pending, d)
       case Close => !TerminalAt(SequenceOf(q.pending, d.report.run), 1)
       case _ => false
  }

  /** The report marked as in flight stays the head of its run, unaltered, in every step but
      its settling, unless it gives way, which a terminal report never does. */
  lemma MarkedStays(s: System, e: Event, t: System, policy: Policy, d: Delivery)
    requires Invariant(s, policy) && Step(s, e, t, policy) && !e.Settle?
    requires IsHead(s.q.pending, d) && d.version == s.q.inFlight
    ensures IsHead(t.q.pending, d) <==> !GivesWay(s.q, e, d, policy)
    ensures t.q.inFlight == s.q.inFlight && t.inHand == s.inHand
  {
    HeadOfRun(s, policy, d);
    hide Invariant, Enqueued, Chosen, Closed, GivesWay;
    match e
    case Enqueue(report, now) => MarkedEnqueue(s, report, now, t.q, policy, d);
    case Next(_, _) =>
    case Close => MarkedClose(s, t.q, policy, d);
  }

  /** A head is the oldest of its run, and older than what is yet to come. */
  lemma HeadOfRun(s: System, policy: Policy, d: Delivery)
    requires Invariant(s, policy) && IsHead(s.q.pending, d)
    ensures var was := s.q.pending[d.report.run];
      && 0 < d.version <= s.q.version && (forall i :: 0 < i < |was| ==> d.version < was[i].version)
    ensures d.version == s.q.inFlight ==> s.inHand.Some?
  {
    assert SequenceOk(s.q.pending[d.report.run], d.report.run, ContextOf(s));
  }

  lemma MarkedEnqueue(s: System, report: Report, now: int, q: Queue, policy: Policy, d: Delivery)
    requires Invariant(s, policy) && Enqueued(s.q, report, now, policy, q)
    requires IsHead(s.q.pending, d) && d.version == s.q.inFlight
    ensures IsHead(q.pending, d) <==> !GivesWay(s.q, Enqueue(report, now), d, policy)
    ensures q.inFlight == s.q.inFlight
  {
    HeadOfRun(s, policy, d);
    hide Invariant, Evicted, FirstToGo, IsHead, Appended, Replaced, Coalesces;
    if s.q.closed {
    } else if Coalesces(s.q, report) {
      CoalescedHead(s.q, report, now, policy, d);
    } else if s.q.queued < policy.capacity {
      AppendedHead(s.q, report, now, policy, d);
    } else if TerminalState(report.state) {
      var room :| Evicted(s.q, room)
        && q == if room.queued < policy.capacity then Appended(room, report, now, policy) else room;
      EvictedHead(s, room, policy, d);
      AppendedHead(room, report, now, policy, d);
      HeadIs(s.q.pending, d);
    }
  }

  lemma HeadIs(p: Pending, d: Delivery)
    ensures IsHead(p, d) <==> SequenceOf(p, d.report.run) != [] && SequenceOf(p, d.report.run)[0] == d
  {
  }

  lemma CoalescedHead(q: Queue, report: Report, now: int, policy: Policy, d: Delivery)
    requires Coalesces(q, report) && IsHead(q.pending, d) && d.version == q.inFlight
    ensures IsHead(Replaced(q, report, now, policy).pending, d) && Replaced(q, report, now, policy).inFlight == q.inFlight
  {
  }

  lemma AppendedHead(q: Queue, report: Report, now: int, policy: Policy, d: Delivery)
    requires d.version <= q.version
    requires IsHead(q.pending, d) || SequenceOf(q.pending, d.report.run) == []
    ensures IsHead(Appended(q, report, now, policy).pending, d) <==> IsHead(q.pending, d)
    ensures Appended(q, report, now, policy).inFlight == q.inFlight
  {
  }

  /** Making room takes a head away exactly when it is the first to go. */
  lemma EvictedHead(s: System, room: Queue, policy: Policy, d: Delivery)
    requires Invariant(s, policy) && Evicted(s.q, room) && IsHead(s.q.pending, d)
    ensures room.inFlight == s.q.inFlight && room.version == s.q.version
    ensures IsHead(room.pending, d) <==> !FirstToGo(s.q.pending, d)
    ensures IsHead(room.pending, d) || SequenceOf(room.pending, d.report.run) == []
  {
    var own := d.report.run;
    hide Invariant, FirstToGo, IsHead, WithoutTail;
    if exists run :: Expendable(s.q.pending, run) {
      var run :|
        && Expendable(s.q.pending, run) && room == WithoutTail(s.q, run)
        && forall other :: Expendable(s.q.pending, other) ==>
             Last(s.q.pending[run]).version <= Last(s.q.pending[other]).version;
      hide Evicted;
      if run != own {
        OtherEvicted(s, run, d, policy);
      } else {
        OwnEvicted(s.q, d);
      }
    } else {
      AloneExpendable(s.q.pending, d);
    }
  }

  lemma AloneExpendable(p: Pending, d: Delivery)
    requires IsHead(p, d)
    ensures SequenceOf(p, d.report.run) == [d] && !d.terminal ==> Expendable(p, d.report.run) && Last(p[d.report.run]) == d
    ensures FirstToGo(p, d) ==> Expendable(p, d.report.run)
  {
  }

  lemma OtherEvicted(s: System, run: string, d: Delivery, policy: Policy)
    requires Invariant(s, policy) && IsHead(s.q.pending, d) && run != d.report.run
    requires Expendable(s.q.pending, run)
    requires forall other :: Expendable(s.q.pending, other) ==>
      Last(s.q.pending[run]).version <= Last(s.q.pending[other]).version
    ensures IsHead(WithoutTail(s.q, run).pending, d) && !FirstToGo(s.q.pending, d)
    ensures WithoutTail(s.q, run).inFlight == s.q.inFlight && WithoutTail(s.q, run).version == s.q.version
  {
    hide Invariant;
    TailsApart(s, policy, run, d.report.run);
    NotFirst(s.q.pending, run, d);
    hide FirstToGo, Expendable;
  }

  lemma NotFirst(p: Pending, run: string, d: Delivery)
    requires Expendable(p, run) && IsHead(p, d) && run != d.report.run
    requires Last(p[run]).version != Last(p[d.report.run]).version
    requires Expendable(p, d.report.run) ==> Last(p[run]).version <= Last(p[d.report.run]).version
    ensures !FirstToGo(p, d)
  {
    AloneExpendable(p, d);
  }

  lemma OwnEvicted(q: Queue, d: Delivery)
    requires IsHead(q.pending, d) && Expendable(q.pending, d.report.run)
    requires forall other :: Expendable(q.pending, other) ==>
      Last(q.pending[d.report.run]).version <= Last(q.pending[other]).version
    ensures var room := WithoutTail(q, d.report.run);
      && room.inFlight == q.inFlight && room.version == q.version
      && (IsHead(room.pending, d) <==> !FirstToGo(q.pending, d))
      && (IsHead(room.pending, d) || SequenceOf(room.pending, d.report.run) == [])
  {
    var was := q.pending[d.report.run];
    if |was| == 1 {
      assert was == [d];
    } else {
      assert was[..|was| - 1][0] == d;
    }
  }

  lemma TailsApart(s: System, policy: Policy, a: string, b: string)
    requires Invariant(s, policy) && a in s.q.pending && b in s.q.pending && a != b
    ensures s.q.pending[a] != [] && s.q.pending[b] != []
    ensures Last(s.q.pending[a]).version != Last(s.q.pending[b]).version
  {
    assert SequenceOk(s.q.pending[a], a, ContextOf(s)) && SequenceOk(s.q.pending[b], b, ContextOf(s));
    assert Apart(s.q.pending[a], s.q.pending[b]);
  }

  lemma {:induction false} RetainedOld(s: seq<Delivery>)
    ensures forall j :: 0 <= j < |Retained(s)| ==> Retained(s)[j] in s
  {
    if s == [] {
    } else {
      RetainedOld(s[1..]);
    }
  }

  lemma RetainedHead(was: seq<Delivery>)
    requires was != [] && forall i :: 0 < i < |was| ==> was[0].version < was[i].version
    ensures (Retained(was) != [] && Retained(was)[0] == was[0]) <==> was[0].terminal || TerminalAt(was, 1)
  {
    RetainedOld(was[1..]);
    var rest := Retained(was[1..]);
    if rest != [] {
      assert rest[0] in was[1..];
      assert rest[0].version > was[0].version;
    }
  }

  lemma MarkedClose(s: System, q: Queue, policy: Policy, d: Delivery)
    requires Invariant(s, policy) && Closed(s.q, q) && IsHead(s.q.pending, d)
    ensures IsHead(q.pending, d) <==> !GivesWay(s.q, Event.Close, d, policy)
    ensures q.inFlight == s.q.inFlight
  {
    HeadOfRun(s, policy, d);
    hide Invariant, Total, Retained;
    RetainedHead(s.q.pending[d.report.run]);
  }

  /** Over a whole run: until something is settled, the marked report stays the head of its
      run, or one step of the run made it give way. */
  lemma {:induction false} MarkedStaysInRun(states: seq<System>, events: seq<Event>, policy: Policy,
                                            i: nat, j: nat, d: Delivery)
    requires IsRun(states, events, policy) && i <= j < |states|
    requires IsHead(states[i].q.pending, d) && d.version == states[i].q.inFlight
    requires forall k :: i <= k < j ==> !events[k].Settle?
    ensures || (IsHead(states[j].q.pending, d) && states[j].q.inFlight == d.version)
            || exists k :: i <= k < j && GivesWay(states[k].q, events[k], d, policy)
    decreases j
  {
    hide GivesWay, Invariant, Step, IsHead;
    if i == j {
    } else {
      MarkedStaysInRun(states, events, policy, i, j - 1, d);
      if IsHead(states[j - 1].q.pending, d) && states[j - 1].q.inFlight == d.version {
        RunKeeps(states, events, policy, j - 1);
        MarkedStays(states[j - 1], events[j - 1], states[j], policy, d);
      }
    }
  }

  // ---------------------------------------------------------------------
  // Handed over without the mark

  /** Another report of the same kind stands where the last report of the run stood. */
  ghost predicate Overwritten(p: Pending, r: Pending, run: string, version: nat) {
    var was, fit := SequenceOf(p, run), SequenceOf(r, run);
    && was != [] && |fit| == |was| && Last(was).version == version
    && Last(fit).version != version && Last(fit).terminal == Last(was).terminal
  }

  /** A report in hand can be overwritten, by the report of another enqueue, exactly when it
      is the last of its run and was not yet due when its choice began. */
  lemma InHandReplaceable(s: System, policy: Policy)
    requires Invariant(s, policy) && !s.q.closed && s.inHand.Some?
    ensures var d := s.inHand.value;
      (exists report, now, q ::
         Enqueued(s.q, report, now, policy, q) && Overwritten(s.q.pending, q.pending, d.report.run, d.version))
      <==> IsLast(s.q.pending, d.report.run, d.version) && d.due > s.chosenAt
  {
    hide Enqueued, Overwritten;
    var d := s.inHand.value;
    if report, now, q :|
      Enqueued(s.q, report, now, policy, q) && Overwritten(s.q.pending, q.pending, d.report.run, d.version)
    {
      OnlyCoalescing(s, report, now, q, policy, d.report.run, d.version);
    }
    if IsLast(s.q.pending, d.report.run, d.version) && d.due > s.chosenAt {
      var report := CoalescingReport(s, policy);
      hide Invariant;
      OverwritesLast(s.q, report, 0, policy);
    }
  }

  /** Only coalescing overwrites, and never what is marked. */
  lemma OnlyCoalescing(s: System, report: Report, now: int, q: Queue, policy: Policy, run: string, version: nat)
    requires Enqueued(s.q, report, now, policy, q) && Overwritten(s.q.pending, q.pending, run, version)
    ensures IsLast(s.q.pending, run, version) && version != s.q.inFlight
  {
    hide Evicted;
    if !s.q.closed && !Coalesces(s.q, report) && s.q.queued >= policy.capacity && TerminalState(report.state) {
      var room :| Evicted(s.q, room)
        && q == if room.queued < policy.capacity then Appended(room, report, now, policy) else room;
      EvictedShorter(s.q, room, run);
    }
  }

  lemma EvictedShorter(q: Queue, room: Queue, run: string)
    requires Evicted(q, room)
    ensures var was, fit := SequenceOf(q.pending, run), SequenceOf(room.pending, run);
      fit == was || (was != [] && |fit| == |was| - 1 && !Last(was).terminal)
  {
  }

  lemma CoalescingReport(s: System, policy: Policy) returns (report: Report)
    requires Invariant(s, policy) && s.inHand.Some? && s.inHand.value.due > s.chosenAt
    requires IsLast(s.q.pending, s.inHand.value.report.run, s.inHand.value.version)
    ensures report.run == s.inHand.value.report.run && Coalesces(s.q, report)
    ensures Last(s.q.pending[report.run]).version == s.inHand.value.version <= s.q.version
  {
    var run := s.inHand.value.report.run;
    assert SequenceOk(s.q.pending[run], run, ContextOf(s));
    report := Last(s.q.pending[run]).report;
  }

  lemma OverwritesLast(q: Queue, report: Report, now: int, policy: Policy)
    requires !q.closed && Coalesces(q, report) && Last(q.pending[report.run]).version <= q.version
    ensures Enqueued(q, report, now, policy, Replaced(q, report, now, policy))
    ensures Overwritten(q.pending, Replaced(q, report, now, policy).pending, report.run,
                        Last(q.pending[report.run]).version)
  {
  }

  /** A terminal report in hand can be made to disappear by an enqueue exactly when it is the
      last of its run and was not yet due when its choice began. */
  lemma TerminalInHandReplaceable(s: System, policy: Policy)
    requires Invariant(s, policy) && !s.q.closed && s.inHand.Some?
    requires TerminalState(s.inHand.value.report.state)
    requires Holds(s.q.pending, s.inHand.value.report, s.inHand.value.version)
    ensures var d := s.inHand.value;
      (exists report, now, q :: Enqueued(s.q, report, now, policy, q) && !Holds(q.pending, d.report, d.version))
      <==> IsLast(s.q.pending, d.report.run, d.version) && d.due > s.chosenAt
  {
    hide Enqueued, Holds, Invariant;
    var d := s.inHand.value;
    if report, now, q :| Enqueued(s.q, report, now, policy, q) && !Holds(q.pending, d.report, d.version) {
      EnqueueHolds(s, report, now, q, policy, d.report, d.version);
    }
    if IsLast(s.q.pending, d.report.run, d.version) && d.due > s.chosenAt {
      ReplacedInHand(s, policy);
    }
  }

  lemma ReplacedInHand(s: System, policy: Policy)
    requires Invariant(s, policy) && !s.q.closed && s.inHand.Some? && s.inHand.value.due > s.chosenAt
    requires var d := s.inHand.value;
      && TerminalState(d.report.state) && Holds(s.q.pending, d.report, d.version)
      && IsLast(s.q.pending, d.report.run, d.version)
    ensures var d := s.inHand.value;
      Coalesces(s.q, d.report)
      && Enqueued(s.q, d.report, 0, policy, Replaced(s.q, d.report, 0, policy))
      && !Holds(Replaced(s.q, d.report, 0, policy).pending, d.report, d.version)
  {
    hide Invariant, TerminalState;
    InHandAlone(s, policy);
    var d := s.inHand.value;
    var was, fit := s.q.pending[d.report.run], [Fresh(d.report, 0, policy, s.q.version + 1)];
    assert was[..|was| - 1] == [];
    assert SequenceOf(Replaced(s.q, d.report, 0, policy).pending, d.report.run) == fit;
  }

  lemma InHandAlone(s: System, policy: Policy)
    requires Invariant(s, policy) && !s.q.closed && s.inHand.Some? && s.inHand.value.due > s.chosenAt
    requires var d := s.inHand.value;
      && TerminalState(d.report.state) && Holds(s.q.pending, d.report, d.version)
      && IsLast(s.q.pending, d.report.run, d.version)
    ensures var d := s.inHand.value;
      && d.report.run in s.q.pending && |s.q.pending[d.report.run]| == 1
      && s.q.pending[d.report.run][0].version == d.version <= s.q.version
      && s.q.pending[d.report.run][0].terminal && d.version != s.q.inFlight
  {
    hide TerminalState, Pruned;
    var d := s.inHand.value;
    var i := TerminalAtIndex(s, policy, d.report, d.version);
    assert SequenceOk(s.q.pending[d.report.run], d.report.run, ContextOf(s));
    assert s.log[|s.log| - 1].version == d.version;
  }

  // A run in which the report in hand is replaced.
  const RETRYING := Policy(4096, 100, 5000)
  const FINISHED := Report("a", Finished, 1)
  const CANCELLED := Report("a", Cancelled, 2)
  const ADDED := Delivery(FINISHED, 0, 100, 1, true, false)
  const WAITING := Delivery(FINISHED, 100, 200, 1, true, true)
  const ANOTHER := Delivery(CANCELLED, 100, 100, 2, true, false)

  function Alone(d: Delivery, version: nat, inFlight: nat): Queue {
    Queue(map["a" := [d]], 1, version, inFlight, false)
  }

  lemma ChosenAlone(q: Queue, d: Delivery, now: int)
    requires q.pending == map["a" := [d]] && d.report.run == "a" && d.terminal
    ensures Chosen(q, now, if d.due <= now then Deliver(d) else Wait(d))
  {
    assert q.pending["a"] == [d];
    assert forall other :: IsHead(q.pending, other) ==> other == d;
    if d.due <= now {
      assert IsHead(q.pending, d) && OfKind(d, TerminalDue, now);
    }
  }

  /** A terminal report is delivered, fails, and comes due again between the two readings of
      the clock: handed over unmarked, it is replaced while its second delivery is under way. */
  lemma ReplacedWhileDelivered() returns (states: seq<System>, events: seq<Event>)
    ensures IsRun(states, events, RETRYING) && |events| == 5
    ensures states[4].inHand == states[5].inHand == Some(WAITING)
    ensures Holds(states[4].q.pending, FINISHED, 1) && !Holds(states[5].q.pending, FINISHED, 1)
  {
    events := [Enqueue(FINISHED, 0), Next(0, 0), Settle(Failed, 0, 100), Next(99, 100), Enqueue(CANCELLED, 100)];
    states := [START,
               System(Alone(ADDED, 1, 0), None, [], 0),
               System(Alone(ADDED, 1, 1), Some(ADDED), [ADDED], 0),
               System(Alone(WAITING, 1, 0), None, [ADDED], 0),
               System(Alone(WAITING, 1, 0), Some(WAITING), [ADDED, WAITING], 99),
               System(Alone(ANOTHER, 2, 0), Some(WAITING), [ADDED, WAITING], 99)];
    FirstSteps(states[0], states[1], states[2]);
    LastSteps(states[2], states[3], states[4], states[5]);
    assert At(SequenceOf(states[4].q.pending, "a"), 0, FINISHED, 1);
    assert SequenceOf(states[5].q.pending, "a") == [ANOTHER];
  }

  lemma FirstSteps(s: System, t: System, u: System)
    requires s == START && t == System(Alone(ADDED, 1, 0), None, [], 0)
    requires u == System(Alone(ADDED, 1, 1), Some(ADDED), [ADDED], 0)
    ensures Step(s, Enqueue(FINISHED, 0), t, RETRYING) && Step(t, Next(0, 0), u, RETRYING)
  {
    assert SequenceOf(s.q.pending, "a") == [];
    assert [] + [Fresh(FINISHED, 0, RETRYING, 1)] == [ADDED];
    assert Appended(s.q, FINISHED, 0, RETRYING).pending == t.q.pending;
    ChosenAlone(t.q, ADDED, 0);
    assert Handed(t, Deliver(ADDED), 0, 0) == u;
  }

  lemma LastSteps(s: System, t: System, u: System, v: System)
    requires s == System(Alone(ADDED, 1, 1), Some(ADDED), [ADDED], 0)
    requires t == System(Alone(WAITING, 1, 0), None, [ADDED], 0)
    requires u == System(Alone(WAITING, 1, 0), Some(WAITING), [ADDED, WAITING], 99)
    requires v == System(Alone(ANOTHER, 2, 0), Some(WAITING), [ADDED, WAITING], 99)
    ensures Step(s, Settle(Failed, 0, 100), t, RETRYING) && Step(t, Next(99, 100), u, RETRYING)
    ensures Step(u, Enqueue(CANCELLED, 100), v, RETRYING)
  {
    assert SequenceOf(s.q.pending, "a") == [ADDED];
    assert [Retried(ADDED, 0, 100, RETRYING)] + [ADDED][1..] == [WAITING];
    assert Settled(s.q, ADDED, Failed, 0, 100, RETRYING).pending == t.q.pending;
    ChosenAlone(t.q, WAITING, 99);
    assert Handed(t, Wait(WAITING), 99, 100) == u;
    assert SequenceOf(u.q.pending, "a") == [WAITING];
    assert [WAITING][..0] + [Fresh(CANCELLED, 100, RETRYING, 2)] == [ANOTHER];
    assert Replaced(u.q, CANCELLED, 100, RETRYING).pending == v.q.pending;
  }

  // A run in which a running report gives way while it is being delivered.
  const ROOM_FOR_ONE := Policy(1, 100, 5000)
  const RUNNING := Report("a", Running, 1)
  const OTHER := Report("b", Finished, 2)
  const FIRST := Delivery(RUNNING, 0, 100, 1, false, false)
  const SECOND := Delivery(OTHER, 0, 100, 2, true, false)

  /** In a queue with room for one, a terminal report of another run takes the room of the
      running report in flight. */
  lemma GivesWayWhileDelivered() returns (states: seq<System>, events: seq<Event>)
    ensures IsRun(states, events, ROOM_FOR_ONE) && |events| == 3
    ensures states[2].q.inFlight == 1 && IsHead(states[2].q.pending, FIRST) && FIRST.version == 1
    ensures GivesWay(states[2].q, events[2], FIRST, ROOM_FOR_ONE) && !IsHead(states[3].q.pending, FIRST)
  {
    events := [Enqueue(RUNNING, 0), Next(0, 0), Enqueue(OTHER, 0)];
    states := [START,
               System(Alone(FIRST, 1, 0), None, [], 0),
               System(Alone(FIRST, 1, 1), Some(FIRST), [FIRST], 0),
               System(Queue(map["b" := [SECOND]], 1, 2, 1, false), Some(FIRST), [FIRST], 0)];
    TakesInHand(states[0], states[1], states[2]);
    TakesRoom(states[2], states[3]);
  }

  lemma TakesInHand(s: System, t: System, u: System)
    requires s == START && t == System(Alone(FIRST, 1, 0), None, [], 0)
    requires u == System(Alone(FIRST, 1, 1), Some(FIRST), [FIRST], 0)
    ensures Step(s, Enqueue(RUNNING, 0), t, ROOM_FOR_ONE) && Step(t, Next(0, 0), u, ROOM_FOR_ONE)
  {
    assert [] + [Fresh(RUNNING, 0, ROOM_FOR_ONE, 1)] == [FIRST];
    assert Appended(s.q, RUNNING, 0, ROOM_FOR_ONE).pending == t.q.pending;
    assert t.q.pending["a"] == [FIRST];
    assert IsHead(t.q.pending, FIRST) && OfKind(FIRST, RunningDue, 0);
    assert forall other :: IsHead(t.q.pending, other) ==> other == FIRST;
    assert Chosen(t.q, 0, Deliver(FIRST));
    assert Handed(t, Deliver(FIRST), 0, 0) == u;
  }

  lemma TakesRoom(s: System, t: System)
    requires s == System(Alone(FIRST, 1, 1), Some(FIRST), [FIRST], 0)
    requires t == System(Queue(map["b" := [SECOND]], 1, 2, 1, false), Some(FIRST), [FIRST], 0)
    ensures Step(s, Enqueue(OTHER, 0), t, ROOM_FOR_ONE)
    ensures GivesWay(s.q, Enqueue(OTHER, 0), FIRST, ROOM_FOR_ONE) && IsHead(s.q.pending, FIRST)
  {
    assert s.q.pending["a"] == [FIRST];
    assert forall run :: Expendable(s.q.pending, run) <==> run == "a";
    var room := WithoutTail(s.q, "a");
    assert [FIRST][..0] == [];
    assert room.pending == map[];
    assert Evicted(s.q, room);
    assert [] + [Fresh(OTHER, 0, ROOM_FOR_ONE, 2)] == [SECOND];
    assert Appended(room, OTHER, 0, ROOM_FOR_ONE).pending == t.q.pending;
  }
}
