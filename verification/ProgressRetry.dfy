/**
 What becomes of reports when they come in and when they are settled: what is accepted and
 how it waits, and how the wait of a terminal report that keeps failing grows.
 */
module ProgressRetry {
  import opened Wrappers
  import opened ProgressSpec

  // ---------------------------------------------------------------------
  // Coming in

  /** An open queue takes a running report exactly when it takes the place of an older one or
      there is room, and then it is due at once and waits the least; a closed queue takes none. */
  lemma RunningAccepted(s: System, report: Report, now: int, q: Queue, policy: Policy)
    requires Invariant(s, policy) && Enqueued(s.q, report, now, policy, q) && !TerminalState(report.state)
    ensures var accepted := !s.q.closed && (Coalesces(s.q, report) || s.q.queued < policy.capacity);
      && (accepted <==> q != s.q)
      && (accepted ==>
            && q.version == s.q.version + 1 && report.run in q.pending && q.pending[report.run] != []
            && Last(q.pending[report.run]) == Delivery(report, now, policy.retryMinimum, q.version, false, false))
  {
    hide Invariant;
  }

  /** A terminal report that is taken is the last of its run, due at once, and waits the least. */
  lemma TerminalAccepted(s: System, report: Report, now: int, q: Queue, policy: Policy)
    requires Enqueued(s.q, report, now, policy, q) && TerminalState(report.state) && q.version != s.q.version
    ensures q.version == s.q.version + 1 && report.run in q.pending && q.pending[report.run] != []
    ensures Last(q.pending[report.run]) == Delivery(report, now, policy.retryMinimum, q.version, true, false)
  {
    hide Evicted;
    if !s.q.closed && !Coalesces(s.q, report) && s.q.queued >= policy.capacity {
      var room :| Evicted(s.q, room)
        && q == if room.queued < policy.capacity then Appended(room, report, now, policy) else room;
      EvictedVersion(s.q, room);
    }
  }

  lemma EvictedVersion(q: Queue, room: Queue)
    requires Evicted(q, room)
    ensures room.version == q.version
  {
  }

  // ---------------------------------------------------------------------
  // Being settled

  /** What settling the head of a run does, report by report: a terminal one that failed stays
      in front and waits anew, any other goes; a running one next in line is due at once, and
      nothing else changes. */
  lemma SettlesAs(q: Queue, d: Delivery, outcome: Outcome, now: int, jitter: int, policy: Policy)
    requires SequenceOf(q.pending, d.report.run) != [] && SequenceOf(q.pending, d.report.run)[0].version == d.version
    ensures var r := Settled(q, d, outcome, now, jitter, policy);
      var was, fit := SequenceOf(q.pending, d.report.run), SequenceOf(r.pending, d.report.run);
      && (forall run :: run != d.report.run ==> SequenceOf(r.pending, run) == SequenceOf(q.pending, run))
      && if outcome == Failed && was[0].terminal then
           && |fit| == |was| && r.queued == q.queued && (forall i :: 1 <= i < |was| ==> fit[i] == was[i])
           && fit[0].report == was[0].report && fit[0].version == was[0].version && fit[0].terminal && fit[0].warned
           && fit[0].due == now + jitter
           && fit[0].retryWait <= policy.retryMaximum && fit[0].retryWait <= 2 * was[0].retryWait
           && (fit[0].retryWait == policy.retryMaximum || fit[0].retryWait == 2 * was[0].retryWait)
         else
           && |fit| == |was| - 1 && r.queued == q.queued - 1 && (forall i :: 1 <= i < |fit| ==> fit[i] == was[i + 1])
           && (fit != [] ==> fit[0] == if was[1].terminal then was[1] else was[1].(due := now))
  {
  }

  /** A report that is no longer the head of its run is settled without a change to what is
      pending. */
  lemma SettlesNothing(q: Queue, d: Delivery, outcome: Outcome, now: int, jitter: int, policy: Policy)
    requires var was := SequenceOf(q.pending, d.report.run); was == [] || was[0].version != d.version
    ensures var r := Settled(q, d, outcome, now, jitter, policy); r.pending == q.pending && r.queued == q.queued
  {
  }

  // ---------------------------------------------------------------------
  // How long it waits

  function Doublings(n: nat): nat {
    if n == 0 then 1 else 2 * Doublings(n - 1)
  }

  /** The wait after so many failures. */
  function WaitAfter(policy: Policy, failures: nat): int {
    var wait := policy.retryMinimum * Doublings(failures);
    if failures > 0 && policy.retryMaximum < wait then policy.retryMaximum else wait
  }

  /** How often a report of a run was handed over. */
  function HandedOver(log: seq<Delivery>, run: string, version: nat): nat {
    if log == [] then 0
    else
      var last := log[|log| - 1];
      HandedOver(log[..|log| - 1], run, version) + if last.report.run == run && last.version == version then 1 else 0
  }

  /** How often it failed: as often as it was handed over, but for the delivery under way. */
  function Failures(s: System, run: string, version: nat): int {
    HandedOver(s.log, run, version)
    - if s.inHand.Some? && s.inHand.value.report.run == run && s.inHand.value.version == version then 1 else 0
  }

  /** Every pending report waits as its failures make it, doubling from the least to the most. */
  ghost predicate Waits(s: System, policy: Policy) {
    forall run, i :: run in s.q.pending && 0 <= i < |s.q.pending[run]| ==> WaitsAt(s, policy, run, s.q.pending[run][i])
  }

  ghost predicate WaitsAt(s: System, policy: Policy, run: string, d: Delivery) {
    Failures(s, run, d.version) >= 0 && d.retryWait == WaitAfter(policy, Failures(s, run, d.version))
  }

  lemma DoublesOnce(policy: Policy, failures: nat)
    requires policy.retryMaximum >= 0
    ensures WaitAfter(policy, failures + 1) ==
      var twice := 2 * WaitAfter(policy, failures); if policy.retryMaximum < twice then policy.retryMaximum else twice
  {
    assert policy.retryMinimum * (2 * Doublings(failures)) == 2 * (policy.retryMinimum * Doublings(failures));
  }

  lemma {:induction false} NewNeverHanded(log: seq<Delivery>, run: string, version: nat)
    requires forall k :: 0 <= k < |log| ==> log[k].version < version
    ensures HandedOver(log, run, version) == 0
  {
    if log == [] {
    } else {
      NewNeverHanded(log[..|log| - 1], run, version);
    }
  }

  lemma HandedMore(log: seq<Delivery>, d: Delivery, run: string, version: nat)
    ensures HandedOver(log + [d], run, version) ==
      HandedOver(log, run, version) + if d.report.run == run && d.version == version then 1 else 0
  {
    assert (log + [d])[..|log|] == log;
  }

  /** Reports of a run are those that were there, or the new one. */
  ghost predicate OldOrNew(was: seq<Delivery>, fit: seq<Delivery>, added: Delivery) {
    forall i :: 0 <= i < |fit| ==> fit[i] in was || fit[i] == added
  }

  lemma EnqueuedOldOrNew(q: Queue, report: Report, now: int, r: Queue, policy: Policy, run: string)
    requires Enqueued(q, report, now, policy, r) && run in r.pending
    ensures OldOrNew(SequenceOf(q.pending, run), r.pending[run], Fresh(report, now, policy, q.version + 1))
  {
    hide Evicted;
    var was, added := SequenceOf(q.pending, run), Fresh(report, now, policy, q.version + 1);
    if !q.closed && Coalesces(q, report) {
      if run == report.run { FrontAndNew(was, |was| - 1, added); }
    } else if !q.closed && q.queued < policy.capacity {
      if run == report.run { FrontAndNew(was, |was|, added); }
    } else if !q.closed && TerminalState(report.state) {
      var room :| Evicted(q, room)
        && r == if room.queued < policy.capacity then Appended(room, report, now, policy) else room;
      EvictedFront(q, room, run);
      var n := |SequenceOf(room.pending, run)|;
      FrontAndNew(was, n, added);
    }
  }

  lemma FrontAndNew(was: seq<Delivery>, n: nat, added: Delivery)
    requires n <= |was|
    ensures OldOrNew(was, was[..n], added) && OldOrNew(was, was[..n] + [added], added)
  {
    forall i | 0 <= i < n ensures was[..n][i] in was {
      assert was[..n][i] == was[i];
    }
  }

  lemma EvictedFront(q: Queue, room: Queue, run: string)
    requires Evicted(q, room)
    ensures room.version == q.version
    ensures var was, left := SequenceOf(q.pending, run), SequenceOf(room.pending, run);
      |left| <= |was| && left == was[..|left|]
  {
  }

  lemma EnqueueWaits(s: System, report: Report, now: int, q: Queue, policy: Policy)
    requires Invariant(s, policy) && Waits(s, policy) && Enqueued(s.q, report, now, policy, q)
    ensures Waits(s.(q := q), policy)
  {
    hide Invariant, Enqueued, WaitsAt, HandedOver, WaitAfter, OldOrNew;
    var t, added := s.(q := q), Fresh(report, now, policy, s.q.version + 1);
    LogVersions(s, policy);
    forall run, i | run in q.pending && 0 <= i < |q.pending[run]| ensures WaitsAt(t, policy, run, q.pending[run][i]) {
      EnqueuedOldOrNew(s.q, report, now, q, policy, run);
      var d, was := q.pending[run][i], SequenceOf(s.q.pending, run);
      OneOfThem(was, q.pending[run], added, i);
      if d in was {
        var j :| 0 <= j < |was| && was[j] == d;
        SameWaits(s, t, policy, run, d);
      } else {
        NewNeverHanded(s.log, run, added.version);
        FreshWaits(t, policy, run, added);
      }
    }
  }

  lemma OneOfThem(was: seq<Delivery>, fit: seq<Delivery>, added: Delivery, i: nat)
    requires OldOrNew(was, fit, added) && i < |fit|
    ensures fit[i] in was || fit[i] == added
  {
  }

  lemma LogVersions(s: System, policy: Policy)
    requires Invariant(s, policy)
    ensures forall k :: 0 <= k < |s.log| ==> s.log[k].version <= s.q.version
    ensures s.inHand.Some? ==> s.inHand.value.version <= s.q.version
  {
    hide Sequences;
    if s.inHand.Some? { assert s.inHand.value == s.log[|s.log| - 1]; }
  }

  lemma SameWaits(s: System, t: System, policy: Policy, run: string, d: Delivery)
    requires WaitsAt(s, policy, run, d) && Failures(t, run, d.version) == Failures(s, run, d.version)
    ensures WaitsAt(t, policy, run, d)
  {
  }

  lemma FreshWaits(t: System, policy: Policy, run: string, added: Delivery)
    requires Failures(t, run, added.version) == 0 && added.retryWait == policy.retryMinimum
    ensures WaitsAt(t, policy, run, added)
  {
  }

  lemma NextWaits(s: System, d: Delivery, t: System, policy: Policy)
    requires Waits(s, policy) && s.inHand == None && t.inHand == Some(d) && t.log == s.log + [d] && t.q.pending == s.q.pending
    ensures Waits(t, policy)
  {
    hide WaitsAt;
    forall run, i | run in t.q.pending && 0 <= i < |t.q.pending[run]| ensures WaitsAt(t, policy, run, t.q.pending[run][i]) {
      var e := s.q.pending[run][i];
      HandedMore(s.log, d, run, e.version);
      SameWaits(s, t, policy, run, e);
    }
  }

  /** No report behind the head of its run has the version of the report in hand. */
  lemma HandIsHead(s: System, policy: Policy, run: string)
    requires Invariant(s, policy) && s.inHand.Some? && s.inHand.value.report.run == run
    ensures forall i :: 0 < i < |SequenceOf(s.q.pending, run)| ==>
      SequenceOf(s.q.pending, run)[i].version != s.inHand.value.version
  {
    if run in s.q.pending {
      assert SequenceOk(s.q.pending[run], run, ContextOf(s));
      assert s.log[|s.log| - 1] == s.inHand.value;
    }
  }

  lemma SettleWaits(s: System, outcome: Outcome, now: int, jitter: int, policy: Policy)
    requires Invariant(s, policy) && Waits(s, policy) && s.inHand.Some? && policy.retryMaximum >= 0
    ensures Waits(s.(q := Settled(s.q, s.inHand.value, outcome, now, jitter, policy), inHand := None), policy)
  {
    hide Invariant, Settled, WaitsAt, WaitAfter, HandedOver;
    var d := s.inHand.value;
    var r := Settled(s.q, d, outcome, now, jitter, policy);
    var t := s.(q := r, inHand := None);
    var was := SequenceOf(s.q.pending, d.report.run);
    if was != [] && was[0].version == d.version {
      SettlesAs(s.q, d, outcome, now, jitter, policy);
    } else {
      SettlesNothing(s.q, d, outcome, now, jitter, policy);
    }
    HandIsHead(s, policy, d.report.run);
    forall run, i | run in r.pending && 0 <= i < |r.pending[run]| ensures WaitsAt(t, policy, run, r.pending[run][i]) {
      if run != d.report.run || was == [] || was[0].version != d.version {
        assert r.pending[run] == SequenceOf(s.q.pending, run);
        SameWaits(s, t, policy, run, r.pending[run][i]);
      } else {
        SettledWaits(s, t, outcome, now, jitter, policy, i);
      }
    }
  }

  lemma SettledWaits(s: System, t: System, outcome: Outcome, now: int, jitter: int, policy: Policy, i: nat)
    requires Invariant(s, policy) && Waits(s, policy) && s.inHand.Some? && policy.retryMaximum >= 0
    requires var d := s.inHand.value;
      && t == s.(q := Settled(s.q, d, outcome, now, jitter, policy), inHand := None)
      && SequenceOf(s.q.pending, d.report.run) != [] && SequenceOf(s.q.pending, d.report.run)[0].version == d.version
      && i < |SequenceOf(t.q.pending, d.report.run)|
    ensures WaitsAt(t, policy, s.inHand.value.report.run, SequenceOf(t.q.pending, s.inHand.value.report.run)[i])
  {
    hide Invariant, Settled, WaitAfter, HandedOver;
    var d := s.inHand.value;
    var run := d.report.run;
    var was, fit := s.q.pending[run], SequenceOf(t.q.pending, run);
    SettlesAs(s.q, d, outcome, now, jitter, policy);
    HandIsHead(s, policy, run);
    if outcome == Failed && was[0].terminal {
      assert WaitsAt(s, policy, run, was[i]);
      if i == 0 { DoublesOnce(policy, Failures(s, run, d.version)); }
    } else {
      assert WaitsAt(s, policy, run, was[i + 1]);
    }
  }

  lemma {:induction false} RetainedThere(s: seq<Delivery>)
    ensures forall j :: 0 <= j < |Retained(s)| ==> Retained(s)[j] in s
  {
    if s == [] {
    } else {
      RetainedThere(s[1..]);
    }
  }

  lemma CloseWaits(s: System, q: Queue, policy: Policy)
    requires Waits(s, policy) && Closed(s.q, q)
    ensures Waits(s.(q := q), policy)
  {
    var t := s.(q := q);
    hide WaitsAt, Retained, Total;
    forall run, i | run in q.pending && 0 <= i < |q.pending[run]| ensures WaitsAt(t, policy, run, q.pending[run][i]) {
      RetainedThere(s.q.pending[run]);
      var j :| 0 <= j < |s.q.pending[run]| && s.q.pending[run][j] == q.pending[run][i];
      SameWaits(s, t, policy, run, s.q.pending[run][j]);
    }
  }

  lemma StepWaits(s: System, e: Event, t: System, policy: Policy)
    requires Invariant(s, policy) && Waits(s, policy) && Step(s, e, t, policy) && policy.retryMaximum >= 0
    ensures Waits(t, policy)
  {
    hide Invariant, Waits, Enqueued, Chosen, Settled, Closed;
    match e
    case Enqueue(report, now) => EnqueueWaits(s, report, now, t.q, policy);
    case Next(now, later) =>
      if t.inHand.Some? { NextWaits(s, t.inHand.value, t, policy); }
    case Settle(outcome, now, jitter) => SettleWaits(s, outcome, now, jitter, policy);
    case Close => CloseWaits(s, t.q, policy);
  }

  /** In every state of every run, every pending report that has failed so many times waits the
      least wait doubled as often, up to the most; one that never failed waits the least. */
  lemma RetryWaits(states: seq<System>, events: seq<Event>, policy: Policy, i: nat, run: string, j: nat)
    requires IsRun(states, events, policy) && i < |states| && policy.retryMaximum >= 0
    requires run in states[i].q.pending && j < |states[i].q.pending[run]|
    ensures var d := states[i].q.pending[run][j];
      Failures(states[i], run, d.version) >= 0 && d.retryWait == WaitAfter(policy, Failures(states[i], run, d.version))
  {
    AllWait(states, events, policy, i);
    assert WaitsAt(states[i], policy, run, states[i].q.pending[run][j]);
  }

  lemma {:induction false} AllWait(states: seq<System>, events: seq<Event>, policy: Policy, i: nat)
    requires IsRun(states, events, policy) && i < |states| && policy.retryMaximum >= 0
    ensures Waits(states[i], policy)
  {
    hide Invariant, Step;
    if i == 0 {
    } else {
      AllWait(states, events, policy, i - 1);
      hide Waits;
      RunKeeps(states, events, policy, i - 1);
      StepWaits(states[i - 1], events[i - 1], states[i], policy);
    }
  }
}
