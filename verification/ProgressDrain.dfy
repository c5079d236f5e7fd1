/**
 A queue that takes no more reports drains: as many rounds of handing over and settling as it
 holds reports, no more and no fewer, leave it empty.
 */
module ProgressDrain {
  import opened Wrappers
  import opened ProgressSpec
  import opened ProgressQueue

  /** One turn of the delivery loop that ends in an acknowledgment or in a lost lease. */
  datatype Round = Round(now: int, later: int, outcome: Outcome, at: int, jitter: int)

  /** Everything has come due when the clock is read the second time. */
  ghost predicate AllDue(p: Pending, later: int) {
    forall d :: IsHead(p, d) ==> d.due <= later
  }

  ghost predicate TakesRound(s: System, r: Round, t: System, policy: Policy) {
    && r.outcome != Failed && AllDue(s.q.pending, r.later)
    && exists mid :: Step(s, Next(r.now, r.later), mid, policy) && Step(mid, Settle(r.outcome, r.at, r.jitter), t, policy)
  }

  ghost predicate IsDraining(states: seq<System>, rounds: seq<Round>, policy: Policy) {
    && |states| == |rounds| + 1
    && forall i :: 0 <= i < |rounds| ==> TakesRound(states[i], rounds[i], states[i + 1], policy)
  }

  // ---------------------------------------------------------------------
  // One round

  lemma ChosenIsHead(q: Queue, now: int, choice: Choice)
    requires Chosen(q, now, choice)
    ensures choice == Idle <==> q.pending == map[]
    ensures choice != Idle ==> IsHead(q.pending, choice.delivery)
  {
  }

  lemma SettledShorter(q: Queue, d: Delivery, outcome: Outcome, now: int, jitter: int, policy: Policy)
    requires IsHead(q.pending, d) && outcome != Failed
    ensures var r := Settled(q, d, outcome, now, jitter, policy);
      r.queued == q.queued - 1 && r.closed == q.closed
  {
  }

  /** A round is possible only while something is pending, and takes one report out. */
  lemma RoundTakesOne(s: System, r: Round, t: System, policy: Policy)
    requires Invariant(s, policy) && s.inHand == None && TakesRound(s, r, t, policy)
    ensures Invariant(t, policy) && t.inHand == None && t.q.closed == s.q.closed
    ensures s.q.pending != map[] && t.q.queued == s.q.queued - 1
  {
    hide Invariant, Chosen, Settled;
    var mid :| Step(s, Next(r.now, r.later), mid, policy) && Step(mid, Settle(r.outcome, r.at, r.jitter), t, policy);
    StepKeeps(s, Next(r.now, r.later), mid, policy);
    StepKeeps(mid, Settle(r.outcome, r.at, r.jitter), t, policy);
    var choice :| Chosen(s.q, r.now, choice) && mid == Handed(s, choice, r.now, r.later);
    ChosenIsHead(s.q, r.now, choice);
    SettledShorter(mid.q, mid.inHand.value, r.outcome, r.at, r.jitter, policy);
  }

  /** The count says whether anything is pending. */
  lemma EmptyWhenCounted(s: System, policy: Policy)
    requires Invariant(s, policy)
    ensures s.q.queued >= 0 && (s.q.queued == 0 <==> s.q.pending == map[])
  {
    hide HandConsistent;
    if s.q.pending != map[] {
      var run :| run in s.q.pending;
      assert SequenceOk(s.q.pending[run], run, ContextOf(s));
      TotalSplit(s.q.pending, run);
    }
  }

  // ---------------------------------------------------------------------
  // All rounds

  lemma {:induction false} RoundsTakeAll(states: seq<System>, rounds: seq<Round>, policy: Policy, k: nat)
    requires IsDraining(states, rounds, policy) && k < |states|
    requires Invariant(states[0], policy) && states[0].inHand == None
    ensures Invariant(states[k], policy) && states[k].inHand == None && states[k].q.closed == states[0].q.closed
    ensures states[k].q.queued == states[0].q.queued - k
  {
    hide Invariant, TakesRound;
    if k == 0 {
    } else {
      RoundsTakeAll(states, rounds, policy, k - 1);
      RoundTakesOne(states[k - 1], rounds[k - 1], states[k], policy);
    }
  }

  /** From a closed queue and free hands: however reports are chosen, there are never more
      rounds than reports, and after just as many, and only then, nothing is pending and the
      delivery loop is told to end. */
  lemma Drains(states: seq<System>, rounds: seq<Round>, policy: Policy, now: int)
    requires IsDraining(states, rounds, policy)
    requires Invariant(states[0], policy) && states[0].inHand == None && states[0].q.closed
    ensures |rounds| <= states[0].q.queued
    ensures var last := states[|rounds|].q;
      last.closed && (|rounds| == states[0].q.queued <==> Chosen(last, now, Idle))
  {
    hide TakesRound, Invariant;
    RoundsTakeAll(states, rounds, policy, |rounds|);
    EmptyWhenCounted(states[|rounds|], policy);
  }

  // ---------------------------------------------------------------------
  // The rounds are possible

  lemma BestOfNone(p: Pending, kind: Kind, now: int, best: Delivery)
    ensures Best(p, {}, kind, now, false, best)
  {
  }

  lemma EarliestExists(p: Pending, kind: Kind, now: int) returns (best: Delivery)
    requires HeadsApart(p) && AnyOf(p, kind, now)
    ensures Earliest(p, best, kind, now)
  {
    best :| IsHead(p, best) && OfKind(best, kind, now);
    hide HeadsApart, AnyOf, Earliest, Best, IsHead;
    var found, seen: set<string> := false, {};
    BestOfNone(p, kind, now, best);
    while seen != p.Keys
      invariant seen <= p.Keys && Best(p, seen, kind, now, found, best)
      decreases |p.Keys - seen|
    {
      var run :| run in p.Keys - seen;
      BestStep(p, seen, kind, now, found, best, run);
      var head := p[run][0];
      if OfKind(head, kind, now) && (!found || Before(head, best)) {
        found, best := true, head;
      }
      assert p.Keys - (seen + {run}) == (p.Keys - seen) - {run};
      seen := seen + {run};
    }
    BestIsEarliest(p, kind, now, found, best);
  }

  lemma ChoiceExists(s: System, now: int, policy: Policy) returns (choice: Choice)
    requires Invariant(s, policy)
    ensures Chosen(s.q, now, choice)
  {
    InvariantHeads(s, policy);
    hide Invariant, HeadsApart, AnyOf, Earliest;
    var p := s.q.pending;
    if p == map[] {
      choice := Idle;
    } else {
      var run :| run in p;
      SomeKind(p, run, now);
      var kind := if AnyOf(p, TerminalDue, now) then TerminalDue else if AnyOf(p, RunningDue, now) then RunningDue else Later;
      var best := EarliestExists(p, kind, now);
      choice := if kind == Later then Wait(best) else Deliver(best);
    }
  }

  lemma {:induction false} LatestDue(p: Pending, keys: set<string>, from: int) returns (later: int)
    requires keys <= p.Keys
    ensures later >= from && forall d :: IsHead(p, d) && d.report.run in keys ==> d.due <= later
  {
    if keys == {} {
      later := from;
    } else {
      var run :| run in keys;
      later := LatestDue(p, keys - {run}, from);
      if p[run] != [] && p[run][0].due > later {
        later := p[run][0].due;
      }
    }
  }

  lemma RoundExists(s: System, policy: Policy, now: int) returns (r: Round, t: System)
    requires Invariant(s, policy) && s.inHand == None && s.q.pending != map[]
    ensures TakesRound(s, r, t, policy)
  {
    hide Invariant, Chosen, Settled, Enqueued, Closed;
    var choice := ChoiceExists(s, now, policy);
    var later := LatestDue(s.q.pending, s.q.pending.Keys, now);
    ChosenIsHead(s.q, now, choice);
    r := Round(now, later, Accepted, later, 0);
    assert AllDue(s.q.pending, later);
    var mid := Handed(s, choice, now, later);
    t := mid.(q := Settled(mid.q, choice.delivery, Accepted, later, 0, policy), inHand := None);
    assert Step(s, Next(now, later), mid, policy) && Step(mid, Settle(Accepted, later, 0), t, policy);
  }

  /** Rounds enough to drain the queue, whatever it holds. */
  lemma {:induction false} DrainExists(s: System, policy: Policy, now: int)
    returns (states: seq<System>, rounds: seq<Round>)
    requires Invariant(s, policy) && s.inHand == None
    ensures IsDraining(states, rounds, policy) && states[0] == s && |rounds| == s.q.queued
    decreases s.q.queued
  {
    hide Invariant, TakesRound;
    EmptyWhenCounted(s, policy);
    if s.q.pending == map[] {
      states, rounds := [s], [];
    } else {
      var r, t := RoundExists(s, policy, now);
      RoundTakesOne(s, r, t, policy);
      var later, rest := DrainExists(t, policy, now);
      states, rounds := [s] + later, [r] + rest;
    }
  }
}
