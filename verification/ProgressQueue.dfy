/**
 The progress delivery queue itself: fields updated in place by enqueue, next, settle and
 close, each proved to be a step of the state machine.
 */
module ProgressQueue {
  import opened Wrappers
  import opened ProgressSpec

  /** What one pass over some of the runs knows about the best head of a kind. */
  ghost predicate Best(p: Pending, seen: set<string>, kind: Kind, now: int, found: bool, best: Delivery) {
    && (found ==> IsHead(p, best) && OfKind(best, kind, now))
    && forall run :: run in seen && run in p && p[run] != [] && OfKind(p[run][0], kind, now) ==>
         found && (p[run][0] == best || Before(best, p[run][0]))
  }

  lemma NoEmptySequence(s: System, policy: Policy)
    requires Invariant(s, policy)
    ensures forall run :: run in s.q.pending ==> s.q.pending[run] != []
  {
    InvariantHeads(s, policy);
  }

  lemma BestStep(p: Pending, seen: set<string>, kind: Kind, now: int, found: bool, best: Delivery, run: string)
    requires HeadsApart(p) && run in p && Best(p, seen, kind, now, found, best)
    ensures var head := p[run][0];
      if OfKind(head, kind, now) && (!found || Before(head, best))
      then Best(p, seen + {run}, kind, now, true, head)
      else Best(p, seen + {run}, kind, now, found, best)
  {
  }

  lemma BestIsEarliest(p: Pending, kind: Kind, now: int, found: bool, best: Delivery)
    requires HeadsApart(p) && Best(p, p.Keys, kind, now, found, best)
    ensures found <==> AnyOf(p, kind, now)
    ensures found ==> Earliest(p, best, kind, now)
  {
    forall d | IsHead(p, d) && OfKind(d, kind, now) ensures found && (d == best || Before(best, d)) {
      assert p[d.report.run][0] == d;
    }
  }

  lemma RetainedNothing(s: seq<Delivery>)
    requires s == []
    ensures Retained(s) == []
  {
  }

  lemma RetainedFrom(s: seq<Delivery>, i: nat)
    requires i < |s|
    ensures Retained(s[i..]) == (if s[i].terminal || (i + 1 < |s| && s[i + 1].terminal) then [s[i]] else [])
                                + Retained(s[i + 1..])
  {
    assert s[i..][1..] == s[i + 1..];
  }

  /** Keeps, in place, the reports that closing keeps; they end up in front. */
  method Retain(sequence: array<Delivery>) returns (n: nat)
    modifies sequence
    ensures n <= sequence.Length && sequence[..n] == Retained(old(sequence[..]))
  {
    hide Retained;
    n := 0;
    ghost var was := sequence[..];
    assert was[0..] == was;
    var index := 0;
    while index < sequence.Length
      invariant 0 <= n <= index <= sequence.Length
      invariant sequence[index..] == was[index..]
      invariant sequence[..n] + Retained(was[index..]) == Retained(was)
    {
      RetainedFrom(was, index);
      assert sequence[index] == was[index];
      assert index + 1 < sequence.Length ==> sequence[index + 1] == was[index + 1];
      if sequence[index].terminal || (index + 1 < sequence.Length && sequence[index + 1].terminal) {
        ghost var kept := sequence[..n];
        sequence[n] := sequence[index];
        n := n + 1;
        assert sequence[..n] == kept + [was[index]];
      }
      index := index + 1;
    }
    RetainedNothing(was[index..]);
  }

  class ProgressDeliveryQueue {
    var pending: Pending
    var queued: int
    var version: nat
    var inFlightVersion: nat
    var closed: bool
    const policy: Policy

    /** What the delivery loop holds, and everything it was ever handed. */
    ghost var inHand: Option<Delivery>
    ghost var log: seq<Delivery>

    /** What the clock showed when the choice of the last report began. */
    ghost var chosenAt: int

    ghost function View(): Queue
      reads this
    {
      Queue(pending, queued, version, inFlightVersion, closed)
    }

    ghost function State(): System
      reads this
    {
      System(View(), inHand, log, chosenAt)
    }

    ghost predicate Valid()
      reads this
    {
      Invariant(State(), policy)
    }

    constructor (policy: Policy)
      ensures Valid() && State() == START && this.policy == policy
    {
      this.policy := policy;
      pending, queued, version, inFlightVersion, closed := map[], 0, 0, 0, false;
      inHand, log, chosenAt := None, [], 0;
    }

    method Enqueue(report: Report, now: int)
      requires Valid()
      modifies this
      ensures Step(old(State()), Event.Enqueue(report, now), State(), policy)
      ensures Valid()
    {
      hide Invariant, Evicted, HeadsApart;
      ghost var before := State();
      var terminal := TerminalState(report.state);
      if closed {
        return;
      }
      var sequence := if report.run in pending then pending[report.run] else [];
      if |sequence| > 0 && sequence[|sequence| - 1].terminal == terminal
         && sequence[|sequence| - 1].version != inFlightVersion
      {
        version := version + 1;
        var added := Delivery(report, now, policy.retryMinimum, version, terminal, false);
        pending := pending[report.run := sequence[..|sequence| - 1] + [added]];
        assert View() == Replaced(before.q, report, now, policy);
        hide Replaced;
        StepKeeps(before, Event.Enqueue(report, now), State(), policy);
        return;
      }
      var dropped := false;
      if queued >= policy.capacity {
        if terminal {
          NoEmptySequence(before, policy);
          EvictExpendableRunningTail();
        }
        if queued >= policy.capacity {
          dropped := true;
        }
      }
      ghost var room := View();
      if !dropped {
        version := version + 1;
        var added := Delivery(report, now, policy.retryMinimum, version, terminal, false);
        pending := pending[report.run := (if report.run in pending then pending[report.run] else []) + [added]];
        queued := queued + 1;
        assert View() == Appended(room, report, now, policy);
      }
      hide Appended;
      assert Enqueued(before.q, report, now, policy, View());
      StepKeeps(before, Event.Enqueue(report, now), State(), policy);
    }

    method EvictExpendableRunningTail()
      requires forall run :: run in pending ==> pending[run] != []
      modifies `pending, `queued
      ensures Evicted(old(View()), View())
    {
      var selectedKey := "";
      var selectedVersion := 0;
      var expendableFound := false;
      var keys := pending.Keys;
      while keys != {}
        invariant keys <= pending.Keys
        invariant expendableFound ==>
          Expendable(pending, selectedKey) && Last(pending[selectedKey]).version == selectedVersion
        invariant forall run :: run !in keys && Expendable(pending, run) ==>
          expendableFound && selectedVersion <= Last(pending[run]).version
      {
        var key :| key in keys;
        keys := keys - {key};
        var sequence := pending[key];
        var delivery := sequence[|sequence| - 1];
        if !(delivery.terminal || (|sequence| > 1 && sequence[|sequence| - 2].terminal)) {
          if !expendableFound || delivery.version < selectedVersion {
            selectedKey, selectedVersion, expendableFound := key, delivery.version, true;
          }
        }
      }
      if expendableFound {
        queued := queued - 1;
        var sequence := pending[selectedKey];
        if |sequence| == 1 {
          pending := pending - {selectedKey};
        } else {
          pending := pending[selectedKey := sequence[..|sequence| - 1]];
        }
        assert View() == WithoutTail(old(View()), selectedKey);
      }
    }

    /** What to do next, how long to wait before it, and whether nothing is left and nothing
        will come. The clock is read at the start and once more for a wait; the loop delivers
        what is chosen as soon as there is nothing to wait for. */
    method Next(now: int, later: int) returns (choice: Choice, wait: int, finished: bool)
      requires Valid() && inHand == None && now <= later
      modifies this
      ensures Chosen(old(View()), now, choice) && finished == (choice.Idle? && closed)
      ensures choice.Idle? <==> old(pending) == map[]
      ensures !choice.Idle? ==>
        && FirstInLine(old(pending), choice.delivery, now)
        && (choice.Deliver? <==> choice.delivery.due <= now)
      ensures wait == if choice.Wait? then choice.delivery.due - later else 0
      ensures inHand == if !choice.Idle? && wait <= 0 then Some(choice.delivery) else None
      ensures Step(old(State()), Event.Next(now, later), State(), policy)
      ensures Valid()
    {
      hide Invariant;
      ghost var before := State();
      wait, finished := 0, false;
      if pending == map[] {
        assert Chosen(before.q, now, Idle);
        return Idle, 0, closed;
      }
      InvariantHeads(before, policy);
      choice := Choose(now);
      ChosenFirst(before.q, now, choice);
      hide Chosen, HeadsApart, FirstInLine;
      if choice.Deliver? {
        inFlightVersion := choice.delivery.version;
      } else {
        wait := choice.delivery.due - later;
      }
      if wait <= 0 {
        inHand := Some(choice.delivery);
        log := log + [choice.delivery];
        chosenAt := now;
      }
      assert State() == Handed(before, choice, now, later);
      StepKeeps(before, Event.Next(now, later), State(), policy);
    }

    method Choose(now: int) returns (choice: Choice)
      requires pending != map[] && HeadsApart(pending)
      ensures Chosen(View(), now, choice) && !choice.Idle?
      ensures FirstInLine(pending, choice.delivery, now) && (choice.Deliver? <==> choice.delivery.due <= now)
    {
      var some :| some in pending;
      var readyTerminal, readyRunning, future := pending[some][0], pending[some][0], pending[some][0];
      var foundTerminal, foundRunning, foundFuture := false, false, false;
      var keys := pending.Keys;
      ghost var seen: set<string> := {};
      while keys != {}
        invariant keys <= pending.Keys && seen + keys == pending.Keys
        invariant Best(pending, seen, TerminalDue, now, foundTerminal, readyTerminal)
        invariant Best(pending, seen, RunningDue, now, foundRunning, readyRunning)
        invariant Best(pending, seen, Later, now, foundFuture, future)
      {
        var key :| key in keys;
        keys := keys - {key};
        var delivery := pending[key][0];
        BestStep(pending, seen, TerminalDue, now, foundTerminal, readyTerminal, key);
        BestStep(pending, seen, RunningDue, now, foundRunning, readyRunning, key);
        BestStep(pending, seen, Later, now, foundFuture, future, key);
        seen := seen + {key};
        hide Best;
        if delivery.due > now {
          if !foundFuture || Before(delivery, future) {
            future := delivery;
            foundFuture := true;
          }
        } else if delivery.terminal {
          if !foundTerminal || Before(delivery, readyTerminal) {
            readyTerminal := delivery;
            foundTerminal := true;
          }
        } else if !foundRunning || Before(delivery, readyRunning) {
          readyRunning := delivery;
          foundRunning := true;
        }
      }
      assert seen == pending.Keys;
      BestIsEarliest(pending, TerminalDue, now, foundTerminal, readyTerminal);
      BestIsEarliest(pending, RunningDue, now, foundRunning, readyRunning);
      BestIsEarliest(pending, Later, now, foundFuture, future);
      hide Best, Earliest;
      if foundTerminal {
        choice := Deliver(readyTerminal);
      } else if foundRunning {
        choice := Deliver(readyRunning);
      } else {
        SomeKind(pending, some, now);
        choice := Wait(future);
      }
      ChosenFirst(View(), now, choice);
      hide FirstInLine;
    }

    /** Settles the report in hand with the node's answer. */
    method Settle(delivery: Delivery, outcome: Outcome, now: int, jitter: int)
      requires Valid() && inHand == Some(delivery)
      modifies this
      ensures Step(old(State()), Event.Settle(outcome, now, jitter), State(), policy)
      ensures Valid()
    {
      hide Invariant;
      ghost var before := State();
      NoEmptySequence(before, policy);
      var key := delivery.report.run;
      if inFlightVersion == delivery.version {
        inFlightVersion := 0;
      }
      if key in pending && pending[key][0].version == delivery.version {
        var sequence := pending[key];
        var current := sequence[0];
        if outcome == Accepted || outcome == LeaseLost || !current.terminal {
          RemoveHead(key, sequence, now);
        } else {
          current := current.(warned := true);
          current := current.(due := now + jitter);
          current := current.(retryWait := if policy.retryMaximum < current.retryWait * 2
                                           then policy.retryMaximum else current.retryWait * 2);
          pending := pending[key := [current] + sequence[1..]];
        }
      }
      inHand := None;
      assert View() == Settled(before.q, delivery, outcome, now, jitter, policy);
      hide Settled;
      StepKeeps(before, Event.Settle(outcome, now, jitter), State(), policy);
    }

    method RemoveHead(key: string, sequence: seq<Delivery>, now: int)
      requires key in pending && pending[key] == sequence && sequence != []
      modifies `pending, `queued
      ensures queued == old(queued) - 1 && pending == With(old(pending), key, WithoutHead(sequence, now))
    {
      queued := queued - 1;
      if |sequence| == 1 {
        pending := pending - {key};
        return;
      }
      var remaining := sequence[1..];
      if !remaining[0].terminal {
        remaining := [remaining[0].(due := now)] + remaining[1..];
      }
      pending := pending[key := remaining];
    }

    /** Closing drops what another report of the run supersedes. */
    method PruneSequence(key: string)
      requires key in pending
      modifies `pending, `queued
      ensures pending == With(old(pending), key, Retained(old(pending)[key]))
      ensures queued == old(queued) - Total(old(pending)) + Total(pending)
    {
      hide Total, Retained;
      var reports := pending[key];
      var sequence := new Delivery[|reports|](i requires 0 <= i < |reports| => reports[i]);
      assert sequence[..] == reports;
      var n := Retain(sequence);
      TotalWith(pending, key, sequence[..n]);
      queued := queued - (sequence.Length - n);
      if n == 0 {
        pending := pending - {key};
      } else {
        pending := pending[key := sequence[..n]];
      }
    }

    method Close()
      requires Valid()
      modifies this
      ensures closed && Step(old(State()), Event.Close, State(), policy)
      ensures Valid()
    {
      hide Invariant, Retained, HalfClosed;
      ghost var before := State();
      if !closed {
        closed := true;
        var keys := pending.Keys;
        HalfClosedEnds(before.q.pending);
        while keys != {}
          invariant keys <= before.q.pending.Keys
          invariant closed && version == before.q.version && inFlightVersion == before.q.inFlight
          invariant inHand == before.inHand && log == before.log && chosenAt == before.chosenAt
          invariant pending == HalfClosed(before.q.pending, keys)
          invariant queued == before.q.queued - Total(before.q.pending) + Total(pending)
        {
          var key :| key in keys;
          HalfClosedAt(before.q.pending, keys, key);
          keys := keys - {key};
          PruneSequence(key);
        }
      }
      StepKeeps(before, Event.Close, State(), policy);
    }
  }

  lemma SomeKind(p: Pending, some: string, now: int)
    requires some in p && HeadsApart(p)
    ensures AnyOf(p, TerminalDue, now) || AnyOf(p, RunningDue, now) || AnyOf(p, Later, now)
  {
    var d := p[some][0];
    assert IsHead(p, d);
    assert OfKind(d, TerminalDue, now) || OfKind(d, RunningDue, now) || OfKind(d, Later, now);
  }


  /** The sequences while closing, when the runs in `keys` are still as they were. */
  ghost function HalfClosed(p: Pending, keys: set<string>): Pending {
    map run | run in p && (run in keys || Retained(p[run]) != []) :: if run in keys then p[run] else Retained(p[run])
  }

  lemma HalfClosedEnds(p: Pending)
    ensures HalfClosed(p, p.Keys) == p
    ensures HalfClosed(p, {}) == map run | run in p && Retained(p[run]) != [] :: Retained(p[run])
  {
    hide Retained;
    assert HalfClosed(p, p.Keys).Keys == p.Keys;
  }

  lemma HalfClosedAt(p: Pending, keys: set<string>, key: string)
    requires key in keys && key in p
    ensures key in HalfClosed(p, keys) && HalfClosed(p, keys)[key] == p[key]
    ensures HalfClosed(p, keys - {key}) == With(HalfClosed(p, keys), key, Retained(p[key]))
  {
  }
}
