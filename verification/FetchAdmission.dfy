/**
 The session gate and the admission as programs whose operations are runs of the
 admission's state machine.
 */
module FetchAdmission {
  import opened Wrappers
  import opened FetchStart

  class SessionGate {
    var connected: bool
    var generation: nat

    /** How often the signal a waiter holds was closed and replaced. */
    var changes: nat

    /** A generation belongs to one state of the connection. */
    ghost predicate Valid()
      reads this
    {
      changes == generation && (connected <==> generation % 2 == 1)
    }

    constructor ()
      ensures Valid() && !connected && generation == 0
    {
      connected, generation, changes := false, 0, 0;
    }

    method Connected()
      requires Valid()
      modifies this
      ensures Valid() && connected && generation == old(generation) + (if old(connected) then 0 else 1)
    {
      SetConnected(true);
    }

    method Disconnected()
      requires Valid()
      modifies this
      ensures Valid() && !connected && generation == old(generation) + (if old(connected) then 1 else 0)
    {
      SetConnected(false);
    }

    /** The state and the generation it belongs to, of one moment. */
    method Snapshot() returns (current: bool, session: nat, signal: nat)
      requires Valid()
      ensures current == connected && session == generation && signal == changes
      ensures current <==> session % 2 == 1
    {
      return connected, generation, changes;
    }

    method SetConnected(now: bool)
      requires Valid()
      modifies this
      ensures Valid() && connected == now && generation == old(generation) + (if old(connected) == now then 0 else 1)
    {
      if connected == now {
        return;
      }
      connected := now;
      generation := generation + 1;
      changes := changes + 1;
    }
  }

  /** Permits looked at one after another, each with its reading of the clock. */
  ghost function Uses(readings: seq<int>, n: nat): (events: seq<Event>)
    requires n <= |readings|
  {
    if n == 0 then [] else Uses(readings, n - 1) + [UsePermit(readings[n - 1])]
  }

  ghost function Changes(changes: seq<bool>, n: nat): seq<Event>
    requires n <= |changes|
  {
    if n == 0 then [] else Changes(changes, n - 1) + [SetConnected(changes[n - 1])]
  }

  /** The log after some permits were passed over, and nothing else happened. */
  ghost predicate Passed(before: seq<Entry>, after: seq<Entry>) {
    before <= after && forall k :: |before| <= k < |after| ==> after[k].PassedOver?
  }

  lemma PassedNone(log: seq<Entry>)
    ensures Passed(log, log)
  {
  }

  lemma PassedMore(a: seq<Entry>, b: seq<Entry>, c: seq<Entry>)
    requires Passed(a, b) && |c| == |b| + 1 && b <= c && c[|b|].PassedOver?
    ensures Passed(a, c)
  {
  }

  function Front(log: seq<Entry>): seq<Entry> {
    if log == [] then [] else log[..|log| - 1]
  }

  class Admission {
    const gate: SessionGate
    var sessionGeneration: nat
    var sequence: nat
    var sequenceMaximumPermits: nat
    var permitDeliveryAllowance: int
    var sequencePermitDeliveryAllowance: int
    var lastPermitUsedAt: Option<int>
    var completedSequence: Option<nat>
    var lease: Lease

    ghost var history: seq<Event>

    ghost function Machine(): System
      reads `history
    {
      Run(history)
    }

    ghost function View(): Client
      reads this
    {
      Client(sessionGeneration, sequence, sequenceMaximumPermits, permitDeliveryAllowance,
             sequencePermitDeliveryAllowance, lastPermitUsedAt, completedSequence, lease)
    }

    ghost predicate Valid()
      reads this, gate
    {
      gate.Valid() && Machine().gate == Gate(gate.connected, gate.generation) && Machine().client == View()
    }

    constructor ()
      ensures Valid() && fresh(gate) && history == []
    {
      gate := new SessionGate();
      sessionGeneration, sequence, sequenceMaximumPermits := 0, 1, 0;
      permitDeliveryAllowance, sequencePermitDeliveryAllowance := 0, 0;
      lastPermitUsedAt, completedSequence, lease := None, None, NO_LEASE;
      history := [];
    }

    ghost method Note(e: Event)
      modifies `history
      ensures history == old(history) + [e] && Machine() == Next(old(Machine()), e)
    {
      history := history + [e];
      assert history[..|history| - 1] == old(history);
    }

    method ChangeConnection(now: bool)
      requires Valid()
      modifies `history, gate
      ensures Valid() && history == old(history) + [SetConnected(now)]
      ensures Machine().pc == old(Machine()).pc
    {
      hide Run;
      gate.SetConnected(now);
      Note(SetConnected(now));
    }

    /** Before each attempt: the session must be connected, and a new one starts over. */
    method LookAtSession() returns (connected: bool)
      requires Valid() && Machine().pc == Idle
      modifies this
      ensures Valid() && history == old(history) + [Look]
      ensures connected <==> gate.connected
      ensures connected ==> Machine().pc == Ready && sessionGeneration == gate.generation
    {
      hide Run;
      Note(Look);
      var current, generation, _ := gate.Snapshot();
      if !current {
        return false;
      }
      if sessionGeneration != generation {
        ResetForSession(generation);
      }
      return true;
    }

    method ResetForSession(generation: nat)
      modifies this
      ensures View() == Reset(old(View()), generation) && history == old(history)
    {
      sessionGeneration := generation;
      sequence := 1;
      sequenceMaximumPermits := 0;
      permitDeliveryAllowance := 0;
      sequencePermitDeliveryAllowance := 0;
      completedSequence := None;
      lease := NO_LEASE;
    }

    method FinishLease()
      modifies this
      ensures View() == Finish(old(View())) && history == old(history)
    {
      completedSequence := Some(lease.sequence);
      sequence := sequence + 1;
      sequenceMaximumPermits := 0;
      sequencePermitDeliveryAllowance := 0;
      lease := NO_LEASE;
    }

    /** Uses the next permit that is good at the moment, passing over those that are not;
        `readings` are what the clock shows, one reading for each permit looked at. */
    method TakePermit(readings: seq<int>) returns (admitted: bool)
      requires Valid() && Machine().pc == Ready && lease.sequence != 0
      requires |readings| > lease.permits
      modifies this
      ensures Valid() && Machine().pc == Idle
      ensures exists k: nat :: k <= |readings| && history == old(history) + Uses(readings, k)
      ensures Passed(old(Machine()).log, if admitted then Front(Machine().log) else Machine().log)
      ensures admitted ==> Machine().log != [] && Machine().log[|Machine().log| - 1].Consumed?
    {
      hide Run, Passed;
      PassedNone(Machine().log);
      var k: nat := 0;
      if lease.used >= lease.permits {
        Note(UsePermit(readings[0]));
        FinishLease();
        assert history == old(history) + Uses(readings, 1);
        return false;
      }
      if lease.unlimited {
        Note(UsePermit(readings[0]));
        lease := lease.(used := lease.used + 1);
        assert history == old(history) + Uses(readings, 1);
        return true;
      }
      while lease.used < lease.permits
        invariant Valid() && Machine().pc == Ready && lease.sequence != 0 && !lease.unlimited
        invariant k <= lease.used <= lease.permits < |readings|
        invariant history == old(history) + Uses(readings, k)
        invariant Passed(old(Machine()).log, Machine().log)
        decreases lease.permits - lease.used
      {
        var offset := PermitOffset(lease, lease.used);
        var opensAt, closesAt := lease.firstOpensAt + offset, lease.firstClosesAt + offset;
        opensAt := NextOpening(opensAt, lastPermitUsedAt, lease.interval);
        var now := readings[k];
        ghost var before := Machine().log;
        Note(UsePermit(now));
        assert history == old(history) + Uses(readings, k + 1);
        if opensAt >= closesAt || now >= closesAt {
          PassedMore(old(Machine()).log, before, Machine().log);
          lease := lease.(used := lease.used + 1);
          k := k + 1;
          continue;
        }
        if now < opensAt {
          return false;
        }
        lease := lease.(used := lease.used + 1);
        lastPermitUsedAt := Some(now);
        return true;
      }
      Note(UsePermit(readings[k]));
      FinishLease();
      assert history == old(history) + Uses(readings, k + 1);
      return false;
    }

    /** Asks for a lease; `changes` are what happens to the connection meanwhile. */
    method AcquireLease(startedAt: int, waiting: int, upstreamDemand: Option<int>, capacity: Option<int>,
                        changes: seq<bool>, receivedAt: int, reply: Reply)
      returns (granted: bool)
      requires Valid() && Machine().pc == Ready && lease.sequence == 0
      modifies this, gate
      ensures Valid() && Machine().pc == Idle
      ensures history == old(history) + [Request(startedAt, CurrentMaximumPermits(waiting, upstreamDemand, capacity))]
                         + Changes(changes, |changes|) + [Respond(receivedAt, reply)]
      ensures granted <==> lease.sequence != 0
      ensures granted ==> gate.connected && gate.generation == sessionGeneration
    {
      hide Run, ApplyDecision, MeasuredAllowance, AllowanceNanoseconds, CurrentMaximumPermits, Use, Reset;
      var permits := CurrentMaximumPermits(waiting, upstreamDemand, capacity);
      Note(Request(startedAt, permits));
      if sequenceMaximumPermits == 0 {
        sequenceMaximumPermits := permits;
        sequencePermitDeliveryAllowance := permitDeliveryAllowance;
      }
      for i := 0 to |changes|
        invariant Valid() && Machine().pc == Requesting(startedAt)
        invariant history == old(history) + [Request(startedAt, permits)] + Changes(changes, i)
        invariant lease.sequence == 0
      {
        ChangeConnection(changes[i]);
      }
      granted := TakeReply(startedAt, receivedAt, reply);
    }

    /** The answer, in whatever session it arrives. */
    method TakeReply(startedAt: int, receivedAt: int, reply: Reply) returns (granted: bool)
      requires Valid() && Machine().pc == Requesting(startedAt) && lease.sequence == 0
      modifies this
      ensures Valid() && Machine().pc == Idle && history == old(history) + [Respond(receivedAt, reply)]
      ensures granted <==> lease.sequence != 0
      ensures granted ==> gate.connected && gate.generation == sessionGeneration
    {
      hide Run, ApplyDecision, MeasuredAllowance;
      Note(Respond(receivedAt, reply));
      permitDeliveryAllowance := MeasuredAllowance(startedAt, receivedAt);
      var connected, generation, _ := gate.Snapshot();
      if !connected || generation != sessionGeneration {
        return false;
      }
      match reply {
        case Failure =>
        case Unimplemented(unlimitedRate) =>
          if unlimitedRate {
            lease := NO_LEASE.(sequence := sequence, permits := sequenceMaximumPermits, unlimited := true);
          }
        case Decided(decision) =>
          TakeDecision(startedAt, receivedAt, decision);
      }
      return lease.sequence != 0;
    }

    method TakeDecision(startedAt: int, receivedAt: int, d: Decision)
      modifies `lease
      ensures View() == ApplyDecision(old(View()), startedAt, receivedAt, d)
    {
      if d.sequence != sequence || d.permits > sequenceMaximumPermits {
        return;
      }
      if !d.granted {
        return;
      }
      if d.permits == 0 {
        lease := NO_LEASE.(sequence := sequence, decision := Some(d));
        return;
      }
      if d.unlimited {
        lease := NO_LEASE.(sequence := sequence, permits := d.permits, unlimited := true, decision := Some(d));
        return;
      }
      if d.interval <= 0 || d.closesAfter <= d.opensAfter {
        return;
      }
      var next := Lease(sequence, d.permits, 0, receivedAt + d.opensAfter, startedAt + d.closesAfter, d.interval, false, Some(d));
      if next.firstOpensAt >= next.firstClosesAt {
        next := next.(used := next.permits);
      }
      lease := next;
    }
  }
}
