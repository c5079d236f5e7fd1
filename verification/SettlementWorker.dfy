/**
 The outbox and the relay as programs: rows updated in place, and one worker's way through
 a settlement in the order the relay takes it. Every operation adds steps to a run of the
 relay's state machine, so whatever holds of its runs holds here.
 */
module SettlementWorker {
  import opened Wrappers
  import opened TerminalSettlement
  import opened SettlementRelay

  class Outbox {
    var rows: Rows

    constructor ()
      ensures rows == map[]
    {
      rows := map[];
    }

    method Stage(settlement: Settlement, admitted: bool) returns (verdict: Verdict)
      modifies this
      ensures (rows, verdict) == TerminalSettlement.Stage(old(rows), settlement, admitted)
    {
      var leaseId := settlement.definition.leaseId;
      if !Validate(settlement) || settlement.phase > AWAITING_ACKNOWLEDGMENT {
        return Conflict;
      }
      if leaseId in rows {
        var persisted := rows[leaseId];
        if SameDefinition(persisted, settlement) {
          return Done;
        }
        if !Rebindable(persisted, settlement, settlement.session) {
          return Conflict;
        }
        rows := rows[leaseId := persisted.(session := settlement.session)];
        return Done;
      }
      if !admitted {
        return Conflict;
      }
      rows := rows[leaseId := settlement.(phase := AWAITING_ACKNOWLEDGMENT)];
      return Done;
    }

    method Current(leaseId: string, orderIdentity: Bytes) returns (found: Found)
      ensures found == Find(rows, leaseId, orderIdentity)
    {
      if leaseId !in rows {
        return Missing;
      }
      var settlement := rows[leaseId];
      if settlement.definition.orderIdentity != orderIdentity {
        return Mismatch;
      }
      return Row(settlement);
    }

    method RebindWorkerSession(expected: Settlement, session: string) returns (found: Found)
      modifies this
      ensures (rows, found) == TerminalSettlement.RebindWorkerSession(old(rows), expected, session)
    {
      if !Validate(expected) || expected.phase != AWAITING_ACKNOWLEDGMENT || !ValidSession(session) {
        return Mismatch;
      }
      found := Current(expected.definition.leaseId, expected.definition.orderIdentity);
      if !found.Row? {
        return;
      }
      if !Rebindable(found.row, expected, session) {
        return Mismatch;
      }
      var rebound := found.row.(session := session);
      rows := rows[expected.definition.leaseId := rebound];
      return Row(rebound);
    }

    method RecordAcknowledgment(d: Definition, token: Bytes) returns (verdict: Verdict)
      modifies this
      ensures (rows, verdict) == TerminalSettlement.RecordAcknowledgment(old(rows), d, token)
    {
      if |token| != DIGEST_BYTES {
        return Conflict;
      }
      var found := Current(d.leaseId, d.orderIdentity);
      match found
      case Mismatch => return Conflict;
      case Missing => return Done;
      case Row(settlement) =>
        if settlement.phase != AWAITING_ACKNOWLEDGMENT {
          return if settlement.token == token then Done else Conflict;
        }
        rows := rows[d.leaseId := settlement.(phase := ACKNOWLEDGED_DELETING, token := token)];
        return Done;
    }

    method AdvanceConfirmation(d: Definition, expected: Bytes) returns (verdict: Verdict)
      modifies this
      ensures (rows, verdict) == TerminalSettlement.AdvanceConfirmation(old(rows), d, expected)
    {
      var found := Current(d.leaseId, d.orderIdentity);
      match found
      case Mismatch => return Conflict;
      case Missing => return Done;
      case Row(settlement) =>
        if settlement.token != expected {
          return Conflict;
        }
        if settlement.phase == CONFIRMING {
          return Done;
        }
        if settlement.phase != ACKNOWLEDGED_DELETING {
          return Conflict;
        }
        rows := rows[d.leaseId := settlement.(phase := CONFIRMING)];
        return Done;
    }

    method Complete(d: Definition) returns (verdict: Verdict)
      modifies this
      ensures (rows, verdict) == TerminalSettlement.Complete(old(rows), d)
    {
      var found := Current(d.leaseId, d.orderIdentity);
      match found
      case Mismatch => return Conflict;
      case Missing => return Done;
      case Row(settlement) =>
        if settlement.phase != CONFIRMING {
          return Conflict;
        }
        rows := rows - {d.leaseId};
        return Done;
    }

    method Discard(d: Definition) returns (verdict: Verdict)
      modifies this
      ensures (rows, verdict) == TerminalSettlement.Discard(old(rows), d)
    {
      var found := Current(d.leaseId, d.orderIdentity);
      match found
      case Mismatch => return Conflict;
      case Missing => return Done;
      case Row(_) =>
        rows := rows - {d.leaseId};
        return Done;
    }
  }

  datatype Advance = Joined | Settled | Failed

  const SILENCE := World(LostWrite, false, Broken)

  /** What the world contributes to a worker's steps: a script, then silence. */
  function WorldAt(script: seq<World>, n: nat): World {
    if n < |script| then script[n] else SILENCE
  }

  /** A history grew by the worker's turns, each with the next of the world's contributions. */
  ghost predicate Took(before: seq<Event>, after: seq<Event>, tid: nat, script: seq<World>, from: nat, to: nat) {
    && from <= to && |after| == |before| + to - from && before <= after
    && forall k :: |before| <= k < |after| ==> after[k] == Turn(tid, WorldAt(script, from + k - |before|))
  }

  lemma EnteringTurn(s: System, tid: nat, world: World)
    requires tid in s.workers && s.workers[tid].pc.Entering?
    ensures var l := s.workers[tid].Lease();
      TurnOf(s, tid, world) ==
        if l in s.inFlight then Moved(s, tid, s.workers[tid].(pc := Waiting))
        else Moved(s, tid, s.workers[tid].(pc := Rebinding)).(inFlight := s.inFlight[l := tid])
  {
  }

  lemma FinishingTurn(s: System, tid: nat, world: World)
    requires tid in s.workers && s.workers[tid].pc.Finishing?
    ensures TurnOf(s, tid, world) ==
      s.(workers := s.workers - {tid}, inFlight := s.inFlight - {s.workers[tid].Lease()})
  {
  }

  lemma TookMore(a: seq<Event>, b: seq<Event>, c: seq<Event>, tid: nat, script: seq<World>, from: nat, mid: nat, to: nat)
    requires Took(a, b, tid, script, from, mid) && Took(b, c, tid, script, mid, to)
    ensures Took(a, c, tid, script, from, to)
  {
    assert forall k :: |a| <= k < |b| ==> c[k] == b[k];
  }

  /** Where a call leaves the worker that made it. */
  function Answered(calling: Pc, reply: Reply): Pc {
    match reply
    case Ok(token) =>
      if calling.ConfirmCalling? then Completing
      else if |token| == DIGEST_BYTES then Recording(token) else Finishing
    case NotFound => Discarding
    case Broken => Finishing
    case Again => calling
  }

  class TerminalSettlementRelay {
    const outbox: Outbox
    var session: Session
    var inFlight: map<string, nat>

    /** What the world contributes, and how much of it has been used. */
    const script: seq<World>
    var asked: nat

    ghost const initial: Session
    ghost var history: seq<Event>

    ghost function Machine(): System
      reads this
    {
      Run(initial, history)
    }

    ghost predicate Valid()
      reads this, outbox
    {
      outbox.rows == Machine().rows && session == Machine().session && inFlight == Machine().inFlight
    }

    ghost predicate At(tid: nat, held: Settlement, pc: Pc)
      reads this
    {
      tid in Machine().workers && Machine().workers[tid] == Worker(held, pc)
    }

    constructor (session: Session, script: seq<World>)
      ensures Valid() && fresh(outbox) && history == []
    {
      outbox := new Outbox();
      this.session := session;
      inFlight := map[];
      this.script := script;
      asked := 0;
      initial := session;
      history := [];
    }

    ghost method Note(e: Event)
      modifies `history
      ensures history == old(history) + [e] && Machine() == Next(old(Machine()), e)
    {
      history := history + [e];
      assert history[..|history| - 1] == old(history);
    }

    /** The worker's next step in the machine, with what the world contributes to it. */
    method TakeTurn(tid: nat) returns (world: World)
      modifies `history, `asked
      ensures asked == old(asked) + 1 && world == WorldAt(script, old(asked))
      ensures Took(old(history), history, tid, script, old(asked), asked)
      ensures Machine() == Next(old(Machine()), Turn(tid, world))
    {
      world := WorldAt(script, asked);
      asked := asked + 1;
      Note(Turn(tid, world));
    }

    method StageTerminalSettlement(settlement: Settlement, admitted: bool) returns (verdict: Verdict)
      requires Valid()
      modifies this, outbox
      ensures Valid() && history == old(history) + [Staging(settlement, admitted, Fine)]
    {
      verdict := outbox.Stage(settlement, admitted);
      Note(Staging(settlement, admitted, Fine));
    }

    ghost predicate Stands(tid: nat, d: Definition, pc: Pc)
      reads this
    {
      tid in Machine().workers && Machine().workers[tid].pc == pc && Machine().workers[tid].held.definition == d
    }

    /** Only this worker moved, one turn for each contribution of the world it used. */
    twostate predicate Advanced(tid: nat)
      reads this
    {
      && inFlight == old(inFlight) && session == old(session) && asked >= old(asked)
      && Took(old(history), history, tid, script, old(asked), asked)
    }

    /** The settlement to go on with; without one, `ok` tells whether its row is missing. */
    method CurrentTerminalSettlement(tid: nat, settlement: Settlement) returns (current: Option<Settlement>, ok: bool)
      requires Valid() && At(tid, settlement, Rebinding)
      modifies this, outbox
      ensures Valid() && Advanced(tid)
      ensures current.Some? ==> At(tid, current.value, Acknowledging) && current.value.definition == settlement.definition
      ensures current.None? ==> Stands(tid, settlement.definition, Finishing)
      ensures current.None? && ok ==>
        Find(outbox.rows, settlement.definition.leaseId, settlement.definition.orderIdentity) == Missing
    {
      hide Run, Took;
      var held := settlement;
      var world := TakeTurn(tid);
      if WantsRebinding(settlement, session, world.grantConfirmed) {
        var found := Mismatch;
        if !world.fault.LostWrite? {
          found := outbox.RebindWorkerSession(settlement, session.sessionId);
        }
        if !world.fault.Fine? || found.Mismatch? {
          return None, false;
        }
        if found.Missing? {
          return None, true;
        }
        held := found.row;
      }
      ghost var seen, before := asked, history;
      world := TakeTurn(tid);
      TookMore(old(history), before, history, tid, script, old(asked), seen, asked);
      if !Validate(held) || !world.fault.Fine? {
        return None, false;
      }
      var found := outbox.Current(held.definition.leaseId, held.definition.orderIdentity);
      if found.Missing? {
        return None, true;
      }
      if found.Mismatch? || !SameDefinition(found.row, held) {
        return None, false;
      }
      return Some(found.row), true;
    }

    /** Repeats the call until the node gives an answer to go by. */
    method Deliver(tid: nat, settlement: Settlement) returns (reply: Reply)
      requires Valid() && (At(tid, settlement, FirstCalling) || At(tid, settlement, ConfirmCalling))
      modifies `history, `asked
      ensures Valid() && Advanced(tid) && !reply.Again?
      ensures At(tid, settlement, Answered(old(Machine()).workers[tid].pc, reply))
    {
      hide Run, Took;
      var world := TakeTurn(tid);
      reply := world.reply;
      while reply.Again?
        invariant Valid() && Advanced(tid)
        invariant At(tid, settlement, if reply.Again? then old(Machine()).workers[tid].pc
                                      else Answered(old(Machine()).workers[tid].pc, reply))
        invariant reply.Again? ==> asked <= |script|
        decreases if reply.Again? then |script| - asked + 1 else 0
      {
        ghost var seen, before := asked, history;
        world := TakeTurn(tid);
        reply := world.reply;
        TookMore(old(history), before, history, tid, script, old(asked), seen, asked);
      }
    }

    /** The first phase, unless a token is kept already. */
    method AcknowledgeTerminalSettlement(tid: nat, settlement: Settlement)
      returns (acknowledged: Option<Settlement>, refused: bool)
      requires Valid() && At(tid, settlement, Acknowledging)
      modifies this, outbox
      ensures Valid() && Advanced(tid)
      ensures acknowledged.Some? ==>
        && acknowledged.value.definition == settlement.definition
        && At(tid, acknowledged.value, if acknowledged.value.phase == ACKNOWLEDGED_DELETING then Preparing else ConfirmReady)
      ensures acknowledged.None? ==> Stands(tid, settlement.definition, if refused then Discarding else Finishing)
    {
      hide Run, Took;
      var current := settlement;
      if current.phase == 0 {
        current := current.(phase := AWAITING_ACKNOWLEDGMENT);
      }
      var world := TakeTurn(tid);
      if current.phase != AWAITING_ACKNOWLEDGMENT {
        return Some(current), false;
      }
      ghost var seen, before := asked, history;
      var reply := Deliver(tid, current);
      TookMore(old(history), before, history, tid, script, old(asked), seen, asked);
      if !reply.Ok? {
        return None, reply.NotFound?;
      }
      var token := reply.token;
      if |token| != DIGEST_BYTES {
        return None, false;
      }
      seen, before := asked, history;
      world := TakeTurn(tid);
      TookMore(old(history), before, history, tid, script, old(asked), seen, asked);
      var verdict := Conflict;
      if !world.fault.LostWrite? {
        verdict := outbox.RecordAcknowledgment(current.definition, token);
      }
      if !world.fault.Fine? || verdict.Conflict? {
        return None, false;
      }
      return Some(current.(phase := ACKNOWLEDGED_DELETING, token := token)), false;
    }

    /** Makes the confirmation durable: the run's own record is erased first. */
    method PrepareConfirmation(tid: nat, settlement: Settlement) returns (ok: bool)
      requires Valid() && At(tid, settlement, Preparing)
      modifies this, outbox
      ensures Valid() && Advanced(tid)
      ensures ok ==> At(tid, settlement.(phase := CONFIRMING), ConfirmReady)
      ensures !ok ==> Stands(tid, settlement.definition, Finishing)
    {
      hide Run, Took;
      var d := settlement.definition;
      var world := TakeTurn(tid);
      if !world.fault.Fine? {
        return false;
      }
      var found := outbox.Current(d.leaseId, d.orderIdentity);
      if found.Mismatch? {
        return false;
      }
      if found.Missing? || found.row.phase == CONFIRMING {
        return true;
      }
      if found.row.phase != ACKNOWLEDGED_DELETING {
        return false;
      }
      ghost var seen, before := asked, history;
      world := TakeTurn(tid);
      TookMore(old(history), before, history, tid, script, old(asked), seen, asked);
      var verdict := Conflict;
      if !world.fault.LostWrite? {
        verdict := outbox.AdvanceConfirmation(d, found.row.token);
      }
      return world.fault.Fine? && verdict.Done?;
    }

    /** The second phase. */
    method ConfirmTerminalSettlement(tid: nat, settlement: Settlement) returns (ok: bool, refused: bool)
      requires Valid()
      requires At(tid, settlement, if settlement.phase == ACKNOWLEDGED_DELETING then Preparing else ConfirmReady)
      modifies this, outbox
      ensures Valid() && Advanced(tid)
      ensures Stands(tid, settlement.definition, if refused then Discarding else Finishing)
      ensures ok ==> !refused && Find(outbox.rows, settlement.definition.leaseId, settlement.definition.orderIdentity) == Missing
    {
      hide Run, Took;
      var current := settlement;
      if current.phase == ACKNOWLEDGED_DELETING {
        var prepared := PrepareConfirmation(tid, current);
        if !prepared {
          return false, false;
        }
        current := current.(phase := CONFIRMING);
        ghost var seen, before := asked, history;
        ok, refused := CallConfirmation(tid, current);
        TookMore(old(history), before, history, tid, script, old(asked), seen, asked);
      } else {
        ok, refused := CallConfirmation(tid, current);
      }
    }

    /** Asks for confirmation with the token, and completes when it is given. */
    method CallConfirmation(tid: nat, settlement: Settlement) returns (ok: bool, refused: bool)
      requires Valid() && At(tid, settlement, ConfirmReady)
      modifies this, outbox
      ensures Valid() && Advanced(tid)
      ensures Stands(tid, settlement.definition, if refused then Discarding else Finishing)
      ensures ok ==> !refused && Find(outbox.rows, settlement.definition.leaseId, settlement.definition.orderIdentity) == Missing
    {
      hide Run, Took;
      var world := TakeTurn(tid);
      ghost var seen, before := asked, history;
      var reply := Deliver(tid, settlement);
      TookMore(old(history), before, history, tid, script, old(asked), seen, asked);
      if !reply.Ok? {
        return false, reply.NotFound?;
      }
      seen, before := asked, history;
      world := TakeTurn(tid);
      TookMore(old(history), before, history, tid, script, old(asked), seen, asked);
      var verdict := Conflict;
      if !world.fault.LostWrite? {
        verdict := outbox.Complete(settlement.definition);
      }
      return world.fault.Fine? && verdict.Done?, false;
    }

    /** The node does not know the settlement: its row is dropped. */
    method DiscardRefusedSettlement(tid: nat, d: Definition) returns (ok: bool)
      requires Valid() && Stands(tid, d, Discarding)
      modifies this, outbox
      ensures Valid() && Advanced(tid) && Stands(tid, d, Finishing)
      ensures ok ==> Find(outbox.rows, d.leaseId, d.orderIdentity) == Missing
    {
      hide Run, Took;
      var world := TakeTurn(tid);
      var verdict := Conflict;
      if !world.fault.LostWrite? {
        verdict := outbox.Discard(d);
      }
      return world.fault.Fine? && verdict.Done?;
    }

    /** One worker's way through a settlement; success means that no row is left of it. */
    method AdvanceExclusive(tid: nat, settlement: Settlement) returns (ok: bool)
      requires Valid() && At(tid, settlement, Rebinding)
      modifies this, outbox
      ensures Valid() && Advanced(tid) && Stands(tid, settlement.definition, Finishing)
      ensures ok ==> Find(outbox.rows, settlement.definition.leaseId, settlement.definition.orderIdentity) == Missing
    {
      hide Run, Took;
      var current, fine := CurrentTerminalSettlement(tid, settlement);
      if current.None? {
        return fine;
      }
      ghost var seen, before := asked, history;
      var acknowledged, refused := AcknowledgeTerminalSettlement(tid, current.value);
      TookMore(old(history), before, history, tid, script, old(asked), seen, asked);
      ok := false;
      if acknowledged.Some? {
        seen, before := asked, history;
        ok, refused := ConfirmTerminalSettlement(tid, acknowledged.value);
        TookMore(old(history), before, history, tid, script, old(asked), seen, asked);
      }
      if refused {
        seen, before := asked, history;
        ok := DiscardRefusedSettlement(tid, settlement.definition);
        TookMore(old(history), before, history, tid, script, old(asked), seen, asked);
      }
    }

    /** Joins the worker that has the lease in flight, or goes through it alone. */
    method AdvanceWithDelivery(tid: nat, settlement: Settlement) returns (result: Advance)
      requires Valid() && tid !in Machine().workers
      modifies this, outbox
      ensures Valid() && Took(old(history) + [Begin(tid, settlement)], history, tid, script, old(asked), asked)
      ensures result == Joined <==> settlement.definition.leaseId in old(inFlight)
      ensures result == Joined ==> At(tid, settlement, Waiting)
      ensures result != Joined ==> inFlight == old(inFlight) && tid !in Machine().workers
      ensures result == Settled ==>
        Find(outbox.rows, settlement.definition.leaseId, settlement.definition.orderIdentity) == Missing
    {
      hide Run, Took, TurnOf, Find;
      var leaseId := settlement.definition.leaseId;
      Note(Begin(tid, settlement));
      ghost var begun := history;
      EnteringTurn(Machine(), tid, WorldAt(script, asked));
      var world := TakeTurn(tid);
      if leaseId in inFlight {
        return Joined;
      }
      inFlight := inFlight[leaseId := tid];
      ghost var seen, before := asked, history;
      var ok := AdvanceExclusive(tid, settlement);
      TookMore(begun, before, history, tid, script, old(asked), seen, asked);
      seen, before := asked, history;
      FinishingTurn(Machine(), tid, WorldAt(script, asked));
      world := TakeTurn(tid);
      TookMore(begun, before, history, tid, script, old(asked), seen, asked);
      inFlight := inFlight - {leaseId};
      return if ok then Settled else Failed;
    }
  }
}
