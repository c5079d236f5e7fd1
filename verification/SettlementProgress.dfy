/**
 The relay gets somewhere: while its process lives and the node and the outbox answer, a worker
 settles its row whatever the others do, and no run ends in a row that cannot be settled.
 */
module SettlementProgress {
  import opened Wrappers
  import opened TerminalSettlement
  import opened SettlementRelay

  /** The state some events further on. */
  function After(s: System, events: seq<Event>): System
    decreases |events|
  {
    if events == [] then s else After(Next(s, events[0]), events[1..])
  }

  /** How many turns the owner of a row is from its removal; 0 where it is not on the way. */
  function Rank(pc: Pc): nat {
    match pc
    case Acknowledging => 8
    case FirstCalling => 7
    case Recording(_) => 6
    case Preparing => 5
    case Erasing(_) => 4
    case ConfirmReady => 3
    case ConfirmCalling => 2
    case Completing => 1
    case _ => 0
  }

  /** Durable writes work, and the node accepts with a token or asks to be asked again. */
  predicate Kind(world: World) {
    world.fault.Fine? && (world.reply.Again? || (world.reply.Ok? && |world.reply.token| == DIGEST_BYTES))
  }

  /** Nothing but the worker's own turns is restricted, except that the process lives. */
  predicate Kindly(e: Event, tid: nat) {
    !e.Crash? && (e.Turn? && e.tid == tid ==> Kind(e.world))
  }

  /** A turn of the worker that the node does not put off. */
  predicate Counts(e: Event, tid: nat) {
    e.Turn? && e.tid == tid && !e.world.reply.Again?
  }

  function OwnTurns(events: seq<Event>, tid: nat): nat {
    if events == [] then 0 else OwnTurns(events[1..], tid) + if Counts(events[0], tid) then 1 else 0
  }

  /** The step removes the row of the settlement. */
  predicate Removes(s: System, e: Event, d: Definition) {
    && d.leaseId in s.rows && s.rows[d.leaseId].definition == d
    && d.leaseId !in Next(s, e).rows
  }

  // ---------------------------------------------------------------------
  // A worker under way

  lemma OthersLeave(s: System, e: Event, tid: nat)
    requires tid in s.workers && !e.Crash? && !(e.Turn? && e.tid == tid)
    ensures tid in Next(s, e).workers && Next(s, e).workers[tid] == s.workers[tid]
  {
    hide TurnOf, Stage, RowEntries;
    if e.Turn? && e.tid in s.workers {
      OtherTurn(s, e.tid, e.world, tid);
    }
  }

  lemma OtherTurn(s: System, other: nat, world: World, tid: nat)
    requires tid in s.workers && other in s.workers && other != tid
    ensures tid in TurnOf(s, other, world).workers && TurnOf(s, other, world).workers[tid] == s.workers[tid]
  {
    OtherMoves(s, other, tid);
    hide Wrote, Moved, Said, RebindWorkerSession, RecordAcknowledgment, AdvanceConfirmation, Complete, Discard, Find;
    hide Validate, WantsRebinding, SameDefinition;
  }

  lemma OtherMoves(s: System, other: nat, tid: nat)
    requires tid in s.workers && other in s.workers && other != tid
    ensures forall w :: tid in Moved(s, other, w).workers && Moved(s, other, w).workers[tid] == s.workers[tid]
    ensures forall w, entry :: tid in Said(s, other, w, entry).workers && Said(s, other, w, entry).workers[tid] == s.workers[tid]
    ensures forall rows, succeeds, fault, ok, bad ::
      var t := Wrote(s, other, rows, succeeds, fault, ok, bad); tid in t.workers && t.workers[tid] == s.workers[tid]
  {
    hide RowEntries, Written;
  }

  /** Its own turn brings the worker nearer, or, put off, leaves it where it is; at the end
      it removes the row. */
  lemma TurnAdvances(s: System, tid: nat, world: World)
    requires Invariant(s) && tid in s.workers && Rank(s.workers[tid].pc) > 0 && Kind(world)
    ensures var w, t, e := s.workers[tid], Next(s, Turn(tid, world)), Turn(tid, world);
      || Removes(s, e, w.held.definition)
      || (&& tid in t.workers && t.workers[tid].held.definition == w.held.definition
          && 0 < Rank(t.workers[tid].pc) <= Rank(w.pc)
          && (Counts(e, tid) ==> Rank(t.workers[tid].pc) < Rank(w.pc)))
  {
    hide Invariant, RebindWorkerSession, Discard, Stage;
    OwnerFacts(s, tid);
  }

  /** Whatever else happens meanwhile, a worker under way removes its row within as many
      turns of its own that are not put off as its rank says. */
  lemma {:induction false} SettlesUnderway(s: System, events: seq<Event>, tid: nat) returns (k: nat)
    requires Invariant(s) && tid in s.workers && Rank(s.workers[tid].pc) > 0
    requires forall i :: 0 <= i < |events| ==> Kindly(events[i], tid)
    requires OwnTurns(events, tid) >= Rank(s.workers[tid].pc)
    ensures k < |events| && events[k].Turn? && events[k].tid == tid
    ensures Removes(After(s, events[..k]), events[k], s.workers[tid].held.definition)
    decreases |events|
  {
    hide Invariant, Next, Removes;
    if events == [] {
      assert false;
    } else {
      var e, rest := events[0], events[1..];
      var own := e.Turn? && e.tid == tid;
      if own {
        TurnAdvances(s, tid, e.world);
      } else {
        OthersLeave(s, e, tid);
      }
      if own && Removes(s, e, s.workers[tid].held.definition) {
        k := 0;
      } else {
        StepKeeps(s, e);
        var later := SettlesUnderway(Next(s, e), rest, tid);
        k := later + 1;
        assert events[..k][0] == e && events[..k][1..] == rest[..later];
      }
    }
  }

  // ---------------------------------------------------------------------
  // A worker that takes up a row

  lemma Enters(s: System, tid: nat, l: string, world: World)
    requires Invariant(s) && l in s.rows && l !in s.inFlight && tid !in s.workers
    ensures var t := Next(Next(s, Begin(tid, s.rows[l])), Turn(tid, world));
      Invariant(t) && t.rows == s.rows && t.session == s.session
      && tid in t.workers && t.workers[tid] == Worker(s.rows[l], Rebinding)
  {
    var b := Next(s, Begin(tid, s.rows[l]));
    assert s.rows[l].definition.leaseId == l;
    hide Invariant, RebindWorkerSession, RecordAcknowledgment, AdvanceConfirmation, Complete, Discard, Find;
    StepKeeps(s, Begin(tid, s.rows[l]));
    StepKeeps(b, Turn(tid, world));
  }

  lemma Rebinds(s: System, tid: nat, l: string, world: World)
    requires Invariant(s) && l in s.rows && tid in s.workers && s.workers[tid] == Worker(s.rows[l], Rebinding)
    requires Kind(world)
    ensures var t := Next(s, Turn(tid, world));
      && Invariant(t) && l in t.rows && t.rows[l].definition == s.rows[l].definition
      && tid in t.workers && t.workers[tid] == Worker(t.rows[l], Reading)
  {
    assert s.rows[l].definition.leaseId == l && Validate(s.rows[l]);
    hide Invariant, RecordAcknowledgment, AdvanceConfirmation, Complete, Discard;
    StepKeeps(s, Turn(tid, world));
  }

  lemma Reads(s: System, tid: nat, l: string, world: World)
    requires Invariant(s) && l in s.rows && tid in s.workers && s.workers[tid] == Worker(s.rows[l], Reading)
    requires Kind(world)
    ensures var t := Next(s, Turn(tid, world));
      Invariant(t) && t.rows == s.rows && tid in t.workers && t.workers[tid] == Worker(s.rows[l], Acknowledging)
  {
    assert s.rows[l].definition.leaseId == l && Validate(s.rows[l]);
    hide Invariant, RebindWorkerSession, RecordAcknowledgment, AdvanceConfirmation, Complete, Discard;
    StepKeeps(s, Turn(tid, world));
  }

  /** A row of another session is read with the current one exactly if it awaits
      acknowledgment and the session is of its worker, is granted leases and holds this one;
      otherwise it is read as it is. */
  lemma RebindsToSession(s: System, tid: nat, l: string, world: World)
    requires Invariant(s) && l in s.rows && tid in s.workers && s.workers[tid] == Worker(s.rows[l], Rebinding)
    requires world.fault.Fine? && s.rows[l].session != s.session.sessionId && ValidSession(s.session.sessionId)
    ensures var t, row := Next(s, Turn(tid, world)), s.rows[l];
      && tid in t.workers && l in t.rows && t.workers[tid] == Worker(t.rows[l], Reading)
      && t.rows == if row.phase == AWAITING_ACKNOWLEDGMENT && row.definition.workerId == s.session.workerId
                      && s.session.grants && world.grantConfirmed
                   then s.rows[l := row.(session := s.session.sessionId)] else s.rows
  {
    assert s.rows[l].definition.leaseId == l && Validate(s.rows[l]);
    hide Invariant, RecordAcknowledgment, AdvanceConfirmation, Complete, Discard;
  }

  /** An owner whose call the node answers as not found goes on to discard its row, and when
      the outbox works and whatever others do meanwhile, its next turn removes the row. */
  lemma NotFoundRemoves(s: System, tid: nat, world: World, others: seq<Event>, last: World)
    requires Invariant(s) && tid in s.workers && (s.workers[tid].pc.FirstCalling? || s.workers[tid].pc.ConfirmCalling?)
    requires world.reply.NotFound? && last.fault.Fine?
    requires forall k :: 0 <= k < |others| ==> !others[k].Crash? && !(others[k].Turn? && others[k].tid == tid)
    ensures var d, t := s.workers[tid].held.definition, After(Next(s, Turn(tid, world)), others);
      Removes(t, Turn(tid, last), d)
  {
    hide Invariant, Next, Removes, After;
    var t := Next(s, Turn(tid, world));
    StepKeeps(s, Turn(tid, world));
    NotFoundDiscards(s, tid, world);
    OthersLeaveAll(t, others, tid);
    DiscardRemoves(After(t, others), tid, last);
  }

  lemma NotFoundDiscards(s: System, tid: nat, world: World)
    requires tid in s.workers && (s.workers[tid].pc.FirstCalling? || s.workers[tid].pc.ConfirmCalling?)
    requires world.reply.NotFound?
    ensures var t := Next(s, Turn(tid, world));
      tid in t.workers && t.workers[tid] == s.workers[tid].(pc := Discarding)
  {
    hide RebindWorkerSession, RecordAcknowledgment, AdvanceConfirmation, Complete, Discard, Find;
  }

  lemma {:induction false} OthersLeaveAll(s: System, others: seq<Event>, tid: nat)
    requires Invariant(s) && tid in s.workers
    requires forall k :: 0 <= k < |others| ==> !others[k].Crash? && !(others[k].Turn? && others[k].tid == tid)
    ensures Invariant(After(s, others))
    ensures tid in After(s, others).workers && After(s, others).workers[tid] == s.workers[tid]
    decreases |others|
  {
    hide Invariant, Next;
    if others == [] {
    } else {
      StepKeeps(s, others[0]);
      OthersLeave(s, others[0], tid);
      OthersLeaveAll(Next(s, others[0]), others[1..], tid);
    }
  }

  lemma DiscardRemoves(s: System, tid: nat, world: World)
    requires Invariant(s) && tid in s.workers && s.workers[tid].pc.Discarding? && world.fault.Fine?
    ensures Removes(s, Turn(tid, world), s.workers[tid].held.definition)
  {
    OwnerFacts(s, tid);
    hide Invariant, RebindWorkerSession, RecordAcknowledgment, AdvanceConfirmation, Complete;
  }

  // ---------------------------------------------------------------------
  // No run is stuck

  lemma {:induction false} RunGoesOn(session: Session, events: seq<Event>, more: seq<Event>)
    ensures Run(session, events + more) == After(Run(session, events), more)
    decreases |more|
  {
    hide Next;
    if more == [] {
      assert events + more == events;
    } else {
      var longer := events + [more[0]];
      assert longer[..|events|] == events;
      RunGoesOn(session, longer, more[1..]);
      assert longer + more[1..] == events + more;
    }
  }

  /** So many turns in which all goes well. */
  function GoodTurns(tid: nat, token: Bytes, n: nat): (events: seq<Event>)
    ensures |events| == n
    ensures forall i :: 0 <= i < n ==> events[i] == Turn(tid, World(Fine, false, Ok(token)))
  {
    seq(n, i requires 0 <= i < n => Turn(tid, World(Fine, false, Ok(token))))
  }

  lemma {:induction false} AllCount(tid: nat, token: Bytes, events: seq<Event>)
    requires forall i :: 0 <= i < |events| ==> events[i] == Turn(tid, World(Fine, false, Ok(token)))
    ensures OwnTurns(events, tid) == |events|
  {
    if events == [] {
    } else {
      AllCount(tid, token, events[1..]);
    }
  }

  lemma AfterOne(s: System, events: seq<Event>, k: nat)
    requires k < |events|
    ensures After(s, events[..k + 1]) == Next(After(s, events[..k]), events[k])
    decreases k
  {
    hide Next;
    if k == 0 {
      assert events[..1][1..] == [] && events[..0] == [];
    } else {
      AfterOne(Next(s, events[0]), events[1..], k - 1);
      assert events[..k + 1][1..] == events[1..][..k] && events[..k][1..] == events[1..][..k - 1];
    }
  }

  /** The owner of a row, holding it as it stands unless it is further on already, removes it
      in at most ten turns in which all goes well. */
  lemma {:induction false} OwnerSettles(s: System, tid: nat, l: string, token: Bytes) returns (n: nat)
    requires Invariant(s) && l in s.rows && |token| == DIGEST_BYTES
    requires tid in s.workers && s.workers[tid].Lease() == l
    requires Rank(s.workers[tid].pc) > 0 || s.workers[tid] in {Worker(s.rows[l], Rebinding), Worker(s.rows[l], Reading)}
    ensures n <= (match s.workers[tid].pc case Rebinding => 10 case Reading => 9 case _ => 8)
    ensures l !in After(s, GoodTurns(tid, token, n)).rows
    decreases match s.workers[tid].pc case Rebinding => 2 case Reading => 1 case _ => 0
  {
    hide Invariant, Next, GoodTurns;
    var world := World(Fine, false, Ok(token));
    if Rank(s.workers[tid].pc) > 0 {
      var turns := GoodTurns(tid, token, 8);
      AllCount(tid, token, turns);
      var k := SettlesUnderway(s, turns, tid);
      AfterOne(s, turns, k);
      n := k + 1;
      assert GoodTurns(tid, token, n) == turns[..n];
    } else {
      if s.workers[tid].pc == Rebinding {
        Rebinds(s, tid, l, world);
      } else {
        Reads(s, tid, l, world);
      }
      RowLease(Next(s, Turn(tid, world)), l);
      var rest := OwnerSettles(Next(s, Turn(tid, world)), tid, l, token);
      n := rest + 1;
      assert GoodTurns(tid, token, n)[1..] == GoodTurns(tid, token, rest);
    }
  }

  /** A row that nobody has in hand is removed by a fresh worker within twelve events. */
  lemma Settles(s: System, tid: nat, l: string, token: Bytes) returns (more: seq<Event>)
    requires Invariant(s) && l in s.rows && l !in s.inFlight && tid !in s.workers && |token| == DIGEST_BYTES
    ensures |more| <= 12 && l !in After(s, more).rows
    ensures forall i :: 0 <= i < |more| ==> more[i].Begin? || more[i] == Turn(tid, World(Fine, false, Ok(token)))
  {
    hide Invariant, Next, GoodTurns;
    var world := World(Fine, false, Ok(token));
    RowLease(s, l);
    Enters(s, tid, l, world);
    var begun := Next(s, Begin(tid, s.rows[l]));
    var t := Next(begun, Turn(tid, world));
    var n := OwnerSettles(t, tid, l, token);
    var rest := GoodTurns(tid, token, n);
    more := [Begin(tid, s.rows[l]), Turn(tid, world)] + rest;
    assert more[1..] == [Turn(tid, world)] + rest && more[1..][1..] == rest;
    assert After(s, more) == After(begun, more[1..]) == After(t, rest);
  }

  lemma RowLease(s: System, l: string)
    requires Invariant(s) && l in s.rows
    ensures s.rows[l].definition.leaseId == l
  {
  }

  /** In every run, every row can still be settled: at worst the process is started again, and
      a fresh worker removes the row within twelve further events. */
  lemma NoDeadEnd(session: Session, events: seq<Event>, l: string, token: Bytes) returns (more: seq<Event>)
    requires l in Run(session, events).rows && |token| == DIGEST_BYTES
    ensures |more| <= 13 && l !in Run(session, events + more).rows
    ensures forall i :: 0 <= i < |more| ==>
      more[i].Crash? || more[i].Begin? || more[i] == Turn(0, World(Fine, false, Ok(token)))
  {
    RunKeeps(session, events);
    var s := Run(session, events);
    hide Run, Invariant;
    var restarted := Next(s, Crash(session));
    StepKeeps(s, Crash(session));
    assert restarted == System(s.rows, session, map[], map[], s.log);
    hide Next;
    var rest := Settles(restarted, 0, l, token);
    more := [Crash(session)] + rest;
    assert more[1..] == rest;
    RunGoesOn(session, events, more);
  }
}
