/**
 The two-phase terminal settlement relay as a state machine. Workers advance settlements
 step by step; between any two steps other workers may move, settlements may be staged,
 and the whole process may crash, which leaves only the outbox. The node answers as it
 likes, and a durable write may fail with or without having taken effect.
 */
module SettlementRelay {
  import opened Wrappers
  import opened TerminalSettlement

  datatype Session = Session(workerId: string, sessionId: string, grants: bool)

  /** Where a worker stands; from `Rebinding` on it owns its lease. */
  datatype Pc =
    | Entering
    | Waiting
    | Rebinding
    | Reading
    | Acknowledging
    | FirstCalling
    | Recording(token: Bytes)
    | Preparing
    | Erasing(expected: Bytes)
    | ConfirmReady
    | ConfirmCalling
    | Completing
    | Discarding
    | Finishing

  datatype Worker = Worker(held: Settlement, pc: Pc) {
    predicate Owns() {
      !pc.Entering? && !pc.Waiting?
    }

    function Lease(): string {
      held.definition.leaseId
    }
  }

  /** What happened, as an observer of the wire and of the outbox sees it. */
  datatype Entry =
    | RowStaged(d: Definition)
    | FirstSent(d: Definition)
    | TokenKept(d: Definition, token: Bytes)
    | ConfirmSent(d: Definition, token: Bytes)
    | Accepted(d: Definition, token: Bytes)
    | Refused(d: Definition)
    | RowGone(d: Definition)

  datatype System = System(rows: Rows, session: Session, workers: map<nat, Worker>, inFlight: map<string, nat>,
                           log: seq<Entry>)

  /** How a durable operation fares: as asked, without effect, or with its report lost. */
  datatype Fault = Fine | LostWrite | LostReport

  datatype Reply = Ok(token: Bytes) | NotFound | Broken | Again

  /** What the world contributes to a worker's step. */
  datatype World = World(fault: Fault, grantConfirmed: bool, reply: Reply)

  datatype Event =
    | Staging(settlement: Settlement, admitted: bool, fault: Fault)
    | Begin(tid: nat, settlement: Settlement)
    | Bind(session: Session)
    | Crash(session: Session)
    | Turn(tid: nat, world: World)

  // ---------------------------------------------------------------------
  // Steps

  function Written(before: Rows, after: Rows, fault: Fault): Rows {
    if fault.LostWrite? then before else after
  }

  /** What a change of one lease's row adds to the log. */
  function RowEntries(before: Rows, after: Rows, leaseId: string): seq<Entry> {
    if leaseId !in before && leaseId in after then [RowStaged(after[leaseId].definition)]
    else if leaseId in before && leaseId !in after then [RowGone(before[leaseId].definition)]
    else if leaseId in before && leaseId in after && before[leaseId].token == "" && after[leaseId].token != "" then
      [TokenKept(after[leaseId].definition, after[leaseId].token)]
    else []
  }

  function Moved(s: System, tid: nat, w: Worker): System {
    s.(workers := s.workers[tid := w])
  }

  /** The worker writes rows, and goes on to `ok` when that worked and to `bad` otherwise. */
  function Wrote(s: System, tid: nat, after: Rows, succeeds: bool, fault: Fault, ok: Worker, bad: Worker): System
    requires tid in s.workers
  {
    var rows := Written(s.rows, after, fault);
    s.(rows := rows, log := s.log + RowEntries(s.rows, rows, s.workers[tid].Lease()),
       workers := s.workers[tid := if fault.Fine? && succeeds then ok else bad])
  }

  function Said(s: System, tid: nat, w: Worker, entry: Entry): System {
    s.(workers := s.workers[tid := w], log := s.log + [entry])
  }

  predicate WantsRebinding(held: Settlement, session: Session, grantConfirmed: bool) {
    && held.phase == AWAITING_ACKNOWLEDGMENT && held.session != session.sessionId
    && held.definition.workerId == session.workerId && session.grants
    && ValidSession(session.sessionId) && grantConfirmed
  }

  function TurnOf(s: System, tid: nat, world: World): System
    requires tid in s.workers
  {
    var w := s.workers[tid];
    var held, d := w.held, w.held.definition;
    var finishing := w.(pc := Finishing);
    match w.pc
    case Entering =>
      if d.leaseId in s.inFlight then Moved(s, tid, w.(pc := Waiting))
      else Moved(s, tid, w.(pc := Rebinding)).(inFlight := s.inFlight[d.leaseId := tid])
    case Waiting => s.(workers := s.workers - {tid})
    case Rebinding =>
      if !WantsRebinding(held, s.session, world.grantConfirmed) then Moved(s, tid, w.(pc := Reading))
      else
        var (rows, found) := RebindWorkerSession(s.rows, held, s.session.sessionId);
        Wrote(s, tid, rows, found.Row?, world.fault, if found.Row? then Worker(found.row, Reading) else finishing, finishing)
    case Reading =>
      var found := Find(s.rows, d.leaseId, d.orderIdentity);
      if !Validate(held) || !world.fault.Fine? || !found.Row? || !SameDefinition(found.row, held) then
        Moved(s, tid, finishing)
      else Moved(s, tid, Worker(found.row, Acknowledging))
    case Acknowledging =>
      if held.phase == 0 || held.phase == AWAITING_ACKNOWLEDGMENT then
        Said(s, tid, Worker(held.(phase := AWAITING_ACKNOWLEDGMENT), FirstCalling), FirstSent(d))
      else Moved(s, tid, w.(pc := if held.phase == ACKNOWLEDGED_DELETING then Preparing else ConfirmReady))
    case FirstCalling =>
      (match world.reply
       case Ok(token) => Moved(s, tid, w.(pc := if |token| == DIGEST_BYTES then Recording(token) else Finishing))
       case NotFound => Said(s, tid, w.(pc := Discarding), Refused(d))
       case Broken => Moved(s, tid, finishing)
       case Again => Said(s, tid, w, FirstSent(d)))
    case Recording(token) =>
      var (rows, verdict) := RecordAcknowledgment(s.rows, d, token);
      Wrote(s, tid, rows, verdict.Done?, world.fault,
            Worker(held.(phase := ACKNOWLEDGED_DELETING, token := token), Preparing), finishing)
    case Preparing =>
      var found := Find(s.rows, d.leaseId, d.orderIdentity);
      if !world.fault.Fine? || found.Mismatch? then Moved(s, tid, finishing)
      else if found.Missing? || found.row.phase == CONFIRMING then
        Moved(s, tid, Worker(held.(phase := CONFIRMING), ConfirmReady))
      else Moved(s, tid, w.(pc := if found.row.phase == ACKNOWLEDGED_DELETING then Erasing(found.row.token) else Finishing))
    case Erasing(expected) =>
      var (rows, verdict) := AdvanceConfirmation(s.rows, d, expected);
      Wrote(s, tid, rows, verdict.Done?, world.fault, Worker(held.(phase := CONFIRMING), ConfirmReady), finishing)
    case ConfirmReady => Said(s, tid, w.(pc := ConfirmCalling), ConfirmSent(d, held.token))
    case ConfirmCalling =>
      (match world.reply
       case Ok(_) => Said(s, tid, w.(pc := Completing), Accepted(d, held.token))
       case NotFound => Said(s, tid, w.(pc := Discarding), Refused(d))
       case Broken => Moved(s, tid, finishing)
       case Again => Said(s, tid, w, ConfirmSent(d, held.token)))
    case Completing =>
      var (rows, verdict) := Complete(s.rows, d);
      Wrote(s, tid, rows, verdict.Done?, world.fault, finishing, finishing)
    case Discarding =>
      var (rows, verdict) := Discard(s.rows, d);
      Wrote(s, tid, rows, verdict.Done?, world.fault, finishing, finishing)
    case Finishing => s.(workers := s.workers - {tid}, inFlight := s.inFlight - {d.leaseId})
  }

  /** A step; events about absent workers or taken numbers change nothing. */
  function Next(s: System, e: Event): System {
    match e
    case Staging(settlement, admitted, fault) =>
      var rows := Written(s.rows, Stage(s.rows, settlement, admitted).0, fault);
      s.(rows := rows, log := s.log + RowEntries(s.rows, rows, settlement.definition.leaseId))
    case Begin(tid, settlement) => if tid in s.workers then s else Moved(s, tid, Worker(settlement, Entering))
    case Bind(session) => s.(session := session)
    case Crash(session) => System(s.rows, session, map[], map[], s.log)
    case Turn(tid, world) => if tid in s.workers then TurnOf(s, tid, world) else s
  }

  // ---------------------------------------------------------------------
  // What the log may say

  /** What the log so far says about a staged settlement. */
  datatype Known = Known(d: Definition, token: Option<Bytes>, accepted: bool, refused: bool)

  type Monitor = map<string, Known>

  /** The protocol, as permissions for the next entry: the first phase only while no token is
      kept, confirmation only with the token kept, and a row goes only after the node
      accepted that token or refused the settlement. */
  predicate Allowed(m: Monitor, entry: Entry) {
    var leaseId := entry.d.leaseId;
    if entry.RowStaged? then leaseId !in m
    else
      && leaseId in m && m[leaseId].d == entry.d
      && match entry
         case RowStaged(_) => true
         case FirstSent(_) => m[leaseId].token == None
         case TokenKept(_, token) => m[leaseId].token == None && |token| == DIGEST_BYTES
         case ConfirmSent(_, token) => m[leaseId].token == Some(token) && |token| == DIGEST_BYTES
         case Accepted(_, token) => m[leaseId].token == Some(token)
         case Refused(_) => true
         case RowGone(_) => m[leaseId].accepted || m[leaseId].refused
  }

  function Observed(m: Monitor, entry: Entry): Monitor
    requires Allowed(m, entry)
  {
    var leaseId := entry.d.leaseId;
    match entry
    case RowStaged(d) => m[leaseId := Known(d, None, false, false)]
    case FirstSent(_) => m
    case TokenKept(_, token) => m[leaseId := m[leaseId].(token := Some(token))]
    case ConfirmSent(_, _) => m
    case Accepted(_, _) => m[leaseId := m[leaseId].(accepted := true)]
    case Refused(_) => m[leaseId := m[leaseId].(refused := true)]
    case RowGone(_) => m - {leaseId}
  }

  /** The monitor's state after a log, if every entry was allowed. */
  function Monitored(log: seq<Entry>): Option<Monitor> {
    if log == [] then Some(map[])
    else
      var m := Monitored(log[..|log| - 1]);
      if m.Some? && Allowed(m.value, log[|log| - 1]) then Some(Observed(m.value, log[|log| - 1])) else None
  }

  lemma MonitoredMore(log: seq<Entry>, entry: Entry)
    ensures Monitored(log + [entry]) ==
      var m := Monitored(log); if m.Some? && Allowed(m.value, entry) then Some(Observed(m.value, entry)) else None
  {
    assert (log + [entry])[..|log|] == log;
  }

  // ---------------------------------------------------------------------
  // The invariant

  ghost predicate RowsOk(rows: Rows) {
    forall l :: l in rows ==> rows[l].definition.leaseId == l && rows[l].phase > 0 && Validate(rows[l])
  }

  /** The log and the outbox tell the same about every row. */
  ghost predicate Agrees(m: Monitor, rows: Rows) {
    && m.Keys == rows.Keys
    && forall l :: l in m ==>
      m[l].d == rows[l].definition && m[l].token == if rows[l].token == "" then None else Some(rows[l].token)
  }

  /** What the owner of a lease may rely on, whatever else has happened meanwhile. */
  ghost predicate OwnerOk(w: Worker, rows: Rows, m: Monitor) {
    var l := w.Lease();
    var holds := l in rows && rows[l].definition == w.held.definition;
    var confirming := holds && rows[l].phase == CONFIRMING && rows[l].token == w.held.token;
    match w.pc
    case Acknowledging => holds && rows[l].phase == w.held.phase && rows[l].token == w.held.token
    case FirstCalling => holds && rows[l].phase == AWAITING_ACKNOWLEDGMENT
    case Recording(token) => holds && rows[l].phase == AWAITING_ACKNOWLEDGMENT && |token| == DIGEST_BYTES
    case Preparing => holds && rows[l].phase >= ACKNOWLEDGED_DELETING && rows[l].token == w.held.token
    case Erasing(expected) =>
      holds && rows[l].phase == ACKNOWLEDGED_DELETING && rows[l].token == w.held.token == expected
    case ConfirmReady => confirming
    case ConfirmCalling => confirming
    case Completing => confirming && l in m && m[l].accepted
    case Discarding => holds && l in m && m[l].refused
    case _ => true
  }

  /** Exactly the owners are in flight, one for a lease. */
  ghost predicate Exclusive(workers: map<nat, Worker>, inFlight: map<string, nat>) {
    && (forall tid :: tid in workers && workers[tid].Owns() ==>
          workers[tid].Lease() in inFlight && inFlight[workers[tid].Lease()] == tid)
    && forall l :: l in inFlight ==>
      inFlight[l] in workers && workers[inFlight[l]].Owns() && workers[inFlight[l]].Lease() == l
  }

  ghost predicate Invariant(s: System) {
    && RowsOk(s.rows) && Exclusive(s.workers, s.inFlight)
    && Monitored(s.log).Some? && Agrees(Monitored(s.log).value, s.rows)
    && forall tid :: tid in s.workers ==> OwnerOk(s.workers[tid], s.rows, Monitored(s.log).value)
  }

  ghost predicate SameElsewhere<V>(a: map<string, V>, b: map<string, V>, l: string) {
    forall k :: k != l ==> (k in a <==> k in b) && (k in a ==> a[k] == b[k])
  }

  lemma OtherOwner(w: Worker, rows: Rows, m: Monitor, rows': Rows, m': Monitor, l: string)
    requires OwnerOk(w, rows, m) && w.Lease() != l
    requires SameElsewhere(rows, rows', l) && SameElsewhere(m, m', l)
    ensures OwnerOk(w, rows', m')
  {
  }

  lemma ObservedElsewhere(m: Monitor, entry: Entry)
    requires Allowed(m, entry)
    ensures SameElsewhere(m, Observed(m, entry), entry.d.leaseId)
  {
  }

  /** The log after at most one more entry about a lease. */
  lemma LogGrows(log: seq<Entry>, entries: seq<Entry>, l: string)
    requires Monitored(log).Some? && |entries| <= 1
    requires entries != [] ==> entries[0].d.leaseId == l && Allowed(Monitored(log).value, entries[0])
    ensures Monitored(log + entries).Some?
    ensures Monitored(log + entries).value ==
      if entries == [] then Monitored(log).value else Observed(Monitored(log).value, entries[0])
    ensures SameElsewhere(Monitored(log).value, Monitored(log + entries).value, l)
  {
    if entries == [] {
      assert log + entries == log;
    } else {
      MonitoredMore(log, entries[0]);
      ObservedElsewhere(Monitored(log).value, entries[0]);
      assert entries == [entries[0]];
    }
  }

  function After(m: Monitor, entries: seq<Entry>): Monitor
    requires |entries| <= 1 && (entries != [] ==> Allowed(m, entries[0]))
  {
    if entries == [] then m else Observed(m, entries[0])
  }

  /** An owner moves on, changing at most its own row and saying at most one thing about it. */
  lemma OwnerMoves(s: System, tid: nat, w: Worker, rows: Rows, entries: seq<Entry>)
    requires Invariant(s) && tid in s.workers && s.workers[tid].Owns() && w.Owns()
    requires w.Lease() == s.workers[tid].Lease() && SameElsewhere(s.rows, rows, w.Lease()) && RowsOk(rows)
    requires |entries| <= 1
    requires entries != [] ==> entries[0].d.leaseId == w.Lease() && Allowed(Monitored(s.log).value, entries[0])
    requires var m := After(Monitored(s.log).value, entries); Agrees(m, rows) && OwnerOk(w, rows, m)
    ensures Invariant(s.(rows := rows, workers := s.workers[tid := w], log := s.log + entries))
  {
    hide OwnerOk, Agrees, RowsOk, Allowed, Observed, Monitored;
    var l, m := w.Lease(), Monitored(s.log).value;
    LogGrows(s.log, entries, l);
    var m' := Monitored(s.log + entries).value;
    forall other | other in s.workers && other != tid ensures OwnerOk(s.workers[other], rows, m') {
      if s.workers[other].Owns() {
        OtherOwner(s.workers[other], s.rows, m, rows, m', l);
      } else {
        Bystander(s.workers[other], rows, m');
      }
    }
  }

  lemma Bystander(w: Worker, rows: Rows, m: Monitor)
    requires !w.Owns()
    ensures OwnerOk(w, rows, m)
  {
  }

  /** How a transaction may change the row of a lease: stage it, bind it to another session,
      move its phase on, give it its token, or remove it after a final answer. */
  ghost predicate Permitted(before: Rows, after: Rows, l: string, m: Monitor) {
    && SameElsewhere(before, after, l)
    && (l in before && l in after ==>
          && after[l].definition == before[l].definition && after[l].phase >= before[l].phase
          && (before[l].token != "" ==> after[l].token == before[l].token))
    && (l !in before && l in after ==> after[l].token == "")
    && (l in before && l !in after ==> l in m && (m[l].accepted || m[l].refused))
  }

  lemma RowEntriesAllowed(before: Rows, after: Rows, l: string, m: Monitor)
    requires RowsOk(before) && RowsOk(after) && Agrees(m, before) && Permitted(before, after, l, m)
    ensures var entries := RowEntries(before, after, l);
      && |entries| <= 1 && (entries != [] ==> entries[0].d.leaseId == l && Allowed(m, entries[0]))
      && Agrees(After(m, entries), after)
  {
    var entries := RowEntries(before, after, l);
    var m' := After(m, entries);
    if entries != [] { ObservedElsewhere(m, entries[0]); }
    assert SameElsewhere(m, m', l);
    assert l in m' <==> l in after;
    forall k ensures k in m' <==> k in after {
      assert k != l ==> (k in m' <==> k in m);
    }
    forall k | k in m'
      ensures m'[k].d == after[k].definition && m'[k].token == if after[k].token == "" then None else Some(after[k].token)
    {
      if k != l { assert m'[k] == m[k] && after[k] == before[k]; }
    }
  }

  lemma WroteKeeps(s: System, tid: nat, after: Rows, succeeds: bool, fault: Fault, ok: Worker, bad: Worker)
    requires Invariant(s) && tid in s.workers && s.workers[tid].Owns()
    requires ok.Owns() && ok.Lease() == s.workers[tid].Lease()
    requires bad == s.workers[tid].(pc := Finishing)
    requires RowsOk(after) && Permitted(s.rows, after, ok.Lease(), Monitored(s.log).value)
    requires var m := Monitored(s.log).value;
      var entries := RowEntries(s.rows, after, ok.Lease());
      succeeds && |entries| <= 1 && (entries != [] ==> Allowed(m, entries[0])) ==> OwnerOk(ok, after, After(m, entries))
    ensures Invariant(Wrote(s, tid, after, succeeds, fault, ok, bad))
  {
    hide OwnerOk, Agrees, RowsOk, Allowed, Monitored, After, Permitted;
    var l, m := ok.Lease(), Monitored(s.log).value;
    var rows := Written(s.rows, after, fault);
    NothingPermitted(s.rows, l, m);
    RowEntriesAllowed(s.rows, rows, l, m);
    PermittedElsewhere(s.rows, rows, l, m);
    var w := if fault.Fine? && succeeds then ok else bad;
    FinishingOk(bad, rows, After(m, RowEntries(s.rows, rows, l)));
    OwnerMoves(s, tid, w, rows, RowEntries(s.rows, rows, l));
  }

  lemma PermittedElsewhere(before: Rows, after: Rows, l: string, m: Monitor)
    requires Permitted(before, after, l, m)
    ensures SameElsewhere(before, after, l)
  {
  }

  lemma NothingPermitted(rows: Rows, l: string, m: Monitor)
    ensures Permitted(rows, rows, l, m) && RowEntries(rows, rows, l) == []
  {
  }

  lemma FinishingOk(w: Worker, rows: Rows, m: Monitor)
    requires w.pc == Finishing
    ensures OwnerOk(w, rows, m)
  {
  }

  /** A worker that says one thing about its settlement, and writes nothing. */
  lemma SaidKeeps(s: System, tid: nat, w: Worker, entry: Entry)
    requires Invariant(s) && tid in s.workers && s.workers[tid].Owns() && w.Owns()
    requires w.Lease() == s.workers[tid].Lease() == entry.d.leaseId
    requires !entry.RowStaged? && !entry.TokenKept? && !entry.RowGone? && Allowed(Monitored(s.log).value, entry)
    requires OwnerOk(w, s.rows, Observed(Monitored(s.log).value, entry))
    ensures Invariant(Said(s, tid, w, entry))
  {
    hide OwnerOk, Monitored;
    OwnerMoves(s, tid, w, s.rows, [entry]);
  }

  lemma MovedKeeps(s: System, tid: nat, w: Worker)
    requires Invariant(s) && tid in s.workers && s.workers[tid].Owns() && w.Owns()
    requires w.Lease() == s.workers[tid].Lease() && OwnerOk(w, s.rows, Monitored(s.log).value)
    ensures Invariant(Moved(s, tid, w))
  {
    hide OwnerOk, Monitored;
    OwnerMoves(s, tid, w, s.rows, []);
    assert s.log + [] == s.log;
    assert s.(rows := s.rows, workers := s.workers[tid := w], log := s.log + []) == Moved(s, tid, w);
  }

  // ---------------------------------------------------------------------
  // Every step keeps the invariant

  lemma StagingKeeps(s: System, settlement: Settlement, admitted: bool, fault: Fault)
    requires Invariant(s)
    ensures Invariant(Next(s, Staging(settlement, admitted, fault)))
  {
    var l, m := settlement.definition.leaseId, Monitored(s.log).value;
    var rows := Written(s.rows, Stage(s.rows, settlement, admitted).0, fault);
    StagePermitted(s.rows, settlement, admitted, m);
    hide OwnerOk, Agrees, RowsOk, Allowed, Monitored, Permitted, Stage;
    NothingPermitted(s.rows, l, m);
    RowEntriesAllowed(s.rows, rows, l, m);
    LogGrows(s.log, RowEntries(s.rows, rows, l), l);
    var m' := Monitored(s.log + RowEntries(s.rows, rows, l)).value;
    forall tid | tid in s.workers ensures OwnerOk(s.workers[tid], rows, m') {
      if s.workers[tid].Lease() != l {
        PermittedElsewhere(s.rows, rows, l, m);
        OtherOwner(s.workers[tid], s.rows, m, rows, m', l);
      } else {
        StagingSpares(s.workers[tid], s.rows, settlement, admitted, fault, m, m');
      }
    }
  }

  predicate OnlySession(before: Settlement, after: Settlement) {
    after == before.(session := after.session)
  }

  lemma StagePermitted(rows: Rows, settlement: Settlement, admitted: bool, m: Monitor)
    requires RowsOk(rows)
    ensures var after := Stage(rows, settlement, admitted).0;
      && RowsOk(after) && Permitted(rows, after, settlement.definition.leaseId, m)
      && (settlement.definition.leaseId in rows ==>
            settlement.definition.leaseId in after
            && OnlySession(rows[settlement.definition.leaseId], after[settlement.definition.leaseId]))
  {
  }

  /** Staging never disturbs the owner of a lease: a row it relies on at most changes session. */
  lemma StagingSpares(w: Worker, rows: Rows, settlement: Settlement, admitted: bool, fault: Fault, m: Monitor, m': Monitor)
    requires OwnerOk(w, rows, m) && w.Lease() == settlement.definition.leaseId
    requires var after := Written(rows, Stage(rows, settlement, admitted).0, fault);
      var entries := RowEntries(rows, after, w.Lease());
      && |entries| <= 1 && (entries != [] ==> Allowed(m, entries[0])) && m' == After(m, entries)
    ensures OwnerOk(w, Written(rows, Stage(rows, settlement, admitted).0, fault), m')
  {
  }

  /** Taking a lease no one owns, waiting for its owner, and leaving. */
  lemma OwnershipKeeps(s: System, tid: nat, world: World)
    requires Invariant(s) && tid in s.workers
    requires s.workers[tid].pc.Entering? || s.workers[tid].pc.Waiting? || s.workers[tid].pc.Finishing?
    ensures Invariant(TurnOf(s, tid, world))
  {
    OwnersStay(s, tid, world);
    hide OwnerOk, Agrees, RowsOk, Monitored, Exclusive;
    hide RebindWorkerSession, RecordAcknowledgment, AdvanceConfirmation, Complete, Discard, Find;
    var t, m := TurnOf(s, tid, world), Monitored(s.log).value;
    forall other | other in t.workers ensures OwnerOk(t.workers[other], t.rows, m) {
      if other == tid { Newcomer(t.workers[tid], t.rows, m); }
    }
  }

  lemma OwnersStay(s: System, tid: nat, world: World)
    requires Exclusive(s.workers, s.inFlight) && tid in s.workers
    requires s.workers[tid].pc.Entering? || s.workers[tid].pc.Waiting? || s.workers[tid].pc.Finishing?
    ensures Exclusive(TurnOf(s, tid, world).workers, TurnOf(s, tid, world).inFlight)
  {
    hide RebindWorkerSession, RecordAcknowledgment, AdvanceConfirmation, Complete, Discard, Find;
  }

  lemma Newcomer(w: Worker, rows: Rows, m: Monitor)
    requires w.pc.Entering? || w.pc.Waiting? || w.pc.Rebinding?
    ensures OwnerOk(w, rows, m)
  {
  }

  lemma RebindingKeeps(s: System, tid: nat, world: World)
    requires Invariant(s) && tid in s.workers && s.workers[tid].pc.Rebinding?
    ensures Invariant(TurnOf(s, tid, world))
  {
    var w, m := s.workers[tid], Monitored(s.log).value;
    hide Monitored, Invariant;
    if WantsRebinding(w.held, s.session, world.grantConfirmed) {
      var (rows, found) := RebindWorkerSession(s.rows, w.held, s.session.sessionId);
      RebindPermitted(s, w, m);
      hide RebindWorkerSession;
      WroteKeeps(s, tid, rows, found.Row?, world.fault,
                 if found.Row? then Worker(found.row, Reading) else w.(pc := Finishing), w.(pc := Finishing));
    } else {
      MovedKeeps(s, tid, w.(pc := Reading));
    }
  }

  lemma RebindPermitted(s: System, w: Worker, m: Monitor)
    requires Invariant(s)
    ensures var (rows, found) := RebindWorkerSession(s.rows, w.held, s.session.sessionId);
      && RowsOk(rows) && Permitted(s.rows, rows, w.Lease(), m) && rows.Keys == s.rows.Keys
      && (w.Lease() in s.rows ==> OnlySession(s.rows[w.Lease()], rows[w.Lease()]))
      && (found.Row? ==> found.row.definition == w.held.definition)
  {
  }

  lemma ReadingKeeps(s: System, tid: nat, world: World)
    requires Invariant(s) && tid in s.workers && (s.workers[tid].pc.Reading? || s.workers[tid].pc.Preparing?)
    ensures Invariant(TurnOf(s, tid, world))
  {
    hide Invariant, Monitored, RowsOk, Agrees;
    hide RebindWorkerSession, RecordAcknowledgment, AdvanceConfirmation, Complete, Discard;
    OwnerFacts(s, tid);
    MovedKeeps(s, tid, TurnOf(s, tid, world).workers[tid]);
  }

  lemma FirstCallingKeeps(s: System, tid: nat, world: World)
    requires Invariant(s) && tid in s.workers && (s.workers[tid].pc.Acknowledging? || s.workers[tid].pc.FirstCalling?)
    ensures Invariant(TurnOf(s, tid, world))
  {
    hide Invariant, Monitored, RowsOk, Agrees;
    hide RebindWorkerSession, RecordAcknowledgment, AdvanceConfirmation, Complete, Discard, Find;
    var w := s.workers[tid];
    OwnerFacts(s, tid);
    var d := w.held.definition;
    if w.pc.Acknowledging? {
      if w.held.phase == 0 || w.held.phase == AWAITING_ACKNOWLEDGMENT {
        SaidKeeps(s, tid, Worker(w.held.(phase := AWAITING_ACKNOWLEDGMENT), FirstCalling), FirstSent(d));
      } else {
        MovedKeeps(s, tid, w.(pc := if w.held.phase == ACKNOWLEDGED_DELETING then Preparing else ConfirmReady));
      }
    } else {
      match world.reply
      case Ok(token) => MovedKeeps(s, tid, w.(pc := if |token| == DIGEST_BYTES then Recording(token) else Finishing));
      case NotFound => SaidKeeps(s, tid, w.(pc := Discarding), Refused(d));
      case Broken => MovedKeeps(s, tid, w.(pc := Finishing));
      case Again => SaidKeeps(s, tid, w, FirstSent(d));
    }
  }

  lemma ConfirmCallingKeeps(s: System, tid: nat, world: World)
    requires Invariant(s) && tid in s.workers && (s.workers[tid].pc.ConfirmReady? || s.workers[tid].pc.ConfirmCalling?)
    ensures Invariant(TurnOf(s, tid, world))
  {
    hide Invariant, Monitored, RowsOk, Agrees;
    hide RebindWorkerSession, RecordAcknowledgment, AdvanceConfirmation, Complete, Discard, Find;
    var w := s.workers[tid];
    OwnerFacts(s, tid);
    var d := w.held.definition;
    if w.pc.ConfirmReady? {
      SaidKeeps(s, tid, w.(pc := ConfirmCalling), ConfirmSent(d, w.held.token));
    } else {
      match world.reply
      case Ok(_) => SaidKeeps(s, tid, w.(pc := Completing), Accepted(d, w.held.token));
      case NotFound => SaidKeeps(s, tid, w.(pc := Discarding), Refused(d));
      case Broken => MovedKeeps(s, tid, w.(pc := Finishing));
      case Again => SaidKeeps(s, tid, w, ConfirmSent(d, w.held.token));
    }
  }

  /** What an owner knows of its row, as the log tells it. */
  lemma OwnerFacts(s: System, tid: nat)
    requires Invariant(s) && tid in s.workers
    ensures var w, m := s.workers[tid], Monitored(s.log).value;
      && OwnerOk(w, s.rows, m)
      && (w.Lease() in s.rows ==>
            var row := s.rows[w.Lease()];
            && w.Lease() in m && m[w.Lease()].d == row.definition && ValidPhase(row) && row.phase > 0
            && m[w.Lease()].token == if row.token == "" then None else Some(row.token))
  {
  }

  lemma RecordingKeeps(s: System, tid: nat, world: World)
    requires Invariant(s) && tid in s.workers && s.workers[tid].pc.Recording?
    ensures Invariant(TurnOf(s, tid, world))
  {
    var w, m := s.workers[tid], Monitored(s.log).value;
    assert RowsOk(s.rows);
    hide Invariant, Monitored, RowsOk, Agrees, Permitted;
    hide RebindWorkerSession, AdvanceConfirmation, Complete, Discard;
    OwnerFacts(s, tid);
    AdvancePermitted(s, w, m);
    var (rows, verdict) := RecordAcknowledgment(s.rows, w.held.definition, w.pc.token);
    WroteKeeps(s, tid, rows, verdict.Done?, world.fault,
               Worker(w.held.(phase := ACKNOWLEDGED_DELETING, token := w.pc.token), Preparing), w.(pc := Finishing));
  }

  lemma ErasingKeeps(s: System, tid: nat, world: World)
    requires Invariant(s) && tid in s.workers && s.workers[tid].pc.Erasing?
    ensures Invariant(TurnOf(s, tid, world))
  {
    var w, m := s.workers[tid], Monitored(s.log).value;
    assert RowsOk(s.rows);
    hide Invariant, Monitored, RowsOk, Agrees, Permitted;
    hide RebindWorkerSession, RecordAcknowledgment, Complete, Discard;
    OwnerFacts(s, tid);
    AdvancePermitted(s, w, m);
    var (rows, verdict) := AdvanceConfirmation(s.rows, w.held.definition, w.pc.expected);
    WroteKeeps(s, tid, rows, verdict.Done?, world.fault, Worker(w.held.(phase := CONFIRMING), ConfirmReady),
               w.(pc := Finishing));
  }

  lemma AdvancePermitted(s: System, w: Worker, m: Monitor)
    requires RowsOk(s.rows)
    ensures w.pc.Recording? ==>
      var rows := RecordAcknowledgment(s.rows, w.held.definition, w.pc.token).0;
      RowsOk(rows) && Permitted(s.rows, rows, w.Lease(), m)
    ensures w.pc.Erasing? ==>
      var rows := AdvanceConfirmation(s.rows, w.held.definition, w.pc.expected).0;
      RowsOk(rows) && Permitted(s.rows, rows, w.Lease(), m)
  {
  }

  lemma RemovingKeeps(s: System, tid: nat, world: World)
    requires Invariant(s) && tid in s.workers && (s.workers[tid].pc.Completing? || s.workers[tid].pc.Discarding?)
    ensures Invariant(TurnOf(s, tid, world))
  {
    var w, m := s.workers[tid], Monitored(s.log).value;
    OwnerFacts(s, tid);
    RemovalPermitted(s, w, m);
    hide Invariant, Monitored, RowsOk, Agrees, Permitted, OwnerOk;
    FinishingOk(w.(pc := Finishing), s.rows, m);
    var (rows, verdict) := if w.pc.Completing? then Complete(s.rows, w.held.definition)
                           else Discard(s.rows, w.held.definition);
    var entries := RowEntries(s.rows, rows, w.Lease());
    if |entries| <= 1 && (entries != [] ==> Allowed(m, entries[0])) {
      FinishingOk(w.(pc := Finishing), rows, After(m, entries));
    }
    WroteKeeps(s, tid, rows, verdict.Done?, world.fault, w.(pc := Finishing), w.(pc := Finishing));
  }

  lemma RemovalPermitted(s: System, w: Worker, m: Monitor)
    requires RowsOk(s.rows) && OwnerOk(w, s.rows, m)
    ensures w.pc.Completing? ==>
      var rows := Complete(s.rows, w.held.definition).0; RowsOk(rows) && Permitted(s.rows, rows, w.Lease(), m)
    ensures w.pc.Discarding? ==>
      var rows := Discard(s.rows, w.held.definition).0; RowsOk(rows) && Permitted(s.rows, rows, w.Lease(), m)
  {
  }

  lemma StepKeeps(s: System, e: Event)
    requires Invariant(s)
    ensures Invariant(Next(s, e))
  {
    match e
    case Staging(settlement, admitted, fault) =>
      StagingKeeps(s, settlement, admitted, fault);
    case Begin(tid, settlement) =>
    case Bind(session) =>
    case Crash(session) =>
    case Turn(tid, world) =>
      hide Invariant, TurnOf;
      if tid in s.workers {
        match s.workers[tid].pc
        case Entering => OwnershipKeeps(s, tid, world);
        case Waiting => OwnershipKeeps(s, tid, world);
        case Rebinding => RebindingKeeps(s, tid, world);
        case Reading => ReadingKeeps(s, tid, world);
        case Acknowledging => FirstCallingKeeps(s, tid, world);
        case FirstCalling => FirstCallingKeeps(s, tid, world);
        case Recording(_) => RecordingKeeps(s, tid, world);
        case Preparing => ReadingKeeps(s, tid, world);
        case Erasing(_) => ErasingKeeps(s, tid, world);
        case ConfirmReady => ConfirmCallingKeeps(s, tid, world);
        case ConfirmCalling => ConfirmCallingKeeps(s, tid, world);
        case Completing => RemovingKeeps(s, tid, world);
        case Discarding => RemovingKeeps(s, tid, world);
        case Finishing => OwnershipKeeps(s, tid, world);
      }
  }

  // ---------------------------------------------------------------------
  // Whole runs

  function Run(session: Session, events: seq<Event>): System {
    if events == [] then System(map[], session, map[], map[], [])
    else Next(Run(session, events[..|events| - 1]), events[|events| - 1])
  }

  lemma {:induction false} RunKeeps(session: Session, events: seq<Event>)
    ensures Invariant(Run(session, events))
  {
    if events == [] {
    } else {
      RunKeeps(session, events[..|events| - 1]);
      StepKeeps(Run(session, events[..|events| - 1]), events[|events| - 1]);
    }
  }

  /** Whatever workers, faults, answers and crashes make of it, the log of every run is one
      the protocol allows. */
  lemma ProtocolFollowed(session: Session, events: seq<Event>)
    ensures Monitored(Run(session, events).log).Some?
  {
    RunKeeps(session, events);
  }

  /** Every step changes at most one row, and that row only as permitted. */
  lemma StepPermitted(s: System, e: Event) returns (l: string)
    requires Invariant(s)
    ensures Permitted(s.rows, Next(s, e).rows, l, Monitored(s.log).value)
  {
    var m := Monitored(s.log).value;
    l := "";
    NothingPermitted(s.rows, l, m);
    match e
    case Staging(settlement, admitted, fault) =>
      l := settlement.definition.leaseId;
      NothingPermitted(s.rows, l, m);
      StagePermitted(s.rows, settlement, admitted, m);
    case Turn(tid, world) =>
      if tid in s.workers {
        var w := s.workers[tid];
        l := w.Lease();
        hide Invariant, Permitted;
        TurnPermitted(s, tid, world);
      }
    case _ =>
  }

  lemma TurnPermitted(s: System, tid: nat, world: World)
    requires Invariant(s) && tid in s.workers
    ensures Permitted(s.rows, TurnOf(s, tid, world).rows, s.workers[tid].Lease(), Monitored(s.log).value)
  {
    var w, m := s.workers[tid], Monitored(s.log).value;
    assert RowsOk(s.rows) && OwnerOk(w, s.rows, m);
    NothingPermitted(s.rows, w.Lease(), m);
    RebindPermitted(s, w, m);
    AdvancePermitted(s, w, m);
    RemovalPermitted(s, w, m);
    hide Invariant, Permitted, RowsOk, OwnerOk, Monitored;
    hide RebindWorkerSession, RecordAcknowledgment, AdvanceConfirmation, Complete, Discard, Find;
  }

  /** From one step to the next a row keeps its definition and its token, and its phase
      does not fall. */
  lemma PhaseStays(session: Session, events: seq<Event>, e: Event, l: string)
    requires l in Run(session, events).rows && l in Next(Run(session, events), e).rows
    ensures Forward(Run(session, events).rows[l], Next(Run(session, events), e).rows[l])
  {
    hide Invariant, Next;
    RunKeeps(session, events);
    var changed := StepPermitted(Run(session, events), e);
    if l != changed {
      assert Next(Run(session, events), e).rows[l] == Run(session, events).rows[l];
    }
  }

  lemma RunSteps(session: Session, events: seq<Event>, k: nat)
    requires k < |events|
    ensures Run(session, events[..k + 1]) == Next(Run(session, events[..k]), events[k])
  {
    assert events[..k + 1][..k] == events[..k];
  }

  predicate Forward(a: Settlement, b: Settlement) {
    b.definition == a.definition && b.phase >= a.phase && (a.token != "" ==> b.token == a.token)
  }

  /** A durable phase never goes back, and a token once kept stays, between any two moments
      of a run through which the row stays. */
  lemma {:induction false} PhaseNeverBack(session: Session, events: seq<Event>, i: nat, j: nat, l: string)
    requires i <= j <= |events|
    requires forall k :: i <= k <= j ==> l in Run(session, events[..k]).rows
    ensures Forward(Run(session, events[..i]).rows[l], Run(session, events[..j]).rows[l])
  {
    hide Run, Next;
    if i == j {
    } else {
      PhaseNeverBack(session, events, i, j - 1, l);
      RunSteps(session, events, j - 1);
      PhaseStays(session, events[..j - 1], events[j - 1], l);
    }
  }

  // ---------------------------------------------------------------------
  // What a log the protocol allows means

  ghost predicate Goes(log: seq<Entry>, k: int, l: string) {
    0 <= k < |log| && log[k].RowGone? && log[k].d.leaseId == l
  }

  /** The row of the lease stayed from just after `j` to just before `i`. */
  ghost predicate Stays(log: seq<Entry>, l: string, j: int, i: int) {
    forall k :: j < k < i ==> !Goes(log, k, l)
  }

  /** An entry stands in the log, and the row has not gone since. */
  ghost predicate Standing(log: seq<Entry>, entry: Entry) {
    exists j :: 0 <= j < |log| && log[j] == entry && Stays(log, entry.d.leaseId, j, |log|)
  }

  lemma StandingStays(log: seq<Entry>, entry: Entry, next: Entry)
    requires Standing(log, entry) && !(next.RowGone? && next.d.leaseId == entry.d.leaseId)
    ensures Standing(log + [next], entry)
  {
    var j :| 0 <= j < |log| && log[j] == entry && Stays(log, entry.d.leaseId, j, |log|);
    var more := log + [next];
    assert more[j] == entry;
    forall k | j < k < |more| ensures !Goes(more, k, entry.d.leaseId) {
      assert k < |log| ==> more[k] == log[k] && !Goes(log, k, entry.d.leaseId);
    }
  }

  lemma StandingNow(log: seq<Entry>, next: Entry)
    ensures Standing(log + [next], next)
  {
    assert (log + [next])[|log|] == next;
    assert Stays(log + [next], next.d.leaseId, |log|, |log| + 1);
  }

  /** What the monitor knows of a row stands in the log. */
  lemma {:induction false} KnownStands(log: seq<Entry>, l: string)
    requires Monitored(log).Some? && l in Monitored(log).value
    ensures var known := Monitored(log).value[l];
      && known.d.leaseId == l
      && (known.token.Some? ==>
            |known.token.value| == DIGEST_BYTES && Standing(log, TokenKept(known.d, known.token.value)))
      && (known.accepted ==> known.token.Some? && Standing(log, Accepted(known.d, known.token.value)))
      && (known.refused ==> Standing(log, Refused(known.d)))
  {
    var n := |log| - 1;
    var front, last := log[..n], log[n];
    var m := Monitored(front).value;
    assert log == front + [last];
    if last.d.leaseId == l {
      StandingNow(front, last);
    }
    if l in m && !(last.RowGone? && last.d.leaseId == l) {
      KnownStands(front, l);
      hide Standing;
      var known := m[l];
      if known.token.Some? { StandingStays(front, TokenKept(known.d, known.token.value), last); }
      if known.accepted { StandingStays(front, Accepted(known.d, known.token.value), last); }
      if known.refused { StandingStays(front, Refused(known.d), last); }
    }
  }

  /** As long as the row stays, the monitor remembers the token kept. */
  lemma {:induction false} TokenRemembered(log: seq<Entry>, j: nat)
    requires Monitored(log).Some? && j < |log| && log[j].TokenKept? && Stays(log, log[j].d.leaseId, j, |log|)
    ensures var m := Monitored(log).value;
      log[j].d.leaseId in m && m[log[j].d.leaseId].token.Some?
  {
    var n := |log| - 1;
    var l := log[j].d.leaseId;
    if j == n {
    } else {
      forall k | j < k < n ensures !Goes(log[..n], k, l) {
        assert !Goes(log, k, l);
      }
      TokenRemembered(log[..n], j);
      assert !Goes(log, n, l);
    }
  }

  lemma {:induction false} PrefixMonitored(log: seq<Entry>, n: nat)
    requires Monitored(log).Some? && n <= |log|
    ensures Monitored(log[..n]).Some?
    ensures n < |log| ==> Allowed(Monitored(log[..n]).value, log[n])
  {
    if n < |log| {
      PrefixMonitored(log[..|log| - 1], n);
      assert log[..|log| - 1][..n] == log[..n];
    } else {
      assert log[..n] == log;
    }
  }

  lemma AllowedAt(session: Session, events: seq<Event>, i: nat)
    requires i < |Run(session, events).log|
    ensures var log := Run(session, events).log;
      Monitored(log[..i]).Some? && Allowed(Monitored(log[..i]).value, log[i])
  {
    ProtocolFollowed(session, events);
    PrefixMonitored(Run(session, events).log, i);
  }

  /** Confirmation is only ever asked for with a token of 32 bytes that was made durable
      before, for a row that has not gone since. */
  lemma ConfirmedOnlyDurably(session: Session, events: seq<Event>, i: nat)
    requires var log := Run(session, events).log; i < |log| && log[i].ConfirmSent?
    ensures var log := Run(session, events).log;
      |log[i].token| == DIGEST_BYTES && Standing(log[..i], TokenKept(log[i].d, log[i].token))
  {
    AllowedAt(session, events, i);
    var log := Run(session, events).log;
    hide Run, Monitored, Standing;
    KnownStands(log[..i], log[i].d.leaseId);
  }

  /** Once a token is durable, the first phase is not asked for again while the row stays. */
  lemma FirstPhaseNotRepeated(session: Session, events: seq<Event>, j: nat, i: nat)
    requires var log := Run(session, events).log;
      j < i < |log| && log[j].TokenKept? && log[i].FirstSent? && log[i].d.leaseId == log[j].d.leaseId
    ensures !Stays(Run(session, events).log, Run(session, events).log[i].d.leaseId, j, i)
  {
    AllowedAt(session, events, i);
    var log := Run(session, events).log;
    hide Run, Monitored;
    var l := log[i].d.leaseId;
    if Stays(log, l, j, i) {
      forall k | j < k < i ensures !Goes(log[..i], k, l) {
        assert !Goes(log, k, l);
      }
      TokenRemembered(log[..i], j);
    }
  }

  /** A row goes only after the node accepted its confirmation with the durable token, or
      refused it as not found, since the row was staged. */
  lemma GoneOnlyAnswered(session: Session, events: seq<Event>, i: nat)
    requires var log := Run(session, events).log; i < |log| && log[i].RowGone?
    ensures var log := Run(session, events).log;
      || Standing(log[..i], Refused(log[i].d))
      || exists token :: Standing(log[..i], TokenKept(log[i].d, token)) && Standing(log[..i], Accepted(log[i].d, token))
  {
    AllowedAt(session, events, i);
    var log := Run(session, events).log;
    hide Run, Monitored, Standing;
    KnownStands(log[..i], log[i].d.leaseId);
  }

  /** The log is right about the outbox: what is sent matches the row at that moment. */
  lemma SendsMatchOutbox(session: Session, events: seq<Event>, tid: nat, world: World)
    requires var s := Run(session, events);
      tid in s.workers && |Next(s, Turn(tid, world)).log| > |s.log|
    ensures var s := Run(session, events);
      var entry, l := Next(s, Turn(tid, world)).log[|s.log|], s.workers[tid].Lease();
      && (entry.FirstSent? ==> l in s.rows && s.rows[l].definition == entry.d
                               && s.rows[l].phase == AWAITING_ACKNOWLEDGMENT)
      && (entry.ConfirmSent? ==> l in s.rows && s.rows[l].definition == entry.d
                                 && s.rows[l].phase == CONFIRMING && s.rows[l].token == entry.token)
  {
    hide Run, Invariant, Monitored;
    hide RebindWorkerSession, RecordAcknowledgment, AdvanceConfirmation, Complete, Discard, Find;
    RunKeeps(session, events);
    var s := Run(session, events);
    OwnerFacts(s, tid);
  }
}
