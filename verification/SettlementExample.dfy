/**
 One settlement from staging to its end, with a crash after its token is kept: a second
 worker goes on where the first one was, and the first phase is not asked for again.
 */
module SettlementExample {
  import opened Wrappers
  import opened TerminalSettlement
  import opened SettlementRelay

  const SESSION := Session("w", "s", true)

  function Copies(n: nat): (b: Bytes)
    ensures |b| == n
  {
    if n == 0 then "" else Copies(n - 1) + "b"
  }

  function Token(): Bytes {
    Copies(DIGEST_BYTES)
  }

  function Settled(): Definition {
    Definition("lease", Copies(DIGEST_BYTES), "w", 0)
  }

  function Staged(): Settlement {
    Settlement(Settled(), "s", AWAITING_ACKNOWLEDGMENT, "")
  }

  function Kept(): Settlement {
    Staged().(phase := ACKNOWLEDGED_DELETING, token := Token())
  }

  function Confirmed(): Settlement {
    Kept().(phase := CONFIRMING)
  }

  /** The row, and one worker that owns the lease. */
  function Owned(row: Settlement, tid: nat, held: Settlement, pc: Pc, log: seq<Entry>): System {
    System(map["lease" := row], SESSION, map[tid := Worker(held, pc)], map["lease" := tid], log)
  }

  /** The row, and nobody at work. */
  function Resting(row: Settlement, log: seq<Entry>): System {
    System(map["lease" := row], SESSION, map[], map[], log)
  }

  function Answered(reply: Reply): World {
    World(Fine, true, reply)
  }

  function StagedLog(): seq<Entry> { [RowStaged(Settled())] }
  function AskedLog(): seq<Entry> { StagedLog() + [FirstSent(Settled())] }
  function KeptLog(): seq<Entry> { AskedLog() + [TokenKept(Settled(), Token())] }
  function SentLog(): seq<Entry> { KeptLog() + [ConfirmSent(Settled(), Token())] }
  function AcceptedLog(): seq<Entry> { SentLog() + [Accepted(Settled(), Token())] }
  function GoneLog(): seq<Entry> { AcceptedLog() + [RowGone(Settled())] }

  lemma More(events: seq<Event>, e: Event) returns (longer: seq<Event>)
    ensures longer == events + [e] && Run(SESSION, longer) == Next(Run(SESSION, events), e)
  {
    longer := events + [e];
    assert longer[..|events|] == events;
  }

  lemma StagesRow() returns (events: seq<Event>)
    ensures Run(SESSION, events) == Resting(Staged(), StagedLog())
  {
    assert Run(SESSION, []) == System(map[], SESSION, map[], map[], []);
    hide Run, Copies;
    events := More([], Staging(Staged(), true, Fine));
  }

  /** A worker takes the lease and reads the row. */
  lemma TakesLease(events: seq<Event>, tid: nat, row: Settlement, log: seq<Entry>) returns (longer: seq<Event>)
    requires Run(SESSION, events) == Resting(row, log) && Validate(Staged())
    requires row.definition == Settled() && row.session == "s"
    ensures Run(SESSION, longer) == Owned(row, tid, row, Acknowledging, log) && events <= longer
  {
    hide Run, Copies, Validate, RebindWorkerSession, RecordAcknowledgment, AdvanceConfirmation, Complete, Discard;
    var w := Answered(Broken);
    longer := More(events, Begin(tid, Staged()));
    longer := More(longer, Turn(tid, w));
    assert Run(SESSION, longer) == Owned(row, tid, Staged(), Rebinding, log);
    longer := More(longer, Turn(tid, w));
    assert Run(SESSION, longer) == Owned(row, tid, Staged(), Reading, log);
    longer := More(longer, Turn(tid, w));
  }

  /** It asks for the first phase and keeps the token it is given. */
  lemma KeepsToken(events: seq<Event>) returns (longer: seq<Event>)
    requires Run(SESSION, events) == Owned(Staged(), 0, Staged(), Acknowledging, StagedLog())
    ensures Run(SESSION, longer) == Owned(Kept(), 0, Kept(), Preparing, KeptLog()) && events <= longer
  {
    hide Run, Copies, RebindWorkerSession, AdvanceConfirmation, Complete, Discard;
    longer := More(events, Turn(0, Answered(Broken)));
    assert Run(SESSION, longer) == Owned(Staged(), 0, Staged(), FirstCalling, AskedLog());
    longer := More(longer, Turn(0, Answered(Ok(Token()))));
    assert Run(SESSION, longer) == Owned(Staged(), 0, Staged(), Recording(Token()), AskedLog());
    longer := More(longer, Turn(0, Answered(Broken)));
  }

  lemma Crashes(events: seq<Event>) returns (longer: seq<Event>)
    requires Run(SESSION, events) == Owned(Kept(), 0, Kept(), Preparing, KeptLog())
    ensures Run(SESSION, longer) == Resting(Kept(), KeptLog()) && Crash(SESSION) in longer
  {
    hide Run, Copies;
    longer := More(events, Crash(SESSION));
  }

  /** The second worker makes the confirming phase durable and asks for confirmation. */
  lemma AsksConfirmation(events: seq<Event>) returns (longer: seq<Event>)
    requires Run(SESSION, events) == Owned(Kept(), 1, Kept(), Acknowledging, KeptLog())
    ensures Run(SESSION, longer) == Owned(Confirmed(), 1, Confirmed(), ConfirmCalling, SentLog()) && events <= longer
  {
    hide Run, Copies, RebindWorkerSession, RecordAcknowledgment, Complete, Discard;
    var w := Answered(Broken);
    longer := More(events, Turn(1, w));
    assert Run(SESSION, longer) == Owned(Kept(), 1, Kept(), Preparing, KeptLog());
    longer := More(longer, Turn(1, w));
    assert Run(SESSION, longer) == Owned(Kept(), 1, Kept(), Erasing(Token()), KeptLog());
    longer := More(longer, Turn(1, w));
    assert Run(SESSION, longer) == Owned(Confirmed(), 1, Confirmed(), ConfirmReady, KeptLog());
    longer := More(longer, Turn(1, w));
  }

  lemma Completes(events: seq<Event>) returns (longer: seq<Event>)
    requires Run(SESSION, events) == Owned(Confirmed(), 1, Confirmed(), ConfirmCalling, SentLog())
    ensures Run(SESSION, longer) == System(map[], SESSION, map[], map[], GoneLog()) && events <= longer
  {
    hide Run, Copies, RebindWorkerSession, RecordAcknowledgment, AdvanceConfirmation, Discard;
    var w := Answered(Broken);
    longer := More(events, Turn(1, Answered(Ok(""))));
    assert Run(SESSION, longer) == Owned(Confirmed(), 1, Confirmed(), Completing, AcceptedLog());
    longer := More(longer, Turn(1, w));
    assert Run(SESSION, longer) == System(map[], SESSION, map[1 := Worker(Confirmed(), Finishing)], map["lease" := 1], GoneLog());
    longer := More(longer, Turn(1, w));
  }

  /** Every kind of entry but a refusal, once each and in order, although the first worker
      was lost in a crash. */
  lemma SettledAcrossCrash() returns (events: seq<Event>)
    ensures Run(SESSION, events) == System(map[], SESSION, map[], map[], GoneLog()) && Crash(SESSION) in events
  {
    hide Run, Copies, GoneLog, AskedLog;
    var staged := StagesRow();
    var taken := TakesLease(staged, 0, Staged(), StagedLog());
    var kept := KeepsToken(taken);
    var crashed := Crashes(kept);
    var again := TakesLease(crashed, 1, Kept(), KeptLog());
    var asked := AsksConfirmation(again);
    events := Completes(asked);
    assert events[..|crashed|] == crashed;
  }
}
