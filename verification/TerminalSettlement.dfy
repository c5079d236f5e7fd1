/**
 Terminal settlements: the record that survives until the node has confirmed it, and the
 durable outbox the records live in. Every outbox operation is one transaction.
 */
module TerminalSettlement {
  import opened Wrappers
  import opened LeaseIdentity

  /** Bytes are characters; only lengths and equality matter. */
  type Bytes = string

  const DIGEST_BYTES := 32
  const MAXIMUM_SESSION_BYTES := 256

  const AWAITING_ACKNOWLEDGMENT := 1
  const ACKNOWLEDGED_DELETING := 2
  const CONFIRMING := 3

  /** Everything that identifies a settlement except the worker session; `content` stands
      for the reported outcome, state, tally, history and rate. */
  datatype Definition = Definition(leaseId: string, orderIdentity: Bytes, workerId: string, content: int)

  datatype Settlement = Settlement(definition: Definition, session: string, phase: nat, token: Bytes)

  predicate ValidSession(session: string) {
    0 < |session| <= MAXIMUM_SESSION_BYTES
  }

  predicate ValidPhase(s: Settlement) {
    if s.phase == 0 || s.phase == AWAITING_ACKNOWLEDGMENT then s.token == ""
    else if s.phase == ACKNOWLEDGED_DELETING || s.phase == CONFIRMING then |s.token| == DIGEST_BYTES
    else false
  }

  predicate Validate(s: Settlement) {
    && ValidLeaseId(s.definition.leaseId) && |s.definition.orderIdentity| == DIGEST_BYTES
    && ValidSession(s.session) && ValidPhase(s)
  }

  predicate SameDefinition(a: Settlement, b: Settlement) {
    a.definition == b.definition && a.session == b.session
  }

  type Rows = map<string, Settlement>

  /** What a transaction finds under a lease and an order identity. */
  datatype Found = Missing | Mismatch | Row(row: Settlement)

  function Find(rows: Rows, leaseId: string, orderIdentity: Bytes): Found {
    if leaseId !in rows then Missing
    else if rows[leaseId].definition.orderIdentity != orderIdentity then Mismatch
    else Row(rows[leaseId])
  }

  datatype Verdict = Done | Conflict

  /** A settlement still awaiting acknowledgment moves to another session. */
  predicate Rebindable(current: Settlement, expected: Settlement, session: string) {
    && current.phase == AWAITING_ACKNOWLEDGMENT && current.token == ""
    && current.definition == expected.definition && ValidSession(session)
  }

  /** `admitted`: the run's record is complete, not being deleted and of the same order. */
  function Stage(rows: Rows, s: Settlement, admitted: bool): (Rows, Verdict) {
    var leaseId := s.definition.leaseId;
    if !Validate(s) || s.phase > AWAITING_ACKNOWLEDGMENT then (rows, Conflict)
    else if leaseId !in rows then
      if admitted then (rows[leaseId := s.(phase := AWAITING_ACKNOWLEDGMENT)], Done) else (rows, Conflict)
    else if SameDefinition(rows[leaseId], s) then (rows, Done)
    else if Rebindable(rows[leaseId], s, s.session) then (rows[leaseId := rows[leaseId].(session := s.session)], Done)
    else (rows, Conflict)
  }

  function RebindWorkerSession(rows: Rows, expected: Settlement, session: string): (Rows, Found) {
    var d := expected.definition;
    if !Validate(expected) || expected.phase != AWAITING_ACKNOWLEDGMENT || !ValidSession(session) then (rows, Mismatch)
    else
      var found := Find(rows, d.leaseId, d.orderIdentity);
      if !found.Row? then (rows, found)
      else if !Rebindable(found.row, expected, session) then (rows, Mismatch)
      else
        var rebound := found.row.(session := session);
        (rows[d.leaseId := rebound], Row(rebound))
  }

  function RecordAcknowledgment(rows: Rows, d: Definition, token: Bytes): (Rows, Verdict) {
    var found := Find(rows, d.leaseId, d.orderIdentity);
    if |token| != DIGEST_BYTES || found.Mismatch? then (rows, Conflict)
    else if found.Missing? then (rows, Done)
    else if found.row.phase != AWAITING_ACKNOWLEDGMENT then
      (rows, if found.row.token == token then Done else Conflict)
    else (rows[d.leaseId := found.row.(phase := ACKNOWLEDGED_DELETING, token := token)], Done)
  }

  function AdvanceConfirmation(rows: Rows, d: Definition, expected: Bytes): (Rows, Verdict) {
    var found := Find(rows, d.leaseId, d.orderIdentity);
    if found.Mismatch? then (rows, Conflict)
    else if found.Missing? then (rows, Done)
    else if found.row.token != expected then (rows, Conflict)
    else if found.row.phase == CONFIRMING then (rows, Done)
    else if found.row.phase != ACKNOWLEDGED_DELETING then (rows, Conflict)
    else (rows[d.leaseId := found.row.(phase := CONFIRMING)], Done)
  }

  function Complete(rows: Rows, d: Definition): (Rows, Verdict) {
    var found := Find(rows, d.leaseId, d.orderIdentity);
    if found.Mismatch? then (rows, Conflict)
    else if found.Missing? then (rows, Done)
    else if found.row.phase != CONFIRMING then (rows, Conflict)
    else (rows - {d.leaseId}, Done)
  }

  function Discard(rows: Rows, d: Definition): (Rows, Verdict) {
    var found := Find(rows, d.leaseId, d.orderIdentity);
    if found.Mismatch? then (rows, Conflict)
    else if found.Missing? then (rows, Done)
    else (rows - {d.leaseId}, Done)
  }
}
