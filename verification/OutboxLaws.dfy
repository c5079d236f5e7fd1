/**
 What each outbox transaction answers and does, by what it finds: the row of another order is
 never touched, a missing row is no error, and each change needs its phase.
 */
module OutboxLaws {
  import opened Wrappers
  import opened TerminalSettlement

  /** A row of the lease, and whether it is of this order. */
  predicate Here(rows: Rows, d: Definition) {
    d.leaseId in rows && rows[d.leaseId].definition.orderIdentity == d.orderIdentity
  }

  predicate OfAnother(rows: Rows, d: Definition) {
    d.leaseId in rows && rows[d.leaseId].definition.orderIdentity != d.orderIdentity
  }

  /** Everything that is in a settlement but its phase and token is as in the other. */
  predicate SameSettlement(a: Settlement, b: Settlement) {
    a.definition == b.definition && a.session == b.session
  }

  /** A settlement is staged exactly if it is sound, not acknowledged yet, and new with its run
      complete, or there already, or there under another session and not acknowledged. */
  lemma StageDecides(rows: Rows, s: Settlement, admitted: bool)
    ensures var (after, verdict) := Stage(rows, s, admitted);
      var l := s.definition.leaseId;
      var sound := Validate(s) && (s.phase == 0 || s.phase == 1);
      var joins := l in rows && rows[l].definition == s.definition;
      && (verdict == Done <==>
            sound && if l !in rows then admitted
                     else joins && (rows[l].session == s.session || (rows[l].phase == 1 && rows[l].token == "")))
      && (verdict == Conflict ==> after == rows)
      && (verdict == Done && l !in rows ==> after == rows[l := Settlement(s.definition, s.session, 1, s.token)])
      && (verdict == Done && l in rows ==>
            after == rows[l := Settlement(s.definition, s.session, rows[l].phase, rows[l].token)])
  {
    var l := s.definition.leaseId;
    if l in rows && SameSettlement(rows[l], s) { assert rows[l := rows[l]] == rows; }
  }

  /** The first token of 32 bytes is kept, the same one again is fine, and another never is. */
  lemma RecordDecides(rows: Rows, d: Definition, token: Bytes)
    ensures var (after, verdict) := RecordAcknowledgment(rows, d, token);
      && (verdict == Done <==>
            |token| == 32 && !OfAnother(rows, d)
            && (Here(rows, d) ==> rows[d.leaseId].phase == 1 || rows[d.leaseId].token == token))
      && (after != rows ==> verdict == Done && Here(rows, d) && rows[d.leaseId].phase == 1)
      && (verdict == Done && Here(rows, d) && rows[d.leaseId].phase == 1 ==>
            after == rows[d.leaseId := rows[d.leaseId].(phase := 2, token := token)])
  {
  }

  /** Confirmation is prepared exactly with the token that was kept. */
  lemma AdvanceDecides(rows: Rows, d: Definition, token: Bytes)
    ensures var (after, verdict) := AdvanceConfirmation(rows, d, token);
      && (verdict == Done <==>
            !OfAnother(rows, d)
            && (Here(rows, d) ==> rows[d.leaseId].token == token && rows[d.leaseId].phase in {2, 3}))
      && (after != rows ==> verdict == Done && Here(rows, d) && rows[d.leaseId].phase == 2)
      && (verdict == Done && Here(rows, d) ==> after == rows[d.leaseId := rows[d.leaseId].(phase := 3)])
  {
    if Here(rows, d) && rows[d.leaseId].phase == 3 { assert rows[d.leaseId := rows[d.leaseId]] == rows; }
  }

  /** A row is completed exactly while it is confirming. */
  lemma CompleteDecides(rows: Rows, d: Definition)
    ensures var (after, verdict) := Complete(rows, d);
      && (verdict == Done <==> !OfAnother(rows, d) && (Here(rows, d) ==> rows[d.leaseId].phase == 3))
      && after == if verdict == Done && Here(rows, d) then rows - {d.leaseId} else rows
  {
  }

  /** A row is discarded in any phase. */
  lemma DiscardDecides(rows: Rows, d: Definition)
    ensures var (after, verdict) := Discard(rows, d);
      && (verdict == Done <==> !OfAnother(rows, d))
      && after == if Here(rows, d) then rows - {d.leaseId} else rows
  {
  }

  /** A settlement is rebound exactly if it is sound, not acknowledged here or there, and of
      the same definition. */
  lemma RebindDecides(rows: Rows, expected: Settlement, session: string)
    ensures var (after, found) := RebindWorkerSession(rows, expected, session);
      var d := expected.definition;
      var sound := Validate(expected) && expected.phase == 1 && 0 < |session| <= 256;
      && (found.Row? <==>
            sound && Here(rows, d) && rows[d.leaseId].definition == d
            && rows[d.leaseId].phase == 1 && rows[d.leaseId].token == "")
      && (found.Missing? <==> sound && d.leaseId !in rows)
      && (found.Row? ==> found.row == rows[d.leaseId].(session := session) && after == rows[d.leaseId := found.row])
      && (!found.Row? ==> after == rows)
  {
  }

  /** A sound settlement names a lease, an order by 32 bytes and a session, and has a token of
      32 bytes exactly from the second phase on. */
  lemma ValidateMeans(s: Settlement)
    ensures Validate(s) <==>
      && 0 < |s.definition.leaseId| <= 256 && |s.definition.orderIdentity| == 32 && 0 < |s.session| <= 256
      && s.phase <= 3 && |s.token| == if s.phase <= 1 then 0 else 32
  {
  }
}
