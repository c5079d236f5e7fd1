/**
 The framing of a recovered order stream: batches of recovered orders, an optional
 session manifest, then ordinary orders. The two receivers together accept exactly
 the well-framed streams.
 */
module OrderReplay {
  import opened Wrappers
  import opened LeaseIdentity

  const MAXIMUM_LEASES := 1024

  datatype Message = Message(recovered: bool, leaseId: string, header: seq<string>, session: seq<string>,
                             batchEnd: bool)

  predicate ValidHeader(ids: seq<string>) {
    NoRepeats(ids) && forall k :: 0 <= k < |ids| ==> ValidLeaseId(ids[k])
  }

  // ---------------------------------------------------------------------
  // What the receivers remember

  datatype Replay = Replay(leaseIds: seq<string>, next: nat) {
    predicate Active() {
      leaseIds != []
    }
  }

  datatype Manifest = Manifest(seenFrame: bool, declared: bool, closed: bool, remaining: set<string>) {
    predicate Pending() {
      declared && remaining != {}
    }
  }

  datatype State = State(replay: Replay, manifest: Manifest)

  const FRESH_REPLAY := Replay([], 0)
  const FRESH := State(FRESH_REPLAY, Manifest(false, false, false, {}))

  /** What one recovered message does to the open batch: the new batch, started, finished. */
  function Accepted(r: Replay, m: Message): Option<(Replay, bool, bool)> {
    if !r.Active() && (m.header == [] || |m.header| > MAXIMUM_LEASES || !ValidHeader(m.header)) then None
    else if r.Active() && m.header != [] then None
    else
      var ids := if r.Active() then r.leaseIds else m.header;
      if r.next >= |ids| || ids[r.next] != m.leaseId then None
      else if m.batchEnd != (r.next + 1 == |ids|) then None
      else Some((Replay(ids, r.next + 1), !r.Active(), r.next + 1 == |ids|))
  }

  function FrameAccepted(f: Manifest, started: bool, batch: seq<string>, session: seq<string>): Option<Manifest> {
    if f.closed || (started && f.declared && f.seenFrame && f.remaining == {}) then None
    else if session != [] && (f.seenFrame || !started || |session| > MAXIMUM_LEASES || !ValidHeader(session)) then None
    else
      var declared := f.declared || session != [];
      var remaining := if session != [] then Elements(session) else f.remaining;
      if !(started && declared) then Some(Manifest(true, declared, f.closed, remaining))
      else if !(Elements(batch) <= remaining) then None
      else Some(Manifest(true, declared, f.closed, remaining - Elements(batch)))
  }

  /** One message of the stream; None ends it. */
  function Step(st: State, m: Message): Option<State> {
    if m.recovered then
      match Accepted(st.replay, m)
      case None => None
      case Some((replay, started, finished)) =>
        match FrameAccepted(st.manifest, started, replay.leaseIds, m.session)
        case None => None
        case Some(manifest) => Some(State(if finished then FRESH_REPLAY else replay, manifest))
    else if st.replay.Active() || m.batchEnd || m.header != [] || m.session != [] || st.manifest.Pending() then None
    else Some(st.(manifest := st.manifest.(closed := true)))
  }

  function Run(ms: seq<Message>): Option<State> {
    if ms == [] then Some(FRESH)
    else
      match Run(ms[..|ms| - 1])
      case None => None
      case Some(st) => Step(st, ms[|ms| - 1])
  }

  // ---------------------------------------------------------------------
  // The receivers themselves

  class RecoveredOrderReplay {
    var leaseIds: seq<string>
    var next: nat

    constructor ()
      ensures View() == FRESH_REPLAY
    {
      leaseIds, next := [], 0;
    }

    function View(): Replay
      reads this
    {
      Replay(leaseIds, next)
    }

    method Accept(m: Message) returns (ok: bool, started: bool, finished: bool)
      modifies this
      ensures ok <==> Accepted(old(View()), m).Some?
      ensures ok ==> Accepted(old(View()), m) == Some((View(), started, finished))
    {
      started, finished := false, false;
      if leaseIds == [] {
        if |m.header| == 0 {
          return false, false, false;
        }
        if |m.header| > MAXIMUM_LEASES {
          return false, false, false;
        }
        var valid := ValidRecoveredLeaseHeader(m.header);
        if !valid {
          return false, false, false;
        }
        leaseIds := m.header;
        started := true;
      } else if |m.header| > 0 {
        return false, false, false;
      }
      if next >= |leaseIds| || leaseIds[next] != m.leaseId {
        return false, false, false;
      }
      next := next + 1;
      finished := next == |leaseIds|;
      if m.batchEnd != finished {
        return false, false, false;
      }
      ok := true;
    }

    method Reset()
      modifies this
      ensures View() == FRESH_REPLAY
    {
      leaseIds, next := [], 0;
    }
  }

  method ValidRecoveredLeaseHeader(leaseIds: seq<string>) returns (valid: bool)
    ensures valid <==> ValidHeader(leaseIds)
  {
    var seen: set<string> := {};
    for i := 0 to |leaseIds|
      invariant seen == Elements(leaseIds[..i])
      invariant ValidHeader(leaseIds[..i])
    {
      if !ValidLeaseId(leaseIds[i]) {
        return false;
      }
      if leaseIds[i] in seen {
        var k :| 0 <= k < i && leaseIds[..i][k] == leaseIds[i];
        return false;
      }
      assert leaseIds[..i + 1] == leaseIds[..i] + [leaseIds[i]];
      seen := seen + {leaseIds[i]};
    }
    assert leaseIds[..|leaseIds|] == leaseIds;
    return true;
  }

  method ElementsOf(ids: seq<string>) returns (elements: set<string>)
    ensures elements == Elements(ids)
  {
    elements := {};
    for i := 0 to |ids|
      invariant elements == Elements(ids[..i])
    {
      assert ids[..i + 1] == ids[..i] + [ids[i]];
      elements := elements + {ids[i]};
    }
    assert ids[..|ids|] == ids;
  }

  method ContainsAll(remaining: set<string>, ids: seq<string>) returns (all: bool)
    ensures all <==> Elements(ids) <= remaining
  {
    for i := 0 to |ids|
      invariant forall k :: 0 <= k < i ==> ids[k] in remaining
    {
      if ids[i] !in remaining {
        assert ids[i] in Elements(ids);
        return false;
      }
    }
    return true;
  }

  method Without(remaining: set<string>, ids: seq<string>) returns (rest: set<string>)
    ensures rest == remaining - Elements(ids)
  {
    rest := remaining;
    for i := 0 to |ids|
      invariant rest == remaining - Elements(ids[..i])
    {
      assert ids[..i + 1] == ids[..i] + [ids[i]];
      rest := rest - {ids[i]};
    }
    assert ids[..|ids|] == ids;
  }

  class RecoveredSessionManifest {
    var seenFrame: bool
    var declared: bool
    var closed: bool
    var remaining: set<string>

    constructor ()
      ensures View() == FRESH.manifest
    {
      seenFrame, declared, closed, remaining := false, false, false, {};
    }

    function View(): Manifest
      reads this
    {
      Manifest(seenFrame, declared, closed, remaining)
    }

    /** Returns the leases to confirm: the session's if it is declared here, else the batch's. */
    method AcceptFrame(started: bool, batch: seq<string>, session: seq<string>) returns (confirm: Option<seq<string>>)
      modifies this
      ensures confirm.Some? <==> FrameAccepted(old(View()), started, batch, session).Some?
      ensures confirm.Some? ==> FrameAccepted(old(View()), started, batch, session) == Some(View())
      ensures confirm.Some? ==> confirm.value == if session != [] then session else batch
    {
      if closed || (started && declared && seenFrame && |remaining| == 0) {
        return None;
      }
      if |session| > 0 {
        if seenFrame || !started || |session| > MAXIMUM_LEASES {
          return None;
        }
        var valid := ValidRecoveredLeaseHeader(session);
        if !valid {
          return None;
        }
        declared := true;
        remaining := ElementsOf(session);
      }
      if started && declared {
        var known := ContainsAll(remaining, batch);
        if !known {
          return None;
        }
        remaining := Without(remaining, batch);
      }
      seenFrame := true;
      return Some(if |session| > 0 then session else batch);
    }

    method AcceptOrdinary() returns (ok: bool)
      modifies this
      ensures ok == !old(View()).Pending()
      ensures View() == if ok then old(View()).(closed := true) else old(View())
    {
      if declared && |remaining| > 0 {
        return false;
      }
      closed := true;
      return true;
    }
  }

  lemma RunNothing()
    ensures Run([]) == Some(FRESH)
  {
  }

  lemma RunOneMore(ms: seq<Message>, n: nat)
    requires n < |ms| && Run(ms[..n]).Some?
    ensures Run(ms[..n + 1]) == Step(Run(ms[..n]).value, ms[n])
  {
    assert ms[..n + 1][..n] == ms[..n];
  }

  /** The receive loop; it returns how many messages it let through. */
  method Drain(ms: seq<Message>) returns (n: nat)
    ensures n <= |ms| && Run(ms[..n]).Some?
    ensures n < |ms| ==> Run(ms[..n + 1]).None?
  {
    hide Run, Accepted, FrameAccepted;
    RunNothing();
    var recovered := new RecoveredOrderReplay();
    var manifest := new RecoveredSessionManifest();
    n := 0;
    while n < |ms|
      invariant n <= |ms| && Run(ms[..n]) == Some(State(recovered.View(), manifest.View()))
    {
      var m := ms[n];
      RunOneMore(ms, n);
      if m.recovered {
        var ok, started, finished := recovered.Accept(m);
        if !ok {
          return;
        }
        var confirm := manifest.AcceptFrame(started, recovered.leaseIds, m.session);
        if confirm.None? {
          return;
        }
        if finished {
          recovered.Reset();
        }
      } else {
        if recovered.leaseIds != [] || m.batchEnd || |m.header| > 0 || |m.session| > 0 {
          return;
        }
        var ok := manifest.AcceptOrdinary();
        if !ok {
          return;
        }
      }
      n := n + 1;
    }
  }

  // ---------------------------------------------------------------------
  // The reference: well-framed streams

  function Flatten(batches: seq<seq<Message>>): seq<Message> {
    if batches == [] then [] else Flatten(batches[..|batches| - 1]) + batches[|batches| - 1]
  }

  /** All batch headers in order. */
  function Headers(batches: seq<seq<Message>>): seq<string> {
    if batches == [] then []
    else
      var last := batches[|batches| - 1];
      Headers(batches[..|batches| - 1]) + if last == [] then [] else last[0].header
  }

  /** The messages of one batch: its header first, its leases in header order, the end
      marker on the last and only there. An open batch may still lack messages. */
  ghost predicate BatchFramed(b: seq<Message>, first: bool, complete: bool) {
    && b != []
    && var ids := b[0].header;
    && ids != [] && |ids| <= MAXIMUM_LEASES && ValidHeader(ids)
    && |b| <= |ids| && (complete ==> |b| == |ids|)
    && forall j :: 0 <= j < |b| ==>
      && b[j].recovered && b[j].leaseId == ids[j]
      && (b[j].batchEnd <==> j == |ids| - 1)
      && (j > 0 ==> b[j].header == [])
      && (j > 0 || !first ==> b[j].session == [])
  }

  /** The manifest a stream declares: none, or the one on its very first message. */
  function SessionOf(batches: seq<seq<Message>>): seq<string> {
    if batches != [] && batches[0] != [] then batches[0][0].session else []
  }

  ghost predicate ManifestKept(batches: seq<seq<Message>>, ordinary: seq<Message>) {
    var session := SessionOf(batches);
    session != [] ==>
      && |session| <= MAXIMUM_LEASES && ValidHeader(session)
      && NoRepeats(Headers(batches))
      && Elements(Headers(batches)) <= Elements(session)
      && (ordinary != [] ==> Elements(Headers(batches)) == Elements(session))
  }

  ghost predicate WellFramed(batches: seq<seq<Message>>, ordinary: seq<Message>) {
    && (forall k :: 0 <= k < |batches| ==>
          BatchFramed(batches[k], k == 0, k < |batches| - 1 || ordinary != []))
    && (forall k :: 0 <= k < |ordinary| ==>
          var m := ordinary[k]; !m.recovered && !m.batchEnd && m.header == [] && m.session == [])
    && ManifestKept(batches, ordinary)
  }

  /** The batch still open at the end of the stream. */
  function OpenBatch(batches: seq<seq<Message>>): Replay {
    if batches == [] || batches[|batches| - 1] == [] then FRESH_REPLAY
    else
      var last := batches[|batches| - 1];
      if |last| < |last[0].header| then Replay(last[0].header, |last|) else FRESH_REPLAY
  }

  /** The manifest's leases that no batch has announced yet. */
  function Unannounced(batches: seq<seq<Message>>): set<string> {
    if SessionOf(batches) == [] then {} else Elements(SessionOf(batches)) - Elements(Headers(batches))
  }

  /** The state the receivers are in after a stream of this shape. */
  function StateAfter(batches: seq<seq<Message>>, ordinary: seq<Message>): State {
    State(OpenBatch(batches),
          Manifest(batches != [], SessionOf(batches) != [], ordinary != [], Unannounced(batches)))
  }

  // ---------------------------------------------------------------------
  // Growing and shrinking a shape by one message

  /** The shape with one more message. */
  function Grown(batches: seq<seq<Message>>, ordinary: seq<Message>, m: Message): (seq<seq<Message>>, seq<Message>) {
    if !m.recovered then (batches, ordinary + [m])
    else if OpenBatch(batches).Active() then (batches[..|batches| - 1] + [batches[|batches| - 1] + [m]], ordinary)
    else (batches + [[m]], ordinary)
  }

  lemma GrownText(batches: seq<seq<Message>>, ordinary: seq<Message>, m: Message)
    requires m.recovered ==> ordinary == []
    ensures var (b, o) := Grown(batches, ordinary, m); Flatten(b) + o == Flatten(batches) + ordinary + [m]
  {
    if m.recovered {
      var (b, o) := Grown(batches, ordinary, m);
      assert b[..|b| - 1] == if OpenBatch(batches).Active() then batches[..|batches| - 1] else batches;
    }
  }

  lemma HeadersOfMore(batches: seq<seq<Message>>, m: Message)
    ensures Headers(batches + [[m]]) == Headers(batches) + m.header
    ensures batches != [] && batches[|batches| - 1] != [] ==>
      Headers(batches[..|batches| - 1] + [batches[|batches| - 1] + [m]]) == Headers(batches)
  {
    assert (batches + [[m]])[..|batches|] == batches;
    if batches != [] && batches[|batches| - 1] != [] {
      var longer := batches[..|batches| - 1] + [batches[|batches| - 1] + [m]];
      assert longer[..|longer| - 1] == batches[..|batches| - 1];
    }
  }

  lemma ElementsConcat(a: seq<string>, b: seq<string>)
    ensures Elements(a + b) == Elements(a) + Elements(b)
    ensures NoRepeats(a + b) <==> NoRepeats(a) && NoRepeats(b) && Elements(a) !! Elements(b)
  {
    var c := a + b;
    if NoRepeats(c) {
      forall i, j | 0 <= i < j < |a| ensures a[i] != a[j] { assert c[i] != c[j]; }
      forall i, j | 0 <= i < j < |b| ensures b[i] != b[j] { assert c[|a| + i] != c[|a| + j]; }
      forall i, j | 0 <= i < |a| && 0 <= j < |b| ensures a[i] != b[j] { assert c[i] != c[|a| + j]; }
    }
    if NoRepeats(a) && NoRepeats(b) && Elements(a) !! Elements(b) {
      forall i, j | 0 <= i < j < |c| ensures c[i] != c[j] {
        if i < |a| <= j {
          assert a[i] in Elements(a) && b[j - |a|] in Elements(b);
        }
      }
    }
  }

  /** After a well-framed stream, the receivers accept a message exactly when the
      stream with it is well-framed, and they end up in the state of the grown shape. */
  lemma StepFollows(batches: seq<seq<Message>>, ordinary: seq<Message>, m: Message)
    requires WellFramed(batches, ordinary)
    ensures var (b, o) := Grown(batches, ordinary, m);
      && (Step(StateAfter(batches, ordinary), m).Some? <==> (m.recovered ==> ordinary == []) && WellFramed(b, o))
      && (Step(StateAfter(batches, ordinary), m).Some? ==>
            Step(StateAfter(batches, ordinary), m) == Some(StateAfter(b, o)))
  {
    if !m.recovered {
      OrdinaryFollows(batches, ordinary, m);
    } else if OpenBatch(batches).Active() {
      ContinuationFollows(batches, ordinary, m);
    } else {
      BatchFollows(batches, ordinary, m);
    }
  }

  lemma OrdinaryFollows(batches: seq<seq<Message>>, ordinary: seq<Message>, m: Message)
    requires WellFramed(batches, ordinary) && !m.recovered
    ensures Step(StateAfter(batches, ordinary), m).Some? <==> WellFramed(batches, ordinary + [m])
    ensures Step(StateAfter(batches, ordinary), m).Some? ==>
      Step(StateAfter(batches, ordinary), m) == Some(StateAfter(batches, ordinary + [m]))
  {
    hide BatchFramed, Headers, Elements, ValidHeader, NoRepeats, OpenBatch, SessionOf;
    var st, longer := StateAfter(batches, ordinary), ordinary + [m];
    assert longer[|ordinary|] == m;
    assert forall k :: 0 <= k < |ordinary| ==> longer[k] == ordinary[k];
    AllAnnounced(batches, ordinary);
    LastComplete(batches, ordinary);
    if st.replay.Active() {
      assert !BatchFramed(batches[|batches| - 1], |batches| - 1 == 0, |batches| - 1 < |batches| - 1 || longer != []);
    } else {
      forall k | 0 <= k < |batches| ensures BatchFramed(batches[k], k == 0, k < |batches| - 1 || longer != []) {
        assert BatchFramed(batches[k], k == 0, true);
      }
      assert SessionOf(batches) != [] ==> (ManifestKept(batches, longer) <==> Unannounced(batches) == {});
    }
  }

  lemma AllAnnounced(batches: seq<seq<Message>>, ordinary: seq<Message>)
    requires ManifestKept(batches, ordinary)
    ensures SessionOf(batches) != [] ==>
      (Unannounced(batches) == {} <==> Elements(Headers(batches)) == Elements(SessionOf(batches)))
  {
    var session, headers := Elements(SessionOf(batches)), Elements(Headers(batches));
    hide Headers, SessionOf, Elements;
    if SessionOf(batches) != [] {
      assert session == headers + (session - headers);
    }
  }

  /** No batch is open exactly when the last one is complete. */
  lemma LastComplete(batches: seq<seq<Message>>, ordinary: seq<Message>)
    requires WellFramed(batches, ordinary)
    ensures batches != [] ==>
      (!OpenBatch(batches).Active() <==> BatchFramed(batches[|batches| - 1], |batches| - 1 == 0, true))
    ensures batches == [] ==> !OpenBatch(batches).Active()
    ensures forall k :: 0 <= k < |batches| - 1 ==> BatchFramed(batches[k], k == 0, true)
  {
    if batches != [] {
      var k := |batches| - 1;
      assert BatchFramed(batches[k], k == 0, ordinary != []);
    }
  }

  lemma ContinuationFollows(batches: seq<seq<Message>>, ordinary: seq<Message>, m: Message)
    requires WellFramed(batches, ordinary) && m.recovered && OpenBatch(batches).Active()
    ensures var (b, o) := Grown(batches, ordinary, m);
      && (Step(StateAfter(batches, ordinary), m).Some? <==> ordinary == [] && WellFramed(b, o))
      && (Step(StateAfter(batches, ordinary), m).Some? ==>
            Step(StateAfter(batches, ordinary), m) == Some(StateAfter(b, o)))
  {
    hide ManifestKept, Elements, Headers, NoRepeats, Unannounced, ValidHeader;
    var k := |batches| - 1;
    var last := batches[k];
    var (b, o) := Grown(batches, ordinary, m);
    assert BatchFramed(last, k == 0, ordinary != []);
    HeadersOfMore(batches, m);
    assert b[k] == last + [m] && (last + [m])[|last|] == m && (last + [m])[0] == last[0];
    assert forall i :: 0 <= i < k ==> b[i] == batches[i];
    assert SessionOf(b) == SessionOf(batches);
    assert OpenBatch(batches) == Replay(last[0].header, |last|);
    SameManifest(batches, b);
    if WellFramed(b, o) {
      assert BatchFramed(b[k], k == 0, false);
    }
    if Step(StateAfter(batches, ordinary), m).Some? {
      assert forall j :: 0 <= j < |last| ==> (last + [m])[j] == last[j];
      assert BatchFramed(b[k], k == 0, false);
      assert forall i :: 0 <= i < k ==> BatchFramed(b[i], i == 0, true);
    }
  }

  lemma SameManifest(a: seq<seq<Message>>, b: seq<seq<Message>>)
    requires SessionOf(a) == SessionOf(b) && Headers(a) == Headers(b)
    ensures Unannounced(a) == Unannounced(b) && forall o :: ManifestKept(a, o) == ManifestKept(b, o)
  {
  }

  lemma BatchFollows(batches: seq<seq<Message>>, ordinary: seq<Message>, m: Message)
    requires WellFramed(batches, ordinary) && m.recovered && !OpenBatch(batches).Active()
    ensures var (b, o) := Grown(batches, ordinary, m);
      && (Step(StateAfter(batches, ordinary), m).Some? <==> ordinary == [] && WellFramed(b, o))
      && (Step(StateAfter(batches, ordinary), m).Some? ==>
            Step(StateAfter(batches, ordinary), m) == Some(StateAfter(b, o)))
  {
    hide BatchFramed, ManifestKept, FrameAccepted, Accepted, Headers, Elements, Unannounced;
    var k := |batches|;
    var b := batches + [[m]];
    LastComplete(batches, ordinary);
    NonemptyBatches(batches);
    if ordinary != [] { ClosedRefuses(StateAfter(batches, ordinary).manifest, m); }
    SingleFramed(m, k == 0);
    assert b[k] == [m] && forall i :: 0 <= i < k ==> b[i] == batches[i];
    if Accepted(FRESH_REPLAY, m).Some? && ordinary == [] {
      ManifestFollows(batches, m);
      if k > 0 && m.session != [] {
        assert !BatchFramed(b[k], k == 0, k < |b| - 1 || ordinary != []);
      }
    } else if ordinary == [] {
      assert !BatchFramed(b[k], k == 0, k < |b| - 1 || ordinary != []);
    }
  }

  lemma ClosedRefuses(f: Manifest, m: Message)
    requires f.closed
    ensures FrameAccepted(f, true, m.header, m.session).None?
  {
  }

  lemma SingleFramed(m: Message, first: bool)
    requires m.recovered
    ensures BatchFramed([m], first, false) <==> Accepted(FRESH_REPLAY, m).Some? && (!first ==> m.session == [])
    ensures Accepted(FRESH_REPLAY, m).Some? ==>
      && Accepted(FRESH_REPLAY, m) == Some((Replay(m.header, 1), true, |m.header| == 1))
      && m.header != [] && NoRepeats(m.header)
  {
  }

  /** The manifest lets a new batch start exactly when it stays kept. */
  lemma ManifestFollows(batches: seq<seq<Message>>, m: Message)
    requires ManifestKept(batches, []) && (forall k :: 0 <= k < |batches| ==> batches[k] != [])
    requires m.header != [] && NoRepeats(m.header)
    ensures var b, f := batches + [[m]], StateAfter(batches, []).manifest;
      && (FrameAccepted(f, true, m.header, m.session).Some? <==>
            (batches != [] ==> m.session == []) && ManifestKept(b, []))
      && (FrameAccepted(f, true, m.header, m.session).Some? ==>
            FrameAccepted(f, true, m.header, m.session) == Some(StateAfter(b, []).manifest))
  {
    if batches == [] {
      assert [] + [[m]] == [[m]];
      FirstManifest(m);
    } else {
      hide Headers, Elements, NoRepeats;
      LaterManifest(batches, m);
    }
  }

  lemma FirstManifest(m: Message)
    requires m.header != [] && NoRepeats(m.header)
    ensures var f := Manifest(false, false, false, {});
      && (FrameAccepted(f, true, m.header, m.session).Some? <==> ManifestKept([[m]], []))
      && (FrameAccepted(f, true, m.header, m.session).Some? ==>
            FrameAccepted(f, true, m.header, m.session) == Some(StateAfter([[m]], []).manifest))
      && StateAfter([], []).manifest == f
  {
    assert [[m]][..0] == [];
    assert Headers([[m]]) == m.header;
  }

  lemma LaterManifest(batches: seq<seq<Message>>, m: Message)
    requires batches != [] && batches[0] != [] && ManifestKept(batches, [])
    requires m.header != [] && NoRepeats(m.header)
    ensures SessionOf(batches) == SessionOf(batches + [[m]])
    ensures var session := SessionOf(batches);
      session != [] ==>
        && Elements(m.header) != {}
        && (Elements(m.header) <= Unannounced(batches) <==> ManifestKept(batches + [[m]], []))
        && Unannounced(batches) - Elements(m.header) == Unannounced(batches + [[m]])
  {
    HeadersOfMore(batches, m);
    ElementsConcat(Headers(batches), m.header);
    assert m.header[0] in Elements(m.header);
  }

  // ---------------------------------------------------------------------
  // Exactly the well-framed streams

  lemma StartShape()
    ensures WellFramed([], []) && StateAfter([], []) == FRESH && Flatten([]) == []
  {
  }

  /** Every accepted stream has a well-framed shape. */
  lemma {:induction false} Sound(ms: seq<Message>) returns (batches: seq<seq<Message>>, ordinary: seq<Message>)
    requires Run(ms).Some?
    ensures WellFramed(batches, ordinary) && ms == Flatten(batches) + ordinary
    ensures Run(ms) == Some(StateAfter(batches, ordinary))
  {
    StartShape();
    if ms == [] {
      batches, ordinary := [], [];
    } else {
      var init, m := ms[..|ms| - 1], ms[|ms| - 1];
      var b, o := Sound(init);
      StepFollows(b, o, m);
      GrownText(b, o, m);
      assert ms == init + [m];
      batches, ordinary := Grown(b, o, m).0, Grown(b, o, m).1;
    }
  }

  /** The shape without its last message. */
  lemma Shrink(batches: seq<seq<Message>>, ordinary: seq<Message>)
    returns (b: seq<seq<Message>>, o: seq<Message>, m: Message)
    requires WellFramed(batches, ordinary) && (batches != [] || ordinary != [])
    ensures WellFramed(b, o) && Grown(b, o, m) == (batches, ordinary) && (m.recovered ==> o == [])
    ensures Flatten(batches) + ordinary == Flatten(b) + o + [m]
  {
    if ordinary != [] {
      b, o, m := batches, ordinary[..|ordinary| - 1], ordinary[|ordinary| - 1];
      ShrinkOrdinary(batches, ordinary);
    } else {
      var k := |batches| - 1;
      var last := batches[k];
      assert BatchFramed(last, k == 0, false);
      m := last[|last| - 1];
      o := [];
      b := if |last| == 1 then batches[..k] else batches[..k] + [last[..|last| - 1]];
      if |last| == 1 {
        ShrinkBatch(batches, m);
      } else {
        ShrinkLast(batches);
      }
    }
    GrownText(b, o, m);
  }

  lemma ShrinkOrdinary(batches: seq<seq<Message>>, ordinary: seq<Message>)
    requires WellFramed(batches, ordinary) && ordinary != []
    ensures WellFramed(batches, ordinary[..|ordinary| - 1])
    ensures Grown(batches, ordinary[..|ordinary| - 1], ordinary[|ordinary| - 1]) == (batches, ordinary)
  {
    var o := ordinary[..|ordinary| - 1];
    assert ordinary == o + [ordinary[|ordinary| - 1]];
    forall k | 0 <= k < |batches| ensures BatchFramed(batches[k], k == 0, k < |batches| - 1 || o != []) {
      assert BatchFramed(batches[k], k == 0, k < |batches| - 1 || ordinary != []);
    }
  }

  lemma ShrinkBatch(batches: seq<seq<Message>>, m: Message)
    requires WellFramed(batches, []) && batches != [] && batches[|batches| - 1] == [m]
    ensures WellFramed(batches[..|batches| - 1], [])
    ensures Grown(batches[..|batches| - 1], [], m) == (batches, [])
  {
    hide ManifestKept, Headers, Elements, OpenBatch;
    var k := |batches| - 1;
    var b := batches[..k];
    assert batches == b + [[m]];
    assert BatchFramed(batches[k], k == 0, false);
    forall i | 0 <= i < k ensures BatchFramed(b[i], i == 0, true) {
      assert BatchFramed(batches[i], i == 0, i < |batches| - 1);
    }
    ManifestShrinks(b, m);
    CompleteIsClosed(b);
    assert m.recovered;
  }

  lemma CompleteIsClosed(batches: seq<seq<Message>>)
    requires forall k :: 0 <= k < |batches| ==> BatchFramed(batches[k], k == 0, true)
    ensures !OpenBatch(batches).Active()
  {
    if batches != [] {
      var k := |batches| - 1;
      assert BatchFramed(batches[k], k == 0, true);
    }
  }

  lemma ManifestShrinks(b: seq<seq<Message>>, m: Message)
    requires ManifestKept(b + [[m]], []) && (b != [] ==> b[0] != [])
    ensures ManifestKept(b, [])
  {
    HeadersOfMore(b, m);
    ElementsConcat(Headers(b), m.header);
    assert b != [] ==> SessionOf(b) == SessionOf(b + [[m]]);
  }

  /** Taking the last message off an open or complete batch, and what puts it back. */
  lemma ShortOpen(batches: seq<seq<Message>>)
    requires batches != [] && |batches[|batches| - 1]| > 1 && BatchFramed(batches[|batches| - 1], |batches| == 1, false)
    ensures var k := |batches| - 1;
      var last := batches[k];
      var b := batches[..k] + [last[..|last| - 1]];
      && SessionOf(b) == SessionOf(batches) && Headers(b) == Headers(batches)
      && Grown(b, [], last[|last| - 1]) == (batches, [])
  {
    var k := |batches| - 1;
    var last := batches[k];
    var b := batches[..k] + [last[..|last| - 1]];
    assert last == b[k] + [last[|last| - 1]];
    assert batches == b[..k] + [last];
    hide Headers, NoRepeats;
    HeadersOfMore(b, last[|last| - 1]);
  }

  lemma ShrinkLast(batches: seq<seq<Message>>)
    requires WellFramed(batches, []) && batches != [] && |batches[|batches| - 1]| > 1
    ensures var k := |batches| - 1;
      var last := batches[k];
      var b := batches[..k] + [last[..|last| - 1]];
      WellFramed(b, []) && Grown(b, [], last[|last| - 1]) == (batches, [])
  {
    hide BatchFramed, Headers, Elements, SessionOf, OpenBatch, NoRepeats, ManifestKept, Grown;
    var k := |batches| - 1;
    var last := batches[k];
    var b := batches[..k] + [last[..|last| - 1]];
    assert BatchFramed(last, k == 0, false);
    ShortFramed(last, k == 0);
    ShortOpen(batches);
    SameManifest(batches, b);
    forall i | 0 <= i < k ensures BatchFramed(b[i], i == 0, true) {
      assert BatchFramed(batches[i], i == 0, i < |batches| - 1);
    }
  }

  lemma ShortFramed(b: seq<Message>, first: bool)
    requires BatchFramed(b, first, false) && |b| > 1
    ensures var short := b[..|b| - 1];
      BatchFramed(short, first, false) && short[0] == b[0] && |short| < |short[0].header|
  {
  }

  /** Every well-framed stream is accepted. */
  lemma {:induction false} Complete(batches: seq<seq<Message>>, ordinary: seq<Message>)
    requires WellFramed(batches, ordinary)
    ensures Run(Flatten(batches) + ordinary) == Some(StateAfter(batches, ordinary))
    decreases |Flatten(batches) + ordinary|
  {
    StartShape();
    if batches != [] || ordinary != [] {
      var b, o, m := Shrink(batches, ordinary);
      var ms := Flatten(batches) + ordinary;
      assert ms[..|ms| - 1] == Flatten(b) + o;
      Complete(b, o);
      StepFollows(b, o, m);
    } else {
      assert Flatten(batches) + ordinary == [];
    }
  }

  lemma AcceptedExactly(ms: seq<Message>)
    ensures Run(ms).Some? <==> exists batches, ordinary :: WellFramed(batches, ordinary) && ms == Flatten(batches) + ordinary
  {
    if Run(ms).Some? {
      var batches, ordinary := Sound(ms);
    }
    if batches, ordinary :| WellFramed(batches, ordinary) && ms == Flatten(batches) + ordinary {
      Complete(batches, ordinary);
    }
  }

  // ---------------------------------------------------------------------
  // What an accepted stream hands over

  function LeaseIds(ms: seq<Message>): seq<string> {
    seq(|ms|, k requires 0 <= k < |ms| => ms[k].leaseId)
  }

  lemma {:induction false} CompleteBatchesHandOver(batches: seq<seq<Message>>)
    requires forall k :: 0 <= k < |batches| ==> BatchFramed(batches[k], k == 0, true)
    ensures LeaseIds(Flatten(batches)) == Headers(batches)
    ensures forall k :: 0 <= k < |Flatten(batches)| ==> Flatten(batches)[k].recovered
  {
    if batches == [] {
    } else {
      var k := |batches| - 1;
      var init, last := batches[..k], batches[k];
      CompleteBatchesHandOver(init);
      hide LeaseIds, BatchFramed;
      BatchHandsOver(last, k == 0);
      LeaseIdsConcat(Flatten(init), last);
    }
  }

  lemma BatchHandsOver(b: seq<Message>, first: bool)
    requires BatchFramed(b, first, true)
    ensures b != [] && LeaseIds(b) == b[0].header && forall k :: 0 <= k < |b| ==> b[k].recovered
  {
    hide ValidHeader;
  }

  lemma LeaseIdsConcat(a: seq<Message>, b: seq<Message>)
    ensures LeaseIds(a + b) == LeaseIds(a) + LeaseIds(b)
  {
  }

  /** In an accepted stream with an ordinary order, every recovered order comes before
      every ordinary one; and if the first message declares a manifest, the recovered
      orders carry each of its leases once and no other. */
  lemma ManifestHandedOver(ms: seq<Message>, i: nat)
    requires Run(ms).Some? && i < |ms| && !ms[i].recovered
    requires forall k :: 0 <= k < i ==> ms[k].recovered
    ensures forall k :: i <= k < |ms| ==> !ms[k].recovered
    ensures i > 0 && ms[0].session != [] ==>
      NoRepeats(LeaseIds(ms[..i])) && Elements(LeaseIds(ms[..i])) == Elements(ms[0].session)
  {
    hide Run, Flatten, Headers, LeaseIds, BatchFramed;
    var batches, ordinary := Sound(ms);
    var flat := Flatten(batches);
    assert forall k :: 0 <= k < |flat| ==> ms[k] == flat[k];
    if ordinary == [] {
      AllRecovered(batches);
      assert false;
    }
    forall k | 0 <= k < |batches| ensures BatchFramed(batches[k], k == 0, true) {
      assert BatchFramed(batches[k], k == 0, k < |batches| - 1 || ordinary != []);
    }
    CompleteBatchesHandOver(batches);
    HandedOverAt(ms, flat, ordinary, i);
    if i > 0 {
      NonemptyBatches(batches);
      FirstMessage(batches);
    }
  }

  lemma HandedOverAt(ms: seq<Message>, flat: seq<Message>, ordinary: seq<Message>, i: nat)
    requires ms == flat + ordinary && i < |ms| && !ms[i].recovered
    requires forall k :: 0 <= k < i ==> ms[k].recovered
    requires forall k :: 0 <= k < |flat| ==> flat[k].recovered
    requires ordinary != [] && !ordinary[0].recovered
    ensures i == |flat| && ms[..i] == flat
    ensures forall k :: i <= k < |ms| ==> ms[k] == ordinary[k - i]
  {
    assert forall k :: 0 <= k < |flat| ==> ms[k] == flat[k];
    assert ms[|flat|] == ordinary[0];
  }

  lemma NonemptyBatches(batches: seq<seq<Message>>)
    requires forall k :: 0 <= k < |batches| ==> BatchFramed(batches[k], k == 0, true)
    ensures forall k :: 0 <= k < |batches| ==> batches[k] != []
  {
    forall k | 0 <= k < |batches| ensures batches[k] != [] {
      assert BatchFramed(batches[k], k == 0, true);
    }
  }

  lemma {:induction false} AllRecovered(batches: seq<seq<Message>>)
    requires WellFramed(batches, [])
    ensures forall k :: 0 <= k < |Flatten(batches)| ==> Flatten(batches)[k].recovered
  {
    if batches != [] {
      var k := |batches| - 1;
      assert BatchFramed(batches[k], k == 0, false);
      forall i | 0 <= i < k ensures BatchFramed(batches[..k][i], i == 0, true) {
        assert BatchFramed(batches[i], i == 0, i < |batches| - 1);
      }
      CompleteBatchesHandOver(batches[..k]);
    }
  }

  lemma {:induction false} FirstMessage(batches: seq<seq<Message>>)
    requires forall k :: 0 <= k < |batches| ==> batches[k] != []
    requires Flatten(batches) != []
    ensures batches != [] && Flatten(batches)[0] == batches[0][0]
  {
    var k := |batches| - 1;
    if k == 0 {
    } else {
      assert batches[..k][0] == batches[0];
      FlattenNonempty(batches[..k]);
      FirstMessage(batches[..k]);
    }
  }

  lemma FlattenNonempty(batches: seq<seq<Message>>)
    requires batches != [] && forall k :: 0 <= k < |batches| ==> batches[k] != []
    ensures Flatten(batches) != []
  {
  }
}
