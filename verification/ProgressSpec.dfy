/**
 The progress delivery queue as a state machine: one sequence of reports for each run,
 a shared capacity, and at most one report in the hands of the delivery loop.
 */
module ProgressSpec {
  import opened Wrappers

  datatype RunState = Running | Finished | Cancelled

  /** A report of one run; `content` stands for everything the queue does not look at. */
  datatype Report = Report(run: string, state: RunState, content: int)

  predicate TerminalState(state: RunState) {
    state == Finished || state == Cancelled
  }

  datatype Delivery = Delivery(report: Report, due: int, retryWait: int, version: nat, terminal: bool, warned: bool)

  datatype Policy = Policy(capacity: int, retryMinimum: int, retryMaximum: int)

  type Pending = map<string, seq<Delivery>>

  datatype Queue = Queue(pending: Pending, queued: int, version: nat, inFlight: nat, closed: bool)

  function Last(s: seq<Delivery>): Delivery
    requires s != []
  {
    s[|s| - 1]
  }

  function SequenceOf(p: Pending, run: string): seq<Delivery> {
    if run in p then p[run] else []
  }

  /** The sequence of a run replaced; runs without reports have no entry. */
  function With(p: Pending, run: string, s: seq<Delivery>): Pending {
    if s == [] then p - {run} else p[run := s]
  }

  function Fresh(report: Report, now: int, policy: Policy, version: nat): Delivery {
    Delivery(report, now, policy.retryMinimum, version, TerminalState(report.state), false)
  }

  // ---------------------------------------------------------------------
  // Enqueue

  /** The newest report of the run is of the same kind and not being delivered. */
  predicate Coalesces(q: Queue, report: Report) {
    var s := SequenceOf(q.pending, report.run);
    s != [] && Last(s).terminal == TerminalState(report.state) && Last(s).version != q.inFlight
  }

  function Replaced(q: Queue, report: Report, now: int, policy: Policy): Queue
    requires Coalesces(q, report)
  {
    var s := q.pending[report.run];
    q.(version := q.version + 1,
       pending := q.pending[report.run := s[..|s| - 1] + [Fresh(report, now, policy, q.version + 1)]])
  }

  function Appended(q: Queue, report: Report, now: int, policy: Policy): Queue {
    q.(version := q.version + 1,
       pending := q.pending[report.run := SequenceOf(q.pending, report.run)
                                          + [Fresh(report, now, policy, q.version + 1)]],
       queued := q.queued + 1)
  }

  /** A running report at the end of its sequence that no terminal report precedes. */
  predicate Expendable(p: Pending, run: string) {
    run in p && p[run] != []
    && !Last(p[run]).terminal
    && !(|p[run]| > 1 && p[run][|p[run]| - 2].terminal)
  }

  function WithoutTail(q: Queue, run: string): Queue
    requires Expendable(q.pending, run)
  {
    var s := q.pending[run];
    q.(queued := q.queued - 1, pending := With(q.pending, run, s[..|s| - 1]))
  }

  /** The oldest expendable report is evicted, if there is any. */
  ghost predicate Evicted(q: Queue, r: Queue) {
    if exists run :: Expendable(q.pending, run) then
      exists run ::
        && Expendable(q.pending, run)
        && (forall other :: Expendable(q.pending, other) ==>
              Last(q.pending[run]).version <= Last(q.pending[other]).version)
        && r == WithoutTail(q, run)
    else r == q
  }

  ghost predicate Enqueued(q: Queue, report: Report, now: int, policy: Policy, r: Queue) {
    if q.closed then r == q
    else if Coalesces(q, report) then r == Replaced(q, report, now, policy)
    else if q.queued < policy.capacity then r == Appended(q, report, now, policy)
    else if !TerminalState(report.state) then r == q
    else exists room ::
      && Evicted(q, room)
      && r == if room.queued < policy.capacity then Appended(room, report, now, policy) else room
  }

  // ---------------------------------------------------------------------
  // Next

  predicate Before(left: Delivery, right: Delivery) {
    left.due < right.due || (left.due == right.due && left.version < right.version)
  }

  predicate IsHead(p: Pending, d: Delivery) {
    d.report.run in p && p[d.report.run] != [] && p[d.report.run][0] == d
  }

  datatype Choice = Idle | Deliver(delivery: Delivery) | Wait(delivery: Delivery)

  datatype Kind = TerminalDue | RunningDue | Later

  predicate OfKind(d: Delivery, kind: Kind, now: int) {
    match kind
    case TerminalDue => d.due <= now && d.terminal
    case RunningDue => d.due <= now && !d.terminal
    case Later => d.due > now
  }

  ghost predicate AnyOf(p: Pending, kind: Kind, now: int) {
    exists d :: IsHead(p, d) && OfKind(d, kind, now)
  }

  ghost predicate Earliest(p: Pending, d: Delivery, kind: Kind, now: int) {
    && IsHead(p, d) && OfKind(d, kind, now)
    && forall other :: IsHead(p, other) && OfKind(other, kind, now) && other != d ==> Before(d, other)
  }

  /** Terminal reports that are due go first, then running ones; else the wait is for
      whatever comes due next. */
  ghost predicate Chosen(q: Queue, now: int, choice: Choice) {
    if q.pending == map[] then choice == Idle
    else if AnyOf(q.pending, TerminalDue, now) then
      choice.Deliver? && Earliest(q.pending, choice.delivery, TerminalDue, now)
    else if AnyOf(q.pending, RunningDue, now) then
      choice.Deliver? && Earliest(q.pending, choice.delivery, RunningDue, now)
    else choice.Wait? && Earliest(q.pending, choice.delivery, Later, now)
  }

  // ---------------------------------------------------------------------
  // Settle

  datatype Outcome = Accepted | LeaseLost | Failed

  /** The next running report of a run is sent at once. */
  function WithoutHead(s: seq<Delivery>, now: int): seq<Delivery>
    requires s != []
  {
    if |s| > 1 && !s[1].terminal then [s[1].(due := now)] + s[2..] else s[1..]
  }

  function Retried(d: Delivery, now: int, jitter: int, policy: Policy): Delivery {
    d.(warned := true, due := now + jitter,
       retryWait := if policy.retryMaximum < d.retryWait * 2 then policy.retryMaximum else d.retryWait * 2)
  }

  function Settled(q: Queue, d: Delivery, outcome: Outcome, now: int, jitter: int, policy: Policy): Queue {
    var landed := if q.inFlight == d.version then q.(inFlight := 0) else q;
    var s := SequenceOf(q.pending, d.report.run);
    if s == [] || s[0].version != d.version then landed
    else if outcome != Failed || !s[0].terminal then
      landed.(queued := q.queued - 1, pending := With(q.pending, d.report.run, WithoutHead(s, now)))
    else landed.(pending := q.pending[d.report.run := [Retried(s[0], now, jitter, policy)] + s[1..]])
  }

  // ---------------------------------------------------------------------
  // Close

  /** Terminal reports stay, and running ones that a terminal report follows. */
  function Retained(s: seq<Delivery>): seq<Delivery> {
    if s == [] then []
    else (if s[0].terminal || (|s| > 1 && s[1].terminal) then [s[0]] else []) + Retained(s[1..])
  }

  ghost predicate Closed(q: Queue, r: Queue) {
    if q.closed then r == q
    else
      && r.closed && r.version == q.version && r.inFlight == q.inFlight
      && r.pending == (map run | run in q.pending && Retained(q.pending[run]) != [] :: Retained(q.pending[run]))
      && r.queued == q.queued - Total(q.pending) + Total(r.pending)
  }

  // ---------------------------------------------------------------------
  // Counting

  ghost function Total(p: Pending): nat {
    if p == map[] then 0
    else
      var run :| run in p;
      |p[run]| + Total(p - {run})
  }

  lemma {:induction false} TotalSplit(p: Pending, run: string)
    requires run in p
    ensures Total(p) == |p[run]| + Total(p - {run})
    decreases |p|
  {
    var other :| other in p && Total(p) == |p[other]| + Total(p - {other});
    if other == run {
    } else {
      TotalSplit(p - {other}, run);
      TotalSplit(p - {run}, other);
      assert (p - {other}) - {run} == (p - {run}) - {other};
    }
  }

  lemma TotalWith(p: Pending, run: string, s: seq<Delivery>)
    ensures Total(With(p, run, s)) == Total(p) - |SequenceOf(p, run)| + |s|
  {
    if run in p { TotalSplit(p, run); }
    if s != [] {
      TotalSplit(p[run := s], run);
      assert p[run := s] - {run} == p - {run};
    }
    if run !in p { assert p - {run} == p; }
  }

  // ---------------------------------------------------------------------
  // Runs of the machine

  /** The queue, what the delivery loop holds, every delivery handed to it, and what the clock
      showed when the choice of the last one began. */
  datatype System = System(q: Queue, inHand: Option<Delivery>, log: seq<Delivery>, chosenAt: int)

  datatype Event =
    | Enqueue(report: Report, now: int)
    | Next(now: int, later: int)
    | Settle(outcome: Outcome, now: int, jitter: int)
    | Close

  const START := System(Queue(map[], 0, 0, 0, false), None, [], 0)

  /** A report that is due is marked as in flight and handed over. The clock is read again to
      compute a wait: a report that has come due by then is handed over without the mark. */
  function Handed(s: System, choice: Choice, now: int, later: int): System {
    if choice.Deliver? then
      System(s.q.(inFlight := choice.delivery.version), Some(choice.delivery), s.log + [choice.delivery], now)
    else if choice.Wait? && choice.delivery.due <= later then
      System(s.q, Some(choice.delivery), s.log + [choice.delivery], now)
    else s
  }

  /** The loop takes a report only with free hands, and settles the one it holds. */
  ghost predicate Step(s: System, e: Event, t: System, policy: Policy) {
    match e
    case Enqueue(report, now) =>
      Enqueued(s.q, report, now, policy, t.q) && t == s.(q := t.q)
    case Next(now, later) =>
      && s.inHand == None && now <= later
      && exists choice :: Chosen(s.q, now, choice) && t == Handed(s, choice, now, later)
    case Settle(outcome, now, jitter) =>
      && s.inHand.Some?
      && t == s.(q := Settled(s.q, s.inHand.value, outcome, now, jitter, policy), inHand := None)
    case Close =>
      Closed(s.q, t.q) && t == s.(q := t.q)
  }

  // ---------------------------------------------------------------------
  // The invariant

  /** What every sequence is measured against. */
  datatype Context = Context(newest: nat, inFlight: nat, closed: bool, log: seq<Delivery>, inHand: Option<Delivery>)

  function ContextOf(s: System): Context {
    Context(s.q.version, s.q.inFlight, s.q.closed, s.log, s.inHand)
  }

  ghost predicate Owned(s: seq<Delivery>, run: string, newest: nat) {
    forall i :: 0 <= i < |s| ==>
      s[i].report.run == run && s[i].terminal == TerminalState(s[i].report.state) && 0 < s[i].version <= newest
  }

  ghost predicate Increasing(s: seq<Delivery>) {
    forall i, j :: 0 <= i < j < |s| ==> s[i].version < s[j].version
  }

  /** Neighbours differ in kind, but for the first pair. */
  ghost predicate Alternating(s: seq<Delivery>) {
    forall i :: 1 <= i < |s| - 1 ==> s[i].terminal != s[i + 1].terminal
  }

  ghost predicate OnlyHeadInFlight(s: seq<Delivery>, inFlight: nat) {
    forall i :: 0 < i < |s| ==> s[i].version != inFlight
  }

  predicate TerminalAt(s: seq<Delivery>, i: int) {
    0 <= i < |s| && s[i].terminal
  }

  /** Nothing is left that closing would have dropped. */
  ghost predicate Pruned(s: seq<Delivery>) {
    forall i :: 0 <= i < |s| ==> s[i].terminal || TerminalAt(s, i + 1)
  }

  /** What was handed out for a run is behind what is still pending of it: at most its
      head was handed out before, and that only to be retried or while in hand. */
  ghost predicate Behind(log: seq<Delivery>, run: string, s: seq<Delivery>, inHand: Option<Delivery>) {
    forall k, i :: 0 <= k < |log| && log[k].report.run == run && 0 <= i < |s| ==>
      && log[k].version <= s[i].version
      && (log[k].version == s[i].version ==>
            && i == 0 && s[i].report == log[k].report && s[i].terminal == log[k].terminal
            && (s[i].terminal || inHand == Some(log[k])))
  }

  ghost predicate SequenceOk(s: seq<Delivery>, run: string, c: Context) {
    && s != []
    && Owned(s, run, c.newest) && Increasing(s) && Alternating(s)
    && OnlyHeadInFlight(s, c.inFlight)
    && (c.closed ==> Pruned(s))
    && Behind(c.log, run, s, c.inHand)
  }

  ghost predicate Apart(s: seq<Delivery>, t: seq<Delivery>) {
    forall i, j :: 0 <= i < |s| && 0 <= j < |t| ==> s[i].version != t[j].version
  }

  ghost predicate Sequences(p: Pending, c: Context) {
    && (forall run :: run in p ==> SequenceOk(p[run], run, c))
    && (forall a, b :: a in p && b in p && a != b ==> Apart(p[a], p[b]))
  }

  ghost predicate Counted(q: Queue, policy: Policy) {
    q.queued == Total(q.pending) && (q.pending != map[] ==> q.queued <= policy.capacity)
  }

  /** For one run, versions handed out never decrease, and only a terminal report is
      handed out again. */
  ghost predicate HandedInOrder(log: seq<Delivery>) {
    forall i, j :: 0 <= i < j < |log| && log[i].report.run == log[j].report.run ==>
      && log[i].version <= log[j].version
      && (log[i].version == log[j].version ==> log[i].report == log[j].report && log[i].terminal && log[j].terminal)
  }

  ghost predicate HandConsistent(c: Context) {
    && (c.inFlight == 0 || (c.inHand.Some? && c.inFlight == c.inHand.value.version))
    && (c.inHand.Some? ==> c.log != [] && c.inHand.value == c.log[|c.log| - 1] && c.inHand.value.version > 0)
    && (forall k :: 0 <= k < |c.log| ==> c.log[k].version <= c.newest)
    && HandedInOrder(c.log)
  }

  /** The report in hand is marked exactly if it was due when its choice began. */
  predicate MarkedIfDue(s: System) {
    s.q.inFlight == if s.inHand.Some? && s.inHand.value.due <= s.chosenAt then s.inHand.value.version else 0
  }

  ghost predicate Invariant(s: System, policy: Policy) {
    && Sequences(s.q.pending, ContextOf(s)) && Counted(s.q, policy) && HandConsistent(ContextOf(s))
    && MarkedIfDue(s)
  }

  // ---------------------------------------------------------------------
  // Changing one sequence

  /** Versions are kept from the old sequence or newer than anything before. */
  ghost predicate Renewed(was: seq<Delivery>, fit: seq<Delivery>, newest: nat) {
    forall i :: 0 <= i < |fit| ==>
      fit[i].version > newest || exists j :: 0 <= j < |was| && was[j].version == fit[i].version
  }

  /** How the context may change while another run's sequence stays as it is. */
  ghost predicate Bystander(c: Context, d: Context, run: string) {
    && d.newest >= c.newest && d.closed == c.closed && d.log == c.log
    && (d.inFlight == c.inFlight || d.inFlight == 0)
    && (d.inHand == c.inHand || (c.inHand.Some? && c.inHand.value.report.run == run))
  }

  lemma BystanderKeeps(s: seq<Delivery>, other: string, c: Context, d: Context, run: string)
    requires SequenceOk(s, other, c) && Bystander(c, d, run) && other != run
    ensures SequenceOk(s, other, d)
  {
  }

  lemma RenewedApart(was: seq<Delivery>, fit: seq<Delivery>, others: seq<Delivery>, newest: nat)
    requires Renewed(was, fit, newest) && Apart(was, others)
    requires forall j :: 0 <= j < |others| ==> others[j].version <= newest
    ensures Apart(fit, others) && Apart(others, fit)
  {
  }

  lemma UpdateKeeps(p: Pending, c: Context, run: string, fit: seq<Delivery>, d: Context)
    requires Sequences(p, c) && Bystander(c, d, run)
    requires fit != [] ==> SequenceOk(fit, run, d)
    requires Renewed(SequenceOf(p, run), fit, c.newest)
    ensures Sequences(With(p, run, fit), d)
  {
    var r := With(p, run, fit);
    forall other | other in r && other != run
      ensures SequenceOk(r[other], other, d)
      ensures Apart(fit, r[other]) && Apart(r[other], fit)
    {
      BystanderKeeps(p[other], other, c, d, run);
      RenewedApart(SequenceOf(p, run), fit, p[other], c.newest);
    }
    hide SequenceOk, Apart;
  }

  lemma CountKeeps(q: Queue, r: Queue, run: string, fit: seq<Delivery>, policy: Policy)
    requires Counted(q, policy) && r.pending == With(q.pending, run, fit)
    requires r.queued == q.queued - |SequenceOf(q.pending, run)| + |fit|
    requires r.queued <= policy.capacity || r.queued <= q.queued
    ensures Counted(r, policy)
  {
    TotalWith(q.pending, run, fit);
    if q.pending == map[] && fit == [] { assert r.pending == map[]; }
  }

  // ---------------------------------------------------------------------
  // The five changes a sequence can see

  lemma ReplacedFits(was: seq<Delivery>, run: string, c: Context, added: Delivery)
    requires SequenceOk(was, run, c) && !c.closed && Last(was).version != c.inFlight
    requires added.report.run == run && added.version == c.newest + 1 && c.inFlight <= c.newest
    requires added.terminal == TerminalState(added.report.state) == Last(was).terminal
    requires forall k :: 0 <= k < |c.log| ==> c.log[k].version <= c.newest
    ensures var fit := was[..|was| - 1] + [added];
      SequenceOk(fit, run, c.(newest := c.newest + 1)) && Renewed(was, fit, c.newest)
  {
    var fit := was[..|was| - 1] + [added];
    assert forall i :: 0 <= i < |was| - 1 ==> fit[i] == was[i];
    assert fit[|was| - 1] == added;
  }

  lemma AppendedFits(was: seq<Delivery>, run: string, c: Context, added: Delivery)
    requires was == [] || SequenceOk(was, run, c)
    requires !c.closed && c.inFlight <= c.newest
    requires was != [] ==> Last(was).terminal != added.terminal || Last(was).version == c.inFlight
    requires added.report.run == run && added.version == c.newest + 1
    requires added.terminal == TerminalState(added.report.state)
    requires forall k :: 0 <= k < |c.log| ==> c.log[k].version <= c.newest
    ensures SequenceOk(was + [added], run, c.(newest := c.newest + 1)) && Renewed(was, was + [added], c.newest)
  {
    var fit := was + [added];
    assert forall i :: 0 <= i < |was| ==> fit[i] == was[i];
    assert fit[|was|] == added;
    AppendedBehind(was, run, c, added);
    hide Behind;
  }

  lemma AppendedBehind(was: seq<Delivery>, run: string, c: Context, added: Delivery)
    requires Behind(c.log, run, was, c.inHand) && added.version == c.newest + 1
    requires forall k :: 0 <= k < |c.log| ==> c.log[k].version <= c.newest
    ensures Behind(c.log, run, was + [added], c.inHand)
  {
    assert forall i :: 0 <= i < |was| ==> (was + [added])[i] == was[i];
  }

  lemma TailDropFits(was: seq<Delivery>, run: string, c: Context)
    requires SequenceOk(was, run, c) && !c.closed
    ensures var fit := was[..|was| - 1];
      (fit != [] ==> SequenceOk(fit, run, c)) && Renewed(was, fit, c.newest)
  {
    var fit := was[..|was| - 1];
    assert forall i :: 0 <= i < |fit| ==> fit[i] == was[i];
  }

  lemma PrunedStays(was: seq<Delivery>, fit: seq<Delivery>, skip: nat)
    requires Pruned(was) && skip + |fit| == |was|
    requires forall i :: 0 <= i < |fit| ==> fit[i].terminal == was[i + skip].terminal
    ensures Pruned(fit)
  {
    forall i | 0 <= i < |fit| && !fit[i].terminal ensures TerminalAt(fit, i + 1) {
      assert !was[i + skip].terminal && TerminalAt(was, i + skip + 1);
    }
  }

  lemma HeadDropFits(was: seq<Delivery>, run: string, c: Context, now: int)
    requires SequenceOk(was, run, c) && c.inHand.Some? && was[0].version == c.inHand.value.version
    ensures var fit := WithoutHead(was, now);
      (fit != [] ==> SequenceOk(fit, run, c.(inFlight := 0, inHand := None))) && Renewed(was, fit, c.newest)
  {
    hide Behind, Alternating, Increasing, OnlyHeadInFlight, Owned;
    var fit := WithoutHead(was, now);
    assert forall i :: 1 <= i < |fit| ==> fit[i] == was[i + 1];
    assert fit != [] ==> fit[0] == was[1] || fit[0] == was[1].(due := now);
    if c.closed { PrunedStays(was, fit, 1); }
    ShiftFits(was, fit, 1, run, c, c.(inFlight := 0, inHand := None));
  }

  /** A stretch of a sequence, but for due times, fits when its old head is gone or out of hand. */
  lemma ShiftFits(was: seq<Delivery>, fit: seq<Delivery>, skip: nat, run: string, c: Context, d: Context)
    requires SequenceOk(was, run, c) && skip + |fit| <= |was|
    requires forall i :: 0 <= i < |fit| ==>
      var e := was[i + skip]; fit[i].version == e.version && fit[i].terminal == e.terminal && fit[i].report == e.report
    requires d.newest == c.newest && d.log == c.log && (d.closed ==> Pruned(fit))
    requires (d.inFlight == c.inFlight && d.inHand == c.inHand) || (d.inFlight == 0 && (skip > 0 || was[0].terminal))
    ensures (fit != [] ==> SequenceOk(fit, run, d)) && Renewed(was, fit, c.newest)
  {
    forall i | 0 <= i < |fit| ensures exists j :: 0 <= j < |was| && was[j].version == fit[i].version {
      assert was[i + skip].version == fit[i].version;
    }
    if fit != [] {
      assert Increasing(fit);
      assert Alternating(fit) by {
        forall i | 1 <= i < |fit| - 1 ensures fit[i].terminal != fit[i + 1].terminal {
          assert was[i + skip].terminal != was[i + skip + 1].terminal;
        }
      }
      assert OnlyHeadInFlight(fit, d.inFlight);
      assert Behind(d.log, run, fit, d.inHand) by {
        forall k, i | 0 <= k < |d.log| && d.log[k].report.run == run && 0 <= i < |fit|
          ensures d.log[k].version <= fit[i].version
          ensures d.log[k].version == fit[i].version ==>
            && i == 0 && fit[i].report == d.log[k].report && fit[i].terminal == d.log[k].terminal
            && (fit[i].terminal || d.inHand == Some(d.log[k]))
        {
          assert d.log[k].version <= was[i + skip].version;
        }
      }
    }
  }

  lemma RetryFits(was: seq<Delivery>, run: string, c: Context, now: int, jitter: int, policy: Policy)
    requires SequenceOk(was, run, c) && was[0].terminal && c.inHand.Some?
    requires c.inHand.value.version == was[0].version && c.inHand.value.report.run == run
    ensures var fit := [Retried(was[0], now, jitter, policy)] + was[1..];
      SequenceOk(fit, run, c.(inFlight := 0, inHand := None)) && Renewed(was, fit, c.newest)
  {
    hide Behind, Alternating, Increasing, OnlyHeadInFlight, Owned;
    var fit := [Retried(was[0], now, jitter, policy)] + was[1..];
    forall i | 0 <= i < |fit|
      ensures fit[i].version == was[i].version && fit[i].terminal == was[i].terminal && fit[i].report == was[i].report
    {
      if i > 0 { assert fit[i] == was[i]; }
    }
    if c.closed { PrunedStays(was, fit, 0); }
    ShiftFits(was, fit, 0, run, c, c.(inFlight := 0, inHand := None));
  }

  /** Settling a report that is no longer pending only empties the hands. */
  lemma UnrelatedFits(was: seq<Delivery>, run: string, c: Context)
    requires SequenceOk(was, run, c) && c.inHand.Some? && c.log != []
    requires c.inHand.value == c.log[|c.log| - 1] && c.inHand.value.report.run == run
    requires was[0].version != c.inHand.value.version
    ensures SequenceOk(was, run, c.(inFlight := 0, inHand := None)) && Renewed(was, was, c.newest)
  {
    var d := c.(inFlight := 0, inHand := None);
    forall k, i | 0 <= k < |c.log| && c.log[k].report.run == run && 0 <= i < |was| && c.log[k].version == was[i].version
      ensures was[i].terminal
    {
      assert i == 0;
    }
  }

  // ---------------------------------------------------------------------
  // Every step keeps the invariant

  lemma ReplacedKeeps(s: System, report: Report, now: int, policy: Policy)
    requires Invariant(s, policy) && !s.q.closed && Coalesces(s.q, report)
    ensures Invariant(s.(q := Replaced(s.q, report, now, policy)), policy)
  {
    hide SequenceOk, Renewed, HandedInOrder;
    var t := s.(q := Replaced(s.q, report, now, policy));
    var was := s.q.pending[report.run];
    var added := Fresh(report, now, policy, s.q.version + 1);
    ReplacedFits(was, report.run, ContextOf(s), added);
    UpdateKeeps(s.q.pending, ContextOf(s), report.run, t.q.pending[report.run], ContextOf(t));
    CountKeeps(s.q, t.q, report.run, t.q.pending[report.run], policy);
  }

  lemma AppendedKeeps(s: System, report: Report, now: int, policy: Policy)
    requires Invariant(s, policy) && !s.q.closed && !Coalesces(s.q, report) && s.q.queued < policy.capacity
    ensures Invariant(s.(q := Appended(s.q, report, now, policy)), policy)
  {
    hide SequenceOk, Renewed, HandedInOrder;
    var t := s.(q := Appended(s.q, report, now, policy));
    var was := SequenceOf(s.q.pending, report.run);
    var added := Fresh(report, now, policy, s.q.version + 1);
    AppendedFits(was, report.run, ContextOf(s), added);
    UpdateKeeps(s.q.pending, ContextOf(s), report.run, was + [added], ContextOf(t));
    CountKeeps(s.q, t.q, report.run, was + [added], policy);
  }

  lemma WithoutTailKeeps(s: System, run: string, policy: Policy)
    requires Invariant(s, policy) && !s.q.closed && Expendable(s.q.pending, run)
    ensures Invariant(s.(q := WithoutTail(s.q, run)), policy)
  {
    hide SequenceOk, Renewed, HandedInOrder;
    var t := s.(q := WithoutTail(s.q, run));
    var was := s.q.pending[run];
    TailDropFits(was, run, ContextOf(s));
    UpdateKeeps(s.q.pending, ContextOf(s), run, was[..|was| - 1], ContextOf(t));
    CountKeeps(s.q, t.q, run, was[..|was| - 1], policy);
  }

  /** Making room never makes the report coalesce. */
  lemma EvictedKeeps(s: System, report: Report, room: Queue, policy: Policy)
    requires Invariant(s, policy) && !s.q.closed && Evicted(s.q, room)
    requires TerminalState(report.state) && !Coalesces(s.q, report)
    ensures Invariant(s.(q := room), policy) && !room.closed && !Coalesces(room, report)
  {
    hide Invariant;
    if room != s.q {
      var run :| Expendable(s.q.pending, run) && room == WithoutTail(s.q, run);
      WithoutTailKeeps(s, run, policy);
      if run == report.run { TailStaysApart(s, report, run); }
    }
  }

  lemma TailStaysApart(s: System, report: Report, run: string)
    requires Expendable(s.q.pending, run) && run == report.run && TerminalState(report.state)
    ensures !Coalesces(WithoutTail(s.q, run), report)
  {
    var was := s.q.pending[run];
    assert |was| > 1 ==> Last(was[..|was| - 1]) == was[|was| - 2];
  }

  lemma EnqueueKeeps(s: System, report: Report, now: int, q: Queue, policy: Policy)
    requires Invariant(s, policy) && Enqueued(s.q, report, now, policy, q)
    ensures Invariant(s.(q := q), policy)
  {
    hide Invariant, Coalesces, Evicted;
    if s.q.closed {
      assert s.(q := q) == s;
    } else if Coalesces(s.q, report) {
      ReplacedKeeps(s, report, now, policy);
    } else if s.q.queued < policy.capacity {
      AppendedKeeps(s, report, now, policy);
    } else if TerminalState(report.state) {
      var room :| Evicted(s.q, room)
        && q == if room.queued < policy.capacity then Appended(room, report, now, policy) else room;
      EvictedKeeps(s, report, room, policy);
      if room.queued < policy.capacity {
        AppendedKeeps(s.(q := room), report, now, policy);
      }
    } else {
      assert s.(q := q) == s;
    }
  }

  /** Handing out a head keeps every sequence ahead of the log. */
  lemma TakenFits(s: seq<Delivery>, run: string, c: Context, d: Delivery, mark: nat)
    requires SequenceOk(s, run, c) && c.inHand == None && c.inFlight == 0 && 0 < d.version <= c.newest
    requires mark == 0 || mark == d.version
    requires d.report.run == run ==> s[0] == d
    requires d.report.run != run ==> forall i :: 0 <= i < |s| ==> s[i].version != d.version
    ensures SequenceOk(s, run, c.(inFlight := mark, log := c.log + [d], inHand := Some(d)))
  {
    assert forall k :: 0 <= k < |c.log| ==> (c.log + [d])[k] == c.log[k];
  }

  lemma NextKeeps(s: System, now: int, later: int, choice: Choice, policy: Policy)
    requires Invariant(s, policy) && s.inHand == None && Chosen(s.q, now, choice)
    ensures Invariant(Handed(s, choice, now, later), policy)
  {
    var t := Handed(s, choice, now, later);
    if t != s {
      var d, c := choice.delivery, ContextOf(s);
      assert IsHead(s.q.pending, d) && SequenceOk(s.q.pending[d.report.run], d.report.run, c);
      assert ContextOf(t) == c.(inFlight := t.q.inFlight, log := c.log + [d], inHand := Some(d));
      assert d.due <= now <==> choice.Deliver?;
      HandingKeeps(s.q.pending, c, d, t.q.inFlight);
    }
  }

  lemma HandingKeeps(p: Pending, c: Context, d: Delivery, mark: nat)
    requires Sequences(p, c) && HandConsistent(c) && c.inHand == None && IsHead(p, d)
    requires mark == 0 || mark == d.version
    ensures var handed := c.(inFlight := mark, log := c.log + [d], inHand := Some(d));
      Sequences(p, handed) && HandConsistent(handed)
  {
    assert SequenceOk(p[d.report.run], d.report.run, c);
    forall run | run in p
      ensures SequenceOk(p[run], run, c.(inFlight := mark, log := c.log + [d], inHand := Some(d)))
    {
      if run != d.report.run { assert Apart(p[d.report.run], p[run]); }
      TakenFits(p[run], run, c, d, mark);
    }
    TakenInOrder(p[d.report.run], c, d, mark);
  }

  lemma TakenInOrder(s: seq<Delivery>, c: Context, d: Delivery, mark: nat)
    requires SequenceOk(s, d.report.run, c) && s[0] == d && HandConsistent(c) && c.inHand == None
    requires mark == 0 || mark == d.version
    ensures HandConsistent(c.(inFlight := mark, log := c.log + [d], inHand := Some(d)))
  {
    assert forall k :: 0 <= k < |c.log| ==> (c.log + [d])[k] == c.log[k];
  }

  /** The sequence the settled report leaves behind. */
  function Left(q: Queue, d: Delivery, outcome: Outcome, now: int, jitter: int, policy: Policy): seq<Delivery> {
    var s := SequenceOf(q.pending, d.report.run);
    if s == [] || s[0].version != d.version then s
    else if outcome != Failed || !s[0].terminal then WithoutHead(s, now)
    else [Retried(s[0], now, jitter, policy)] + s[1..]
  }

  lemma LeftFits(s: System, outcome: Outcome, now: int, jitter: int, policy: Policy)
    requires Invariant(s, policy) && s.inHand.Some?
    ensures var d, c := s.inHand.value, ContextOf(s);
      var fit := Left(s.q, d, outcome, now, jitter, policy);
      && (fit != [] ==> SequenceOk(fit, d.report.run, c.(inFlight := 0, inHand := None)))
      && Renewed(SequenceOf(s.q.pending, d.report.run), fit, c.newest)
  {
    var d, c := s.inHand.value, ContextOf(s);
    var run := d.report.run;
    var was := SequenceOf(s.q.pending, run);
    assert was != [] ==> SequenceOk(was, run, c);
    hide SequenceOk, Renewed, HandedInOrder;
    if was == [] {
      RenewedEmpty(c.newest);
    } else if was[0].version != d.version {
      UnrelatedFits(was, run, c);
    } else if outcome != Failed || !was[0].terminal {
      HeadDropFits(was, run, c, now);
    } else {
      RetryFits(was, run, c, now, jitter, policy);
    }
  }

  lemma SettledQueue(s: System, outcome: Outcome, now: int, jitter: int, policy: Policy)
    requires Invariant(s, policy) && s.inHand.Some?
    ensures var d := s.inHand.value;
      var fit, r := Left(s.q, d, outcome, now, jitter, policy), Settled(s.q, d, outcome, now, jitter, policy);
      && r.pending == With(s.q.pending, d.report.run, fit)
      && r.queued == s.q.queued - |SequenceOf(s.q.pending, d.report.run)| + |fit|
      && r.inFlight == 0 && r.version == s.q.version && r.closed == s.q.closed
  {
    hide SequenceOk, HandedInOrder;
    var run := s.inHand.value.report.run;
    if SequenceOf(s.q.pending, run) == [] { NoEntry(s.q.pending, ContextOf(s), run); }
  }

  lemma SettleKeeps(s: System, outcome: Outcome, now: int, jitter: int, policy: Policy)
    requires Invariant(s, policy) && s.inHand.Some?
    ensures Invariant(s.(q := Settled(s.q, s.inHand.value, outcome, now, jitter, policy), inHand := None), policy)
  {
    hide SequenceOk, Renewed, HandedInOrder, Settled, Left;
    var d, c := s.inHand.value, ContextOf(s);
    var t := s.(q := Settled(s.q, d, outcome, now, jitter, policy), inHand := None);
    var fit := Left(s.q, d, outcome, now, jitter, policy);
    SettledQueue(s, outcome, now, jitter, policy);
    LeftFits(s, outcome, now, jitter, policy);
    LeftNoLonger(s.q, d, outcome, now, jitter, policy);
    UpdateKeeps(s.q.pending, c, d.report.run, fit, ContextOf(t));
    CountKeeps(s.q, t.q, d.report.run, fit, policy);
  }

  lemma LeftNoLonger(q: Queue, d: Delivery, outcome: Outcome, now: int, jitter: int, policy: Policy)
    ensures |Left(q, d, outcome, now, jitter, policy)| <= |SequenceOf(q.pending, d.report.run)|
  {
  }

  lemma NoEntry(p: Pending, c: Context, run: string)
    requires Sequences(p, c) && SequenceOf(p, run) == []
    ensures run !in p && With(p, run, []) == p
  {
    assert run in p ==> SequenceOk(p[run], run, c);
  }

  lemma RenewedEmpty(newest: nat)
    ensures Renewed([], [], newest)
  {
  }

  // ---------------------------------------------------------------------
  // Closing

  lemma {:induction false} RetainedAlternating(s: seq<Delivery>)
    requires forall i :: 0 <= i < |s| - 1 ==> s[i].terminal != s[i + 1].terminal
    ensures Retained(s) == if s != [] && !Last(s).terminal then s[..|s| - 1] else s
  {
    if s == [] {
    } else {
      assert s == [s[0]] + s[1..];
      RetainedAlternating(s[1..]);
    }
  }

  /** Closing cuts a sequence at its ends only: a last running report, and a first one
      that another running report follows. */
  lemma RetainedEnds(s: seq<Delivery>)
    requires Alternating(s) && s != []
    ensures var rest := s[1..];
      Retained(s) == (if s[0].terminal || (rest != [] && rest[0].terminal) then [s[0]] else [])
                     + (if rest != [] && !Last(rest).terminal then rest[..|rest| - 1] else rest)
  {
    RetainedAlternating(s[1..]);
  }

  lemma RetainedShape(s: seq<Delivery>) returns (skip: nat)
    requires Alternating(s) && s != []
    ensures skip + |Retained(s)| <= |s| && (forall i :: 0 <= i < |Retained(s)| ==> Retained(s)[i] == s[i + skip])
    ensures Pruned(Retained(s))
  {
    RetainedEnds(s);
    var fit, rest := Retained(s), s[1..];
    hide Retained;
    skip := if s[0].terminal || (rest != [] && rest[0].terminal) then 0 else 1;
    forall i | 0 <= i < |fit| && !fit[i].terminal ensures TerminalAt(fit, i + 1) {
      if i + skip > 0 {
        assert i + skip + 1 < |s| ==> s[i + skip + 1].terminal;
      }
    }
  }

  lemma RetainedFits(s: seq<Delivery>, run: string, c: Context)
    requires SequenceOk(s, run, c) && !c.closed
    ensures (Retained(s) != [] ==> SequenceOk(Retained(s), run, c.(closed := true)))
    ensures Renewed(s, Retained(s), c.newest) && |Retained(s)| <= |s|
  {
    hide Retained, Pruned;
    var skip := RetainedShape(s);
    ShiftFits(s, Retained(s), skip, run, c, c.(closed := true));
  }

  lemma {:induction false} TotalShrinks(p: Pending, r: Pending)
    requires r.Keys <= p.Keys && forall run :: run in r ==> |r[run]| <= |p[run]|
    ensures Total(r) <= Total(p)
    decreases |r|
  {
    if r == map[] {
    } else {
      var run :| run in r;
      TotalSplit(r, run);
      TotalSplit(p, run);
      TotalShrinks(p - {run}, r - {run});
    }
  }

  lemma CloseKeeps(s: System, q: Queue, policy: Policy)
    requires Invariant(s, policy) && Closed(s.q, q)
    ensures Invariant(s.(q := q), policy)
  {
    if s.q.closed {
      assert s.(q := q) == s;
    } else {
      hide SequenceOk, HandConsistent, Total;
      CloseKeepsSequences(s.q.pending, ContextOf(s), q.pending);
      TotalShrinks(s.q.pending, q.pending);
      ClosingHand(ContextOf(s));
    }
  }

  lemma CloseKeepsSequences(p: Pending, c: Context, r: Pending)
    requires Sequences(p, c) && !c.closed
    requires r == map run | run in p && Retained(p[run]) != [] :: Retained(p[run])
    ensures Sequences(r, c.(closed := true))
    ensures forall run :: run in r ==> |r[run]| <= |p[run]|
  {
    hide SequenceOk, Renewed, Apart, Retained;
    forall run | run in r
      ensures SequenceOk(r[run], run, c.(closed := true)) && Renewed(p[run], r[run], c.newest) && |r[run]| <= |p[run]|
    {
      RetainedFits(p[run], run, c);
    }
    forall a, b | a in r && b in r && a != b ensures Apart(r[a], r[b]) {
      BothRenewedApart(p, c, a, b, r[a], r[b]);
    }
  }

  lemma BothRenewedApart(p: Pending, c: Context, a: string, b: string, s: seq<Delivery>, t: seq<Delivery>)
    requires Sequences(p, c) && a in p && b in p && a != b
    requires Renewed(p[a], s, c.newest) && SequenceOk(s, a, c.(closed := true))
    requires Renewed(p[b], t, c.newest)
    ensures Apart(s, t)
  {
    assert SequenceOk(p[b], b, c) && Apart(p[a], p[b]);
    RenewedApart(p[a], s, p[b], c.newest);
    RenewedApart(p[b], t, s, c.newest);
  }

  lemma ClosingHand(c: Context)
    requires HandConsistent(c)
    ensures HandConsistent(c.(closed := true))
  {
  }

  // ---------------------------------------------------------------------
  // Whole runs

  lemma StepKeeps(s: System, e: Event, t: System, policy: Policy)
    requires Invariant(s, policy) && Step(s, e, t, policy)
    ensures Invariant(t, policy)
  {
    hide Invariant, Enqueued, Chosen, Settled, Closed;
    match e
    case Enqueue(report, now) =>
      EnqueueKeeps(s, report, now, t.q, policy);
    case Next(now, later) =>
      var choice :| Chosen(s.q, now, choice) && t == Handed(s, choice, now, later);
      NextKeeps(s, now, later, choice, policy);
    case Settle(outcome, now, jitter) =>
      SettleKeeps(s, outcome, now, jitter, policy);
    case Close =>
      CloseKeeps(s, t.q, policy);
  }

  /** Heads belong to their runs and no two share a version. */
  ghost predicate HeadsApart(p: Pending) {
    && (forall run :: run in p ==> p[run] != [] && p[run][0].report.run == run)
    && forall a, b :: a in p && b in p && a != b ==> p[a][0].version != p[b][0].version
  }

  lemma InvariantHeads(s: System, policy: Policy)
    requires Invariant(s, policy)
    ensures HeadsApart(s.q.pending)
  {
    forall run | run in s.q.pending ensures s.q.pending[run] != [] && s.q.pending[run][0].report.run == run {
      assert SequenceOk(s.q.pending[run], run, ContextOf(s));
    }
    forall a, b | a in s.q.pending && b in s.q.pending && a != b
      ensures s.q.pending[a][0].version != s.q.pending[b][0].version
    {
      assert Apart(s.q.pending[a], s.q.pending[b]);
    }
  }

  ghost predicate IsRun(states: seq<System>, events: seq<Event>, policy: Policy) {
    && |states| == |events| + 1 && states[0] == START
    && forall i :: 0 <= i < |events| ==> Step(states[i], events[i], states[i + 1], policy)
  }

  /** Every state a run reaches keeps the structure of the queue. */
  lemma {:induction false} RunKeeps(states: seq<System>, events: seq<Event>, policy: Policy, i: nat)
    requires IsRun(states, events, policy) && i < |states|
    ensures Invariant(states[i], policy)
  {
    if i == 0 {
    } else {
      RunKeeps(states, events, policy, i - 1);
      StepKeeps(states[i - 1], events[i - 1], states[i], policy);
    }
  }

  /** Whatever happens, the versions handed out for one run never decrease, and a version is
      handed out twice only when the same terminal report is tried again. */
  lemma HandedOutInOrder(states: seq<System>, events: seq<Event>, policy: Policy)
    requires IsRun(states, events, policy)
    ensures HandedInOrder(states[|events|].log)
  {
    RunKeeps(states, events, policy, |events|);
  }

  // ---------------------------------------------------------------------
  // Terminal reports

  ghost predicate At(s: seq<Delivery>, i: int, report: Report, version: nat) {
    0 <= i < |s| && s[i].version == version && s[i].report == report
  }

  ghost predicate Holds(p: Pending, report: Report, version: nat) {
    exists i :: At(SequenceOf(p, report.run), i, report, version)
  }

  predicate IsLast(p: Pending, run: string, version: nat) {
    SequenceOf(p, run) != [] && Last(p[run]).version == version
  }

  /** The report in hand is this one, and it was due when its choice began. */
  predicate TakenWhenDue(s: System, version: nat) {
    s.inHand.Some? && s.inHand.value.version == version && s.inHand.value.due <= s.chosenAt
  }

  /** How an accepted terminal report may leave the queue: it was in hand and is settled
      otherwise than by a failure, or a later terminal report of its run takes its place
      while it is the last one and not in hand, unless it was handed over although it was
      not yet due when its choice began. */
  ghost predicate Leaves(s: System, e: Event, t: System, report: Report, version: nat) {
    match e
    case Settle(outcome, _, _) =>
      outcome != Failed && s.inHand.Some? && s.inHand.value.version == version && s.inHand.value.report == report
    case Enqueue(later, _) =>
      && later.run == report.run && TerminalState(later.state) && !TakenWhenDue(s, version)
      && IsLast(s.q.pending, report.run, version)
      && SequenceOf(t.q.pending, report.run) != [] && Last(t.q.pending[report.run]).report == later
      && Last(t.q.pending[report.run]).version > version
    case _ => false
  }

  /** Where a pending terminal report is, without the rest of the invariant. */
  lemma TerminalAtIndex(s: System, policy: Policy, held: Report, version: nat) returns (i: int)
    requires Invariant(s, policy) && Holds(s.q.pending, held, version) && TerminalState(held.state)
    ensures held.run in s.q.pending && At(s.q.pending[held.run], i, held, version)
    ensures s.q.pending[held.run][i].terminal && 0 < version <= s.q.version
    ensures TakenWhenDue(s, version) ==> s.q.inFlight == version
    ensures s.inHand.Some? && s.inHand.value.report.run == held.run
            && s.q.pending[held.run][0].version == s.inHand.value.version ==>
      s.q.pending[held.run][0].report == s.inHand.value.report
  {
    i :| At(SequenceOf(s.q.pending, held.run), i, held, version);
    assert SequenceOk(s.q.pending[held.run], held.run, ContextOf(s));
  }

  lemma ReplacedHolds(s: System, report: Report, now: int, policy: Policy, held: Report, version: nat)
    requires Invariant(s, policy) && Coalesces(s.q, report)
    requires Holds(s.q.pending, held, version) && TerminalState(held.state)
    ensures var q := Replaced(s.q, report, now, policy);
      Holds(q.pending, held, version) || Leaves(s, Enqueue(report, now), s.(q := q), held, version)
  {
    hide Invariant, Holds;
    var i := TerminalAtIndex(s, policy, held, version);
    var was, last := s.q.pending[report.run], Fresh(report, now, policy, s.q.version + 1);
    var fit := was[..|was| - 1] + [last];
    if report.run != held.run || i < |was| - 1 {
      UpdateHolds(s.q.pending, report.run, fit, i, held, version);
    } else {
      assert Replaced(s.q, report, now, policy).pending[held.run] == fit && Last(fit) == last;
    }
  }

  lemma UpdateHolds(p: Pending, run: string, fit: seq<Delivery>, i: int, held: Report, version: nat)
    requires At(SequenceOf(p, held.run), i, held, version)
    requires run == held.run ==> At(fit, i, held, version)
    ensures Holds(With(p, run, fit), held, version)
    ensures Holds(p[run := fit], held, version)
  {
    assert At(SequenceOf(With(p, run, fit), held.run), i, held, version);
    assert At(SequenceOf(p[run := fit], held.run), i, held, version);
  }

  lemma AppendedHolds(q: Queue, report: Report, now: int, policy: Policy, held: Report, version: nat)
    requires Holds(q.pending, held, version)
    ensures Holds(Appended(q, report, now, policy).pending, held, version)
  {
    var i :| At(SequenceOf(q.pending, held.run), i, held, version);
    UpdateHolds(q.pending, report.run, Appended(q, report, now, policy).pending[report.run], i, held, version);
  }

  lemma EvictedHolds(s: System, room: Queue, policy: Policy, held: Report, version: nat)
    requires Invariant(s, policy) && Evicted(s.q, room)
    requires Holds(s.q.pending, held, version) && TerminalState(held.state)
    ensures Holds(room.pending, held, version)
  {
    hide Invariant, Holds, WithoutTail;
    if room != s.q {
      var run :| Expendable(s.q.pending, run) && room == WithoutTail(s.q, run);
      hide Evicted;
      WithoutTailHolds(s, run, policy, held, version);
    }
  }

  lemma WithoutTailHolds(s: System, run: string, policy: Policy, held: Report, version: nat)
    requires Invariant(s, policy) && Expendable(s.q.pending, run)
    requires Holds(s.q.pending, held, version) && TerminalState(held.state)
    ensures Holds(WithoutTail(s.q, run).pending, held, version)
  {
    hide Invariant, Holds, With;
    var i := TerminalAtIndex(s, policy, held, version);
    var was := s.q.pending[run];
    UpdateHolds(s.q.pending, run, was[..|was| - 1], i, held, version);
  }

  lemma EnqueueHolds(s: System, report: Report, now: int, q: Queue, policy: Policy, held: Report, version: nat)
    requires Invariant(s, policy) && Enqueued(s.q, report, now, policy, q)
    requires Holds(s.q.pending, held, version) && TerminalState(held.state)
    ensures Holds(q.pending, held, version) || Leaves(s, Enqueue(report, now), s.(q := q), held, version)
  {
    hide Invariant, Coalesces, Holds, Leaves, Evicted, Replaced, Appended;
    if s.q.closed {
    } else if Coalesces(s.q, report) {
      ReplacedHolds(s, report, now, policy, held, version);
    } else if s.q.queued < policy.capacity {
      AppendedHolds(s.q, report, now, policy, held, version);
    } else if TerminalState(report.state) {
      var room :| Evicted(s.q, room)
        && q == if room.queued < policy.capacity then Appended(room, report, now, policy) else room;
      EvictedHolds(s, room, policy, held, version);
      AppendedHolds(room, report, now, policy, held, version);
    }
  }

  lemma LeftHolds(was: seq<Delivery>, i: nat, d: Delivery, outcome: Outcome, now: int, jitter: int, policy: Policy,
                  held: Report, version: nat)
    requires At(was, i, held, version) && was[0].version == d.version && was[i].terminal
    requires i > 0 || (outcome == Failed && was[0].terminal)
    ensures var left := if outcome != Failed || !was[0].terminal then WithoutHead(was, now)
                        else [Retried(was[0], now, jitter, policy)] + was[1..];
      exists j :: At(left, j, held, version)
  {
    if outcome != Failed || !was[0].terminal {
      assert At(WithoutHead(was, now), i - 1, held, version);
    } else {
      assert At([Retried(was[0], now, jitter, policy)] + was[1..], i, held, version);
    }
  }

  lemma SettleHolds(s: System, outcome: Outcome, now: int, jitter: int, policy: Policy, held: Report, version: nat)
    requires Invariant(s, policy) && s.inHand.Some?
    requires Holds(s.q.pending, held, version) && TerminalState(held.state)
    ensures var q := Settled(s.q, s.inHand.value, outcome, now, jitter, policy);
      Holds(q.pending, held, version) ||
      Leaves(s, Settle(outcome, now, jitter), s.(q := q, inHand := None), held, version)
  {
    hide Invariant, Settled, WithoutHead, Retried;
    var d := s.inHand.value;
    var i := TerminalAtIndex(s, policy, held, version);
    SettledQueue(s, outcome, now, jitter, policy);
    var was, q := s.q.pending[held.run], Settled(s.q, d, outcome, now, jitter, policy);
    if d.report.run != held.run {
      assert SequenceOf(q.pending, held.run) == was;
    } else if was[0].version != d.version {
      assert With(s.q.pending, held.run, was) == s.q.pending;
    } else if i > 0 || (outcome == Failed && was[0].terminal) {
      LeftHolds(was, i, d, outcome, now, jitter, policy, held, version);
      assert SequenceOf(q.pending, held.run) == Left(s.q, d, outcome, now, jitter, policy);
    }
  }

  lemma {:induction false} RetainedHas(s: seq<Delivery>, i: nat, held: Report, version: nat)
    requires At(s, i, held, version) && s[i].terminal
    ensures exists j :: At(Retained(s), j, held, version)
  {
    if i == 0 {
      assert At(Retained(s), 0, held, version);
    } else {
      RetainedHas(s[1..], i - 1, held, version);
      var j :| At(Retained(s[1..]), j, held, version);
      assert At(Retained(s), j + |Retained(s)| - |Retained(s[1..])|, held, version);
    }
  }

  lemma CloseHolds(s: System, q: Queue, policy: Policy, held: Report, version: nat)
    requires Invariant(s, policy) && Closed(s.q, q)
    requires Holds(s.q.pending, held, version) && TerminalState(held.state)
    ensures Holds(q.pending, held, version)
  {
    var i := TerminalAtIndex(s, policy, held, version);
    hide Invariant, Retained;
    var was := s.q.pending[held.run];
    if !s.q.closed {
      RetainedHas(was, i, held, version);
      assert Retained(was) != [];
      assert SequenceOf(q.pending, held.run) == Retained(was);
    }
  }

  /** A step makes a pending terminal report disappear only in one of the ways named. */
  lemma TerminalLeaves(s: System, e: Event, t: System, policy: Policy, report: Report, version: nat)
    requires Invariant(s, policy) && Step(s, e, t, policy)
    requires Holds(s.q.pending, report, version) && TerminalState(report.state)
    ensures Holds(t.q.pending, report, version) || Leaves(s, e, t, report, version)
  {
    hide Invariant, Enqueued, Chosen, Settled, Closed, Holds, Leaves;
    match e
    case Enqueue(added, now) =>
      EnqueueHolds(s, added, now, t.q, policy, report, version);
    case Next(_, _) =>
      assert t.q.pending == s.q.pending;
    case Settle(outcome, now, jitter) =>
      SettleHolds(s, outcome, now, jitter, policy, report, version);
    case Close =>
      CloseHolds(s, t.q, policy, report, version);
  }

  /** Over a whole run: between the moment a terminal report is pending and a later one when
      it is not, one step settled it or put a later terminal report of the run in its place. */
  lemma {:induction false} TerminalReportsSurvive(states: seq<System>, events: seq<Event>, policy: Policy,
                                                  i: nat, j: nat, report: Report, version: nat)
    requires IsRun(states, events, policy) && i <= j < |states| && TerminalState(report.state)
    requires Holds(states[i].q.pending, report, version) && !Holds(states[j].q.pending, report, version)
    ensures exists k :: i <= k < j && Leaves(states[k], events[k], states[k + 1], report, version)
    decreases j
  {
    hide Holds, Leaves, Invariant, Step;
    if Holds(states[j - 1].q.pending, report, version) {
      RunKeeps(states, events, policy, j - 1);
      TerminalLeaves(states[j - 1], events[j - 1], states[j], policy, report, version);
    } else {
      TerminalReportsSurvive(states, events, policy, i, j - 1, report, version);
    }
  }

  // ---------------------------------------------------------------------
  // What is turned away

  /** An open queue turns a terminal report away exactly when it is full and holds nothing
      expendable, and the report cannot take the place of an older one. */
  lemma TerminalRefused(s: System, report: Report, now: int, q: Queue, policy: Policy)
    requires Invariant(s, policy) && !s.q.closed && TerminalState(report.state)
    requires Enqueued(s.q, report, now, policy, q)
    ensures Holds(q.pending, report, s.q.version + 1) <==>
      Coalesces(s.q, report) || s.q.queued < policy.capacity
      || (s.q.queued == policy.capacity && exists run :: Expendable(s.q.pending, run))
  {
    hide Invariant, Holds, Expendable, Coalesces, Evicted, Replaced, Appended;
    if Coalesces(s.q, report) {
      ReplacedNewest(s.q, report, now, policy);
    } else if s.q.queued < policy.capacity {
      AppendedNewest(s.q, report, now, policy);
    } else {
      var room :| Evicted(s.q, room)
        && q == if room.queued < policy.capacity then Appended(room, report, now, policy) else room;
      hide Enqueued;
      RoomTaken(s, report, now, room, policy);
    }
  }

  lemma RoomTaken(s: System, report: Report, now: int, room: Queue, policy: Policy)
    requires Invariant(s, policy) && !s.q.closed && TerminalState(report.state) && s.q.queued >= policy.capacity
    requires Evicted(s.q, room) && !Coalesces(s.q, report)
    ensures Holds(Appended(room, report, now, policy).pending, report, s.q.version + 1)
    ensures !Holds(room.pending, report, s.q.version + 1)
    ensures room.queued < policy.capacity <==>
      s.q.queued == policy.capacity && exists run :: Expendable(s.q.pending, run)
  {
    hide Invariant, Holds, Expendable, Coalesces, Evicted, Appended;
    NeverOverfull(s, policy);
    EvictedKeeps(s, report, room, policy);
    EvictedRoom(s.q, room);
    NewestAbsent(s.(q := room), policy, report);
    AppendedNewest(room, report, now, policy);
  }

  lemma NeverOverfull(s: System, policy: Policy)
    requires Invariant(s, policy)
    ensures forall run :: Expendable(s.q.pending, run) ==> s.q.queued <= policy.capacity
  {
  }

  lemma EvictedRoom(q: Queue, room: Queue)
    requires Evicted(q, room)
    ensures room.version == q.version
    ensures room.queued == q.queued - if exists run :: Expendable(q.pending, run) then 1 else 0
  {
  }

  lemma ReplacedNewest(q: Queue, report: Report, now: int, policy: Policy)
    requires Coalesces(q, report)
    ensures Holds(Replaced(q, report, now, policy).pending, report, q.version + 1)
  {
    NewestHeld(Replaced(q, report, now, policy).pending, report, q.version + 1);
  }

  lemma AppendedNewest(q: Queue, report: Report, now: int, policy: Policy)
    ensures Holds(Appended(q, report, now, policy).pending, report, q.version + 1)
  {
    NewestHeld(Appended(q, report, now, policy).pending, report, q.version + 1);
  }

  lemma NewestHeld(p: Pending, report: Report, version: nat)
    requires report.run in p && p[report.run] != []
    requires Last(p[report.run]).version == version && Last(p[report.run]).report == report
    ensures Holds(p, report, version)
  {
    assert At(SequenceOf(p, report.run), |p[report.run]| - 1, report, version);
  }

  lemma NewestAbsent(s: System, policy: Policy, report: Report)
    requires Invariant(s, policy) && TerminalState(report.state)
    ensures !Holds(s.q.pending, report, s.q.version + 1)
  {
    if Holds(s.q.pending, report, s.q.version + 1) {
      var i := TerminalAtIndex(s, policy, report, s.q.version + 1);
    }
  }

  // ---------------------------------------------------------------------
  // The order of hand-overs

  /** In due times, versions and kinds alone: of the heads that are due the terminal ones go
      first, then whichever came due sooner, then the smaller version; when none is due, it is
      whichever comes due soonest. */
  ghost predicate FirstInLine(p: Pending, d: Delivery, now: int) {
    && IsHead(p, d)
    && forall other :: IsHead(p, other) && other != d ==>
      var sooner := d.due < other.due || (d.due == other.due && d.version < other.version);
      if d.due <= now then
        other.due > now || (d.terminal && !other.terminal) || (d.terminal == other.terminal && sooner)
      else other.due > now && sooner
  }

  /** The choice is whoever is first in line, due or not. */
  lemma ChosenFirst(q: Queue, now: int, choice: Choice)
    requires HeadsApart(q.pending)
    ensures Chosen(q, now, choice) <==>
      match choice
      case Idle => q.pending == map[]
      case Deliver(d) => d.due <= now && FirstInLine(q.pending, d, now)
      case Wait(d) => d.due > now && FirstInLine(q.pending, d, now)
  {
    if q.pending != map[] {
      var run :| run in q.pending;
      assert IsHead(q.pending, q.pending[run][0]);
    }
    hide HeadsApart;
    if choice != Idle && q.pending != map[] { ChosenDelivery(q, now, choice); }
  }

  lemma ChosenDelivery(q: Queue, now: int, choice: Choice)
    requires choice != Idle && exists d :: IsHead(q.pending, d)
    ensures Chosen(q, now, choice) <==>
      FirstInLine(q.pending, choice.delivery, now) && (choice.Deliver? <==> choice.delivery.due <= now)
  {
  }

  /** Over every run: what is handed over was first in line when its choice began; and what
      was not due then, although handed over, came due before the second reading of the clock. */
  lemma HandedOutFirst(states: seq<System>, events: seq<Event>, policy: Policy, i: nat)
    requires IsRun(states, events, policy) && i < |events| && |states[i + 1].log| > |states[i].log|
    ensures events[i].Next? && states[i + 1].inHand.Some?
    ensures var d := states[i + 1].inHand.value;
      && states[i + 1].log == states[i].log + [d] && FirstInLine(states[i].q.pending, d, events[i].now)
      && d.due <= events[i].later
  {
    RunKeeps(states, events, policy, i);
    InvariantHeads(states[i], policy);
    var s, e, t := states[i], events[i], states[i + 1];
    assert Step(s, e, t, policy);
    hide IsRun, Invariant, HeadsApart, Enqueued, Closed, Chosen, FirstInLine, Settled;
    assert e.Next?;
    var choice :| Chosen(s.q, e.now, choice) && t == Handed(s, choice, e.now, e.later);
    ChosenFirst(s.q, e.now, choice);
  }

  /** The choice depends on the queue alone, not on the order its runs are looked at. */
  lemma ChosenOnce(q: Queue, now: int, a: Choice, b: Choice)
    requires Chosen(q, now, a) && Chosen(q, now, b)
    ensures a == b
  {
  }
}
