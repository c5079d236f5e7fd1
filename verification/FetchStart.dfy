/**
 Fetch-start admission: leases of permits granted by the node, each permit good for one
 fetch inside its window. Durations are 64-bit nanoseconds, instants are integers on the
 crawler's clock, and the node's clock is off by a constant.
 */
module FetchStart {
  import opened Wrappers

  const DEFAULT_LEASE_PERMITS := 4
  const MAXIMUM_LEASE_PERMITS := 256
  const MAXIMUM_DELIVERY_ALLOWANCE := 1_000_000_000

  const HALF64 := 0x8000_0000_0000_0000
  const WORD64 := 0x1_0000_0000_0000_0000

  type int64 = x: int | -0x8000_0000_0000_0000 <= x < 0x8000_0000_0000_0000

  /** Two's complement arithmetic of durations. */
  function Wrap(x: int): int64 {
    (x + HALF64) % WORD64 - HALF64
  }

  lemma WrapFits(x: int)
    ensures -HALF64 <= x < HALF64 ==> Wrap(x) == x
    ensures x >= HALF64 ==> Wrap(x) <= x - WORD64
  {
  }

  // ---------------------------------------------------------------------
  // Leases and decisions

  /** The node's answer, with the moment on the node's clock at which it decided. */
  datatype Decision = Decision(granted: bool, sequence: nat, permits: nat, opensAfter: int64, closesAfter: int64,
                               interval: int64, unlimited: bool, decidedAt: int)

  /** A lease as the crawler keeps it; `decision` is where it comes from, none for a lease
      the crawler gives itself when the node knows no leases and no rate is set. */
  datatype Lease = Lease(sequence: nat, permits: nat, used: nat, firstOpensAt: int, firstClosesAt: int, interval: int64,
                         unlimited: bool, decision: Option<Decision>)

  const NO_LEASE := Lease(0, 0, 0, 0, 0, 0, false, None)

  datatype Client = Client(generation: nat, sequence: nat, maximumPermits: nat, allowance: int, sequenceAllowance: int,
                           lastUsedAt: Option<int>, completed: Option<nat>, lease: Lease)

  const NEW_CLIENT := Client(0, 1, 0, 0, 0, None, None, NO_LEASE)

  function Min(a: int, b: int): int { if a < b then a else b }
  function Max(a: int, b: int): int { if a < b then b else a }

  /** How many permits the demand justifies, within what the crawler can use. */
  function CurrentMaximumPermits(waiting: int, upstreamDemand: Option<int>, capacity: Option<int>): (permits: nat)
    ensures 1 <= permits <= MAXIMUM_LEASE_PERMITS
    ensures permits <= Max(1, Max(waiting, if upstreamDemand.Some? then upstreamDemand.value else waiting))
    ensures permits <= Max(1, if capacity.Some? then capacity.value else DEFAULT_LEASE_PERMITS)
    ensures permits < MAXIMUM_LEASE_PERMITS ==>
      || permits >= Max(waiting, if upstreamDemand.Some? then upstreamDemand.value else waiting)
      || permits >= if capacity.Some? then capacity.value else DEFAULT_LEASE_PERMITS
  {
    var demand := Max(1, if upstreamDemand.Some? then Max(waiting, upstreamDemand.value) else waiting);
    var usable := Min(MAXIMUM_LEASE_PERMITS, Max(1, if capacity.Some? then capacity.value else DEFAULT_LEASE_PERMITS));
    Min(demand, usable)
  }

  function MeasuredAllowance(startedAt: int, receivedAt: int): (allowance: int)
    ensures 0 <= allowance <= MAXIMUM_DELIVERY_ALLOWANCE
    ensures 0 <= receivedAt - startedAt <= MAXIMUM_DELIVERY_ALLOWANCE ==> allowance == receivedAt - startedAt
    ensures receivedAt < startedAt ==> allowance == 0
    ensures receivedAt - startedAt > MAXIMUM_DELIVERY_ALLOWANCE ==> allowance == MAXIMUM_DELIVERY_ALLOWANCE
  {
    Min(Max(receivedAt - startedAt, 0), MAXIMUM_DELIVERY_ALLOWANCE)
  }

  function AllowanceNanoseconds(allowance: int): (nanoseconds: int)
    ensures 0 <= nanoseconds <= MAXIMUM_DELIVERY_ALLOWANCE
    ensures 0 <= allowance <= MAXIMUM_DELIVERY_ALLOWANCE ==> nanoseconds == allowance
  {
    if allowance <= 0 then 0
    else if allowance >= MAXIMUM_DELIVERY_ALLOWANCE then MAXIMUM_DELIVERY_ALLOWANCE
    else allowance
  }

  // ---------------------------------------------------------------------
  // Using permits

  function Reset(c: Client, generation: nat): Client {
    NEW_CLIENT.(generation := generation, lastUsedAt := c.lastUsedAt)
  }

  function Finish(c: Client): Client {
    c.(completed := Some(c.lease.sequence), sequence := c.sequence + 1, maximumPermits := 0, sequenceAllowance := 0,
       lease := NO_LEASE)
  }

  /** A permit opens no sooner than one interval after the last use. */
  function NextOpening(scheduled: int, previousUse: Option<int>, interval: int): int {
    if previousUse == None || previousUse.value + interval <= scheduled then scheduled
    else previousUse.value + interval
  }

  function PermitOffset(lease: Lease, index: nat): int {
    Wrap(index * lease.interval)
  }

  datatype Verdict = Finished | Admitted | Skipped | Waits

  /** What happens to the next permit of the lease at a moment. */
  function Use(c: Client, now: int): (Client, Verdict) {
    var lease := c.lease;
    var next := c.(lease := lease.(used := lease.used + 1));
    if lease.used >= lease.permits then (Finish(c), Finished)
    else if lease.unlimited then (next, Admitted)
    else
      var offset := PermitOffset(lease, lease.used);
      var closesAt := lease.firstClosesAt + offset;
      var opensAt := NextOpening(lease.firstOpensAt + offset, c.lastUsedAt, lease.interval);
      if opensAt >= closesAt || now >= closesAt then (next, Skipped)
      else if now < opensAt then (c, Waits)
      else (next.(lastUsedAt := Some(now)), Admitted)
  }

  // ---------------------------------------------------------------------
  // Acquiring leases

  datatype Reply = Decided(decision: Decision) | Unimplemented(unlimitedRate: bool) | Failure

  /** The first request of a sequence fixes what all requests of the sequence carry. */
  function Frozen(c: Client, permits: nat): Client {
    if c.maximumPermits == 0 then c.(maximumPermits := permits, sequenceAllowance := c.allowance) else c
  }

  predicate ValidIdentity(c: Client, d: Decision) {
    d.sequence == c.sequence && d.permits <= c.maximumPermits
  }

  predicate ValidWindow(d: Decision) {
    d.interval > 0 && d.closesAfter > d.opensAfter
  }

  function GrantedLease(c: Client, startedAt: int, receivedAt: int, d: Decision): Lease {
    var lease := Lease(c.sequence, d.permits, 0, receivedAt + d.opensAfter, startedAt + d.closesAfter, d.interval, false, Some(d));
    if lease.firstOpensAt >= lease.firstClosesAt then lease.(used := lease.permits) else lease
  }

  function ApplyDecision(c: Client, startedAt: int, receivedAt: int, d: Decision): Client {
    if !ValidIdentity(c, d) || !d.granted then c
    else if d.permits == 0 then c.(lease := NO_LEASE.(sequence := c.sequence, decision := Some(d)))
    else if d.unlimited then c.(lease := NO_LEASE.(sequence := c.sequence, permits := d.permits, unlimited := true, decision := Some(d)))
    else if !ValidWindow(d) then c
    else c.(lease := GrantedLease(c, startedAt, receivedAt, d))
  }

  function Replied(c: Client, startedAt: int, receivedAt: int, current: bool, reply: Reply): Client {
    var measured := c.(allowance := MeasuredAllowance(startedAt, receivedAt));
    if !current then measured
    else
      match reply
      case Decided(d) => ApplyDecision(measured, startedAt, receivedAt, d)
      case Unimplemented(unlimitedRate) =>
        if unlimitedRate then
          measured.(lease := NO_LEASE.(sequence := c.sequence, permits := c.maximumPermits, unlimited := true))
        else measured
      case Failure => measured
  }

  // ---------------------------------------------------------------------
  // The machine

  datatype Gate = Gate(connected: bool, generation: nat)

  /** Where the one admission under way stands. */
  datatype Pc = Idle | Ready | Requesting(startedAt: int)

  datatype Entry =
    | Granted(generation: nat, lease: Lease)
    | Requested(generation: nat, sequence: nat, permits: nat, allowance: int, completed: Option<nat>)
    | Consumed(generation: nat, lease: Lease, now: int)
    | PassedOver(generation: nat, lease: Lease, now: int)

  datatype System = System(gate: Gate, client: Client, pc: Pc, log: seq<Entry>)

  const START := System(Gate(false, 0), NEW_CLIENT, Idle, [])

  datatype Event =
    | SetConnected(connected: bool)
    | Look
    | UsePermit(now: int)
    | Request(now: int, permits: nat)
    | Respond(now: int, reply: Reply)

  function Next(s: System, e: Event): System {
    match e
    case SetConnected(connected) =>
      if s.gate.connected == connected then s else s.(gate := Gate(connected, s.gate.generation + 1))
    case Look =>
      if !s.pc.Idle? || !s.gate.connected then s
      else if s.client.generation != s.gate.generation then
        s.(client := Reset(s.client, s.gate.generation), pc := Ready)
      else s.(pc := Ready)
    case UsePermit(now) =>
      if !s.pc.Ready? || s.client.lease.sequence == 0 then s
      else
        var (client, verdict) := Use(s.client, now);
        System(s.gate, client, if verdict.Skipped? then Ready else Idle,
               if verdict.Admitted? then s.log + [Consumed(s.client.generation, s.client.lease, now)]
               else if verdict.Skipped? then s.log + [PassedOver(s.client.generation, s.client.lease, now)]
               else s.log)
    case Request(now, permits) =>
      if !s.pc.Ready? || s.client.lease.sequence != 0 || !(1 <= permits <= MAXIMUM_LEASE_PERMITS) then s
      else
        var c := Frozen(s.client, permits);
        System(s.gate, c, Requesting(now),
               s.log + [Requested(c.generation, c.sequence, c.maximumPermits, AllowanceNanoseconds(c.sequenceAllowance), c.completed)])
    case Respond(now, reply) =>
      if !s.pc.Requesting? then s
      else
        var current := s.gate.connected && s.gate.generation == s.client.generation;
        var client := Replied(s.client, s.pc.startedAt, now, current, reply);
        System(s.gate, client, Idle,
               if client.lease.sequence == 0 then s.log else s.log + [Granted(s.gate.generation, client.lease)])
  }

  /** The answer was decided, on the node's clock, between request and response. Without
      an offset between the clocks nothing is said about when it was decided. */
  ghost predicate Plausible(s: System, e: Event, offset: Option<int>) {
    offset.Some? && e.Respond? && e.reply.Decided? && s.pc.Requesting? ==>
      s.pc.startedAt + offset.value <= e.reply.decision.decidedAt <= e.now + offset.value
  }

  function Run(events: seq<Event>): System {
    if events == [] then START else Next(Run(events[..|events| - 1]), events[|events| - 1])
  }

  ghost predicate PlausibleRun(events: seq<Event>, offset: Option<int>) {
    forall k :: 0 <= k < |events| ==> Plausible(Run(events[..k]), events[k], offset)
  }

  // ---------------------------------------------------------------------
  // What every run keeps

  function Previous(sequence: nat): Option<nat> {
    if sequence <= 1 then None else Some(sequence - 1)
  }

  /** A finite lease lies inside what the node granted, on the node's clock. */
  ghost predicate WithinGrant(lease: Lease, offset: Option<int>) {
    lease.sequence != 0 && lease.used < lease.permits && !lease.unlimited ==>
      && lease.decision.Some? && lease.interval == lease.decision.value.interval > 0
      && (offset.Some? ==>
            && lease.firstOpensAt + offset.value >= lease.decision.value.decidedAt + lease.decision.value.opensAfter
            && lease.firstClosesAt + offset.value <= lease.decision.value.decidedAt + lease.decision.value.closesAfter)
  }

  ghost predicate ClientOk(s: System) {
    var c := s.client;
    && c.generation <= s.gate.generation && c.sequence >= 1 && c.completed == Previous(c.sequence)
    && (c.lease.sequence == 0 || (c.lease.sequence == c.sequence && c.maximumPermits > 0))
    && (s.pc.Requesting? ==> c.lease.sequence == 0 && c.maximumPermits > 0)
    && c.maximumPermits <= MAXIMUM_LEASE_PERMITS
  }

  function SameGrant(lease: Lease): Lease {
    lease.(used := 0)
  }

  ghost predicate WasGranted(log: seq<Entry>, generation: nat, lease: Lease) {
    exists k :: 0 <= k < |log| && log[k].Granted? && log[k].generation == generation
                && SameGrant(log[k].lease) == SameGrant(lease)
  }

  /** A permit was used or passed over. */
  predicate LookedAt(entry: Entry) {
    entry.Consumed? || entry.PassedOver?
  }

  predicate FiniteUse(entry: Entry) {
    entry.Consumed? && !entry.lease.unlimited
  }

  /** On the node's clock, the window of a permit moved by the offset the crawler computes. */
  ghost predicate InWindow(lease: Lease, shift: int, now: int, offset: int) {
    && lease.decision.Some?
    && lease.decision.value.decidedAt + lease.decision.value.opensAfter + shift <= now + offset
    && now + offset < lease.decision.value.decidedAt + lease.decision.value.closesAfter + shift
  }

  /** How one entry relates to the client now. */
  ghost predicate EntryOk(entry: Entry, c: Client) {
    && entry.generation <= c.generation
    && match entry
       case Granted(_, _) => true
       case Requested(generation, sequence, permits, allowance, completed) =>
         && sequence >= 1 && completed == Previous(sequence)
         && 1 <= permits <= MAXIMUM_LEASE_PERMITS && 0 <= allowance <= MAXIMUM_DELIVERY_ALLOWANCE
         && (generation == c.generation ==>
               && sequence <= c.sequence
               && (sequence == c.sequence ==>
                     permits == c.maximumPermits && allowance == AllowanceNanoseconds(c.sequenceAllowance)))
       case Consumed(generation, lease, now) =>
         && (generation == c.generation ==>
               && lease.sequence <= c.sequence
               && (lease.sequence == c.sequence ==> c.lease.sequence == c.sequence && lease.used < c.lease.used))
         && (!lease.unlimited ==> c.lastUsedAt.Some? && now <= c.lastUsedAt.value)
       case PassedOver(generation, lease, _) =>
         generation == c.generation ==>
           && lease.sequence <= c.sequence
           && (lease.sequence == c.sequence ==> c.lease.sequence == c.sequence && lease.used < c.lease.used)
  }

  /** How an earlier entry relates to a later one. */
  ghost predicate PairOk(a: Entry, b: Entry) {
    && (a.Requested? && b.Requested? && a.generation == b.generation && a.sequence == b.sequence ==> a == b)
    && (LookedAt(a) && LookedAt(b) && a.generation == b.generation && a.lease.sequence == b.lease.sequence ==>
          a.lease.used < b.lease.used)
    && (FiniteUse(a) && FiniteUse(b) ==> a.now + b.lease.interval <= b.now)
  }

  function OpensAt(lease: Lease): int {
    lease.firstOpensAt + PermitOffset(lease, lease.used)
  }

  function ClosesAt(lease: Lease): int {
    lease.firstClosesAt + PermitOffset(lease, lease.used)
  }

  /** The window of the permit next in the lease is over, or empty, or over before one
      interval has passed since some use. */
  ghost predicate NoneLeft(lease: Lease, log: seq<Entry>, now: int) {
    || ClosesAt(lease) <= now || ClosesAt(lease) <= OpensAt(lease)
    || exists k :: 0 <= k < |log| && FiniteUse(log[k]) && ClosesAt(lease) <= log[k].now + lease.interval
  }

  /** Its window is open, and one interval has passed since every use. */
  ghost predicate OpenNow(lease: Lease, log: seq<Entry>, now: int) {
    && OpensAt(lease) <= now < ClosesAt(lease)
    && forall k :: 0 <= k < |log| && FiniteUse(log[k]) ==> log[k].now + lease.interval <= now
  }

  /** The client remembers its last use. */
  ghost predicate RemembersUse(log: seq<Entry>, lastUsedAt: Option<int>) {
    match lastUsedAt
    case None => forall k :: 0 <= k < |log| ==> !FiniteUse(log[k])
    case Some(at) => exists k :: 0 <= k < |log| && FiniteUse(log[k]) && log[k].now == at
  }

  ghost predicate LogOk(log: seq<Entry>, c: Client, offset: Option<int>) {
    && (forall k :: 0 <= k < |log| ==> EntryOk(log[k], c))
    && (forall i, j :: 0 <= i < j < |log| ==> PairOk(log[i], log[j]))
    && (forall k :: 0 <= k < |log| && FiniteUse(log[k]) ==>
          log[k].lease.interval > 0
          && (offset.Some? ==>
                InWindow(log[k].lease, PermitOffset(log[k].lease, log[k].lease.used), log[k].now, offset.value)))
    && (forall k :: 0 <= k < |log| && LookedAt(log[k]) ==> WasGranted(log[..k], log[k].generation, log[k].lease))
  }

  ghost predicate Invariant(s: System, offset: Option<int>) {
    && ClientOk(s) && WithinGrant(s.client.lease, offset) && LogOk(s.log, s.client, offset)
    && (s.client.lease.sequence != 0 ==> WasGranted(s.log, s.client.generation, s.client.lease))
    && RemembersUse(s.log, s.client.lastUsedAt)
  }

  lemma UseStays(log: seq<Entry>, entry: Entry, lastUsedAt: Option<int>)
    requires RemembersUse(log, lastUsedAt)
    ensures RemembersUse(log + [entry], if FiniteUse(entry) then Some(entry.now) else lastUsedAt)
  {
    var more := log + [entry];
    assert more[|log|] == entry && forall k :: 0 <= k < |log| ==> more[k] == log[k];
    if !FiniteUse(entry) && lastUsedAt.Some? {
      var k :| 0 <= k < |log| && FiniteUse(log[k]) && log[k].now == lastUsedAt.value;
      assert FiniteUse(more[k]) && more[k].now == lastUsedAt.value;
    }
  }

  lemma StillGranted(log: seq<Entry>, entry: Entry, generation: nat, lease: Lease)
    requires WasGranted(log, generation, lease)
    ensures WasGranted(log + [entry], generation, lease)
  {
    var k :| 0 <= k < |log| && log[k].Granted? && log[k].generation == generation
             && SameGrant(log[k].lease) == SameGrant(lease);
    assert (log + [entry])[k] == log[k];
  }

  /** The log under a client that has moved on. */
  lemma ClientMoves(log: seq<Entry>, c: Client, d: Client, offset: Option<int>)
    requires LogOk(log, c, offset)
    requires forall k :: 0 <= k < |log| && EntryOk(log[k], c) ==> EntryOk(log[k], d)
    ensures LogOk(log, d, offset)
  {
  }

  lemma LogGrows(log: seq<Entry>, c: Client, entry: Entry, offset: Option<int>)
    requires LogOk(log, c, offset) && EntryOk(entry, c)
    requires forall k :: 0 <= k < |log| ==> PairOk(log[k], entry)
    requires FiniteUse(entry) ==>
      && entry.lease.interval > 0
      && (offset.Some? ==>
            InWindow(entry.lease, PermitOffset(entry.lease, entry.lease.used), entry.now, offset.value))
    requires LookedAt(entry) ==> WasGranted(log, entry.generation, entry.lease)
    ensures LogOk(log + [entry], c, offset)
  {
    hide EntryOk, PairOk, InWindow, WasGranted;
    var more := log + [entry];
    assert more[|log|] == entry && more[..|log|] == log;
    forall k | 0 <= k < |log| ensures more[k] == log[k] && more[..k] == log[..k] {
    }
  }

  // ---------------------------------------------------------------------
  // Every step keeps it

  lemma LookKeeps(s: System, offset: Option<int>)
    requires Invariant(s, offset)
    ensures Invariant(Next(s, Look), offset)
  {
    var t := Next(s, Look);
    ClientMoves(s.log, s.client, t.client, offset);
    hide LogOk;
  }

  lemma FinishKeeps(s: System, offset: Option<int>)
    requires Invariant(s, offset) && s.client.lease.sequence != 0
    ensures Invariant(System(s.gate, Finish(s.client), Idle, s.log), offset)
  {
    ClientMoves(s.log, s.client, Finish(s.client), offset);
    hide LogOk;
  }

  /** A permit is passed over. */
  lemma SkipKeeps(s: System, now: int, offset: Option<int>)
    requires Invariant(s, offset) && s.client.lease.sequence != 0
    ensures var lease := s.client.lease;
      Invariant(s.(client := s.client.(lease := lease.(used := lease.used + 1)),
                   log := s.log + [PassedOver(s.client.generation, lease, now)]), offset)
  {
    var lease, entry := s.client.lease, PassedOver(s.client.generation, s.client.lease, now);
    var c := s.client.(lease := lease.(used := lease.used + 1));
    forall k | 0 <= k < |s.log| ensures EntryOk(s.log[k], c) && PairOk(s.log[k], entry) {
      assert EntryOk(s.log[k], s.client);
    }
    ClientMoves(s.log, s.client, c, offset);
    LogGrows(s.log, c, entry, offset);
    StillGranted(s.log, entry, s.client.generation, lease);
    UseStays(s.log, entry, s.client.lastUsedAt);
    assert SameGrant(lease) == SameGrant(c.lease);
    hide LogOk, RemembersUse;
    assert WasGranted(s.log + [entry], s.client.generation, c.lease);
  }

  /** A permit is used. */
  lemma AdmitKeeps(s: System, now: int, offset: Option<int>)
    requires Invariant(s, offset) && s.client.lease.sequence != 0 && Use(s.client, now).1.Admitted?
    ensures Invariant(System(s.gate, Use(s.client, now).0, Idle, s.log + [Consumed(s.client.generation, s.client.lease, now)]), offset)
  {
    var c, lease, entry := Use(s.client, now).0, s.client.lease, Consumed(s.client.generation, s.client.lease, now);
    hide RemembersUse;
    forall k | 0 <= k < |s.log| ensures EntryOk(s.log[k], c) && PairOk(s.log[k], entry) {
      assert EntryOk(s.log[k], s.client);
      EntryBeforeUse(s.log[k], s.client, now);
    }
    hide EntryOk, PairOk;
    ClientMoves(s.log, s.client, c, offset);
    LogGrows(s.log, c, entry, offset);
    StillGranted(s.log, entry, s.client.generation, lease);
    UseStays(s.log, entry, s.client.lastUsedAt);
    assert SameGrant(lease) == SameGrant(c.lease);
    hide LogOk, RemembersUse;
    assert WasGranted(s.log + [entry], s.client.generation, c.lease);
  }

  lemma EntryBeforeUse(entry: Entry, c: Client, now: int)
    requires EntryOk(entry, c) && c.lease.sequence != 0 && Use(c, now).1.Admitted?
    requires c.lease.sequence == c.sequence && (!c.lease.unlimited ==> c.lease.interval > 0)
    ensures EntryOk(entry, Use(c, now).0) && PairOk(entry, Consumed(c.generation, c.lease, now))
  {
    hide PermitOffset;
  }

  lemma UseKeeps(s: System, now: int, offset: Option<int>)
    requires Invariant(s, offset)
    ensures Invariant(Next(s, UsePermit(now)), offset)
  {
    hide Invariant, NextOpening, PermitOffset;
    if s.pc.Ready? && s.client.lease.sequence != 0 {
      match Use(s.client, now).1
      case Finished => FinishKeeps(s, offset);
      case Admitted => AdmitKeeps(s, now, offset);
      case Skipped => SkipKeeps(s, now, offset);
      case Waits => WaitKeeps(s, offset);
    } else {
      assert Next(s, UsePermit(now)) == s;
    }
  }

  lemma WaitKeeps(s: System, offset: Option<int>)
    requires Invariant(s, offset)
    ensures Invariant(s.(pc := Idle), offset)
  {
    hide LogOk, WasGranted;
  }

  lemma RequestKeeps(s: System, now: int, permits: nat, offset: Option<int>)
    requires Invariant(s, offset)
    ensures Invariant(Next(s, Request(now, permits)), offset)
  {
    if s.pc.Ready? && s.client.lease.sequence == 0 && 1 <= permits <= MAXIMUM_LEASE_PERMITS {
      var c := Frozen(s.client, permits);
      var entry := Requested(c.generation, c.sequence, c.maximumPermits, AllowanceNanoseconds(c.sequenceAllowance), c.completed);
      forall k | 0 <= k < |s.log| ensures EntryOk(s.log[k], c) && PairOk(s.log[k], entry) {
        assert EntryOk(s.log[k], s.client);
      }
      ClientMoves(s.log, s.client, c, offset);
      LogGrows(s.log, c, entry, offset);
      UseStays(s.log, entry, s.client.lastUsedAt);
      hide LogOk, WasGranted, RemembersUse;
    }
  }

  /** What an answer leaves of the client: another measure of the delay, and perhaps a lease. */
  lemma RepliedShape(c: Client, startedAt: int, receivedAt: int, current: bool, reply: Reply, offset: Option<int>)
    requires c.lease.sequence == 0 && c.sequence >= 1 && c.maximumPermits > 0
    requires reply.Decided? && offset.Some? ==>
      startedAt + offset.value <= reply.decision.decidedAt <= receivedAt + offset.value
    ensures var d := Replied(c, startedAt, receivedAt, current, reply);
      && d == c.(allowance := d.allowance, lease := d.lease)
      && (d.lease.sequence == 0 || (current && d.lease.sequence == c.sequence && WithinGrant(d.lease, offset)))
  {
  }

  lemma RespondKeeps(s: System, now: int, reply: Reply, offset: Option<int>)
    requires Invariant(s, offset) && Plausible(s, Respond(now, reply), offset)
    ensures Invariant(Next(s, Respond(now, reply)), offset)
  {
    if s.pc.Requesting? {
      var current := s.gate.connected && s.gate.generation == s.client.generation;
      var d := Replied(s.client, s.pc.startedAt, now, current, reply);
      RepliedShape(s.client, s.pc.startedAt, now, current, reply, offset);
      hide Replied;
      ClientMoves(s.log, s.client, d, offset);
      if d.lease.sequence != 0 {
        var entry := Granted(s.gate.generation, d.lease);
        LogGrows(s.log, d, entry, offset);
        UseStays(s.log, entry, s.client.lastUsedAt);
        assert (s.log + [entry])[|s.log|] == entry;
        assert WasGranted(s.log + [entry], d.generation, d.lease);
      }
      hide LogOk;
    }
  }

  lemma StepKeeps(s: System, e: Event, offset: Option<int>)
    requires Invariant(s, offset) && Plausible(s, e, offset)
    ensures Invariant(Next(s, e), offset)
  {
    match e
    case SetConnected(_) => { hide LogOk, WasGranted; }
    case Look => LookKeeps(s, offset);
    case UsePermit(now) => UseKeeps(s, now, offset);
    case Request(now, permits) => RequestKeeps(s, now, permits, offset);
    case Respond(now, reply) => RespondKeeps(s, now, reply, offset);
  }

  lemma {:induction false} RunKeeps(events: seq<Event>, offset: Option<int>)
    requires PlausibleRun(events, offset)
    ensures Invariant(Run(events), offset)
  {
    if events == [] {
    } else {
      var n := |events| - 1;
      forall k | 0 <= k < n ensures Plausible(Run(events[..n][..k]), events[..n][k], offset) {
        assert events[..n][..k] == events[..k];
      }
      RunKeeps(events[..n], offset);
      StepKeeps(Run(events[..n]), events[n], offset);
    }
  }

  // ---------------------------------------------------------------------
  // What every run shows

  lemma AnyRunIsPlausible(events: seq<Event>)
    ensures PlausibleRun(events, None)
  {
  }

  /** A consumed finite permit falls into its own window on the node's clock, whatever the
      latencies and however far the clocks are apart, exactly when its place in the lease
      times the interval is a duration that 64 bits hold. */
  lemma UsedInOwnWindow(events: seq<Event>, offset: int, i: nat)
    requires PlausibleRun(events, Some(offset)) && i < |Run(events).log| && FiniteUse(Run(events).log[i])
    ensures var use := Run(events).log[i];
      InWindow(use.lease, use.lease.used * use.lease.interval, use.now, offset)
      <==> use.lease.used * use.lease.interval < HALF64
  {
    RunKeeps(events, Some(offset));
    var use := Run(events).log[i];
    UseInLog(Run(events).log, Run(events).client, offset, i);
    hide Run, PlausibleRun, Invariant, Wrap, InWindow;
    Product(use.lease.used, use.lease.interval);
    OwnWindow(use, use.lease.used * use.lease.interval, offset);
  }

  lemma UseInLog(log: seq<Entry>, c: Client, offset: int, i: nat)
    requires LogOk(log, c, Some(offset)) && i < |log| && FiniteUse(log[i])
    ensures log[i].lease.interval > 0
    ensures InWindow(log[i].lease, Wrap(log[i].lease.used * log[i].lease.interval), log[i].now, offset)
  {
    hide Wrap, InWindow;
  }

  lemma Product(a: nat, b: int)
    requires b > 0
    ensures a * b >= 0
  {
  }

  lemma OwnWindow(use: Entry, place: int, offset: int)
    requires FiniteUse(use) && place >= 0 && InWindow(use.lease, Wrap(place), use.now, offset)
    ensures InWindow(use.lease, place, use.now, offset) <==> place < HALF64
  {
    WrapFits(place);
    hide Wrap;
  }

  const LONG_INTERVAL: int64 := 0x2000_0000_0000_0001
  const WRAPPING := Decision(true, 1, 12, 0, 10, LONG_INTERVAL, false, 0)
  const WRAPPING_CLIENT := NEW_CLIENT.(generation := 1, maximumPermits := 12)

  const LATE := 3 * LONG_INTERVAL + 12

  /** A client that holds the wrapping lease and has passed over some of its permits. */
  function Wrapping(used: nat): Client {
    var c := ApplyDecision(WRAPPING_CLIENT, 0, 0, WRAPPING);
    c.(lease := c.lease.(used := used))
  }

  /** The crawler connects, is granted the wrapping lease, and looks at its permits late. */
  function Escape(looked: nat): (events: seq<Event>)
    ensures |events| == 5 + looked
  {
    if looked == 0 then [SetConnected(true), Look, Request(0, 12), Respond(0, Decided(WRAPPING)), Look]
    else Escape(looked - 1) + [UsePermit(LATE)]
  }

  lemma OneMore(events: seq<Event>, e: Event)
    ensures Run(events + [e]) == Next(Run(events), e)
  {
    assert (events + [e])[..|events|] == events;
  }

  lemma EscapeStarts()
    ensures Run(Escape(0)[..3]).pc == Requesting(0)
    ensures Run(Escape(0)) ==
      System(Gate(true, 1), Wrapping(0), Ready, [Requested(1, 1, 12, 0, None), Granted(1, Wrapping(0).lease)])
  {
    var a := [SetConnected(true)];
    var b := a + [Look];
    var c := b + [Request(0, 12)];
    var d := c + [Respond(0, Decided(WRAPPING))];
    assert [] + a == a && Run([]) == START;
    OneMore([], SetConnected(true));
    OneMore(a, Look);
    OneMore(b, Request(0, 12));
    OneMore(c, Respond(0, Decided(WRAPPING)));
    OneMore(d, Look);
    assert Escape(0) == d + [Look] && Escape(0)[..3] == c;
    hide Run;
  }

  /** The eleven permits that are passed over. */
  function EscapeLog(looked: nat): (log: seq<Entry>)
    ensures |log| == 2 + looked
  {
    if looked == 0 then [Requested(1, 1, 12, 0, None), Granted(1, Wrapping(0).lease)]
    else EscapeLog(looked - 1) + [PassedOver(1, Wrapping(looked - 1).lease, LATE)]
  }

  lemma {:induction false} EscapeRuns(looked: nat)
    requires looked <= 11
    ensures Run(Escape(looked)) == System(Gate(true, 1), Wrapping(looked), Ready, EscapeLog(looked))
    ensures Run(Escape(looked)[..3]).pc == Requesting(0)
    ensures forall k :: 0 <= k < |Escape(looked)| && Escape(looked)[k].Respond? ==> k == 3
    ensures Escape(looked)[3] == Respond(0, Decided(WRAPPING))
  {
    hide Run;
    EscapeStarts();
    if looked == 0 {
    } else {
      EscapeRuns(looked - 1);
      OneMore(Escape(looked - 1), UsePermit(LATE));
      assert Escape(looked)[..3] == Escape(looked - 1)[..3];
      WrappedOffsets(looked - 1);
    }
  }

  /** Beyond that bound the property fails, with clocks that agree: of twelve permits an
      interval of 2^61 + 1 apart, the last is used before even the fifth is due. */
  lemma WrappedPermitEscapes()
    ensures PlausibleRun(Escape(12), Some(0))
    ensures var log := Run(Escape(12)).log;
      && |log| == 14 && FiniteUse(log[13]) && log[13].lease.used == 11
      && 11 * log[13].lease.interval >= HALF64
      && !InWindow(log[13].lease, 11 * log[13].lease.interval, log[13].now, 0)
      && log[13].now < 4 * log[13].lease.interval
  {
    hide Run;
    EscapeStarts();
    EscapeRuns(11);
    OneMore(Escape(11), UsePermit(LATE));
    WrappedOffsets(11);
    assert Escape(12)[..3] == Escape(11)[..3];
    forall k | 0 <= k < |Escape(12)| ensures Plausible(Run(Escape(12)[..k]), Escape(12)[k], Some(0)) {
      if Escape(12)[k].Respond? { assert k == 3; }
    }
  }

  lemma WrappedOffsets(k: nat)
    requires k < 12
    ensures Wrap(k * LONG_INTERVAL) ==
      if k < 4 then k * LONG_INTERVAL else if k < 12 then k * LONG_INTERVAL - WORD64 else 0
  {
  }

  /** No permit of a lease is used or passed over twice: later ones have later places. */
  lemma UsedOnce(events: seq<Event>, i: nat, j: nat)
    requires i < j < |Run(events).log| && LookedAt(Run(events).log[i]) && LookedAt(Run(events).log[j])
    requires var a, b := Run(events).log[i], Run(events).log[j];
      a.generation == b.generation && a.lease.sequence == b.lease.sequence
    ensures Run(events).log[i].lease.used < Run(events).log[j].lease.used
  {
    AnyRunIsPlausible(events);
    RunKeeps(events, None);
    assert PairOk(Run(events).log[i], Run(events).log[j]);
  }

  /** Two uses of finite permits are at least the later lease's interval apart, across
      leases and sessions. */
  lemma UsesSpaced(events: seq<Event>, i: nat, j: nat)
    requires i < j < |Run(events).log| && FiniteUse(Run(events).log[i]) && FiniteUse(Run(events).log[j])
    ensures Run(events).log[j].now - Run(events).log[i].now >= Run(events).log[j].lease.interval > 0
  {
    AnyRunIsPlausible(events);
    RunKeeps(events, None);
    assert PairOk(Run(events).log[i], Run(events).log[j]);
  }

  /** Every use is of a lease granted earlier under the generation the crawler is in. */
  lemma UsedUnderItsGeneration(events: seq<Event>, i: nat)
    requires i < |Run(events).log| && LookedAt(Run(events).log[i])
    ensures WasGranted(Run(events).log[..i], Run(events).log[i].generation, Run(events).log[i].lease)
  {
    AnyRunIsPlausible(events);
    RunKeeps(events, None);
  }

  /** All requests for one sequence of a session are the same, and each tells the sequence
      finished before: the one before its own, none for the first. */
  lemma RequestsAgree(events: seq<Event>, i: nat, j: nat)
    requires i < |Run(events).log| && j < |Run(events).log|
    requires Run(events).log[i].Requested? && Run(events).log[j].Requested?
    ensures var a, b := Run(events).log[i], Run(events).log[j];
      && (a.generation == b.generation && a.sequence == b.sequence ==> a == b)
      && a.completed == (if a.sequence == 1 then None else Some(a.sequence - 1))
      && 1 <= a.permits <= MAXIMUM_LEASE_PERMITS && 0 <= a.allowance <= MAXIMUM_DELIVERY_ALLOWANCE
  {
    AnyRunIsPlausible(events);
    RunKeeps(events, None);
    var a, b := Run(events).log[i], Run(events).log[j];
    assert EntryOk(a, Run(events).client);
    hide Run;
    if i < j { assert PairOk(a, b); } else if j < i { assert PairOk(b, a); }
  }

  // ---------------------------------------------------------------------
  // The session gate

  lemma GateMoves(s: System, e: Event)
    ensures var t := Next(s, e);
      t.gate == s.gate || (t.gate.generation == s.gate.generation + 1 && t.gate.connected == !s.gate.connected)
  {
  }

  /** The generation tells the state of the connection. */
  lemma {:induction false} GenerationTells(events: seq<Event>)
    ensures Run(events).gate.connected <==> Run(events).gate.generation % 2 == 1
  {
    if events == [] {
    } else {
      hide Next;
      GenerationTells(events[..|events| - 1]);
      GateMoves(Run(events[..|events| - 1]), events[|events| - 1]);
    }
  }

  lemma {:induction false} GenerationGrows(events: seq<Event>, i: nat, j: nat)
    requires i <= j <= |events|
    ensures Run(events[..i]).gate.generation <= Run(events[..j]).gate.generation
  {
    if i == j {
    } else {
      hide Next, Run;
      GenerationGrows(events, i, j - 1);
      OneMore(events[..j - 1], events[j - 1]);
      assert events[..j] == events[..j - 1] + [events[j - 1]];
      GateMoves(Run(events[..j - 1]), events[j - 1]);
    }
  }

  /** Equal generations at two moments of a run mean that the connection did not change at
      any moment between. */
  lemma NoMissedSessionChange(events: seq<Event>, i: nat, j: nat)
    requires i <= j <= |events|
    ensures Run(events[..i]).gate.generation == Run(events[..j]).gate.generation
            <==> forall k :: i <= k <= j ==> Run(events[..k]).gate == Run(events[..i]).gate
  {
    hide Run;
    if Run(events[..i]).gate.generation == Run(events[..j]).gate.generation {
      forall k | i <= k <= j ensures Run(events[..k]).gate == Run(events[..i]).gate {
        GenerationGrows(events, i, k);
        GenerationGrows(events, k, j);
        GenerationTells(events[..i]);
        GenerationTells(events[..k]);
      }
    }
  }

  /** A lease is granted only when the connection has stood all the while since the client
      took its session up. */
  lemma GrantedInOneSession(events: seq<Event>, i: nat, j: nat)
    requires i <= j < |events| && events[j].Respond?
    requires |Run(events[..j + 1]).log| > |Run(events[..j]).log|
    requires Run(events[..i]).client.generation == Run(events[..j]).client.generation
    ensures forall k :: i <= k <= j ==> Run(events[..k]).gate == Gate(true, Run(events[..j]).client.generation)
  {
    hide Run, Invariant;
    AnyRunIsPlausible(events[..i]);
    AnyRunIsPlausible(events[..j]);
    RunKeeps(events[..i], None);
    RunKeeps(events[..j], None);
    assert events[..j + 1] == events[..j] + [events[j]];
    OneMore(events[..j], events[j]);
    GrantedUnder(Run(events[..j]), events[j]);
    ClientBehind(Run(events[..i]));
    GenerationGrows(events, i, j);
    NoMissedSessionChange(events, i, j);
  }

  lemma ClientBehind(s: System)
    requires Invariant(s, None)
    ensures s.client.generation <= s.gate.generation
  {
  }

  lemma GrantedUnder(s: System, e: Event)
    requires Invariant(s, None) && e.Respond? && |Next(s, e).log| > |s.log|
    ensures s.gate == Gate(true, s.client.generation)
  {
  }
}
