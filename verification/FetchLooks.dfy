/**
 What becomes of the permits of a lease: a permit is passed over exactly when nothing is left
 of its window, used exactly when it is open, and otherwise waited for; none is skipped
 unseen.
 */
module FetchLooks {
  import opened Wrappers
  import opened FetchStart

  /** The client is about to look at the next permit of a lease of finite permits. */
  predicate AtPermit(s: System) {
    && s.pc.Ready? && s.client.lease.sequence != 0 && !s.client.lease.unlimited
    && s.client.lease.used < s.client.lease.permits
  }

  /** The next permit is behind the client. */
  function Behind(c: Client): Client {
    c.(lease := c.lease.(used := c.lease.used + 1))
  }

  /** In terms of the last use that the client remembers. */
  lemma LastUseDecides(log: seq<Entry>, c: Client, now: int)
    requires LogOk(log, c, None) && RemembersUse(log, c.lastUsedAt)
    ensures NoneLeft(c.lease, log, now) <==>
      || ClosesAt(c.lease) <= now || ClosesAt(c.lease) <= OpensAt(c.lease)
      || (c.lastUsedAt.Some? && ClosesAt(c.lease) <= c.lastUsedAt.value + c.lease.interval)
    ensures OpenNow(c.lease, log, now) <==>
      && OpensAt(c.lease) <= now < ClosesAt(c.lease)
      && (c.lastUsedAt.Some? ==> c.lastUsedAt.value + c.lease.interval <= now)
  {
    hide OpensAt, ClosesAt, PairOk, WasGranted;
    forall k | 0 <= k < |log| && FiniteUse(log[k]) ensures c.lastUsedAt.Some? && log[k].now <= c.lastUsedAt.value {
      assert EntryOk(log[k], c);
    }
  }

  lemma UseDecides(c: Client, now: int)
    requires c.lease.sequence != 0 && !c.lease.unlimited && c.lease.used < c.lease.permits && c.lease.interval > 0
    ensures var (d, verdict) := Use(c, now);
      var spacing := c.lastUsedAt.Some? && ClosesAt(c.lease) <= c.lastUsedAt.value + c.lease.interval;
      var spaced := c.lastUsedAt.Some? ==> c.lastUsedAt.value + c.lease.interval <= now;
      if ClosesAt(c.lease) <= now || ClosesAt(c.lease) <= OpensAt(c.lease) || spacing then (d, verdict) == (Behind(c), Skipped)
      else if OpensAt(c.lease) <= now && spaced then (d, verdict) == (Behind(c).(lastUsedAt := Some(now)), Admitted)
      else (d, verdict) == (c, Waits)
  {
    hide PermitOffset;
  }

  /** In every run, a look at a permit passes it over if nothing is left of its window, uses it
      if the window is open, and otherwise leaves the client as it was. */
  lemma LookDecides(events: seq<Event>, now: int)
    requires AtPermit(Run(events))
    ensures var s, t := Run(events), Run(events + [UsePermit(now)]);
      var c := s.client;
      if NoneLeft(c.lease, s.log, now) then
        t == System(s.gate, Behind(c), Ready, s.log + [PassedOver(c.generation, c.lease, now)])
      else if OpenNow(c.lease, s.log, now) then
        t == System(s.gate, Behind(c).(lastUsedAt := Some(now)), Idle, s.log + [Consumed(c.generation, c.lease, now)])
      else t == System(s.gate, c, Idle, s.log)
  {
    hide Run, LogOk, RemembersUse, OpensAt, ClosesAt, NoneLeft, OpenNow, WasGranted, Use;
    AnyRunIsPlausible(events);
    RunKeeps(events, None);
    OneMore(events, UsePermit(now));
    LastUseDecides(Run(events).log, Run(events).client, now);
    UseDecides(Run(events).client, now);
  }

  /** A lease without a limit gives its next permit at any time, and a lease that is used up is
      finished: its sequence is the one completed, and the next starts afresh. */
  lemma OtherwiseDecides(s: System, now: int)
    requires s.pc.Ready? && s.client.lease.sequence != 0
    requires s.client.lease.unlimited || s.client.lease.used >= s.client.lease.permits
    ensures var t, c := Next(s, UsePermit(now)), s.client;
      && t.gate == s.gate && t.pc == Idle
      && if c.lease.used < c.lease.permits then
           t.client == Behind(c) && t.log == s.log + [Consumed(c.generation, c.lease, now)]
         else
           && t.log == s.log
           && t.client == Client(c.generation, c.sequence + 1, 0, c.allowance, 0, c.lastUsedAt, Some(c.lease.sequence), NO_LEASE)
  {
  }

  // ---------------------------------------------------------------------
  // Over the log

  lemma LogStep(s: System, e: Event)
    ensures var t := Next(s, e);
      && s.log <= t.log && |t.log| <= |s.log| + 1
      && (|t.log| > |s.log| && LookedAt(t.log[|s.log|]) ==>
            && e.UsePermit? && s.pc.Ready? && s.client.lease.sequence != 0
            && t.log[|s.log|].lease == s.client.lease && t.log[|s.log|].now == e.now
            && (t.log[|s.log|].PassedOver? ==> !s.client.lease.unlimited)
            && s.client.lease.used < s.client.lease.permits)
  {
    hide ApplyDecision, PermitOffset, NextOpening;
  }

  /** Of the permits looked at and not waited for, one was passed over exactly if nothing was
      left of its window at that moment, given the uses before, and used exactly if it was open. */
  lemma {:induction false} PassedOverExactly(events: seq<Event>, i: nat)
    requires i < |Run(events).log| && LookedAt(Run(events).log[i]) && !Run(events).log[i].lease.unlimited
    ensures var log := Run(events).log;
      && (log[i].PassedOver? <==> NoneLeft(log[i].lease, log[..i], log[i].now))
      && (log[i].Consumed? <==> OpenNow(log[i].lease, log[..i], log[i].now))
  {
    if events == [] {
    } else {
      var front, e := events[..|events| - 1], events[|events| - 1];
      assert events == front + [e];
      OneMore(front, e);
      LogStep(Run(front), e);
      hide Run, Next, NoneLeft, OpenNow;
      var was, log := Run(front).log, Run(events).log;
      if i < |was| {
        assert log[i] == was[i] && log[..i] == was[..i];
        PassedOverExactly(front, i);
      } else {
        LookDecides(front, e.now);
        assert log[..i] == was;
        NotBoth(log[i].lease, was, e.now);
      }
    }
  }

  lemma NotBoth(lease: Lease, log: seq<Entry>, now: int)
    ensures !(NoneLeft(lease, log, now) && OpenNow(lease, log, now))
  {
  }

  // ---------------------------------------------------------------------
  // No permit is lost unseen

  /** The place of a lease in the log where it was granted. */
  ghost predicate GrantedAt(log: seq<Entry>, g: int, generation: nat, lease: Lease) {
    0 <= g < |log| && log[g].Granted? && log[g].generation == generation && SameGrant(log[g].lease) == SameGrant(lease)
  }

  ghost predicate SeenAt(log: seq<Entry>, k: int, generation: nat, lease: Lease, place: nat) {
    && 0 <= k < |log| && LookedAt(log[k]) && log[k].generation == generation
    && SameGrant(log[k].lease) == SameGrant(lease) && log[k].lease.used == place
  }

  ghost predicate Seen(log: seq<Entry>, generation: nat, lease: Lease, place: nat) {
    exists k :: SeenAt(log, k, generation, lease, place)
  }

  /** All permits of the lease before the next one were used or passed over, but for those its
      grant left out from the start. */
  ghost predicate SeenSoFar(log: seq<Entry>, generation: nat, lease: Lease) {
    exists g :: GrantedAt(log, g, generation, lease)
                && forall place: nat :: log[g].lease.used <= place < lease.used ==> Seen(log, generation, lease, place)
  }

  lemma SeenMore(log: seq<Entry>, entry: Entry, generation: nat, lease: Lease)
    requires SeenSoFar(log, generation, lease)
    ensures SeenSoFar(log + [entry], generation, lease)
  {
    var more := log + [entry];
    assert forall k :: 0 <= k < |log| ==> more[k] == log[k];
    var g :| GrantedAt(log, g, generation, lease)
             && forall place: nat :: log[g].lease.used <= place < lease.used ==> Seen(log, generation, lease, place);
    assert GrantedAt(more, g, generation, lease);
    forall place: nat | more[g].lease.used <= place < lease.used ensures Seen(more, generation, lease, place) {
      assert Seen(log, generation, lease, place);
      var k :| SeenAt(log, k, generation, lease, place);
      assert SeenAt(more, k, generation, lease, place);
    }
  }

  /** One permit more was looked at. */
  lemma SeenOneMore(log: seq<Entry>, entry: Entry, generation: nat, lease: Lease)
    requires SeenSoFar(log, generation, lease) && LookedAt(entry) && entry.generation == generation && entry.lease == lease
    ensures SeenSoFar(log + [entry], generation, lease.(used := lease.used + 1))
  {
    var more, next := log + [entry], lease.(used := lease.used + 1);
    SeenMore(log, entry, generation, lease);
    var g :| GrantedAt(more, g, generation, lease)
             && forall place: nat :: more[g].lease.used <= place < lease.used ==> Seen(more, generation, lease, place);
    assert GrantedAt(more, g, generation, next);
    assert SeenAt(more, |log|, generation, next, lease.used);
    forall place: nat | more[g].lease.used <= place < next.used ensures Seen(more, generation, next, place) {
      if place < lease.used {
        assert Seen(more, generation, lease, place);
        var k :| SeenAt(more, k, generation, lease, place);
        assert SeenAt(more, k, generation, next, place);
      }
    }
  }

  lemma SeenFromGrant(log: seq<Entry>, generation: nat, lease: Lease)
    ensures SeenSoFar(log + [Granted(generation, lease)], generation, lease)
  {
    assert GrantedAt(log + [Granted(generation, lease)], |log|, generation, lease);
  }

  lemma {:induction false} AllSeen(events: seq<Event>)
    ensures var s := Run(events);
      s.client.lease.sequence != 0 ==> SeenSoFar(s.log, s.client.generation, s.client.lease)
  {
    hide SeenSoFar;
    if events == [] {
    } else {
      var front, e := events[..|events| - 1], events[|events| - 1];
      AllSeen(front);
      AnyRunIsPlausible(front);
      RunKeeps(front, None);
      StepSeen(Run(front), e);
    }
  }

  lemma StepSeen(s: System, e: Event)
    requires Invariant(s, None)
    requires s.client.lease.sequence != 0 ==> SeenSoFar(s.log, s.client.generation, s.client.lease)
    ensures var t := Next(s, e);
      t.client.lease.sequence != 0 ==> SeenSoFar(t.log, t.client.generation, t.client.lease)
  {
    hide SeenSoFar, LogOk, RemembersUse, WasGranted, NextOpening, PermitOffset;
    match e
    case SetConnected(_) =>
    case Look =>
    case UsePermit(now) =>
      if s.pc.Ready? && s.client.lease.sequence != 0 {
        SeenOneMore(s.log, Consumed(s.client.generation, s.client.lease, now), s.client.generation, s.client.lease);
        SeenOneMore(s.log, PassedOver(s.client.generation, s.client.lease, now), s.client.generation, s.client.lease);
      }
    case Request(now, permits) =>
    case Respond(now, reply) =>
      if s.pc.Requesting? {
        var current := s.gate.connected && s.gate.generation == s.client.generation;
        var d := Replied(s.client, s.pc.startedAt, now, current, reply);
        RepliedShape(s.client, s.pc.startedAt, now, current, reply, None);
        SeenFromGrant(s.log, s.gate.generation, d.lease);
        hide Replied;
      }
  }

  /** When a lease is finished, every one of its permits was used or passed over, but for
      those its grant left out from the start. */
  lemma NoneLostUnseen(events: seq<Event>, now: int)
    requires Run(events).pc.Ready? && Run(events).client.lease.sequence != 0
    requires Run(events + [UsePermit(now)]).client.lease.sequence == 0
    ensures var s := Run(events);
      exists g :: GrantedAt(s.log, g, s.client.generation, s.client.lease)
                  && forall place: nat :: s.log[g].lease.used <= place < s.client.lease.permits ==>
                       Seen(s.log, s.client.generation, s.client.lease, place)
  {
    AllSeen(events);
    OneMore(events, UsePermit(now));
    hide Run, Seen, GrantedAt;
    FinishedWhenAllBehind(Run(events), now);
  }

  lemma FinishedWhenAllBehind(s: System, now: int)
    requires s.pc.Ready? && s.client.lease.sequence != 0 && Next(s, UsePermit(now)).client.lease.sequence == 0
    ensures s.client.lease.used >= s.client.lease.permits
  {
  }

  // ---------------------------------------------------------------------
  // What an answer grants

  /** A lease is granted exactly when the session still stands and the answer grants the asked
      sequence no more permits than asked for, with a window unless there is nothing or no
      limit to it. */
  predicate Grants(c: Client, current: bool, d: Decision) {
    && current && d.granted && d.sequence == c.sequence && d.permits <= c.maximumPermits
    && (d.permits == 0 || d.unlimited || (d.interval > 0 && d.closesAfter > d.opensAfter))
  }

  /** Its first window opens so long after the answer came and closes so long after the request
      began; when it is empty all permits are left out. */
  lemma AnswerGrants(c: Client, startedAt: int, receivedAt: int, current: bool, d: Decision)
    requires c.lease.sequence == 0 && c.sequence >= 1
    ensures var lease := Replied(c, startedAt, receivedAt, current, Decided(d)).lease;
      && (lease.sequence != 0 <==> Grants(c, current, d))
      && (lease.sequence != 0 ==>
            && lease.sequence == c.sequence && lease.permits == d.permits <= c.maximumPermits
            && lease.unlimited == (d.permits > 0 && d.unlimited) && lease.decision == Some(d)
            && (d.permits > 0 && !d.unlimited ==>
                  && lease.firstOpensAt == receivedAt + d.opensAfter && lease.firstClosesAt == startedAt + d.closesAfter
                  && lease.interval == d.interval
                  && lease.used == if receivedAt + d.opensAfter < startedAt + d.closesAfter then 0 else d.permits)
            && (d.permits == 0 || d.unlimited ==> lease.used == 0))
  {
  }

  /** A node that knows no leases leaves the crawler to its own rate, and any other failure to
      try again. */
  lemma FailureGrants(c: Client, startedAt: int, receivedAt: int, current: bool, reply: Reply)
    requires c.lease.sequence == 0 && c.sequence >= 1 && !reply.Decided?
    ensures var lease := Replied(c, startedAt, receivedAt, current, reply).lease;
      if current && reply.Unimplemented? && reply.unlimitedRate
      then lease.sequence == c.sequence && lease.permits == c.maximumPermits && lease.unlimited && lease.used == 0
      else lease == c.lease
  {
  }

  /** Every answer, whatever it says, is measured. */
  lemma AnswerMeasures(c: Client, startedAt: int, receivedAt: int, current: bool, reply: Reply)
    ensures var allowance := Replied(c, startedAt, receivedAt, current, reply).allowance;
      allowance == if receivedAt < startedAt then 0
                   else if receivedAt - startedAt > 1_000_000_000 then 1_000_000_000 else receivedAt - startedAt
  {
  }

  // ---------------------------------------------------------------------
  // Sessions and requests

  /** Looking at the session that stands changes nothing about the client, and looking at
      another starts over but for the time of the last use. */
  lemma LookTells(s: System)
    requires s.pc.Idle? && s.gate.connected
    ensures var t := Next(s, Look);
      && t.gate == s.gate && t.log == s.log && t.pc.Ready?
      && t.client == if s.client.generation == s.gate.generation then s.client
                     else Client(s.gate.generation, 1, 0, 0, 0, s.client.lastUsedAt, None, NO_LEASE)
  {
  }

  ghost predicate Asked(log: seq<Entry>, generation: nat, sequence: nat) {
    exists k :: 0 <= k < |log| && log[k].Requested? && log[k].generation == generation && log[k].sequence == sequence
  }

  lemma AskedMore(log: seq<Entry>, more: seq<Entry>, generation: nat, sequence: nat)
    requires log <= more && Asked(log, generation, sequence)
    ensures Asked(more, generation, sequence)
  {
    var k :| 0 <= k < |log| && log[k].Requested? && log[k].generation == generation && log[k].sequence == sequence;
    assert more[k] == log[k];
  }

  /** What the requests of a sequence carry is fixed exactly if there was one. */
  lemma {:induction false} FixedOnceAsked(events: seq<Event>)
    ensures var s := Run(events);
      s.client.maximumPermits > 0 <==> Asked(s.log, s.client.generation, s.client.sequence)
  {
    if events == [] {
    } else {
      var front, e := events[..|events| - 1], events[|events| - 1];
      FixedOnceAsked(front);
      AnyRunIsPlausible(front);
      RunKeeps(front, None);
      hide Run, Asked, Next;
      assert Run(events) == Next(Run(front), e) by { assert events == front + [e]; OneMore(front, e); }
      StepFixes(Run(front), e);
    }
  }

  lemma StepFixes(s: System, e: Event)
    requires Invariant(s, None)
    requires s.client.maximumPermits > 0 <==> Asked(s.log, s.client.generation, s.client.sequence)
    ensures var t := Next(s, e);
      t.client.maximumPermits > 0 <==> Asked(t.log, t.client.generation, t.client.sequence)
  {
    var t := Next(s, e);
    LogStep(s, e);
    NotAskedAhead(s.log, s.client);
    if Asked(s.log, s.client.generation, s.client.sequence) {
      AskedMore(s.log, t.log, s.client.generation, s.client.sequence);
    }
    if e.Respond? && s.pc.Requesting? {
      var current := s.gate.connected && s.gate.generation == s.client.generation;
      RepliedShape(s.client, s.pc.startedAt, e.now, current, e.reply, None);
    }
    hide Replied, LogOk, WasGranted, RemembersUse, PermitOffset, NextOpening;
  }

  /** Nothing was asked for the sequences and sessions to come. */
  lemma NotAskedAhead(log: seq<Entry>, c: Client)
    requires LogOk(log, c, None)
    ensures forall g: nat, n: nat :: g > c.generation || (g == c.generation && n > c.sequence) ==> !Asked(log, g, n)
  {
    hide PairOk, WasGranted, NoneLeft, OpenNow;
    forall g: nat, n: nat | g > c.generation || (g == c.generation && n > c.sequence) ensures !Asked(log, g, n) {
      forall k | 0 <= k < |log| && log[k].Requested? ensures !(log[k].generation == g && log[k].sequence == n) {
        assert EntryOk(log[k], c);
      }
    }
  }

  /** The first request of a sequence carries the permits asked for and the delay measured
      then; it is logged with the sequence finished before. */
  lemma FirstRequestFixes(events: seq<Event>, now: int, permits: nat)
    requires Run(events).pc.Ready? && Run(events).client.lease.sequence == 0 && 1 <= permits <= MAXIMUM_LEASE_PERMITS
    ensures var s, t := Run(events), Run(events + [Request(now, permits)]);
      && t.pc == Requesting(now) && |t.log| == |s.log| + 1 && s.log <= t.log && t.log[|s.log|].Requested?
      && t.log[|s.log|].generation == s.client.generation && t.log[|s.log|].sequence == s.client.sequence
      && (!Asked(s.log, s.client.generation, s.client.sequence) ==>
            t.log[|s.log|].permits == permits && t.log[|s.log|].allowance == AllowanceNanoseconds(s.client.allowance))
  {
    FixedOnceAsked(events);
    OneMore(events, Request(now, permits));
    hide Run, Asked;
  }
}
