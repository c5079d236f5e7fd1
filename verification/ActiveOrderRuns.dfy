/**
 Claims and settle loops of active orders, interleaved in every way: a settle loop reads the
 latest delivery, calls back without the lock, and ends only when nothing joined meanwhile.
 At most one loop runs for a key at a time.
 */
module ActiveOrderRuns {
  import opened Wrappers
  import opened ActiveOrders

  datatype Orders = Orders(deliveries: map<Key, Active>, recent: seq<string>)

  /** What an existing run makes of a claim: another lease asks the rebinder, if there is one. */
  function RebindClaim(current: Active, d: Delivery, rebind: Option<Claim>): Claim {
    if d.leaseId == "" || d.leaseId == current.delivery.leaseId || rebind == None then JoinsRun else rebind.value
  }

  function ClaimExisting(o: Orders, key: Key, d: Delivery, rebind: Option<Claim>): (Orders, Claim)
    requires key in o.deliveries && d.definition.Some?
  {
    var current := o.deliveries[key];
    var claim := RebindClaim(current, d, rebind);
    if current.definition != d.definition.value then (o, Rejected)
    else if claim == RecoversCompletedRun then
      (o.(deliveries := o.deliveries[key := Active(d, current.definition, current.version + 1, false)]), claim)
    else if claim != JoinsRun then (o, claim)
    else
      var bumped := current.settling || d.leaseId == "" || d.leaseId != current.delivery.leaseId;
      var version := if bumped then current.version + 1 else current.version;
      (o.(deliveries := o.deliveries[key := Active(d, current.definition, version, false)]), JoinsRun)
  }

  function ClaimOrder(o: Orders, provenance: string, d: Delivery, rebind: Option<Claim>): (Orders, Claim) {
    var key := Identity(provenance, d.leaseId);
    if d.definition == None then (o, Rejected)
    else if d.leaseId != "" && d.leaseId in o.recent then (o, AlreadyCompleted)
    else if key == NoKey then (o, StartsRun)
    else if key in o.deliveries then ClaimExisting(o, key, d, rebind)
    else (o.(deliveries := o.deliveries[key := Active(d, d.definition.value, 1, false)]), StartsRun)
  }

  /** The claim takes effect: its delivery becomes the run's latest. */
  predicate Joins(o: Orders, provenance: string, d: Delivery, rebind: Option<Claim>) {
    var key := Identity(provenance, d.leaseId);
    && d.definition.Some? && !(d.leaseId != "" && d.leaseId in o.recent) && key != NoKey
    && (key in o.deliveries ==>
          && o.deliveries[key].definition == d.definition.value
          && RebindClaim(o.deliveries[key], d, rebind) in {JoinsRun, RecoversCompletedRun})
  }

  // ---------------------------------------------------------------------
  // The machine

  /** A settle loop: how it was asked to remember leases, how often it called back, the
      version it first saw, and, while it calls back, what it read. */
  datatype Loop = Loop(retain: bool, rememberFailed: bool, calls: nat, first: nat, calling: Option<Active>)

  datatype Entry = Joined(key: Key, d: Delivery) | Called(key: Key, d: Delivery) | Deleted(key: Key)

  datatype System = System(orders: Orders, loops: map<Key, Loop>, log: seq<Entry>)

  datatype Event =
    | Claiming(provenance: string, d: Delivery, rebind: Option<Claim>)
    | Keyless(retain: bool, rememberFailed: bool, succeeded: bool)
    | StartLoop(key: Key, retain: bool, rememberFailed: bool)
    | Enter(key: Key)
    | Return(key: Key, succeeded: bool)

  const START := System(Orders(map[], []), map[], [])

  /** Under the lock: read the latest delivery and mark it as settling, or give up. */
  function Entered(s: System, key: Key): System
    requires key in s.loops && s.loops[key].calling == None
  {
    var loop := s.loops[key];
    if key !in s.orders.deliveries then s.(loops := s.loops - {key})
    else
      var current := s.orders.deliveries[key].(settling := true);
      var recent := if loop.retain && loop.rememberFailed
                    then Remember(s.orders.recent, current.delivery.leaseId) else s.orders.recent;
      System(Orders(s.orders.deliveries[key := current], recent),
             s.loops[key := loop.(calls := loop.calls + 1, calling := Some(current),
                                  first := if loop.calls == 0 then current.version else loop.first)],
             s.log + [Called(key, current.delivery)])
  }

  /** Under the lock again: done if the version is still the one read, else once more. */
  function Returned(s: System, key: Key, succeeded: bool): System
    requires key in s.loops && s.loops[key].calling.Some?
  {
    var loop := s.loops[key];
    var current := loop.calling.value;
    if key in s.orders.deliveries && s.orders.deliveries[key].version == current.version then
      var recent := if succeeded && loop.retain && !loop.rememberFailed
                    then Remember(s.orders.recent, current.delivery.leaseId) else s.orders.recent;
      System(Orders(s.orders.deliveries - {key}, recent), s.loops - {key}, s.log + [Deleted(key)])
    else s.(loops := s.loops[key := loop.(calling := None)])
  }

  function Next(s: System, e: Event): System {
    match e
    case Claiming(provenance, d, rebind) =>
      System(ClaimOrder(s.orders, provenance, d, rebind).0, s.loops,
             if Joins(s.orders, provenance, d, rebind) then s.log + [Joined(Identity(provenance, d.leaseId), d)] else s.log)
    case Keyless(retain, rememberFailed, succeeded) =>
      if retain && (succeeded || rememberFailed) then
        s.(orders := s.orders.(recent := Remember(s.orders.recent, ""))) else s
    case StartLoop(key, retain, rememberFailed) =>
      if key == NoKey || key in s.loops then s
      else s.(loops := s.loops[key := Loop(retain, rememberFailed, 0, 0, None)])
    case Enter(key) => if key in s.loops && s.loops[key].calling == None then Entered(s, key) else s
    case Return(key, succeeded) =>
      if key in s.loops && s.loops[key].calling.Some? then Returned(s, key, succeeded) else s
  }

  function Run(events: seq<Event>): System {
    if events == [] then START else Next(Run(events[..|events| - 1]), events[|events| - 1])
  }

  // ---------------------------------------------------------------------
  // What the log may say

  /** The latest delivery of a run, and whether a callback got it after it joined. */
  datatype Known = Known(latest: Delivery, answered: bool)

  type Monitor = map<Key, Known>

  /** A callback gets the latest delivery, and a run ends only after one did. */
  predicate Allowed(m: Monitor, entry: Entry) {
    match entry
    case Joined(_, _) => true
    case Called(key, d) => key in m && m[key].latest == d
    case Deleted(key) => key in m && m[key].answered
  }

  function Observed(m: Monitor, entry: Entry): Monitor
    requires Allowed(m, entry)
  {
    match entry
    case Joined(key, d) => m[key := Known(d, false)]
    case Called(key, d) => m[key := Known(d, true)]
    case Deleted(key) => m - {key}
  }

  function Monitored(log: seq<Entry>): Option<Monitor> {
    if log == [] then Some(map[])
    else
      var m := Monitored(log[..|log| - 1]);
      if m.Some? && Allowed(m.value, log[|log| - 1]) then Some(Observed(m.value, log[|log| - 1])) else None
  }

  lemma MonitoredMore(log: seq<Entry>, entry: Entry)
    requires Monitored(log).Some? && Allowed(Monitored(log).value, entry)
    ensures Monitored(log + [entry]) == Some(Observed(Monitored(log).value, entry))
  {
    assert (log + [entry])[..|log|] == log;
  }

  // ---------------------------------------------------------------------
  // The invariant

  /** A loop that calls back holds what is current unless something joined, and it has called
      back at most once for each version since the first it saw. */
  ghost predicate LoopOk(loop: Loop, key: Key, deliveries: map<Key, Active>, m: Monitor) {
    if loop.calling.Some? then
      var read := loop.calling.value;
      && key in deliveries && deliveries[key].version >= read.version >= loop.first
      && 1 <= loop.calls <= 1 + read.version - loop.first
      && (deliveries[key].version == read.version ==>
            deliveries[key].delivery == read.delivery && deliveries[key].settling && key in m && m[key].answered)
    else
      loop.calls > 0 ==>
        key in deliveries && deliveries[key].version >= loop.first && loop.calls <= deliveries[key].version - loop.first
  }

  ghost predicate Agrees(m: Monitor, deliveries: map<Key, Active>) {
    m.Keys == deliveries.Keys && forall key :: key in m ==> m[key].latest == deliveries[key].delivery
  }

  ghost predicate Invariant(s: System) {
    && Monitored(s.log).Some? && Agrees(Monitored(s.log).value, s.orders.deliveries)
    && (forall key :: key in s.loops ==> LoopOk(s.loops[key], key, s.orders.deliveries, Monitored(s.log).value))
    && Bounded(s.orders.recent)
  }

  /** A claim that takes effect replaces the delivery, and moves the version on when a
      callback may be under way; any other claim changes nothing. */
  lemma JoinShape(o: Orders, provenance: string, d: Delivery, rebind: Option<Claim>)
    ensures var r, key := ClaimOrder(o, provenance, d, rebind).0, Identity(provenance, d.leaseId);
      if Joins(o, provenance, d, rebind) then
        && key in r.deliveries && r == o.(deliveries := o.deliveries[key := r.deliveries[key]])
        && r.deliveries[key].delivery == d
        && (key in o.deliveries ==>
              && r.deliveries[key].version >= o.deliveries[key].version
              && (o.deliveries[key].settling ==> r.deliveries[key].version > o.deliveries[key].version))
      else r == o
  {
  }

  lemma JoinedLoopOk(loop: Loop, k: Key, deliveries: map<Key, Active>, m: Monitor, key: Key, joined: Active)
    requires LoopOk(loop, k, deliveries, m)
    requires key in deliveries ==>
      && joined.version >= deliveries[key].version
      && (deliveries[key].settling ==> joined.version > deliveries[key].version)
    ensures LoopOk(loop, k, deliveries[key := joined], m[key := Known(joined.delivery, false)])
  {
  }

  lemma ClaimKeeps(s: System, provenance: string, d: Delivery, rebind: Option<Claim>)
    requires Invariant(s)
    ensures Invariant(Next(s, Claiming(provenance, d, rebind)))
  {
    hide Monitored, Bounded, LoopOk, Joins, ClaimOrder;
    var t, key := Next(s, Claiming(provenance, d, rebind)), Identity(provenance, d.leaseId);
    JoinShape(s.orders, provenance, d, rebind);
    if Joins(s.orders, provenance, d, rebind) {
      MonitoredMore(s.log, Joined(key, d));
      forall k | k in s.loops ensures LoopOk(s.loops[k], k, t.orders.deliveries, Monitored(t.log).value) {
        JoinedLoopOk(s.loops[k], k, s.orders.deliveries, Monitored(s.log).value, key, t.orders.deliveries[key]);
      }
    }
  }

  lemma EnterKeeps(s: System, key: Key)
    requires Invariant(s) && key in s.loops && s.loops[key].calling == None
    ensures Invariant(Entered(s, key))
  {
    if key in s.orders.deliveries {
      var d := s.orders.deliveries[key].delivery;
      MonitoredMore(s.log, Called(key, d));
      RememberBounded(s.orders.recent, d.leaseId);
    }
    hide Monitored, Bounded;
  }

  lemma ReturnKeeps(s: System, key: Key, succeeded: bool)
    requires Invariant(s) && key in s.loops && s.loops[key].calling.Some?
    ensures Invariant(Returned(s, key, succeeded))
  {
    var read := s.loops[key].calling.value;
    assert LoopOk(s.loops[key], key, s.orders.deliveries, Monitored(s.log).value);
    if s.orders.deliveries[key].version == read.version {
      MonitoredMore(s.log, Deleted(key));
      RememberBounded(s.orders.recent, read.delivery.leaseId);
    }
    hide Monitored, Bounded;
  }

  lemma StepKeeps(s: System, e: Event)
    requires Invariant(s)
    ensures Invariant(Next(s, e))
  {
    match e
    case Claiming(provenance, d, rebind) => ClaimKeeps(s, provenance, d, rebind);
    case Keyless(_, _, _) => RememberBounded(s.orders.recent, "");
    case StartLoop(_, _, _) =>
    case Enter(key) => if key in s.loops && s.loops[key].calling == None { EnterKeeps(s, key); }
    case Return(key, succeeded) =>
      if key in s.loops && s.loops[key].calling.Some? { ReturnKeeps(s, key, succeeded); }
  }

  lemma {:induction false} RunKeeps(events: seq<Event>)
    ensures Invariant(Run(events))
  {
    if events == [] {
    } else {
      RunKeeps(events[..|events| - 1]);
      StepKeeps(Run(events[..|events| - 1]), events[|events| - 1]);
    }
  }

  /** In every run, a settle loop has called back at most once more than its run's version
      has moved on since the loop first saw it. */
  lemma CallbacksBounded(events: seq<Event>, key: Key)
    requires key in Run(events).loops && key in Run(events).orders.deliveries && Run(events).loops[key].calls > 0
    ensures var s := Run(events);
      s.loops[key].calls <= 1 + s.orders.deliveries[key].version - s.loops[key].first
  {
    RunKeeps(events);
    assert LoopOk(Run(events).loops[key], key, Run(events).orders.deliveries, Monitored(Run(events).log).value);
  }

  /** A loop goes on only when the version has moved past the one it read. */
  lemma GoesOnOnlyForNewer(events: seq<Event>, key: Key, succeeded: bool)
    requires key in Run(events).loops && Run(events).loops[key].calling.Some?
    ensures var s := Run(events);
      var t := Next(s, Return(key, succeeded));
      key in s.orders.deliveries && (key in t.loops <==> s.orders.deliveries[key].version > s.loops[key].calling.value.version)
  {
    RunKeeps(events);
    assert LoopOk(Run(events).loops[key], key, Run(events).orders.deliveries, Monitored(Run(events).log).value);
  }

  // ---------------------------------------------------------------------
  // What an allowed log means

  /** Nothing joined the run and it did not end after `j`. */
  ghost predicate Quiet(log: seq<Entry>, key: Key, j: int) {
    forall k :: 0 <= k < |log| && j < k && log[k].key == key ==> log[k].Called?
  }

  ghost predicate Standing(log: seq<Entry>, entry: Entry) {
    exists j :: 0 <= j < |log| && log[j] == entry && Quiet(log, entry.key, j)
  }

  lemma StandingStays(log: seq<Entry>, entry: Entry, next: Entry)
    requires Standing(log, entry) && (next.key == entry.key ==> next.Called?)
    ensures Standing(log + [next], entry)
  {
    var j :| 0 <= j < |log| && log[j] == entry && Quiet(log, entry.key, j);
    var more := log + [next];
    assert more[j] == entry;
    forall k | j < k < |more| && more[k].key == entry.key ensures more[k].Called? {
      assert k < |log| ==> more[k] == log[k];
    }
    assert Quiet(more, entry.key, j);
  }

  lemma StandingNow(log: seq<Entry>, next: Entry)
    ensures Standing(log + [next], next)
  {
    assert (log + [next])[|log|] == next;
    assert Quiet(log + [next], next.key, |log|);
  }

  lemma {:induction false} KnownStands(log: seq<Entry>, key: Key)
    requires Monitored(log).Some? && key in Monitored(log).value
    ensures var known := Monitored(log).value[key];
      && Standing(log, Joined(key, known.latest))
      && (known.answered ==> Standing(log, Called(key, known.latest)))
  {
    var n := |log| - 1;
    var front, last := log[..n], log[n];
    assert log == front + [last];
    var m := Monitored(front).value;
    hide Standing;
    StandingNow(front, last);
    if key in m && !(last.key == key && !last.Called?) {
      KnownStands(front, key);
      StandingStays(front, Joined(key, m[key].latest), last);
      if m[key].answered { StandingStays(front, Called(key, m[key].latest), last); }
    }
  }

  lemma {:induction false} PrefixMonitored(log: seq<Entry>, n: nat)
    requires Monitored(log).Some? && n < |log|
    ensures Monitored(log[..n]).Some? && Allowed(Monitored(log[..n]).value, log[n])
  {
    if n == |log| - 1 {
    } else {
      PrefixMonitored(log[..|log| - 1], n);
      assert log[..|log| - 1][..n] == log[..n];
    }
  }

  /** A run is deleted only when a callback got its latest delivery and nothing joined since. */
  lemma DeletedOnlySettled(events: seq<Event>, i: nat)
    requires i < |Run(events).log| && Run(events).log[i].Deleted?
    ensures var log := Run(events).log;
      exists d :: Standing(log[..i], Joined(log[i].key, d)) && Standing(log[..i], Called(log[i].key, d))
  {
    RunKeeps(events);
    var log := Run(events).log;
    hide Run, Standing;
    PrefixMonitored(log, i);
    KnownStands(log[..i], log[i].key);
  }

  /** Every callback gets the delivery that joined last. */
  lemma CalledWithLatest(events: seq<Event>, i: nat)
    requires i < |Run(events).log| && Run(events).log[i].Called?
    ensures Standing(Run(events).log[..i], Joined(Run(events).log[i].key, Run(events).log[i].d))
  {
    RunKeeps(events);
    var log := Run(events).log;
    hide Run, Standing;
    PrefixMonitored(log, i);
    KnownStands(log[..i], log[i].key);
  }

  // ---------------------------------------------------------------------
  // Completed leases over a run

  /** The leases an event completes. */
  function Completed(s: System, e: Event): seq<string> {
    match e
    case Keyless(retain, rememberFailed, succeeded) => if retain && (succeeded || rememberFailed) then [""] else []
    case Enter(key) =>
      if key in s.loops && s.loops[key].calling == None && key in s.orders.deliveries
         && s.loops[key].retain && s.loops[key].rememberFailed
      then [s.orders.deliveries[key].delivery.leaseId] else []
    case Return(key, succeeded) =>
      if key in s.loops && s.loops[key].calling.Some? && key in s.orders.deliveries
         && s.orders.deliveries[key].version == s.loops[key].calling.value.version
         && succeeded && s.loops[key].retain && !s.loops[key].rememberFailed
      then [s.loops[key].calling.value.delivery.leaseId] else []
    case _ => []
  }

  /** The leases a run completes, in order. */
  function Completions(events: seq<Event>): seq<string> {
    if events == [] then []
    else
      var front := events[..|events| - 1];
      Completions(front) + Completed(Run(front), events[|events| - 1])
  }

  lemma {:induction false} RecentAreCompletions(events: seq<Event>)
    ensures Run(events).orders.recent == RememberAll([], Completions(events))
  {
    if events == [] {
    } else {
      var front, e := events[..|events| - 1], events[|events| - 1];
      RecentAreCompletions(front);
      var done := Completed(Run(front), e);
      RememberAllAppended([], Completions(front), done);
      CompletedRemembered(Run(front), e);
    }
  }

  lemma CompletedRemembered(s: System, e: Event)
    ensures Next(s, e).orders.recent == RememberAll(s.orders.recent, Completed(s, e))
  {
    var done := Completed(s, e);
    if done != [] {
      assert done[..|done| - 1] == [];
      assert RememberAll(s.orders.recent, done) == Remember(s.orders.recent, done[0]);
    }
    if e.Claiming? { JoinShape(s.orders, e.provenance, e.d, e.rebind); }
    hide ClaimOrder, Joins, Remember, RememberAll;
  }

  function Place(recent: seq<string>, id: string): (p: nat)
    requires id in recent
    ensures p < |recent| && recent[p] == id
  {
    if recent[0] == id then 0 else 1 + Place(recent[1..], id)
  }

  /** When a run completes a lease, for the first time or again, the lease has a place in the
      queue, and room for so much news. A claim of it after further completions is answered as
      completed already if they are of no more distinct leases than that; and if it does not
      complete again itself, exactly if they hold no more news than that. */
  lemma CompletedStaysAnswered(events: seq<Event>, front: seq<string>, id: string, later: seq<string>,
                               provenance: string, d: Delivery, rebind: Option<Claim>)
    requires Completions(events) == front + [id] + later && id != ""
    requires d.leaseId == id && d.definition.Some?
    ensures var recent := RememberAll([], front + [id]);
      && Bounded(recent) && id in recent
      && var room := Room(recent, Place(recent, id));
      && (id !in RememberAll([], front) ==> room == RECENT_COMPLETED_LEASES - 1)
      && (|Elements(later)| <= room ==>
            ClaimOrder(Run(events).orders, provenance, d, rebind) == (Run(events).orders, AlreadyCompleted))
      && (id !in later && rebind != Some(AlreadyCompleted) ==>
            (ClaimOrder(Run(events).orders, provenance, d, rebind).1 == AlreadyCompleted <==> |News(recent, later)| <= room))
  {
    hide ClaimOrder, Completions, Run, RememberAll, News, NoRepeats;
    RecentAreCompletions(events);
    RememberAllAppended([], front + [id], later);
    RememberedFrom(front, id, later);
    ClaimAnswered(Run(events).orders, provenance, d, rebind);
  }

  /** A claim is answered as completed exactly when its lease is remembered, as far as it is
      not the rebinder that says so. */
  lemma ClaimAnswered(o: Orders, provenance: string, d: Delivery, rebind: Option<Claim>)
    requires d.leaseId != "" && d.definition.Some?
    ensures d.leaseId in o.recent ==> ClaimOrder(o, provenance, d, rebind) == (o, AlreadyCompleted)
    ensures d.leaseId !in o.recent && rebind != Some(AlreadyCompleted) ==>
      ClaimOrder(o, provenance, d, rebind).1 != AlreadyCompleted
  {
  }

  lemma RememberedFrom(front: seq<string>, id: string, later: seq<string>)
    requires id != ""
    ensures var recent := RememberAll([], front + [id]);
      && Bounded(recent) && id in recent
      && var room := Room(recent, Place(recent, id));
      && (id !in RememberAll([], front) ==> room == RECENT_COMPLETED_LEASES - 1)
      && (|Elements(later)| <= room ==> id in RememberAll(recent, later))
      && (id !in later ==> (id in RememberAll(recent, later) <==> |News(recent, later)| <= room))
  {
    hide News, NoRepeats, Remember, RememberAll;
    var before, recent := RememberAll([], front), RememberAll([], front + [id]);
    NothingBounded();
    RememberAllBounded([], front);
    RememberAllBounded([], front + [id]);
    JustRemembered(front, id);
    var p := Place(recent, id);
    if id !in before {
      OnlyPlace(recent, p);
    }
    if |Elements(later)| <= Room(recent, p) {
      StillRemembered(recent, p, later);
    }
    if id !in later {
      RememberedExactly(recent, p, later);
    }
  }

  lemma NothingBounded()
    ensures Bounded([])
  {
  }

  lemma JustRemembered(front: seq<string>, id: string)
    requires id != "" && Bounded(RememberAll([], front))
    ensures var before, recent := RememberAll([], front), RememberAll([], front + [id]);
      recent == Remember(before, id) && id in recent && (id !in before ==> recent[|recent| - 1] == id)
  {
    assert (front + [id])[..|front|] == front;
    assert id !in RememberAll([], front) ==> Remember(RememberAll([], front), id)[|Remember(RememberAll([], front), id)| - 1] == id;
  }

  lemma OnlyPlace(recent: seq<string>, p: nat)
    requires NoRepeats(recent) && p < |recent| && recent[p] == recent[|recent| - 1]
    ensures p == |recent| - 1
  {
  }
}
