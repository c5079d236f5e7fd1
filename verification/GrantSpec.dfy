/**
 Lease grants: what a heartbeat answer, an expiry check and a settlement attempt do to one
 lease, the registry as all leases side by side with its signals, and the watcher.
 Times are natural numbers on one clock; 0 is the zero time.
 */
module GrantSpec {
  import opened Wrappers
  import opened LeaseIdentity

  datatype Settlement = Settlement(attempts: nat, responseAt: nat, responseRejected: bool) {
    predicate Active() {
      attempts > 0
    }
  }

  datatype GrantState = GrantState(expiresAt: int, renewedAt: nat, confirmed: bool, settling: Settlement) {
    /** Confirmed, and open to expiry. */
    predicate Exposed() {
      confirmed && !settling.Active()
    }
  }

  const NEW_GRANT := GrantState(0, 0, false, Settlement(0, 0, false))

  /** A heartbeat answer for one lease: when its request began, how long a renewal lasts,
      whether the lease is among the renewed ones, and when the answer is handled. */
  datatype Answer = Answer(started: nat, timeToLive: int, accepted: bool, now: nat) {
    function Deadline(): int {
      started + timeToLive
    }

    predicate Live() {
      accepted && timeToLive > 0 && Deadline() > now
    }
  }

  datatype RenewalOutcome = Unchanged | Confirmed | Extended | Lost

  /** An answer to a request that began before the last one taken into account. */
  predicate Stale(g: GrantState, a: Answer) {
    (g.confirmed && a.started < g.renewedAt) || (g.settling.Active() && a.started < g.settling.responseAt)
  }

  /** The answer renews the grant. */
  predicate Renews(g: GrantState, a: Answer) {
    !Stale(g, a) && a.Live() && (g.Exposed() ==> a.started < g.expiresAt)
  }

  function ApplyRenewal(g: GrantState, a: Answer): (GrantState, RenewalOutcome) {
    if Stale(g, a) then (g, Unchanged)
    else
      var heard := if g.settling.Active()
                   then g.(settling := g.settling.(responseAt := a.started, responseRejected := !a.Live()))
                   else g;
      if Renews(g, a) then
        (heard.(confirmed := true, renewedAt := a.started,
                expiresAt := if a.Deadline() > g.expiresAt then a.Deadline() else g.expiresAt),
         if g.confirmed then Extended else RenewalOutcome.Confirmed)
      else if g.settling.Active() then (heard, Unchanged)
      else (g, Lost)
  }

  // ---------------------------------------------------------------------
  // One lease

  datatype Event =
    | Track(ids: seq<string>, admitted: bool)
    | Renew(started: nat, timeToLive: int, requested: seq<string>, renewed: seq<string>, now: nat)
    | Observe(now: nat)
    | BeginSettlement(id: string, now: nat)
    | SettlementFailed(id: string, now: nat)
    | Settle(id: string)
    | Revoke(id: string)
    | Reject(id: string)
    | Close

  type Lease = Option<GrantState>

  function Expired(l: Lease, now: nat): Lease {
    if l.Some? && l.value.Exposed() && l.value.expiresAt <= now then None else l
  }

  function Answered(l: Lease, a: Answer): Lease {
    if l == None then None
    else
      var (g, outcome) := ApplyRenewal(l.value, a);
      if outcome == Lost then None else Some(g)
  }

  function AnswerTo(id: string, e: Event): Answer
    requires e.Renew?
  {
    Answer(e.started, e.timeToLive, id in e.renewed, e.now)
  }

  function Opened(l: Lease): Lease {
    if l.Some? && l.value.confirmed then
      var s := if l.value.settling.Active() then l.value.settling else Settlement(0, 0, false);
      Some(l.value.(settling := s.(attempts := s.attempts + 1)))
    else l
  }

  function Failed(l: Lease, now: nat): Lease {
    if l == None || !l.value.settling.Active() then l
    else if l.value.settling.attempts > 1 then
      Some(l.value.(settling := l.value.settling.(attempts := l.value.settling.attempts - 1)))
    else if l.value.settling.responseRejected || (l.value.confirmed && l.value.expiresAt <= now) then None
    else Some(l.value.(settling := Settlement(0, 0, false)))
  }

  /** What an event does to one lease, whatever the others are. */
  function LeaseStep(id: string, l: Lease, e: Event): Lease {
    match e
    case Track(ids, admitted) => if admitted && id in ids && l == None then Some(NEW_GRANT) else l
    case Renew(_, _, requested, _, now) => Expired(if id in requested then Answered(l, AnswerTo(id, e)) else l, now)
    case Observe(now) => Expired(l, now)
    case BeginSettlement(begun, now) => if id == begun then Opened(Expired(l, now)) else Expired(l, now)
    case SettlementFailed(begun, now) => if id == begun then Failed(l, now) else l
    case Settle(gone) => if id == gone then None else l
    case Revoke(gone) => if id == gone then None else l
    case Reject(gone) => if id == gone then None else l
    case Close => None
  }

  // ---------------------------------------------------------------------
  // The registry

  type Grants = map<string, GrantState>

  /** The leases, and how often each kind of change was signalled. */
  datatype Registry = Registry(grants: Grants, availability: nat, losses: nat, wake: bool)

  function Lookup(grants: Grants, id: string): Lease {
    if id in grants then Some(grants[id]) else None
  }

  /** Each lease takes its own step. */
  ghost predicate EachSteps(grants: Grants, e: Event, after: Grants) {
    forall id :: Lookup(after, id) == LeaseStep(id, Lookup(grants, id), e)
  }

  /** What a watcher of availability can see: which leases are tracked, which confirmed. */
  ghost function ConfirmedIds(grants: Grants): set<string> {
    set id | id in grants && grants[id].confirmed
  }

  ghost predicate SameStanding(a: Grants, b: Grants) {
    a.Keys == b.Keys && ConfirmedIds(a) == ConfirmedIds(b)
  }

  /** A lease was lost: it disappeared other than by being settled, given up or closed. */
  ghost predicate Loses(grants: Grants, e: Event, after: Grants) {
    !(e.Settle? || e.Revoke? || e.Close?) && exists id :: id in grants && id !in after
  }

  /** The leases that tracking `ids` would add. */
  function Untracked(grants: Grants, ids: seq<string>): set<string> {
    (set id | id in ids) - grants.Keys
  }

  predicate Admits(grants: Grants, capacity: nat, ids: seq<string>) {
    && (forall k :: 0 <= k < |ids| ==> ValidLeaseId(ids[k]))
    && |grants| + |Untracked(grants, ids)| <= capacity
  }

  /** The watcher must look again: a lease may have become subject to an earlier expiry. */
  predicate Wakes(grants: Grants, e: Event) {
    match e
    case Track(ids, admitted) => admitted && Untracked(grants, ids) != {}
    case Renew(_, _, _, _, _) => true
    case Observe(_) => false
    case BeginSettlement(id, now) =>
      var l := Expired(Lookup(grants, id), now); l.Some? && l.value.confirmed
    case SettlementFailed(id, _) => id in grants && grants[id].settling.attempts == 1
    case Settle(id) => id in grants
    case Revoke(id) => id in grants
    case Reject(id) => id in grants
    case Close => false
  }

  ghost predicate Step(r: Registry, capacity: nat, e: Event, s: Registry) {
    && EachSteps(r.grants, e, s.grants)
    && s.availability == r.availability + (if SameStanding(r.grants, s.grants) then 0 else 1)
    && s.losses == r.losses + (if Loses(r.grants, e, s.grants) then 1 else 0)
    && s.wake == (r.wake || Wakes(r.grants, e))
    && (e.Track? ==> e.admitted == Admits(r.grants, capacity, e.ids))
  }
}
