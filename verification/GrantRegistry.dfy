/**
 The grant registry: grant records updated in place, and signals raised by each operation.
 Every operation is one step of the registry the runs are made of.
 */
module GrantRegistries {
  import opened Wrappers
  import opened LeaseIdentity
  import opened GrantSpec
  import opened GrantRuns

  class Grant {
    var expiresAt: int
    var renewedAt: nat
    var confirmed: bool
    var attempts: nat
    var responseAt: nat
    var responseRejected: bool

    constructor ()
      ensures Value() == NEW_GRANT
    {
      expiresAt, renewedAt, confirmed := 0, 0, false;
      attempts, responseAt, responseRejected := 0, 0, false;
    }

    ghost function Value(): GrantState
      reads this
    {
      GrantState(expiresAt, renewedAt, confirmed, Settlement(attempts, responseAt, responseRejected))
    }

    predicate Settling()
      reads this
    {
      attempts > 0
    }

    method ApplyRenewal(requestStarted: nat, deadline: int, now: nat, accepted: bool, timeToLive: int)
      returns (outcome: RenewalOutcome)
      requires deadline == requestStarted + timeToLive
      modifies this
      ensures (Value(), outcome) == GrantSpec.ApplyRenewal(old(Value()), Answer(requestStarted, timeToLive, accepted, now))
    {
      if confirmed && requestStarted < renewedAt {
        return Unchanged;
      }
      if Settling() && requestStarted < responseAt {
        return Unchanged;
      }
      var responseLive := accepted && timeToLive > 0 && deadline > now;
      if Settling() {
        responseAt := requestStarted;
        responseRejected := !responseLive;
        if !responseLive {
          return Unchanged;
        }
      } else if !responseLive || (confirmed && requestStarted >= expiresAt) {
        return Lost;
      }
      var wasConfirmed := confirmed;
      confirmed := true;
      renewedAt := requestStarted;
      if deadline > expiresAt {
        expiresAt := deadline;
      }
      return if wasConfirmed then Extended else RenewalOutcome.Confirmed;
    }
  }

  /** The values of the grant records, lease by lease. */
  ghost function Values(grants: map<string, Grant>): (values: Grants)
    reads grants.Values
    ensures values.Keys == grants.Keys
  {
    map id | id in grants :: grants[id].Value()
  }

  lemma ValuesAt(grants: map<string, Grant>, id: string)
    ensures id in grants ==> Values(grants)[id] == grants[id].Value() && grants[id] in grants.Values
  {
  }

  lemma SameValues(grants: map<string, Grant>, values: Grants)
    requires values.Keys == grants.Keys && forall id :: id in grants ==> grants[id].Value() == values[id]
    ensures Values(grants) == values
  {
  }

  /** No record serves two leases. */
  ghost predicate Separate(grants: map<string, Grant>) {
    forall a, b :: a in grants && b in grants && a != b ==> grants[a] != grants[b]
  }

  /** Leases may be gone, but those left have their records. */
  ghost predicate Kept(was: map<string, Grant>, left: map<string, Grant>) {
    left.Keys <= was.Keys && forall id :: id in left ==> left[id] == was[id]
  }

  ghost predicate AllExpired(before: Grants, now: nat, after: Grants) {
    forall id :: Lookup(after, id) == Expired(Lookup(before, id), now)
  }

  lemma KeptRecords(was: map<string, Grant>, left: map<string, Grant>)
    requires Kept(was, left)
    ensures left.Values <= was.Values
  {
  }

  /** The leases when all but those of `ids` have been checked. */
  ghost predicate HalfExpired(before: Grants, ids: set<string>, now: nat, half: Grants) {
    forall id :: Lookup(half, id) == if id in ids then Lookup(before, id) else Expired(Lookup(before, id), now)
  }

  lemma HalfExpiredMore(before: Grants, ids: set<string>, now: nat, half: Grants, id: string)
    requires HalfExpired(before, ids, now, half) && id in ids && id in half
    ensures HalfExpired(before, ids - {id}, now,
                        if half[id].Exposed() && half[id].expiresAt <= now then half - {id} else half)
  {
    assert Lookup(half, id) == Lookup(before, id);
  }

  lemma HalfExpiredEnds(before: Grants, now: nat)
    ensures HalfExpired(before, before.Keys, now, before)
    ensures forall half :: HalfExpired(before, {}, now, half) ==> AllExpired(before, now, half)
  {
  }

  /** A confirmed grant has an expiry. */
  ghost predicate Dated(grants: Grants) {
    forall id :: id in grants && grants[id].confirmed ==> grants[id].expiresAt > 0
  }

  /** When leases only go, and none is newly confirmed, the standing changes just when one goes. */
  lemma OnlyGoing(before: Grants, after: Grants)
    requires after.Keys <= before.Keys
    requires forall id :: id in after ==> after[id].confirmed == before[id].confirmed
    ensures SameStanding(before, after) <==> after.Keys == before.Keys
    ensures (exists id :: id in before && id !in after) <==> after.Keys != before.Keys
  {
    if after.Keys == before.Keys {
      assert ConfirmedIds(after) == ConfirmedIds(before);
    } else {
      assert before.Keys == after.Keys + (before.Keys - after.Keys);
      var id :| id in before.Keys - after.Keys;
      assert id in before && id !in after;
    }
  }

  /** Reading pointwise steps back as facts about the leases that stay. */
  lemma ExpiredPointwise(before: Grants, now: nat, after: Grants)
    requires AllExpired(before, now, after)
    ensures after.Keys <= before.Keys && forall id :: id in after ==> after[id] == before[id]
    ensures EachSteps(before, Observe(now), after)
  {
    forall id | id in after ensures id in before && after[id] == before[id] {
      assert Lookup(after, id) == Expired(Lookup(before, id), now);
    }
    forall id ensures Lookup(after, id) == LeaseStep(id, Lookup(before, id), Observe(now)) {
      assert Lookup(after, id) == Expired(Lookup(before, id), now);
    }
  }

  /** The leases when those of `done` have taken their answers. */
  ghost predicate HalfAnswered(before: Grants, e: Event, done: set<string>, half: Grants)
    requires e.Renew?
  {
    forall id :: Lookup(half, id) ==
      if id in done then Answered(Lookup(before, id), AnswerTo(id, e)) else Lookup(before, id)
  }

  ghost predicate NewlyConfirmed(before: Grants, after: Grants, id: string) {
    id in before && id in after && !before[id].confirmed && after[id].confirmed
  }

  /** What an answer does to being confirmed and having an expiry. */
  lemma AnsweredDated(g: GrantState, a: Answer)
    requires g.confirmed ==> g.expiresAt > 0
    ensures ApplyRenewal(g, a).0.confirmed ==> ApplyRenewal(g, a).0.expiresAt > 0
    ensures ApplyRenewal(g, a).1 == RenewalOutcome.Confirmed <==>
      ApplyRenewal(g, a).1 != Lost && !g.confirmed && ApplyRenewal(g, a).0.confirmed
  {
  }

  lemma HalfAnsweredNone(before: Grants, e: Event)
    requires e.Renew?
    ensures HalfAnswered(before, e, {}, before)
  {
  }

  lemma HalfAnsweredAbsent(before: Grants, e: Event, done: set<string>, half: Grants, id: string)
    requires e.Renew? && HalfAnswered(before, e, done, half) && id !in done && id !in half
    ensures HalfAnswered(before, e, done + {id}, half)
  {
    assert Lookup(half, id) == Lookup(before, id);
  }

  lemma HalfAnsweredMore(before: Grants, e: Event, done: set<string>, half: Grants, id: string, more: Grants)
    requires e.Renew? && HalfAnswered(before, e, done, half) && id !in done
    requires Lookup(more, id) == Answered(Lookup(half, id), AnswerTo(id, e))
    requires forall other :: other != id ==> Lookup(more, other) == Lookup(half, other)
    ensures HalfAnswered(before, e, done + {id}, more)
    ensures forall other :: other != id ==> NewlyConfirmed(before, more, other) == NewlyConfirmed(before, half, other)
    ensures !NewlyConfirmed(before, half, id)
    ensures NewlyConfirmed(before, more, id) <==> NewlyConfirmed(half, more, id)
  {
    assert Lookup(half, id) == Lookup(before, id);
    hide Answered;
    forall other ensures Lookup(more, other) ==
      if other in done + {id} then Answered(Lookup(before, other), AnswerTo(other, e)) else Lookup(before, other)
    {
      assert Lookup(half, other) ==
        if other in done then Answered(Lookup(before, other), AnswerTo(other, e)) else Lookup(before, other);
    }
    forall other | other != id ensures NewlyConfirmed(before, more, other) == NewlyConfirmed(before, half, other) {
      assert Lookup(more, other) == Lookup(half, other);
    }
  }

  lemma RenewedPointwise(before: Grants, e: Event, mid: Grants, after: Grants)
    requires e.Renew? && HalfAnswered(before, e, (set id | id in e.requested), mid)
    requires AllExpired(mid, e.now, after)
    ensures EachSteps(before, e, after) && after.Keys <= mid.Keys <= before.Keys
    ensures SameStanding(before, after) <==>
      after.Keys == before.Keys && !exists id :: NewlyConfirmed(before, mid, id)
    ensures Loses(before, e, after) <==> after.Keys != before.Keys
  {
    forall id
      ensures Lookup(after, id) == LeaseStep(id, Lookup(before, id), e)
      ensures id in mid ==> id in before && (before[id].confirmed ==> mid[id].confirmed)
      ensures id in mid && !before[id].confirmed && mid[id].confirmed ==> id in after
      ensures id in after ==> id in mid && after[id] == mid[id]
    {
      assert Lookup(after, id) == Expired(Lookup(mid, id), e.now);
      assert Lookup(mid, id) ==
        if id in e.requested then Answered(Lookup(before, id), AnswerTo(id, e)) else Lookup(before, id);
    }
    hide HalfAnswered, AllExpired, EachSteps, Expired;
    RenewedStanding(before, mid, after);
  }

  /** Answers, expiry and signals make one step. */
  lemma RenewedStep(r: Registry, capacity: nat, e: Event, mid: Grants, changed: bool, lost: bool, s: Registry)
    requires e.Renew? && HalfAnswered(r.grants, e, (set id | id in e.requested), mid)
    requires AllExpired(mid, e.now, s.grants)
    requires lost <==> mid.Keys != r.grants.Keys
    requires changed <==> lost || exists id :: NewlyConfirmed(r.grants, mid, id)
    requires var expired := s.grants.Keys != mid.Keys;
      && s.availability == r.availability + (if expired || changed then 1 else 0)
      && s.losses == r.losses + (if lost || expired then 1 else 0) && s.wake
    ensures Step(r, capacity, e, s)
  {
    hide HalfAnswered, AllExpired, EachSteps, SameStanding, Loses, NewlyConfirmed;
    RenewedPointwise(r.grants, e, mid, s.grants);
  }

  lemma RenewedStanding(before: Grants, mid: Grants, after: Grants)
    requires forall id :: id in mid ==> id in before && (before[id].confirmed ==> mid[id].confirmed)
    requires forall id :: id in mid && !before[id].confirmed && mid[id].confirmed ==> id in after
    requires forall id :: id in after ==> id in mid && after[id] == mid[id]
    ensures SameStanding(before, after) <==>
      after.Keys == before.Keys && !exists id :: NewlyConfirmed(before, mid, id)
    ensures (exists id :: id in before && id !in after) <==> after.Keys != before.Keys
  {
    if after.Keys != before.Keys {
      assert before.Keys == after.Keys + (before.Keys - after.Keys);
      var id :| id in before.Keys - after.Keys;
    } else if forall id :: !NewlyConfirmed(before, mid, id) {
      forall id | id in mid ensures mid[id].confirmed == before[id].confirmed {
        assert !NewlyConfirmed(before, mid, id);
      }
      assert ConfirmedIds(before) == ConfirmedIds(after);
    } else {
      var id :| NewlyConfirmed(before, mid, id);
      assert id in ConfirmedIds(after) && id !in ConfirmedIds(before);
    }
  }

  /** New grants beside the ones there were. */
  ghost predicate Joined(before: Grants, added: set<string>, after: Grants) {
    && after.Keys == before.Keys + added
    && forall id :: id in after ==> after[id] == if id in before then before[id] else NEW_GRANT
  }

  datatype Tracked = Added(ids: seq<string>) | InvalidLeaseId | CapacityReached

  /** The distinct ids in order of first appearance; none when one is not a lease id. */
  method Unique(ids: seq<string>) returns (unique: Option<seq<string>>)
    ensures unique == None <==> exists k :: 0 <= k < |ids| && !ValidLeaseId(ids[k])
    ensures unique.Some? ==> NoRepeats(unique.value) && forall id :: id in unique.value <==> id in ids
  {
    var found := [];
    for k := 0 to |ids|
      invariant NoRepeats(found) && forall id :: id in found <==> id in ids[..k]
      invariant forall j :: 0 <= j < k ==> ValidLeaseId(ids[j])
    {
      if !ValidLeaseId(ids[k]) {
        return None;
      }
      if ids[k] !in found {
        found := found + [ids[k]];
      }
    }
    return Some(found);
  }

  class GrantRegistry {
    var grants: map<string, Grant>
    const capacity: nat
    var wake: bool
    var availabilityChanges: nat
    var leaseLosses: nat

    ghost function View(): Registry
      reads this, grants.Values
    {
      Registry(Values(grants), availabilityChanges, leaseLosses, wake)
    }

    ghost predicate Valid()
      reads `grants, grants.Values
    {
      Separate(grants) && Dated(Values(grants))
    }

    constructor (capacity: int)
      ensures Valid() && View() == EMPTY && this.capacity == if capacity > 1 then capacity else 1
    {
      grants := map[];
      this.capacity := if capacity > 1 then capacity else 1;
      wake, availabilityChanges, leaseLosses := false, 0, 0;
    }

    method Signal()
      modifies `wake
      ensures wake && Values(grants) == old(Values(grants)) && Valid() == old(Valid())
    {
      wake := true;
    }

    method SignalAvailabilityChange()
      modifies `availabilityChanges
      ensures availabilityChanges == old(availabilityChanges) + 1
      ensures Values(grants) == old(Values(grants)) && Valid() == old(Valid())
    {
      availabilityChanges := availabilityChanges + 1;
    }

    method SignalLeaseLoss()
      modifies `leaseLosses
      ensures leaseLosses == old(leaseLosses) + 1
      ensures Values(grants) == old(Values(grants)) && Valid() == old(Valid())
    {
      leaseLosses := leaseLosses + 1;
    }

    method Lose(id: string)
      modifies `grants
      ensures grants == old(grants) - {id} && Values(grants) == old(Values(grants)) - {id}
      ensures old(Valid()) ==> Valid()
    {
      grants := grants - {id};
    }

    /** Drops what has expired; `changed` when anything has. */
    method Expire(now: nat) returns (changed: bool)
      requires Valid()
      modifies `grants
      ensures Valid() && Kept(old(grants), grants) && AllExpired(old(Values(grants)), now, Values(grants))
      ensures changed <==> grants.Keys != old(grants).Keys
    {
      hide Separate, Dated, Values, HalfExpired, AllExpired;
      ghost var before := Values(grants);
      HalfExpiredEnds(before, now);
      changed := false;
      var ids := grants.Keys;
      while ids != {}
        invariant Valid() && Kept(old(grants), grants) && ids <= grants.Keys
        invariant HalfExpired(before, ids, now, Values(grants))
        invariant changed <==> grants.Keys != old(grants).Keys
      {
        var id :| id in ids;
        HalfExpiredMore(before, ids, now, Values(grants), id);
        ids := ids - {id};
        var current := grants[id];
        ValuesAt(grants, id);
        if current.confirmed && !current.Settling() && current.expiresAt <= now {
          Lose(id);
          changed := true;
        }
      }
    }

    method ExpireAndSignal(now: nat)
      requires Valid()
      modifies `grants, `availabilityChanges, `leaseLosses
      ensures Valid() && Kept(old(grants), grants)
      ensures Step(old(View()), capacity, Observe(now), View())
    {
      var changed := Expire(now);
      if changed {
        SignalAvailabilityChange();
        SignalLeaseLoss();
      }
      ExpiredPointwise(old(Values(grants)), now, Values(grants));
      OnlyGoing(old(Values(grants)), Values(grants));
      hide EachSteps, SameStanding;
    }

    /** One lease takes its answer. */
    method TakeAnswer(id: string, a: Answer) returns (lost: bool, newly: bool)
      requires Valid() && id in grants
      modifies `grants, grants[id]
      ensures Valid() && grants == (if lost then old(grants) - {id} else old(grants))
      ensures Lookup(Values(grants), id) == Answered(Lookup(old(Values(grants)), id), a)
      ensures forall other :: other != id ==> Lookup(Values(grants), other) == Lookup(old(Values(grants)), other)
      ensures newly <==> NewlyConfirmed(old(Values(grants)), Values(grants), id)
    {
      hide GrantSpec.ApplyRenewal;
      var current := grants[id];
      ghost var before := Values(grants);
      AnsweredDated(current.Value(), a);
      var outcome := current.ApplyRenewal(a.started, a.Deadline(), a.now, a.accepted, a.timeToLive);
      lost, newly := outcome == Lost, outcome == RenewalOutcome.Confirmed;
      SameValues(grants, before[id := current.Value()]);
      hide Values;
      if lost {
        Lose(id);
      }
    }

    /** Every requested lease takes its answer. */
    method AnswerAll(e: Event, requested: set<string>, renewed: set<string>)
      returns (availabilityChanged: bool, leaseLost: bool)
      requires Valid() && e.Renew? && requested == (set id | id in e.requested) && renewed == (set id | id in e.renewed)
      modifies `grants, grants.Values
      ensures Valid() && grants.Values <= old(grants.Values)
      ensures HalfAnswered(old(Values(grants)), e, requested, Values(grants))
      ensures leaseLost <==> grants.Keys != old(grants).Keys
      ensures availabilityChanged <==>
        leaseLost || exists id :: NewlyConfirmed(old(Values(grants)), Values(grants), id)
    {
      hide Answered, HalfAnswered, Values, Separate, Dated;
      ghost var before := Values(grants);
      HalfAnsweredNone(before, e);
      availabilityChanged, leaseLost := false, false;
      var ids := requested;
      assert requested - ids == {};
      while ids != {}
        invariant Valid() && Kept(old(grants), grants)
        invariant ids <= requested && HalfAnswered(before, e, requested - ids, Values(grants))
        invariant leaseLost <==> grants.Keys != before.Keys
        invariant availabilityChanged <==> leaseLost || exists id :: NewlyConfirmed(before, Values(grants), id)
      {
        var id :| id in ids;
        ghost var half, done := Values(grants), requested - ids;
        ids := ids - {id};
        assert requested - ids == done + {id};
        if id in grants {
          var lost, newly := TakeAnswer(id, Answer(e.started, e.timeToLive, id in renewed, e.now));
          HalfAnsweredMore(before, e, done, half, id, Values(grants));
          availabilityChanged := lost || newly || availabilityChanged;
          leaseLost := lost || leaseLost;
        } else {
          HalfAnsweredAbsent(before, e, done, half, id);
        }
      }
      assert requested - ids == requested;
    }

    /** The end of a renewal: expiry, then the signals. */
    method ExpireAndSignalRenewal(now: nat, availabilityChanged: bool, leaseLost: bool)
      requires Valid()
      modifies this
      ensures Valid() && Kept(old(grants), grants) && AllExpired(old(Values(grants)), now, Values(grants)) && wake
      ensures var expired := grants.Keys != old(grants).Keys;
        && availabilityChanges == old(availabilityChanges) + (if expired || availabilityChanged then 1 else 0)
        && leaseLosses == old(leaseLosses) + (if leaseLost || expired then 1 else 0)
    {
      hide AllExpired, Kept, Separate, Dated;
      var expired := Expire(now);
      Signal();
      if expired || availabilityChanged {
        SignalAvailabilityChange();
      }
      if leaseLost || expired {
        SignalLeaseLoss();
      }
    }

    method Renew(requestStarted: nat, timeToLive: int, requested: seq<string>, renewed: seq<string>, now: nat)
      requires Valid()
      modifies this, grants.Values
      ensures Valid() && grants.Values <= old(grants.Values)
      ensures Step(old(View()), capacity, Event.Renew(requestStarted, timeToLive, requested, renewed, now), View())
    {
      hide Step, HalfAnswered, AllExpired, Kept, Separate, Dated, NewlyConfirmed, Values;
      ghost var e := Event.Renew(requestStarted, timeToLive, requested, renewed, now);
      var requestedSet := set id | id in requested;
      var renewedSet := set id | id in renewed;
      var availabilityChanged, leaseLost :=
        AnswerAll(Event.Renew(requestStarted, timeToLive, requested, renewed, now), requestedSet, renewedSet);
      ghost var mid, left := Values(grants), grants;
      ExpireAndSignalRenewal(now, availabilityChanged, leaseLost);
      KeptRecords(left, grants);
      RenewedStep(old(View()), capacity, e, mid, availabilityChanged, leaseLost, View());
    }

    /** The tracked leases, each once. */
    method ActiveLeaseIds(now: nat) returns (active: seq<string>)
      requires Valid()
      modifies this
      ensures Valid() && Kept(old(grants), grants)
      ensures Step(old(View()), capacity, Observe(now), View())
      ensures NoRepeats(active) && (forall id :: id in active <==> id in grants)
    {
      ExpireAndSignal(now);
      active := [];
      var ids := grants.Keys;
      while ids != {}
        invariant ids <= grants.Keys && NoRepeats(active)
        invariant forall id :: id in active <==> id in grants && id !in ids
      {
        var id :| id in ids;
        ids := ids - {id};
        active := active + [id];
      }
    }

    method Confirmed(id: string, now: nat) returns (confirmed: bool)
      requires Valid()
      modifies this
      ensures Valid() && Kept(old(grants), grants)
      ensures Step(old(View()), capacity, Observe(now), View())
      ensures confirmed <==> id in ConfirmedIds(Values(grants))
    {
      ExpireAndSignal(now);
      confirmed := id in grants && grants[id].confirmed;
    }

    /** The signal a caller waits on for another availability: it is spent once it differs. */
    method ObserveAvailability(now: nat) returns (generation: nat)
      requires Valid()
      modifies this
      ensures Valid() && Kept(old(grants), grants)
      ensures Step(old(View()), capacity, Observe(now), View()) && generation == View().availability
    {
      ExpireAndSignal(now);
      generation := availabilityChanges;
    }

    method ObserveLosses(now: nat) returns (generation: nat)
      requires Valid()
      modifies this
      ensures Valid() && Kept(old(grants), grants)
      ensures Step(old(View()), capacity, Observe(now), View()) && generation == View().losses
    {
      ExpireAndSignal(now);
      generation := leaseLosses;
    }

    /** How long to wait for the next expiry; negative when there is none to wait for. */
    method NextExpiry(now: nat) returns (wait: int)
      requires Valid()
      modifies this
      ensures Valid() && Kept(old(grants), grants)
      ensures Step(old(View()), capacity, Observe(now), View())
      ensures wait < 0 <==> !exists id :: Exposes(Values(grants), id)
      ensures wait >= 0 ==> EarliestExpiry(Values(grants), now + wait)
    {
      ExpireAndSignal(now);
      StillAhead(old(Values(grants)), now, Values(grants));
      hide Step, EarliestExpiry, Exposes, Values;
      var earliest := Earliest();
      if earliest == 0 {
        return -1;
      }
      return if earliest - now > 0 then earliest - now else 0;
    }

    /** The earliest expiry of a grant open to it; 0 when there is none. */
    method Earliest() returns (earliest: int)
      requires forall id :: Exposes(Values(grants), id) ==> Values(grants)[id].expiresAt > 0
      ensures earliest == 0 <==> !exists id :: Exposes(Values(grants), id)
      ensures earliest != 0 ==> EarliestExpiry(Values(grants), earliest) && earliest > 0
    {
      ghost var values := Values(grants);
      earliest := 0;
      var ids := grants.Keys;
      while ids != {}
        invariant ids <= grants.Keys && earliest >= 0
        invariant earliest == 0 <==> !exists id :: id !in ids && Exposes(values, id)
        invariant earliest != 0 ==> exists id :: Exposes(values, id) && values[id].expiresAt == earliest
        invariant forall id :: id !in ids && Exposes(values, id) ==> earliest <= values[id].expiresAt
      {
        var id :| id in ids;
        ids := ids - {id};
        var current := grants[id];
        assert values[id] == current.Value();
        if current.confirmed && !current.Settling() {
          assert Exposes(values, id);
          if earliest == 0 || current.expiresAt < earliest {
            earliest := current.expiresAt;
          }
        }
      }
    }

    method Revoke(id: string)
      requires Valid()
      modifies this
      ensures Valid() && Step(old(View()), capacity, Event.Revoke(id), View())
    {
      hide Separate, Dated, Values, EachSteps, SameStanding, Loses;
      if id in grants {
        Lose(id);
        Signal();
        SignalAvailabilityChange();
      }
      Removed(old(Values(grants)), id, Event.Revoke(id), Values(grants));
    }

    method Reject(id: string)
      requires Valid()
      modifies this
      ensures Valid() && Step(old(View()), capacity, Event.Reject(id), View())
    {
      hide Separate, Dated, Values, EachSteps, SameStanding, Loses;
      if id in grants {
        Lose(id);
        Signal();
        SignalAvailabilityChange();
        SignalLeaseLoss();
      }
      Removed(old(Values(grants)), id, Event.Reject(id), Values(grants));
    }

    method Settle(id: string)
      requires Valid()
      modifies this
      ensures Valid() && Step(old(View()), capacity, Event.Settle(id), View())
    {
      hide Separate, Dated, Values, EachSteps, SameStanding, Loses;
      if id in grants {
        Lose(id);
        Signal();
        SignalAvailabilityChange();
      }
      Removed(old(Values(grants)), id, Event.Settle(id), Values(grants));
    }

    /** Opens a settlement attempt on a confirmed grant, which protects it. */
    method BeginSettlement(id: string, now: nat) returns (begun: bool)
      requires Valid()
      modifies this, grants.Values
      ensures Valid() && Step(old(View()), capacity, Event.BeginSettlement(id, now), View())
      ensures var l := Expired(Lookup(old(Values(grants)), id), now);
        begun <==> l.Some? && l.value.confirmed
    {
      hide Step, Kept, Separate, Dated, Values, Opened;
      ExpireAndSignal(now);
      ghost var mid := View();
      KeptRecords(old(grants), grants);
      ValuesAt(grants, id);
      begun := id in grants && grants[id].confirmed;
      if begun {
        Open(id);
        Signal();
      }
      BegunStep(old(View()), capacity, id, now, mid, View());
    }

    method Open(id: string)
      requires Valid() && id in grants && grants[id].confirmed
      modifies grants[id]
      ensures Valid() && Values(grants) == old(Values(grants))[id := Opened(Lookup(old(Values(grants)), id)).value]
    {
      var current := grants[id];
      ghost var before := Values(grants);
      if !current.Settling() {
        current.responseAt := 0;
        current.responseRejected := false;
      }
      current.attempts := current.attempts + 1;
      SameValues(grants, before[id := current.Value()]);
      hide Values, Separate;
    }

    /** Ends a settlement attempt in failure; the last one decides about the grant. */
    method SettlementFailed(id: string, now: nat)
      requires Valid()
      modifies this, grants.Values
      ensures Valid() && Step(old(View()), capacity, Event.SettlementFailed(id, now), View())
    {
      hide Separate, Dated, Values, SameStanding, Loses, EachSteps;
      ghost var before := Values(grants);
      ValuesAt(grants, id);
      if id in grants && grants[id].Settling() {
        var last := CloseAttempt(id);
        ValuesAt(grants, id);
        if last.Some? {
          Signal();
          if last.value || (grants[id].confirmed && grants[id].expiresAt <= now) {
            Lose(id);
            SignalAvailabilityChange();
            SignalLeaseLoss();
          }
        }
      }
      FailedPointwise(before, id, now, Values(grants));
    }

    /** One attempt fewer; the verdict of the window when it was the last. */
    method CloseAttempt(id: string) returns (rejected: Option<bool>)
      requires Valid() && id in grants && grants[id].Settling()
      modifies grants[id]
      ensures Valid()
      ensures var s := old(grants[id].Value()).settling;
        && rejected == (if s.attempts == 1 then Some(s.responseRejected) else None)
        && Values(grants) == old(Values(grants))[id := old(grants[id].Value()).(settling :=
             if s.attempts == 1 then Settlement(0, 0, false) else s.(attempts := s.attempts - 1))]
    {
      var current := grants[id];
      ghost var before := Values(grants);
      current.attempts := current.attempts - 1;
      if current.Settling() {
        SameValues(grants, before[id := current.Value()]);
        hide Values, Separate;
        return None;
      }
      rejected := Some(current.responseRejected);
      current.responseAt := 0;
      current.responseRejected := false;
      SameValues(grants, before[id := current.Value()]);
      hide Values, Separate;
    }

    /** Starts tracking all of the leases that are not tracked yet, or none. */
    method TrackMany(ids: seq<string>) returns (r: Tracked)
      requires Valid()
      modifies this
      ensures Valid() && Step(old(View()), capacity, Event.Track(ids, r.Added?), View())
      ensures r.Added? ==> NoRepeats(r.ids) && (set id | id in r.ids) == Untracked(old(Values(grants)), ids)
      ensures !r.Added? ==> grants == old(grants)
      ensures r.InvalidLeaseId? <==> exists k :: 0 <= k < |ids| && !ValidLeaseId(ids[k])
    {
      hide Values, Separate, Dated, Joined, Step, Admits, Untracked;
      ghost var before := Values(grants);
      var unique := Unique(ids);
      if unique == None {
        InvalidNotAdmitted(before, capacity, ids);
        NotTracked(old(View()), capacity, ids);
        return InvalidLeaseId;
      }
      var added := Missing(unique.value);
      AdmittedExactly(before, capacity, ids, added);
      if |grants| + |added| > capacity {
        NotTracked(old(View()), capacity, ids);
        return CapacityReached;
      }
      Admit(added);
      TrackedStep(old(View()), capacity, ids, View());
      return Added(added);
    }

    method Admit(added: seq<string>)
      requires Valid() && NoRepeats(added) && forall id :: id in added ==> id !in grants
      modifies this
      ensures Valid() && Joined(old(Values(grants)), (set id | id in added), Values(grants))
      ensures var some := (set id | id in added) != {};
        && availabilityChanges == old(availabilityChanges) + (if some then 1 else 0)
        && leaseLosses == old(leaseLosses) && wake == (old(wake) || some)
    {
      hide Values, Separate, Dated, Joined;
      NoRepeatsSize(added);
      Insert(added);
      if |added| > 0 {
        Signal();
        SignalAvailabilityChange();
      }
    }

    method Track(id: string) returns (r: Tracked)
      requires Valid()
      modifies this
      ensures Valid() && Step(old(View()), capacity, Event.Track([id], r.Added?), View())
    {
      r := TrackMany([id]);
    }

    /** Those of the leases that are not tracked. */
    method Missing(unique: seq<string>) returns (added: seq<string>)
      requires NoRepeats(unique)
      ensures NoRepeats(added) && forall id :: id in added <==> id in unique && id !in grants
    {
      added := [];
      for k := 0 to |unique|
        invariant NoRepeats(added) && forall id :: id in added <==> id in unique[..k] && id !in grants
      {
        if unique[k] !in grants {
          added := added + [unique[k]];
        }
      }
    }

    method Insert(added: seq<string>)
      requires Valid() && NoRepeats(added) && forall id :: id in added ==> id !in grants
      modifies `grants
      ensures Valid() && Joined(old(Values(grants)), (set id | id in added), Values(grants))
    {
      for k := 0 to |added|
        invariant grants.Keys == old(grants).Keys + set id | id in added[..k]
        invariant Separate(grants)
        invariant forall id :: id in grants ==>
          if id in old(grants) then grants[id] == old(grants)[id] else fresh(grants[id]) && grants[id].Value() == NEW_GRANT
      {
        var current := new Grant();
        grants := grants[added[k] := current];
      }
    }

    method Close()
      requires Valid()
      modifies this
      ensures Valid() && Step(old(View()), capacity, Event.Close, View())
    {
      var changed := grants != map[];
      var ids := grants.Keys;
      while ids != {}
        invariant grants.Keys == ids && Kept(old(grants), grants)
        invariant unchanged(`availabilityChanges) && unchanged(`leaseLosses) && unchanged(`wake)
      {
        var id :| id in ids;
        ids := ids - {id};
        Lose(id);
      }
      if changed {
        SignalAvailabilityChange();
      }
      AllClosed(old(Values(grants)), Values(grants));
    }
  }

  lemma StillAhead(before: Grants, now: nat, after: Grants)
    requires EachSteps(before, Observe(now), after)
    ensures forall id :: Exposes(after, id) ==> after[id].expiresAt > now
    ensures forall at :: EarliestExpiry(after, at) ==> at > now
  {
    forall id | Exposes(after, id) ensures after[id].expiresAt > now {
      assert Lookup(after, id) == LeaseStep(id, Lookup(before, id), Observe(now));
    }
  }

  lemma Removed(before: Grants, id: string, e: Event, after: Grants)
    requires e == Event.Settle(id) || e == Event.Revoke(id) || e == Event.Reject(id)
    requires after == before - {id}
    ensures EachSteps(before, e, after)
    ensures SameStanding(before, after) <==> id !in before
    ensures Loses(before, e, after) <==> e.Reject? && id in before
  {
    assert id !in before ==> after == before;
    assert id in before ==> id !in after;
  }

  lemma AllClosed(before: Grants, after: Grants)
    requires after.Keys == {}
    ensures EachSteps(before, Event.Close, after)
    ensures SameStanding(before, after) <==> before == map[]
  {
    if before == map[] { assert after == before; }
    assert before != map[] ==> before.Keys != {};
  }

  lemma {:induction false} NoRepeatsSize(ids: seq<string>)
    requires NoRepeats(ids)
    ensures |set id | id in ids| == |ids|
    ensures (set id | id in ids) != {} <==> |ids| > 0
  {
    if ids == [] {
    } else {
      var front := ids[..|ids| - 1];
      NoRepeatsSize(front);
      assert (set id | id in ids) == (set id | id in front) + {ids[|ids| - 1]};
      assert ids[|ids| - 1] !in front;
    }
  }

  /** Expiry, then one more attempt on the lease if it is there and confirmed. */
  lemma BegunStep(r: Registry, capacity: nat, id: string, now: nat, mid: Registry, s: Registry)
    requires Step(r, capacity, Observe(now), mid)
    requires var begun := id in mid.grants && mid.grants[id].confirmed;
      && s.grants == (if begun then mid.grants[id := Opened(Lookup(mid.grants, id)).value] else mid.grants)
      && s.availability == mid.availability && s.losses == mid.losses && s.wake == (mid.wake || begun)
    ensures Step(r, capacity, Event.BeginSettlement(id, now), s)
    ensures Expired(Lookup(r.grants, id), now) == Lookup(mid.grants, id)
  {
    var e := Event.BeginSettlement(id, now);
    assert s.grants.Keys == mid.grants.Keys;
    assert ConfirmedIds(s.grants) == ConfirmedIds(mid.grants);
    forall other ensures Lookup(s.grants, other) == LeaseStep(other, Lookup(r.grants, other), e) {
      assert Lookup(mid.grants, other) == LeaseStep(other, Lookup(r.grants, other), Observe(now));
    }
    assert Lookup(mid.grants, id) == LeaseStep(id, Lookup(r.grants, id), Observe(now));
  }

  lemma FailedPointwise(before: Grants, id: string, now: nat, after: Grants)
    requires var l := Failed(Lookup(before, id), now);
      after == if l.Some? then before[id := l.value] else before - {id}
    ensures EachSteps(before, Event.SettlementFailed(id, now), after)
    ensures SameStanding(before, after) <==> after.Keys == before.Keys
    ensures Loses(before, Event.SettlementFailed(id, now), after) <==> after.Keys != before.Keys
  {
    OnlyGoing(before, after);
  }

  lemma InvalidNotAdmitted(before: Grants, capacity: nat, ids: seq<string>)
    requires exists k :: 0 <= k < |ids| && !ValidLeaseId(ids[k])
    ensures !Admits(before, capacity, ids)
  {
  }

  lemma AdmittedExactly(before: Grants, capacity: nat, ids: seq<string>, added: seq<string>)
    requires forall k :: 0 <= k < |ids| ==> ValidLeaseId(ids[k])
    requires NoRepeats(added) && forall id :: id in added <==> id in ids && id !in before.Keys
    ensures (set id | id in added) == Untracked(before, ids)
    ensures Admits(before, capacity, ids) <==> |before.Keys| + |added| <= capacity
  {
    assert (set id | id in added) == Untracked(before, ids);
    NoRepeatsSize(added);
    hide NoRepeats;
  }

  lemma NotTracked(r: Registry, capacity: nat, ids: seq<string>)
    requires !Admits(r.grants, capacity, ids)
    ensures Step(r, capacity, Event.Track(ids, false), r)
  {
  }

  lemma TrackedStep(r: Registry, capacity: nat, ids: seq<string>, s: Registry)
    requires Admits(r.grants, capacity, ids) && Joined(r.grants, Untracked(r.grants, ids), s.grants)
    requires var some := Untracked(r.grants, ids) != {};
      s.availability == r.availability + (if some then 1 else 0) && s.losses == r.losses && s.wake == (r.wake || some)
    ensures Step(r, capacity, Event.Track(ids, true), s)
  {
    hide ConfirmedIds, EachSteps, Admits, Untracked, Joined, SameStanding;
    TrackedPointwise(r.grants, ids, s.grants);
    TrackedStanding(r.grants, Untracked(r.grants, ids), s.grants);
  }

  lemma TrackedStanding(before: Grants, news: set<string>, after: Grants)
    requires Joined(before, news, after) && news !! before.Keys
    ensures SameStanding(before, after) <==> news == {}
    ensures forall id :: id in before ==> id in after
  {
    assert ConfirmedIds(after) == ConfirmedIds(before);
    if news != {} {
      var id :| id in news;
      assert id in after.Keys && id !in before.Keys;
    }
  }

  lemma TrackedPointwise(before: Grants, ids: seq<string>, after: Grants)
    requires Joined(before, Untracked(before, ids), after)
    ensures EachSteps(before, Event.Track(ids, true), after)
    ensures Untracked(before, ids) !! before.Keys
  {
    forall id ensures Lookup(after, id) == LeaseStep(id, Lookup(before, id), Event.Track(ids, true)) {
      assert id in after.Keys <==> id in before.Keys || id in Untracked(before, ids);
    }
  }
}
