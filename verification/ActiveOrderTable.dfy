/**
 The table of active orders: deliveries updated in place, completed leases in a ring, and
 the settle loop, with the claims that arrive while it calls back.
 */
module ActiveOrderTable {
  import opened Wrappers
  import opened ActiveOrders
  import opened ActiveOrderRuns

  datatype ClaimCall = ClaimCall(provenance: string, d: Delivery, rebind: Option<Claim>)

  /** What happens while a callback runs: claims, and how it ends. */
  datatype Interlude = Interlude(claims: seq<ClaimCall>, succeeded: bool)

  ghost function Claims(claims: seq<ClaimCall>, n: nat): seq<Event>
    requires n <= |claims|
  {
    if n == 0 then []
    else Claims(claims, n - 1) + [Claiming(claims[n - 1].provenance, claims[n - 1].d, claims[n - 1].rebind)]
  }

  const QUIET := Interlude([], false)

  /** What happens during a callback of a loop: the script says, and then nothing more. */
  function InterludeAt(script: seq<Interlude>, n: nat): Interlude {
    if n < |script| then script[n] else QUIET
  }

  /** The rounds of a settle loop: enter, the claims that arrive, return. */
  ghost function Rounds(key: Key, script: seq<Interlude>, n: nat): seq<Event> {
    if n == 0 then []
    else
      var interlude := InterludeAt(script, n - 1);
      Rounds(key, script, n - 1) + [Enter(key)] + Claims(interlude.claims, |interlude.claims|)
      + [Return(key, interlude.succeeded)]
  }

  /** The delivery a callback is due when a loop enters. */
  ghost predicate Due(history: seq<Event>, key: Key, d: Delivery) {
    key in Run(history).orders.deliveries && Run(history).orders.deliveries[key].delivery == d
  }

  /** What a loop does: a round for each callback, each with the delivery that was latest
      when it began, the last round's answer being the loop's; or, without a run, nothing. */
  ghost predicate Settled(started: seq<Event>, history: seq<Event>, key: Key, script: seq<Interlude>,
                          succeeded: bool, called: seq<Delivery>)
  {
    && (called == [] ==> history == started + [Enter(key)] && !succeeded)
    && (called != [] ==> history == started + Rounds(key, script, |called|)
                         && succeeded == InterludeAt(script, |called| - 1).succeeded)
    && (forall i :: 0 <= i < |called| ==> Due(started + Rounds(key, script, i), key, called[i]))
  }

  lemma RoundsNone(key: Key, script: seq<Interlude>, history: seq<Event>)
    ensures history + Rounds(key, script, 0) == history
  {
  }

  lemma RoundsMore(key: Key, script: seq<Interlude>, n: nat, history: seq<Event>)
    ensures var interlude := InterludeAt(script, n);
      history + Rounds(key, script, n + 1)
      == history + Rounds(key, script, n) + [Enter(key)] + Claims(interlude.claims, |interlude.claims|)
         + [Return(key, interlude.succeeded)]
  {
    hide InterludeAt, Claims;
  }

  /** Replacing the oldest entry of a full ring drops it from the queue and adds at the end. */
  lemma RingTurns(order: seq<string>, next: nat, id: string)
    requires |order| == RECENT_COMPLETED_LEASES && next < |order|
    ensures var turned := order[next := id];
      var after := (next + 1) % RECENT_COMPLETED_LEASES;
      turned[after..] + turned[..after] == (order[next..] + order[..next])[1..] + [id]
  {
    var turned := order[next := id];
    var queue := (order[next..] + order[..next])[1..] + [id];
    if next + 1 < |order| {
      assert (next + 1) % RECENT_COMPLETED_LEASES == next + 1;
      assert turned[next + 1..] + turned[..next + 1] == queue;
    } else {
      assert (next + 1) % RECENT_COMPLETED_LEASES == 0;
      assert turned[0..] + turned[..0] == queue;
    }
  }

  class OrderTable {
    var deliveries: map<Key, Active>
    var completedLeases: set<string>
    var completedLeaseOrder: seq<string>
    var nextCompletedLeaseSlot: nat

    ghost var history: seq<Event>

    ghost function Machine(): System
      reads `history
    {
      Run(history)
    }

    ghost predicate Ring()
      reads `completedLeases, `completedLeaseOrder, `nextCompletedLeaseSlot
    {
      && |completedLeaseOrder| <= RECENT_COMPLETED_LEASES && NoRepeats(completedLeaseOrder)
      && nextCompletedLeaseSlot < RECENT_COMPLETED_LEASES
      && (|completedLeaseOrder| < RECENT_COMPLETED_LEASES ==> nextCompletedLeaseSlot == 0)
      && completedLeases == Elements(completedLeaseOrder)
    }

    /** The ring read as a queue, oldest first. */
    ghost function Recent(): seq<string>
      reads `completedLeases, `completedLeaseOrder, `nextCompletedLeaseSlot
      requires Ring()
    {
      completedLeaseOrder[nextCompletedLeaseSlot..] + completedLeaseOrder[..nextCompletedLeaseSlot]
    }

    ghost predicate Valid()
      reads this
    {
      Ring() && Machine().orders == Orders(deliveries, Recent())
    }

    constructor ()
      ensures Valid() && history == []
    {
      deliveries, completedLeases, completedLeaseOrder, nextCompletedLeaseSlot := map[], {}, [], 0;
      history := [];
    }

    ghost method Note(e: Event)
      modifies `history
      ensures history == old(history) + [e] && Machine() == Next(old(Machine()), e)
    {
      history := history + [e];
      assert history[..|history| - 1] == old(history);
    }

    method RememberCompletedLease(id: string)
      requires Ring()
      modifies `completedLeases, `completedLeaseOrder, `nextCompletedLeaseSlot
      ensures Ring() && Recent() == Remember(old(Recent()), id)
    {
      if id == "" || id in completedLeases {
        assert id in completedLeases ==> id in Recent();
        return;
      }
      assert id !in Recent();
      if |completedLeaseOrder| < RECENT_COMPLETED_LEASES {
        completedLeaseOrder := completedLeaseOrder + [id];
        completedLeases := completedLeases + {id};
        assert Recent() == old(Recent()) + [id];
      } else {
        RingTurns(completedLeaseOrder, nextCompletedLeaseSlot, id);
        completedLeases := completedLeases - {completedLeaseOrder[nextCompletedLeaseSlot]};
        completedLeaseOrder := completedLeaseOrder[nextCompletedLeaseSlot := id];
        nextCompletedLeaseSlot := (nextCompletedLeaseSlot + 1) % RECENT_COMPLETED_LEASES;
        completedLeases := completedLeases + {id};
        TurnedElements(old(completedLeaseOrder), old(nextCompletedLeaseSlot), id);
      }
    }

    method ClaimOrder(provenance: string, d: Delivery, rebind: Option<Claim>) returns (claim: Claim)
      requires Valid()
      modifies `deliveries, `history
      ensures Valid() && history == old(history) + [Claiming(provenance, d, rebind)]
      ensures claim == ActiveOrderRuns.ClaimOrder(old(Machine()).orders, provenance, d, rebind).1
    {
      hide Run;
      RecentElements(completedLeaseOrder, nextCompletedLeaseSlot);
      Note(Claiming(provenance, d, rebind));
      if d.definition == None {
        return Rejected;
      }
      if LeaseCompleted(d.leaseId) {
        return AlreadyCompleted;
      }
      var key := Identity(provenance, d.leaseId);
      if key == NoKey {
        return StartsRun;
      }
      if key in deliveries {
        claim := ClaimExisting(key, d, rebind);
        return;
      }
      deliveries := deliveries[key := Active(d, d.definition.value, 1, false)];
      return StartsRun;
    }

    predicate LeaseCompleted(id: string)
      reads this
    {
      id != "" && id in completedLeases
    }

    method ClaimExisting(key: Key, d: Delivery, rebind: Option<Claim>) returns (claim: Claim)
      requires key in deliveries && d.definition.Some? && Ring()
      modifies `deliveries
      ensures (Orders(deliveries, Recent()), claim)
              == ActiveOrderRuns.ClaimExisting(old(Orders(deliveries, Recent())), key, d, rebind)
    {
      var current := deliveries[key];
      if current.definition != d.definition.value {
        return Rejected;
      }
      claim := RebindClaim(current, d, rebind);
      if claim != JoinsRun {
        if claim == RecoversCompletedRun {
          current := current.(version := current.version + 1, delivery := d, settling := false);
          deliveries := deliveries[key := current];
        }
        return;
      }
      if current.settling || d.leaseId == "" || d.leaseId != current.delivery.leaseId {
        current := current.(version := current.version + 1);
      }
      current := current.(delivery := d, settling := false);
      deliveries := deliveries[key := current];
    }

    /** Reads the latest delivery under the lock; none when the run is gone. */
    method EnterSettling(key: Key, retain: bool, rememberFailed: bool) returns (current: Option<Active>)
      requires Valid() && key in Machine().loops && Machine().loops[key].calling == None
      requires Machine().loops[key].retain == retain && Machine().loops[key].rememberFailed == rememberFailed
      modifies this
      ensures Valid() && history == old(history) + [Enter(key)]
      ensures current.Some? <==> key in old(deliveries)
      ensures current.Some? ==>
        && key in deliveries && deliveries[key] == current.value == old(deliveries)[key].(settling := true)
        && key in Machine().loops && Machine().loops[key].calling == current
        && Machine().loops[key].retain == retain && Machine().loops[key].rememberFailed == rememberFailed
      ensures current.None? ==> deliveries == old(deliveries)
    {
      hide Run;
      Note(Enter(key));
      if key !in deliveries {
        return None;
      }
      var read := deliveries[key];
      if retain && rememberFailed {
        RememberCompletedLease(read.delivery.leaseId);
      }
      read := read.(settling := true);
      deliveries := deliveries[key := read];
      return Some(read);
    }

    /** After the callback: the run is deleted unless a claim has moved its version on. */
    method LeaveSettling(key: Key, current: Active, succeeded: bool, retain: bool, rememberFailed: bool) returns (done: bool)
      requires Valid() && key in Machine().loops && Machine().loops[key].calling == Some(current)
      requires Machine().loops[key].retain == retain && Machine().loops[key].rememberFailed == rememberFailed
      modifies this
      ensures Valid() && history == old(history) + [Return(key, succeeded)]
      ensures done <==> key in old(deliveries) && old(deliveries)[key].version == current.version
      ensures done ==> key !in deliveries
      ensures !done ==>
        && deliveries == old(deliveries) && key in Machine().loops
        && Machine().loops[key] == old(Machine()).loops[key].(calling := None)
    {
      hide Run;
      Note(Return(key, succeeded));
      if key in deliveries && deliveries[key].version == current.version {
        deliveries := deliveries - {key};
        if succeeded && retain && !rememberFailed {
          RememberCompletedLease(current.delivery.leaseId);
        }
        return true;
      }
      return false;
    }

    /** The claims of an interlude arrive while the callback runs. */
    method ClaimAll(claims: seq<ClaimCall>)
      requires Valid()
      modifies `deliveries, `history
      ensures Valid() && history == old(history) + Claims(claims, |claims|)
      ensures Machine().loops == old(Machine()).loops && (claims == [] ==> deliveries == old(deliveries))
    {
      hide Run;
      for k := 0 to |claims|
        invariant Valid() && history == old(history) + Claims(claims, k)
        invariant Machine().loops == old(Machine()).loops && (k == 0 ==> deliveries == old(deliveries))
      {
        ghost var before := history;
        var claim := ClaimOrder(claims[k].provenance, claims[k].d, claims[k].rebind);
        ClaimsLeaveLoops(before, Claiming(claims[k].provenance, claims[k].d, claims[k].rebind));
      }
    }

    /** Calls back with the latest delivery until nothing joined during a callback. */
    method SettleWithFailureRetention(provenance: string, fallback: Delivery, retain: bool, rememberFailed: bool,
                                      script: seq<Interlude>) returns (succeeded: bool, called: seq<Delivery>)
      requires Valid() && Identity(provenance, fallback.leaseId) !in Machine().loops
      modifies this
      ensures Valid()
      ensures Identity(provenance, fallback.leaseId) == NoKey ==>
        && called == [fallback] && succeeded == InterludeAt(script, 0).succeeded
        && history == old(history) + [Keyless(retain, rememberFailed, succeeded)]
      ensures var key := Identity(provenance, fallback.leaseId);
        key != NoKey ==>
          && key !in deliveries && (called == [] <==> key !in old(deliveries))
          && Settled(old(history) + [StartLoop(key, retain, rememberFailed)], history, key, script, succeeded, called)
    {
      hide Run, Settled;
      var key := Identity(provenance, fallback.leaseId);
      if key == NoKey {
        called := [fallback];
        succeeded := InterludeAt(script, 0).succeeded;
        Note(Keyless(retain, rememberFailed, succeeded));
        if retain && (succeeded || rememberFailed) {
          RememberCompletedLease(fallback.leaseId);
        }
        return;
      }
      Note(StartLoop(key, retain, rememberFailed));
      succeeded, called := SettleLoop(key, retain, rememberFailed, script);
    }

    /** The rounds of a loop that has started. */
    method SettleLoop(key: Key, retain: bool, rememberFailed: bool, script: seq<Interlude>)
      returns (succeeded: bool, called: seq<Delivery>)
      requires Valid() && key in Machine().loops && Machine().loops[key].calling == None
      requires Machine().loops[key].retain == retain && Machine().loops[key].rememberFailed == rememberFailed
      modifies this
      ensures Valid() && key !in deliveries && (called == [] <==> key !in old(deliveries))
      ensures Settled(old(history), history, key, script, succeeded, called)
    {
      hide Run, Rounds, Due, Next, Ring;
      called := [];
      succeeded := false;
      RoundsNone(key, script, history);
      while true
        invariant Valid() && |called| <= |script| && history == old(history) + Rounds(key, script, |called|)
        invariant key in Machine().loops && Machine().loops[key].calling == None
        invariant Machine().loops[key].retain == retain && Machine().loops[key].rememberFailed == rememberFailed
        invariant called == [] ==> deliveries == old(deliveries) && history == old(history) && !succeeded
        invariant called != [] ==> key in deliveries && key in old(deliveries)
        invariant forall i :: 0 <= i < |called| ==> Due(old(history) + Rounds(key, script, i), key, called[i])
        decreases |script| - |called|
      {
        var done;
        done, succeeded, called := SettleRound(key, retain, rememberFailed, script, called, old(history));
        if done {
          return;
        }
      }
    }

    /** One round of the loop; `done` when the run is gone. */
    method SettleRound(key: Key, retain: bool, rememberFailed: bool, script: seq<Interlude>, called: seq<Delivery>,
                       ghost started: seq<Event>)
      returns (done: bool, succeeds: bool, more: seq<Delivery>)
      requires Valid() && |called| <= |script| && history == started + Rounds(key, script, |called|)
      requires key in Machine().loops && Machine().loops[key].calling == None
      requires Machine().loops[key].retain == retain && Machine().loops[key].rememberFailed == rememberFailed
      modifies this
      ensures Valid() && (done ==> key !in deliveries)
      ensures key !in old(deliveries) ==>
        done && more == called && succeeds == false && history == old(history) + [Enter(key)]
      ensures key in old(deliveries) ==>
        && more == called + [old(deliveries)[key].delivery] && Due(old(history), key, old(deliveries)[key].delivery)
        && succeeds == InterludeAt(script, |called|).succeeded && history == started + Rounds(key, script, |more|)
      ensures !done ==>
        && |more| <= |script| && key in deliveries && key in Machine().loops && Machine().loops[key].calling == None
        && Machine().loops[key].retain == retain && Machine().loops[key].rememberFailed == rememberFailed
    {
      hide Run, Rounds, Claims, Ring, Recent, Next, LoopOk;
      RoundsMore(key, script, |called|, started);
      var current := EnterSettling(key, retain, rememberFailed);
      if current == None {
        return true, false, called;
      }
      more := called + [current.value.delivery];
      var interlude := InterludeAt(script, |called|);
      ClaimAll(interlude.claims);
      RunAwaitsLoop(history, key);
      succeeds := interlude.succeeded;
      done := LeaveSettling(key, current.value, succeeds, retain, rememberFailed);
    }
  }

  lemma TurnedElements(order: seq<string>, k: nat, id: string)
    requires NoRepeats(order) && k < |order| && id !in order
    ensures NoRepeats(order[k := id])
    ensures Elements(order[k := id]) == Elements(order) - {order[k]} + {id}
  {
    var turned := order[k := id];
    forall x ensures x in turned <==> (x in order && x != order[k]) || x == id {
      if x in order && x != order[k] {
        var i :| 0 <= i < |order| && order[i] == x;
        assert turned[i] == x;
      }
      assert turned[k] == id;
    }
  }

  lemma RecentElements(order: seq<string>, next: nat)
    requires next <= |order|
    ensures forall id :: id in order[next..] + order[..next] <==> id in order
  {
    assert order == order[..next] + order[next..];
  }

  lemma ClaimsLeaveLoops(before: seq<Event>, e: Event)
    requires e.Claiming?
    ensures Run(before + [e]).loops == Run(before).loops
  {
    assert (before + [e])[..|before|] == before;
  }

  /** The run of a loop that calls back is still there. */
  lemma RunAwaitsLoop(history: seq<Event>, key: Key)
    requires key in Run(history).loops && Run(history).loops[key].calling.Some?
    ensures key in Run(history).orders.deliveries
  {
    RunKeeps(history);
    assert LoopOk(Run(history).loops[key], key, Run(history).orders.deliveries, Monitored(Run(history).log).value);
  }
}
