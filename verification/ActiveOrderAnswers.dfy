/**
 What a claim is answered: whether an order starts is told by what is remembered and what runs
 at that moment, and an order starts again only after its run has ended.
 */
module ActiveOrderAnswers {
  import opened Wrappers
  import opened ActiveOrders
  import opened ActiveOrderRuns

  /** Claims meet under one key when they name the same provenance, or name none and the same
      lease; a claim that names neither meets none. */
  lemma KeyTells(p: string, l: string, q: string, m: string)
    ensures Identity(p, l) == NoKey <==> p == "" && l == ""
    ensures Identity(p, l) != NoKey ==>
      (Identity(p, l) == Identity(q, m) <==> p == q && (p == "" ==> l == m))
  {
  }

  /** The order can be identified and its lease is not remembered as completed. */
  predicate Open(o: Orders, d: Delivery) {
    d.definition.Some? && (d.leaseId == "" || d.leaseId !in o.recent)
  }

  /** A run under the key of the claim that is of the same order. */
  predicate SameRun(o: Orders, key: Key, d: Delivery) {
    key in o.deliveries && d.definition == Some(o.deliveries[key].definition)
  }

  /** The claim names another lease than its run, and somebody decides about that. */
  predicate AsksRebinder(o: Orders, key: Key, d: Delivery, rebind: Option<Claim>) {
    SameRun(o, key, d) && d.leaseId != "" && d.leaseId != o.deliveries[key].delivery.leaseId && rebind.Some?
  }

  /** Each answer is given for one reason, and the rebinder's only where it is asked. */
  lemma AnswerTells(o: Orders, provenance: string, d: Delivery, rebind: Option<Claim>)
    ensures var key, answer := Identity(provenance, d.leaseId), ClaimOrder(o, provenance, d, rebind).1;
      if Open(o, d) && key != NoKey && AsksRebinder(o, key, d, rebind) then answer == rebind.value
      else
        && (answer == StartsRun <==> Open(o, d) && (key == NoKey || key !in o.deliveries))
        && (answer == JoinsRun <==> Open(o, d) && key != NoKey && SameRun(o, key, d))
        && (answer == Rejected <==>
              d.definition == None || (Open(o, d) && key != NoKey && key in o.deliveries && !SameRun(o, key, d)))
        && (answer == AlreadyCompleted <==> d.definition.Some? && !Open(o, d))
        && answer != RecoversCompletedRun
  {
  }

  /** A claim that starts a run, or joins one, leaves a run of its order with its delivery. */
  lemma AnswerHolds(o: Orders, provenance: string, d: Delivery, rebind: Option<Claim>)
    requires Identity(provenance, d.leaseId) != NoKey
    requires !AsksRebinder(o, Identity(provenance, d.leaseId), d, rebind)
    requires ClaimOrder(o, provenance, d, rebind).1 in {StartsRun, JoinsRun}
    ensures var key, r := Identity(provenance, d.leaseId), ClaimOrder(o, provenance, d, rebind).0;
      && SameRun(r, key, d) && r.deliveries[key].delivery == d && !r.deliveries[key].settling
      && r.recent == o.recent
      && r.deliveries[key].version == (
           if key !in o.deliveries then 1
           else o.deliveries[key].version
                + if o.deliveries[key].settling || d.leaseId == "" || d.leaseId != o.deliveries[key].delivery.leaseId
                  then 1 else 0)
      && (forall other :: other != key ==>
            (other in r.deliveries <==> other in o.deliveries)
            && (other in r.deliveries ==> r.deliveries[other] == o.deliveries[other]))
  {
  }

  /** Where the rebinder decides, it moves the run to the claim's delivery by recovering it or
      letting the claim join, always past a callback under way, and otherwise changes nothing. */
  lemma RebinderHolds(o: Orders, provenance: string, d: Delivery, rebind: Option<Claim>)
    requires var key := Identity(provenance, d.leaseId);
      Open(o, d) && key != NoKey && AsksRebinder(o, key, d, rebind)
    ensures var key, r := Identity(provenance, d.leaseId), ClaimOrder(o, provenance, d, rebind).0;
      r == if rebind.value in {JoinsRun, RecoversCompletedRun}
           then o.(deliveries := o.deliveries[key := Active(d, d.definition.value, o.deliveries[key].version + 1, false)])
           else o
  {
  }

  // ---------------------------------------------------------------------
  // Over a run

  /** The claim among the events at `i` is answered that its order starts, and not because
      the rebinder says so. */
  predicate StartsAt(events: seq<Event>, i: nat, key: Key) {
    && i < |events| && events[i].Claiming? && key != NoKey
    && Identity(events[i].provenance, events[i].d.leaseId) == key && events[i].rebind != Some(StartsRun)
    && ClaimOrder(Run(events[..i]).orders, events[i].provenance, events[i].d, events[i].rebind).1 == StartsRun
  }

  lemma RunMore(events: seq<Event>, k: nat)
    requires k < |events|
    ensures Run(events[..k + 1]) == Next(Run(events[..k]), events[k])
  {
    assert events[..k + 1][..k] == events[..k];
  }

  /** A run that is there stays, or its deletion is logged. */
  lemma StepKeepsRun(s: System, e: Event, key: Key)
    requires key in s.orders.deliveries
    ensures var t := Next(s, e);
      s.log <= t.log && (key !in t.orders.deliveries ==> |t.log| > |s.log| && t.log[|s.log|] == Deleted(key))
  {
    if e.Claiming? { JoinShape(s.orders, e.provenance, e.d, e.rebind); }
    hide ClaimOrder, Joins;
  }

  lemma LogGrows(s: System, e: Event)
    ensures s.log <= Next(s, e).log
  {
    hide ClaimOrder, Joins;
  }

  /** Deleted between two lengths of the log. */
  ghost predicate DeletedIn(log: seq<Entry>, from: nat, key: Key) {
    exists k :: from <= k < |log| && log[k] == Deleted(key)
  }

  lemma {:induction false} RunStaysUnlessDeleted(events: seq<Event>, i: nat, j: nat, key: Key)
    requires i <= j <= |events| && key in Run(events[..i]).orders.deliveries
    ensures Run(events[..i]).log <= Run(events[..j]).log
    ensures key in Run(events[..j]).orders.deliveries || DeletedIn(Run(events[..j]).log, |Run(events[..i]).log|, key)
  {
    hide Run, Next;
    if i == j {
    } else {
      RunStaysUnlessDeleted(events, i, j - 1, key);
      RunMore(events, j - 1);
      var s, e := Run(events[..j - 1]), events[j - 1];
      LogGrows(s, e);
      if key in s.orders.deliveries {
        StepKeepsRun(s, e, key);
      } else {
        var k :| |Run(events[..i]).log| <= k < |s.log| && s.log[k] == Deleted(key);
        assert Next(s, e).log[k] == Deleted(key);
      }
    }
  }

  lemma StartedRuns(events: seq<Event>, i: nat, key: Key)
    requires StartsAt(events, i, key)
    ensures key !in Run(events[..i]).orders.deliveries && key in Run(events[..i + 1]).orders.deliveries
  {
    RunMore(events, i);
    var o, e := Run(events[..i]).orders, events[i];
    AnswerTells(o, e.provenance, e.d, e.rebind);
    hide Run;
  }

  /** Between two claims of a key that are both answered that the order starts, the run of the
      first has ended. */
  lemma StartsAgainOnlyOnceEnded(events: seq<Event>, i: nat, j: nat, key: Key)
    requires i < j && StartsAt(events, i, key) && StartsAt(events, j, key)
    ensures DeletedIn(Run(events[..j]).log, |Run(events[..i + 1]).log|, key)
  {
    StartedRuns(events, i, key);
    StartedRuns(events, j, key);
    RunStaysUnlessDeleted(events, i + 1, j, key);
  }
}
