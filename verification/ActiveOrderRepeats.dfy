/**
 A run of active orders that shows what completing again does not do: a lease that two runs
 complete keeps its first place in the queue, and one more lease can push it out.
 */
module ActiveOrderRepeats {
  import opened Wrappers
  import opened ActiveOrders
  import opened ActiveOrderRuns

  function Of(lease: string): Delivery {
    Delivery(lease, Some(0), 0)
  }

  /** Another lease for each number. */
  function Nth(k: nat): string
    requires k < RECENT_COMPLETED_LEASES
  {
    [(k / 64 + 'A' as int) as char, (k % 64 + 'A' as int) as char]
  }

  function Settling(key: Key): seq<Event> {
    [StartLoop(key, true, true), Enter(key), Return(key, true)]
  }

  /** A lease is claimed and settled at once. */
  function Passing(lease: string): seq<Event> {
    [Claiming("", Of(lease), None)] + Settling(ByLease(lease))
  }

  /** Two runs are claimed under one lease and the first settles; then other leases pass. */
  function Filled(n: nat): seq<Event>
    requires n < RECENT_COMPLETED_LEASES
  {
    if n == 0 then [Claiming("a", Of("l"), None), Claiming("b", Of("l"), None)] + Settling(ByProvenance("a"))
    else Filled(n - 1) + Passing(Nth(n - 1))
  }

  function Listed(n: nat): (recent: seq<string>)
    requires n < RECENT_COMPLETED_LEASES
    ensures |recent| == n + 1 && recent[0] == "l"
  {
    if n == 0 then ["l"] else Listed(n - 1) + [Nth(n - 1)]
  }

  lemma OneMore(events: seq<Event>, e: Event)
    ensures Run(events + [e]) == Next(Run(events), e)
    ensures Completions(events + [e]) == Completions(events) + Completed(Run(events), e)
  {
    assert (events + [e])[..|events|] == events;
  }

  lemma SettlingRuns(events: seq<Event>, key: Key)
    requires key != NoKey && Run(events).loops == map[] && key in Run(events).orders.deliveries
    ensures var s, t := Run(events), Run(events + Settling(key));
      var lease := s.orders.deliveries[key].delivery.leaseId;
      && t.loops == map[]
      && t.orders == Orders(s.orders.deliveries - {key}, Remember(s.orders.recent, lease))
      && Completions(events + Settling(key)) == Completions(events) + [lease]
  {
    hide Run, Completions, Remember;
    var started := events + [StartLoop(key, true, true)];
    var entered := started + [Enter(key)];
    OneMore(events, StartLoop(key, true, true));
    OneMore(started, Enter(key));
    OneMore(entered, Return(key, true));
    assert events + Settling(key) == entered + [Return(key, true)];
    var s := Run(events);
    assert Run(entered).orders.deliveries - {key} == s.orders.deliveries - {key};
    assert Completed(Run(events), StartLoop(key, true, true)) == [] == Completed(Run(entered), Return(key, true));
  }

  lemma PassingRuns(events: seq<Event>, lease: string)
    requires lease != "" && Run(events).loops == map[]
    requires ByLease(lease) !in Run(events).orders.deliveries && lease !in Run(events).orders.recent
    ensures var s, t := Run(events), Run(events + Passing(lease));
      && t.loops == map[] && t.orders == Orders(s.orders.deliveries, Remember(s.orders.recent, lease))
      && Completions(events + Passing(lease)) == Completions(events) + [lease]
  {
    hide Run, Completions, Remember, Settling, Next, Completed;
    var s, claimed := Run(events), events + [Claiming("", Of(lease), None)];
    OneMore(events, Claiming("", Of(lease), None));
    ClaimStarts(s, "", lease);
    SettlingRuns(claimed, ByLease(lease));
    assert events + Passing(lease) == claimed + Settling(ByLease(lease));
    assert Run(claimed).orders.deliveries - {ByLease(lease)} == s.orders.deliveries;
  }

  lemma ClaimStarts(s: System, provenance: string, lease: string)
    requires lease != "" && lease !in s.orders.recent && Identity(provenance, lease) !in s.orders.deliveries
    ensures var e := Claiming(provenance, Of(lease), None);
      var t := Next(s, e);
      && t.loops == s.loops && Completed(s, e) == [] && t.orders.recent == s.orders.recent
      && t.orders.deliveries == s.orders.deliveries[Identity(provenance, lease) := Active(Of(lease), 0, 1, false)]
  {
  }

  lemma NthApart(j: nat, k: nat)
    requires j < RECENT_COMPLETED_LEASES && k < RECENT_COMPLETED_LEASES && Nth(j) == Nth(k)
    ensures j == k
  {
    assert Nth(j)[0] == Nth(k)[0] && Nth(j)[1] == Nth(k)[1];
  }

  lemma {:induction false} NotListed(n: nat, k: nat)
    requires n <= k < RECENT_COMPLETED_LEASES
    ensures Nth(k) !in Listed(n) && "zzz" !in Listed(n) && forall i :: 0 <= i < n ==> Listed(n)[i + 1] == Nth(i)
  {
    if n == 0 {
    } else {
      NotListed(n - 1, k);
      if Nth(n - 1) == Nth(k) { NthApart(n - 1, k); }
    }
  }

  const SECOND := map[ByProvenance("b") := Active(Of("l"), 0, 1, false)]

  /** One lease more passes while the queue is not full. */
  lemma PassingListed(events: seq<Event>, deliveries: map<Key, Active>, listed: seq<string>, lease: string)
    requires Run(events).loops == map[] && Run(events).orders == Orders(deliveries, listed)
    requires Completions(events) == listed && |listed| < RECENT_COMPLETED_LEASES
    requires lease != "" && lease !in listed && ByLease(lease) !in deliveries
    ensures Run(events + Passing(lease)).loops == map[]
    ensures Run(events + Passing(lease)).orders == Orders(deliveries, listed + [lease])
    ensures Completions(events + Passing(lease)) == listed + [lease]
  {
    hide Run, Completions, Passing;
    PassingRuns(events, lease);
  }

  lemma {:induction false} FilledRuns(n: nat)
    requires n < RECENT_COMPLETED_LEASES
    ensures Run(Filled(n)).loops == map[] && Run(Filled(n)).orders == Orders(SECOND, Listed(n))
    ensures Completions(Filled(n)) == Listed(n)
  {
    hide Run, Completions, Passing, Nth;
    if n == 0 {
      FirstSettles();
    } else {
      FilledRuns(n - 1);
      NotListed(n - 1, n - 1);
      NthNamed(n - 1);
      PassingListed(Filled(n - 1), SECOND, Listed(n - 1), Nth(n - 1));
    }
  }

  lemma NthNamed(k: nat)
    requires k < RECENT_COMPLETED_LEASES
    ensures Nth(k) != ""
  {
  }

  lemma FirstSettles()
    ensures Run(Filled(0)).loops == map[] && Run(Filled(0)).orders == Orders(SECOND, ["l"])
    ensures Completions(Filled(0)) == ["l"]
  {
    var one := [Claiming("a", Of("l"), None)];
    var two := one + [Claiming("b", Of("l"), None)];
    assert [] + one == one;
    assert Run([]) == START && Completions([]) == [];
    OneMore([], Claiming("a", Of("l"), None));
    OneMore(one, Claiming("b", Of("l"), None));
    hide Run, Completions, Next, Completed, Settling;
    ClaimStarts(START, "a", "l");
    ClaimStarts(Run(one), "b", "l");
    var both := map[ByProvenance("a") := Active(Of("l"), 0, 1, false)][ByProvenance("b") := Active(Of("l"), 0, 1, false)];
    assert Run(two).orders == Orders(both, []);
    SettlingRuns(two, ByProvenance("a"));
    assert both - {ByProvenance("a")} == SECOND;
    assert Filled(0) == two + Settling(ByProvenance("a"));
  }

  /** With the queue full and the lease its oldest, the second run completes the lease again,
      one other lease completes, and the lease is forgotten: a claim of it starts a run. */
  lemma RepeatedForgottenAtOnce() returns (events: seq<Event>)
    ensures Completions(events) == Listed(RECENT_COMPLETED_LEASES - 1) + ["l"] + ["zzz"]
    ensures "l" !in Run(events).orders.recent
    ensures ClaimOrder(Run(events).orders, "c", Of("l"), None).1 == StartsRun
  {
    var n := RECENT_COMPLETED_LEASES - 1;
    var filled := Filled(n);
    FilledRuns(n);
    NotListed(n, n);
    hide Run, Completions, Filled, Listed;
    SettlingRuns(filled, ByProvenance("b"));
    var again := filled + Settling(ByProvenance("b"));
    assert Run(again).orders == Orders(map[], Listed(n));
    PassingRuns(again, "zzz");
    events := again + Passing("zzz");
    assert Run(events).orders == Orders(map[], Listed(n)[1..] + ["zzz"]);
    forall k | 1 <= k <= n ensures Listed(n)[k] != "l" {
      assert Listed(n)[k - 1 + 1] == Nth(k - 1);
    }
  }
}
