/**
 Active orders: claims join runs while settle loops call back outside the lock. The state
 machine interleaves claims and loops of all keys; the class keeps the completed leases in
 a ring, which is a bounded queue seen from outside.
 */
module ActiveOrders {
  import opened Wrappers

  const RECENT_COMPLETED_LEASES := 4096

  /** `definition` is what identifies the order; none when it cannot be identified. */
  datatype Delivery = Delivery(leaseId: string, definition: Option<int>, order: int)

  datatype Key = ByProvenance(provenance: string) | ByLease(leaseId: string) | NoKey

  function Identity(provenance: string, leaseId: string): Key {
    if provenance != "" then ByProvenance(provenance) else if leaseId != "" then ByLease(leaseId) else NoKey
  }

  datatype Active = Active(delivery: Delivery, definition: int, version: nat, settling: bool)

  datatype Claim = StartsRun | JoinsRun | RecoversCompletedRun | AlreadyCompleted | Rejected

  // ---------------------------------------------------------------------
  // Completed leases

  /** The most recently completed leases, oldest first; a lease remembered already keeps its place. */
  function Remember(recent: seq<string>, id: string): seq<string> {
    if id == "" || id in recent then recent
    else if |recent| < RECENT_COMPLETED_LEASES then recent + [id]
    else recent[1..] + [id]
  }

  function RememberAll(recent: seq<string>, ids: seq<string>): seq<string> {
    if ids == [] then recent else Remember(RememberAll(recent, ids[..|ids| - 1]), ids[|ids| - 1])
  }

  lemma {:induction false} RememberAllAppended(recent: seq<string>, a: seq<string>, b: seq<string>)
    ensures RememberAll(recent, a + b) == RememberAll(RememberAll(recent, a), b)
  {
    if b == [] {
      assert a + b == a;
    } else {
      RememberAllAppended(recent, a, b[..|b| - 1]);
      assert (a + b)[..|a + b| - 1] == a + b[..|b| - 1];
    }
  }

  ghost predicate Bounded(recent: seq<string>) {
    NoRepeats(recent) && |recent| <= RECENT_COMPLETED_LEASES && forall k :: 0 <= k < |recent| ==> recent[k] != ""
  }

  lemma RememberBounded(recent: seq<string>, id: string)
    requires Bounded(recent)
    ensures Bounded(Remember(recent, id))
  {
  }

  lemma {:induction false} RememberAllBounded(recent: seq<string>, ids: seq<string>)
    requires Bounded(recent)
    ensures Bounded(RememberAll(recent, ids))
  {
    if ids == [] {
    } else {
      RememberAllBounded(recent, ids[..|ids| - 1]);
      RememberBounded(RememberAll(recent, ids[..|ids| - 1]), ids[|ids| - 1]);
    }
  }

  lemma DistinctWithin(s: seq<string>, bound: set<string>)
    requires NoRepeats(s) && forall k :: 0 <= k < |s| ==> s[k] in bound
    ensures |s| <= |bound|
  {
    if s == [] {
    } else {
      var last := s[|s| - 1];
      DistinctWithin(s[..|s| - 1], bound - {last});
    }
  }

  // ---------------------------------------------------------------------
  // How long a lease is remembered

  /** Those of some completions that were not remembered when they came. */
  function News(recent: seq<string>, ids: seq<string>): (news: seq<string>)
    ensures |news| <= |ids|
  {
    if ids == [] then []
    else
      var front, last := ids[..|ids| - 1], ids[|ids| - 1];
      News(recent, front) + if last == "" || last in RememberAll(recent, front) then [] else [last]
  }

  function Newest(all: seq<string>): seq<string> {
    if |all| <= RECENT_COMPLETED_LEASES then all else all[|all| - RECENT_COMPLETED_LEASES..]
  }

  /** What is remembered is the newest part of what was remembered and what was news since. */
  lemma {:induction false} RemembersNewest(recent: seq<string>, ids: seq<string>)
    requires |recent| <= RECENT_COMPLETED_LEASES
    ensures RememberAll(recent, ids) == Newest(recent + News(recent, ids))
  {
    if ids == [] {
      assert recent + [] == recent;
    } else {
      var front, last := ids[..|ids| - 1], ids[|ids| - 1];
      RemembersNewest(recent, front);
      var was, all := RememberAll(recent, front), recent + News(recent, front);
      assert RememberAll(recent, ids) == Remember(was, last);
      if last == "" || last in was {
        assert News(recent, ids) == News(recent, front);
      } else {
        assert News(recent, ids) == News(recent, front) + [last];
        hide News, RememberAll, Newest, Remember;
        NewestByOne(all, last);
        assert all + [last] == recent + (News(recent, front) + [last]);
      }
    }
  }

  lemma NewestByOne(all: seq<string>, last: string)
    requires last != "" && last !in Newest(all)
    ensures Remember(Newest(all), last) == Newest(all + [last])
  {
  }

  /** How much news the lease at a place of the queue outlasts. */
  function Room(recent: seq<string>, p: nat): nat
    requires p < |recent| <= RECENT_COMPLETED_LEASES
  {
    RECENT_COMPLETED_LEASES - |recent| + p
  }

  /** While there is no more news than the lease outlasts, it is remembered and no news
      itself, and what is news does not repeat. */
  lemma {:induction false} KeptThroughNews(recent: seq<string>, p: nat, ids: seq<string>)
    requires Bounded(recent) && p < |recent| && |News(recent, ids)| <= Room(recent, p)
    ensures recent[p] in RememberAll(recent, ids) && recent[p] !in News(recent, ids)
    ensures NoRepeats(News(recent, ids)) && forall x :: x in News(recent, ids) ==> x in RememberAll(recent, ids)
  {
    RemembersNewest(recent, ids);
    var all := recent + News(recent, ids);
    var drop := |all| - |Newest(all)|;
    assert all[p] == recent[p] && Newest(all)[p - drop] == all[p];
    forall k | 0 <= k < |News(recent, ids)| ensures News(recent, ids)[k] in RememberAll(recent, ids) {
      assert Newest(all)[|recent| + k - drop] == News(recent, ids)[k];
    }
    if ids == [] {
    } else {
      KeptThroughNews(recent, p, ids[..|ids| - 1]);
    }
  }

  /** The piece of news too much: the lease is forgotten at that moment. */
  lemma ForgottenByNews(recent: seq<string>, p: nat, ids: seq<string>)
    requires Bounded(recent) && p < |recent| && ids != []
    requires |News(recent, ids[..|ids| - 1])| == Room(recent, p) < |News(recent, ids)|
    ensures recent[p] !in RememberAll(recent, ids) && NoRepeats(News(recent, ids))
  {
    var front := ids[..|ids| - 1];
    KeptThroughNews(recent, p, front);
    RemembersNewest(recent, ids);
    var all := recent + News(recent, ids);
    assert |all| - RECENT_COMPLETED_LEASES == p + 1;
    forall k | p + 1 <= k < |all| ensures all[k] != recent[p] {
    }
  }

  /** The first completions that hold more news than the lease outlasts. */
  lemma {:induction false} FirstTooMuch(recent: seq<string>, p: nat, ids: seq<string>) returns (k: nat)
    requires Bounded(recent) && p < |recent| && |News(recent, ids)| > Room(recent, p)
    ensures 0 < k <= |ids| && |News(recent, ids[..k - 1])| == Room(recent, p) < |News(recent, ids[..k])|
  {
    hide RememberAll, NoRepeats;
    var n := |ids| - 1;
    if |News(recent, ids[..n])| > Room(recent, p) {
      k := FirstTooMuch(recent, p, ids[..n]);
      assert ids[..n][..k] == ids[..k] && ids[..n][..k - 1] == ids[..k - 1];
    } else {
      k := |ids|;
      assert ids[..k] == ids;
    }
  }

  /** A remembered lease, completed once or often, stays remembered all the while exactly when
      no more news completes than the queue has room for from its place on. */
  lemma KeptExactly(recent: seq<string>, p: nat, ids: seq<string>)
    requires Bounded(recent) && p < |recent|
    ensures (forall k :: 0 <= k <= |ids| ==> recent[p] in RememberAll(recent, ids[..k]))
            <==> |News(recent, ids)| <= Room(recent, p)
  {
    hide News, RememberAll, NoRepeats;
    if |News(recent, ids)| <= Room(recent, p) {
      forall k | 0 <= k <= |ids| ensures recent[p] in RememberAll(recent, ids[..k]) {
        LessNewsBefore(recent, ids, k);
        KeptThroughNews(recent, p, ids[..k]);
      }
    } else {
      var k := FirstTooMuch(recent, p, ids);
      assert ids[..k][..|ids[..k]| - 1] == ids[..k - 1];
      ForgottenByNews(recent, p, ids[..k]);
    }
  }

  lemma {:induction false} LessNewsBefore(recent: seq<string>, ids: seq<string>, k: nat)
    requires k <= |ids|
    ensures News(recent, ids[..k]) <= News(recent, ids)
  {
    if k == |ids| {
      assert ids[..k] == ids;
    } else {
      LessNewsBefore(recent, ids[..|ids| - 1], k);
      assert ids[..|ids| - 1][..k] == ids[..k];
    }
  }

  lemma {:induction false} NewsCompleted(recent: seq<string>, ids: seq<string>)
    ensures forall x :: x in News(recent, ids) ==> x in ids
  {
    if ids == [] {
    } else {
      NewsCompleted(recent, ids[..|ids| - 1]);
    }
  }

  /** A lease that does not complete again is remembered in the end exactly when it was all
      the while. */
  lemma RememberedExactly(recent: seq<string>, p: nat, ids: seq<string>)
    requires Bounded(recent) && p < |recent| && recent[p] !in ids
    ensures recent[p] in RememberAll(recent, ids) <==> |News(recent, ids)| <= Room(recent, p)
  {
    if |News(recent, ids)| <= Room(recent, p) {
      KeptThroughNews(recent, p, ids);
    } else {
      RemembersNewest(recent, ids);
      NewsCompleted(recent, ids);
      var all := recent + News(recent, ids);
      assert forall k :: p < k < |all| ==> all[k] != recent[p];
    }
  }

  /** It outlasts as many distinct further leases, in whatever order and however often. */
  lemma StillRemembered(recent: seq<string>, p: nat, ids: seq<string>)
    requires Bounded(recent) && p < |recent| && |Elements(ids)| <= Room(recent, p)
    ensures |News(recent, ids)| <= Room(recent, p) && recent[p] in RememberAll(recent, ids)
  {
    hide News, RememberAll, NoRepeats;
    if |News(recent, ids)| > Room(recent, p) {
      var k := FirstTooMuch(recent, p, ids);
      assert ids[..k][..|ids[..k]| - 1] == ids[..k - 1];
      ForgottenByNews(recent, p, ids[..k]);
      NewsCompleted(recent, ids[..k]);
      assert forall x :: x in ids[..k] ==> x in Elements(ids);
      DistinctWithin(News(recent, ids[..k]), Elements(ids));
      assert false;
    }
    KeptThroughNews(recent, p, ids);
  }

  /** Leases that are not remembered and do not repeat are all news. */
  lemma {:induction false} FreshNews(recent: seq<string>, ids: seq<string>)
    requires |recent| <= RECENT_COMPLETED_LEASES && NoRepeats(ids)
    requires forall k :: 0 <= k < |ids| ==> ids[k] != "" && ids[k] !in recent
    ensures News(recent, ids) == ids
  {
    if ids == [] {
    } else {
      var front, last := ids[..|ids| - 1], ids[|ids| - 1];
      assert last !in recent + front;
      FreshNews(recent, front);
      hide NoRepeats, Newest, RememberAll;
      RemembersNewest(recent, front);
      NotAmongNewest(recent + front, last);
      assert ids == front + [last];
    }
  }

  lemma NotAmongNewest(all: seq<string>, x: string)
    requires x !in all
    ensures x !in Newest(all)
  {
  }

  /** One fresh lease more pushes it out: the bound is exact. */
  lemma PushedOut(recent: seq<string>, p: nat, ids: seq<string>)
    requires Bounded(recent) && p < |recent| && |ids| > Room(recent, p) && NoRepeats(ids)
    requires forall k :: 0 <= k < |ids| ==> ids[k] != "" && ids[k] !in recent
    ensures recent[p] !in RememberAll(recent, ids)
  {
    FreshNews(recent, ids);
    assert recent[p] !in ids;
    RememberedExactly(recent, p, ids);
  }

  // ---------------------------------------------------------------------
  // Exactly how many distinct leases

  function Marks(n: nat): string {
    if n == 0 then "" else Marks(n - 1) + "x"
  }

  lemma {:induction false} MarksLength(n: nat)
    ensures |Marks(n)| == n
  {
    if n == 0 {
    } else {
      MarksLength(n - 1);
    }
  }

  function Longest(ids: seq<string>): nat {
    if ids == [] then 0
    else
      var rest := Longest(ids[..|ids| - 1]);
      if |ids[|ids| - 1]| > rest then |ids[|ids| - 1]| else rest
  }

  lemma {:induction false} NoneLonger(ids: seq<string>)
    ensures forall k :: 0 <= k < |ids| ==> |ids[k]| <= Longest(ids)
  {
    if ids == [] {
    } else {
      NoneLonger(ids[..|ids| - 1]);
    }
  }

  /** Any number of leases that are not remembered. */
  lemma FreshLeases(recent: seq<string>, n: nat) returns (ids: seq<string>)
    ensures |ids| == n && NoRepeats(ids) && forall k :: 0 <= k < n ==> ids[k] != "" && ids[k] !in recent
  {
    var long := Longest(recent);
    NoneLonger(recent);
    ids := seq(n, k requires 0 <= k < n => Marks(long + 1 + k));
    forall k | 0 <= k < n ensures |ids[k]| == long + 1 + k {
      MarksLength(long + 1 + k);
    }
  }

  /** The lease at a place of the queue is sure to be remembered after the completions of some
      number of distinct leases exactly when that number is within its room. */
  lemma SurvivesExactly(recent: seq<string>, p: nat, n: nat)
    requires Bounded(recent) && p < |recent|
    ensures (forall ids :: |Elements(ids)| <= n ==> recent[p] in RememberAll(recent, ids)) <==> n <= Room(recent, p)
  {
    if n <= Room(recent, p) {
      forall ids | |Elements(ids)| <= n ensures recent[p] in RememberAll(recent, ids) {
        StillRemembered(recent, p, ids);
      }
    } else {
      var ids := FreshLeases(recent, n);
      PushedOut(recent, p, ids);
      ElementsAtMost(ids);
    }
  }

  lemma {:induction false} ElementsAtMost(ids: seq<string>)
    ensures |Elements(ids)| <= |ids|
  {
    if ids == [] {
    } else {
      var front := ids[..|ids| - 1];
      ElementsAtMost(front);
      assert Elements(ids) == Elements(front) + {ids[|ids| - 1]};
    }
  }

  /** A lease just completed for the first time outlasts all but one of the capacity; in a
      full queue the oldest, even completing again, outlasts none. */
  lemma RoomAtTheEnds(recent: seq<string>, id: string, other: string)
    requires Bounded(recent) && recent != []
    ensures id != "" && id !in recent ==>
      var now := Remember(recent, id);
      now[|now| - 1] == id && Room(now, |now| - 1) == RECENT_COMPLETED_LEASES - 1
    ensures |recent| == RECENT_COMPLETED_LEASES && other != "" && other !in recent ==>
      Room(recent, 0) == 0 && recent[0] !in RememberAll(recent, [recent[0], other])
  {
    var again := [recent[0], other];
    assert again[..1] == [recent[0]] && [recent[0]][..0] == [];
    assert RememberAll(recent, [recent[0]]) == Remember(recent, recent[0]) == recent;
    assert RememberAll(recent, again) == Remember(recent, other);
  }
}
