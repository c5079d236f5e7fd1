/**
 What holds of lease grants over every run: the expiry a lease ends up with, what an open
 settlement attempt protects, what the signals tell, and when the watcher wakes.
 */
module GrantRuns {
  import opened Wrappers
  import opened GrantSpec
  import opened LeaseIdentity

  // ---------------------------------------------------------------------
  // The story of one lease

  /** A grant with its history: the answers that renewed it; and since a settlement attempt
      last found none open, how many attempts began and failed, the answers heard, and when
      the renewal before it was asked for. */
  datatype Chronicle = Chronicle(grant: GrantState, applied: seq<Answer>, window: seq<Answer>, floor: nat,
                                 begun: nat, failed: nat) {
    /** More attempts have begun than failed. */
    predicate Open() {
      begun > failed
    }
  }

  ghost function GrantOf(c: Option<Chronicle>): Lease {
    if c.Some? then Some(c.value.grant) else None
  }

  ghost predicate Asks(e: Event, id: string) {
    e.Renew? && id in e.requested
  }

  /** The request began before one whose answer renewed the grant, or, while an attempt is
      open, before one whose answer counts for the window. */
  ghost predicate Late(c: Chronicle, a: Answer) {
    || (exists k :: 0 <= k < |c.applied| && a.started < c.applied[k].started)
    || (c.Open() && exists k :: 0 <= k < |c.window| && c.floor <= c.window[k].started && a.started < c.window[k].started)
  }

  /** The answer says the lease is renewed for a time that is not over; and a grant renewed
      before and not protected was not yet over when its request began. */
  ghost predicate Extends(c: Chronicle, a: Answer) {
    && !Late(c, a) && a.accepted && a.timeToLive > 0 && a.started + a.timeToLive > a.now
    && (c.applied != [] && !c.Open() ==>
          exists k :: 0 <= k < |c.applied| && a.started < c.applied[k].started + c.applied[k].timeToLive)
  }

  /** History goes on by what happens and by what happened before. */
  ghost function Recorded(id: string, c: Option<Chronicle>, e: Event): Option<Chronicle> {
    var l := LeaseStep(id, GrantOf(c), e);
    if l == None then None
    else if c == None then Some(Chronicle(l.value, [], [], 0, 0, 0))
    else
      var was := c.value;
      if Asks(e, id) then
        var a := AnswerTo(id, e);
        Some(was.(grant := l.value, applied := if Extends(was, a) then was.applied + [a] else was.applied,
                  window := was.window + [a]))
      else if e.BeginSettlement? && e.id == id && was.applied != [] then
        if was.Open() then Some(was.(grant := l.value, begun := was.begun + 1))
        else Some(Chronicle(l.value, was.applied, [], was.applied[|was.applied| - 1].started, 1, 0))
      else if e.SettlementFailed? && e.id == id && was.Open() then
        Some(was.(grant := l.value, failed := was.failed + 1))
      else Some(was.(grant := l.value))
  }

  /** The story of a lease after some events; none while it is not tracked. */
  ghost function Story(id: string, events: seq<Event>): Option<Chronicle> {
    if events == [] then None
    else Recorded(id, Story(id, events[..|events| - 1]), events[|events| - 1])
  }

  // ---------------------------------------------------------------------
  // Renewals

  /** The expiry is the maximum of request start plus time to live over the answers that
      renewed the grant, and the renewal time is the start of the last of them. */
  ghost predicate Renewed(g: GrantState, applied: seq<Answer>) {
    && (g.confirmed <==> applied != [])
    && (forall k :: 0 <= k < |applied| ==>
          applied[k].Live() && applied[k].started <= g.renewedAt && applied[k].Deadline() <= g.expiresAt)
    && (forall j, k :: 0 <= j < k < |applied| ==> applied[j].started <= applied[k].started)
    && (applied != [] ==> applied[|applied| - 1].started == g.renewedAt)
    && (applied != [] ==> exists k :: 0 <= k < |applied| && applied[k].Deadline() == g.expiresAt)
    && (applied == [] ==> g.expiresAt == 0 && g.renewedAt == 0)
  }

  /** Among the answers to requests not older than the renewal when the window opened, the
      one whose request began last; of several, the one that came last. */
  ghost predicate Newest(window: seq<Answer>, floor: nat, k: int) {
    && 0 <= k < |window| && window[k].started >= floor
    && forall j :: 0 <= j < |window| && window[j].started >= floor ==>
         window[j].started < window[k].started || (window[j].started == window[k].started && j <= k)
  }

  ghost predicate NewestWasLive(window: seq<Answer>, floor: nat) {
    forall k :: Newest(window, floor, k) ==> window[k].Live()
  }

  /** What the grant remembers of the open window is the newest answer in it. */
  ghost predicate Windowed(g: GrantState, window: seq<Answer>, floor: nat) {
    var s := g.settling;
    if s.Active() then
      && g.confirmed && floor <= g.renewedAt
      && (g.renewedAt > floor ==> g.renewedAt <= s.responseAt)
      && if forall k :: 0 <= k < |window| ==> window[k].started < floor
         then s.responseAt == 0 && !s.responseRejected
         else exists k :: Newest(window, floor, k) && s.responseAt == window[k].started
                          && s.responseRejected == !window[k].Live()
    else s == Settlement(0, 0, false)
  }

  /** The grant is what its history says; the attempts it counts are those begun and not failed. */
  ghost predicate Sound(c: Chronicle) {
    && Renewed(c.grant, c.applied) && Windowed(c.grant, c.window, c.floor)
    && c.failed <= c.begun && c.grant.settling.attempts == c.begun - c.failed
  }

  lemma LateIsStale(c: Chronicle, a: Answer)
    requires Sound(c)
    ensures Late(c, a) <==> Stale(c.grant, a)
  {
    var g, n := c.grant, |c.applied|;
    if g.confirmed && a.started < g.renewedAt {
      assert a.started < c.applied[n - 1].started;
    }
    if g.settling.Active() && a.started < g.settling.responseAt {
      var k :| Newest(c.window, c.floor, k) && g.settling.responseAt == c.window[k].started;
      assert c.floor <= c.window[k].started && a.started < c.window[k].started;
    }
    if k :| c.Open() && 0 <= k < |c.window| && c.floor <= c.window[k].started && a.started < c.window[k].started {
      var m :| Newest(c.window, c.floor, m) && g.settling.responseAt == c.window[m].started;
      assert c.window[k].started <= c.window[m].started;
    }
  }

  lemma ExtendsIsRenews(c: Chronicle, a: Answer)
    requires Sound(c)
    ensures Extends(c, a) <==> Renews(c.grant, a)
  {
    LateIsStale(c, a);
    hide Late, Stale, Windowed;
    if c.applied != [] {
      var k :| 0 <= k < |c.applied| && c.applied[k].Deadline() == c.grant.expiresAt;
      assert forall j :: 0 <= j < |c.applied| ==> c.applied[j].started + c.applied[j].timeToLive <= c.grant.expiresAt;
    }
  }

  lemma RenewedStays(g: GrantState, applied: seq<Answer>, a: Answer)
    requires Renewed(g, applied)
    ensures Answered(Some(g), a).Some? ==>
      Renewed(Answered(Some(g), a).value, if Renews(g, a) then applied + [a] else applied)
  {
    if Renews(g, a) {
      var more, h := applied + [a], ApplyRenewal(g, a).0;
      assert forall k :: 0 <= k < |applied| ==> more[k] == applied[k];
      assert more[|applied|] == a;
      assert exists k :: 0 <= k < |more| && more[k].Deadline() == h.expiresAt by {
        if a.Deadline() <= g.expiresAt && applied != [] {
          var k :| 0 <= k < |applied| && applied[k].Deadline() == g.expiresAt;
          assert more[k].Deadline() == h.expiresAt;
        } else {
          assert more[|applied|].Deadline() == h.expiresAt;
        }
      }
    }
  }

  lemma WindowStays(g: GrantState, window: seq<Answer>, floor: nat, a: Answer)
    requires Windowed(g, window, floor) && g.settling.Active()
    ensures Answered(Some(g), a).Some? && Windowed(Answered(Some(g), a).value, window + [a], floor)
  {
    var more, h := window + [a], Answered(Some(g), a).value;
    assert forall k :: 0 <= k < |window| ==> more[k] == window[k];
    assert more[|window|] == a;
    if a.started >= floor && a.started >= g.settling.responseAt {
      assert !Stale(g, a);
      assert Newest(more, floor, |window|);
    } else if exists k :: 0 <= k < |window| && window[k].started >= floor {
      var k :| Newest(window, floor, k) && g.settling.responseAt == window[k].started
               && g.settling.responseRejected == !window[k].Live();
      assert Newest(more, floor, k);
      assert h == g;
    } else {
      assert h == g;
    }
  }

  /** Whatever happens to a lease, its story stays sound. */
  lemma {:induction false} StorySound(id: string, events: seq<Event>)
    ensures Story(id, events).Some? ==> Sound(Story(id, events).value)
  {
    if events == [] {
    } else {
      var n := |events| - 1;
      StorySound(id, events[..n]);
      var c, e := Story(id, events[..n]), events[n];
      if c.Some? { StepSound(id, c.value, e); }
    }
  }

  lemma StepSound(id: string, c: Chronicle, e: Event)
    requires Sound(c)
    ensures Recorded(id, Some(c), e).Some? ==> Sound(Recorded(id, Some(c), e).value)
  {
    if Asks(e, id) {
      AnswerSound(id, c, e);
    } else {
      hide ApplyRenewal, Renewed, Late, Extends;
      assert Renewed(c.grant, c.applied);
      RenewedFacts(c.grant, c.applied);
      var r := Recorded(id, Some(c), e);
      if r.Some? {
        SameRenewal(c.grant, r.value.grant, c.applied);
      }
    }
  }

  lemma RenewedFacts(g: GrantState, applied: seq<Answer>)
    requires Renewed(g, applied)
    ensures g.confirmed <==> applied != []
    ensures applied != [] ==> applied[|applied| - 1].started == g.renewedAt
  {
  }

  lemma SameRenewal(g: GrantState, h: GrantState, applied: seq<Answer>)
    requires Renewed(g, applied)
    requires h.confirmed == g.confirmed && h.renewedAt == g.renewedAt && h.expiresAt == g.expiresAt
    ensures Renewed(h, applied)
  {
  }

  lemma AnswerSound(id: string, c: Chronicle, e: Event)
    requires Sound(c) && Asks(e, id)
    ensures Recorded(id, Some(c), e).Some? ==> Sound(Recorded(id, Some(c), e).value)
  {
    var a := AnswerTo(id, e);
    ExtendsIsRenews(c, a);
    RenewedStays(c.grant, c.applied, a);
    if c.grant.settling.Active() {
      WindowStays(c.grant, c.window, c.floor, a);
    }
    if Answered(Some(c.grant), a).Some? { SettlingStays(c.grant, a); }
    hide ApplyRenewal, Renewed, Renews, Extends, Late;
  }

  lemma SettlingStays(g: GrantState, a: Answer)
    requires Answered(Some(g), a).Some?
    ensures Answered(Some(g), a).value.settling.attempts == g.settling.attempts
    ensures !g.settling.Active() ==> Answered(Some(g), a).value.settling == g.settling
  {
  }

  // ---------------------------------------------------------------------
  // What a story tells

  /** The expiry is the latest deadline any answer gave that renewed the grant, and a
      renewal never moves the renewal time or the expiry back. */
  lemma ExpiryIsMaximum(id: string, events: seq<Event>)
    requires Story(id, events).Some? && Story(id, events).value.grant.confirmed
    ensures var c := Story(id, events).value;
      && (forall k :: 0 <= k < |c.applied| ==> c.applied[k].Deadline() <= c.grant.expiresAt)
      && (exists k :: 0 <= k < |c.applied| && c.applied[k].Deadline() == c.grant.expiresAt)
      && c.applied[|c.applied| - 1].started == c.grant.renewedAt
  {
    hide Story, Windowed;
    StorySound(id, events);
  }

  /** A live answer in time confirms the grant: the request it answers is the last renewal,
      and the expiry is the later of the old one and the new deadline. */
  lemma LiveAnswerConfirms(id: string, events: seq<Event>, e: Event)
    requires Story(id, events).Some? && Asks(e, id) && Extends(Story(id, events).value, AnswerTo(id, e))
    ensures var c, d := Story(id, events).value, Story(id, events + [e]);
      && d.Some? && d.value.grant.confirmed && d.value.grant.renewedAt == e.started
      && d.value.grant.expiresAt >= e.started + e.timeToLive
      && d.value.grant.expiresAt in {c.grant.expiresAt, e.started + e.timeToLive}
      && d.value.applied == c.applied + [AnswerTo(id, e)]
  {
    hide Story, LeaseStep, Windowed, Late, NewestWasLive;
    var c, a := Story(id, events).value, AnswerTo(id, e);
    Fate(id, events, e);
    assert (c.applied + [a])[|c.applied|] == a;
    StoryMore(id, events, e);
    StorySound(id, events);
    StorySound(id, events + [e]);
    ExtendsIsRenews(c, a);
    AnswerExpiry(id, c.grant, e);
    RecordedGrant(id, Some(c), e);
    hide Extends, Renews;
    RenewedFacts(Story(id, events + [e]).value.grant, c.applied + [a]);
  }

  lemma AnswerExpiry(id: string, g: GrantState, e: Event)
    requires Asks(e, id) && Renews(g, AnswerTo(id, e))
    ensures var l := LeaseStep(id, Some(g), e);
      l.Some? ==>
        l.value.expiresAt >= e.started + e.timeToLive && l.value.expiresAt in {g.expiresAt, e.started + e.timeToLive}
  {
  }

  lemma NothingMovesBack(id: string, events: seq<Event>, e: Event)
    requires Story(id, events).Some? && Story(id, events + [e]).Some?
    ensures var g, h := Story(id, events).value.grant, Story(id, events + [e]).value.grant;
      h.renewedAt >= g.renewedAt && h.expiresAt >= g.expiresAt && (g.confirmed ==> h.confirmed)
  {
    hide Story, Extends, Late, LeaseStep;
    StorySound(id, events);
    StoryMore(id, events, e);
    StepForward(id, Story(id, events).value.grant, e);
  }

  lemma StepForward(id: string, g: GrantState, e: Event)
    requires !g.confirmed ==> g.renewedAt == 0
    ensures var l := LeaseStep(id, Some(g), e);
      l.Some? ==> l.value.renewedAt >= g.renewedAt && l.value.expiresAt >= g.expiresAt && (g.confirmed ==> l.value.confirmed)
  {
  }

  /** An answer to a request begun before the last renewal changes nothing about the grant,
      beyond the check of its expiry that every answer brings. */
  lemma StaleAnswerIgnored(id: string, events: seq<Event>, e: Event)
    requires Story(id, events).Some? && Asks(e, id)
    requires exists k :: 0 <= k < |Story(id, events).value.applied| &&
                         e.started < Story(id, events).value.applied[k].started
    ensures LeaseStep(id, GrantOf(Story(id, events)), e) == Expired(GrantOf(Story(id, events)), e.now)
  {
    StorySound(id, events);
  }

  /** When the node extends a lease from the moment it handles each request, a confirmed
      grant without an open settlement attempt is gone before the node gives the lease up. */
  lemma NeverOutlivesNode(id: string, events: seq<Event>, now: nat, handled: seq<nat>, nodeDeadline: int)
    requires var c := Story(id, events + [Observe(now)]);
      && c.Some? && c.value.grant.Exposed() && |handled| == |c.value.applied|
      && forall k :: 0 <= k < |handled| ==>
           c.value.applied[k].started <= handled[k] && handled[k] + c.value.applied[k].timeToLive <= nodeDeadline
    ensures now < nodeDeadline
  {
    var all := events + [Observe(now)];
    StorySound(id, all);
    assert all[..|events|] == events;
    var c := Story(id, all).value;
    var k :| 0 <= k < |c.applied| && c.applied[k].Deadline() == c.grant.expiresAt;
    assert handled[k] + c.applied[k].timeToLive <= nodeDeadline;
  }

  /** Steps that end a lease outright, and the failure of the last settlement attempt. */
  predicate Ends(id: string, e: Event) {
    e.Close? || ((e.Settle? || e.Revoke? || e.Reject?) && e.id == id)
  }

  /** The failure of the last attempt that is open. */
  ghost predicate FailsLast(id: string, c: Chronicle, e: Event) {
    e.SettlementFailed? && e.id == id && c.begun == c.failed + 1
  }

  /** Every event that reads the clock. */
  predicate Checks(e: Event) {
    e.Renew? || e.Observe? || e.BeginSettlement?
  }

  ghost predicate OverAt(applied: seq<Answer>, now: int) {
    applied != [] && forall k :: 0 <= k < |applied| ==> applied[k].started + applied[k].timeToLive <= now
  }

  /** How a lease comes to an end, in terms of its history: outright; by an answer that is not
      late and does not extend it, or by the clock, both only while no attempt is open; or
      when the last attempt fails, unless the newest answer heard since was live and the
      lease is not over. */
  ghost predicate Falls(id: string, c: Chronicle, e: Event) {
    || Ends(id, e)
    || (!c.Open() && Asks(e, id) && !Late(c, AnswerTo(id, e)) && !Extends(c, AnswerTo(id, e)))
    || (!c.Open() && Checks(e)
        && OverAt(if Asks(e, id) && Extends(c, AnswerTo(id, e)) then c.applied + [AnswerTo(id, e)] else c.applied, e.now))
    || (FailsLast(id, c, e) && !(NewestWasLive(c.window, c.floor) && !OverAt(c.applied, e.now)))
  }

  lemma OverMeansExpired(g: GrantState, applied: seq<Answer>, now: int)
    requires Renewed(g, applied)
    ensures OverAt(applied, now) <==> g.confirmed && g.expiresAt <= now
  {
    if g.confirmed {
      var k :| 0 <= k < |applied| && applied[k].Deadline() == g.expiresAt;
      assert applied[k].started + applied[k].timeToLive == g.expiresAt;
    }
  }

  /** A tracked lease ends exactly in those ways. */
  lemma Fate(id: string, events: seq<Event>, e: Event)
    requires Story(id, events).Some?
    ensures Story(id, events + [e]) == None <==> Falls(id, Story(id, events).value, e)
  {
    hide Story, Recorded, Falls, Sound;
    StorySound(id, events);
    StoryMore(id, events, e);
    if Asks(e, id) {
      AnswerFate(id, Story(id, events).value, e);
    } else {
      OtherFate(id, Story(id, events).value, e);
    }
  }

  lemma StoryMore(id: string, events: seq<Event>, e: Event)
    ensures Story(id, events + [e]) == Recorded(id, Story(id, events), e)
  {
    assert (events + [e])[..|events|] == events;
  }

  lemma AnswerFate(id: string, c: Chronicle, e: Event)
    requires Sound(c) && Asks(e, id)
    ensures Recorded(id, Some(c), e) == None <==> Falls(id, c, e)
  {
    var a := AnswerTo(id, e);
    LateIsStale(c, a);
    ExtendsIsRenews(c, a);
    RenewedStays(c.grant, c.applied, a);
    hide Late, Extends, Windowed, Renewed, OverAt, Stale, Renews;
    if Answered(Some(c.grant), a).Some? {
      SettlingStays(c.grant, a);
      OverMeansExpired(Answered(Some(c.grant), a).value, if Renews(c.grant, a) then c.applied + [a] else c.applied, e.now);
    }
  }

  lemma OtherFate(id: string, c: Chronicle, e: Event)
    requires Sound(c) && !Asks(e, id)
    ensures Recorded(id, Some(c), e) == None <==> Falls(id, c, e)
  {
    hide Renewed, OverAt, NewestWasLive, Windowed;
    if Checks(e) || e.SettlementFailed? { OverMeansExpired(c.grant, c.applied, e.now); }
    if c.Open() {
      RejectedMeansNotLive(c);
      OpenConfirmed(c);
    }
  }

  lemma OpenConfirmed(c: Chronicle)
    requires Sound(c) && c.Open()
    ensures c.grant.confirmed
  {
  }

  /** It comes to be tracked only with an admitted batch. */
  lemma Appears(id: string, events: seq<Event>, e: Event)
    requires Story(id, events) == None
    ensures Story(id, events + [e]).Some? <==> e.Track? && e.admitted && id in e.ids
  {
    assert (events + [e])[..|events|] == events;
  }

  ghost function Begins(id: string, events: seq<Event>): nat {
    if events == [] then 0
    else
      var last := events[|events| - 1];
      Begins(id, events[..|events| - 1]) + if last.BeginSettlement? && last.id == id then 1 else 0
  }

  ghost function Failures(id: string, events: seq<Event>): nat {
    if events == [] then 0
    else
      var last := events[|events| - 1];
      Failures(id, events[..|events| - 1]) + if last.SettlementFailed? && last.id == id then 1 else 0
  }

  /** From an attempt begun on a confirmed grant with none open, until as many have failed as
      began, no answer and no expiry removes the grant, and the attempts open are those begun
      and not failed, by the events alone. */
  lemma {:induction false} ProtectedStays(id: string, front: seq<Event>, begin: Event, rest: seq<Event>)
    requires begin.BeginSettlement? && begin.id == id && Story(id, front).Some?
    requires var c := Story(id, front).value;
      !c.Open() && c.applied != [] && !OverAt(c.applied, begin.now)
    requires forall k :: 0 <= k < |rest| ==> !Ends(id, rest[k])
    requires forall n :: 0 <= n <= |rest| ==> Failures(id, rest[..n]) <= Begins(id, rest[..n])
    ensures var c := Story(id, front + [begin] + rest);
      c.Some? && c.value.grant.confirmed
      && c.value.grant.settling.attempts == c.value.begun - c.value.failed
      && c.value.begun == 1 + Begins(id, rest) && c.value.failed == Failures(id, rest)
  {
    hide Story, Recorded, Falls, Sound, OverAt;
    if rest == [] {
      FirstOpens(id, front, begin);
      assert front + [begin] + rest == front + [begin];
    } else {
      var n := |rest| - 1;
      var before, e := front + [begin] + rest[..n], rest[n];
      forall m | 0 <= m <= n ensures Failures(id, rest[..n][..m]) <= Begins(id, rest[..n][..m]) {
        assert rest[..n][..m] == rest[..m];
      }
      assert rest[..|rest|] == rest;
      ProtectedStays(id, front, begin, rest[..n]);
      assert front + [begin] + rest == before + [e];
      OpenStays(id, before, e);
    }
  }

  lemma FirstOpens(id: string, front: seq<Event>, begin: Event)
    requires begin.BeginSettlement? && begin.id == id && Story(id, front).Some?
    requires var c := Story(id, front).value;
      !c.Open() && c.applied != [] && !OverAt(c.applied, begin.now)
    ensures var d := Story(id, front + [begin]);
      && d.Some? && d.value.begun == 1 && d.value.failed == 0 && d.value.grant.confirmed && d.value.grant.settling.attempts == 1
  {
    hide Story, OverAt, NewestWasLive, Extends, Late;
    Fate(id, front, begin);
    StoryMore(id, front, begin);
    StorySound(id, front + [begin]);
    OpenConfirmed(Story(id, front + [begin]).value);
  }

  /** An open attempt and one more event that is not the end of it. */
  lemma OpenStays(id: string, before: seq<Event>, e: Event)
    requires Story(id, before).Some? && Story(id, before).value.Open() && !Ends(id, e)
    requires !FailsLast(id, Story(id, before).value, e)
    ensures var c, d := Story(id, before).value, Story(id, before + [e]);
      && d.Some? && d.value.Open() && d.value.grant.confirmed
      && d.value.grant.settling.attempts == d.value.begun - d.value.failed
      && d.value.begun == c.begun + (if e.BeginSettlement? && e.id == id then 1 else 0)
      && d.value.failed == c.failed + (if e.SettlementFailed? && e.id == id then 1 else 0)
  {
    hide Story, OverAt, NewestWasLive, Extends, Late, Recorded;
    Fate(id, before, e);
    StoryMore(id, before, e);
    StorySound(id, before);
    StorySound(id, before + [e]);
    OpenGoesOn(id, Story(id, before), e);
    OpenConfirmed(Story(id, before + [e]).value);
  }

  /** What an event adds to the counts while an attempt is open. */
  lemma OpenGoesOn(id: string, c: Option<Chronicle>, e: Event)
    requires c.Some? && Sound(c.value) && c.value.Open() && Recorded(id, c, e).Some?
    ensures var d := Recorded(id, c, e).value;
      && d.begun == c.value.begun + (if e.BeginSettlement? && e.id == id then 1 else 0)
      && d.failed == c.value.failed + (if e.SettlementFailed? && e.id == id then 1 else 0)
  {
    OpenConfirmed(c.value);
  }

  /** When the last attempt fails, the grant is kept exactly when the newest answer since the
      first attempt was live, or there was none, and its expiry is still to come. */
  lemma LastFailure(id: string, events: seq<Event>, now: nat)
    requires var c := Story(id, events); c.Some? && c.value.begun == c.value.failed + 1
    ensures var c := Story(id, events).value;
      Story(id, events + [SettlementFailed(id, now)]).Some?
      <==> NewestWasLive(c.window, c.floor) && exists k :: 0 <= k < |c.applied| && c.applied[k].Deadline() > now
  {
    StorySound(id, events);
    Fate(id, events, SettlementFailed(id, now));
    OpenConfirmed(Story(id, events).value);
  }

  lemma RejectedMeansNotLive(c: Chronicle)
    requires c.grant.settling.Active() && Windowed(c.grant, c.window, c.floor)
    ensures c.grant.settling.responseRejected <==> !NewestWasLive(c.window, c.floor)
  {
    if k :| Newest(c.window, c.floor, k) {
      assert c.window[k].started >= c.floor;
      var m :| Newest(c.window, c.floor, m) && c.grant.settling.responseRejected == !c.window[m].Live();
      forall k | Newest(c.window, c.floor, k) ensures k == m {
        OnlyNewest(c.window, c.floor, k, m);
      }
    }
  }

  lemma OnlyNewest(window: seq<Answer>, floor: nat, k: int, m: int)
    requires Newest(window, floor, k) && Newest(window, floor, m)
    ensures k == m
  {
  }

  // ---------------------------------------------------------------------
  // The registry over a run

  const EMPTY := Registry(map[], 0, 0, false)

  ghost predicate IsRun(states: seq<Registry>, events: seq<Event>, capacity: nat) {
    && |states| == |events| + 1 && states[0] == EMPTY
    && forall i :: 0 <= i < |events| ==> Step(states[i], capacity, events[i], states[i + 1])
  }

  /** Each lease in the registry follows its own story, whatever happens to the others. */
  lemma {:induction false} RegistryFollowsStories(states: seq<Registry>, events: seq<Event>, capacity: nat,
                                                  n: nat, id: string)
    requires IsRun(states, events, capacity) && n <= |events|
    ensures Lookup(states[n].grants, id) == GrantOf(Story(id, events[..n]))
  {
    if n == 0 {
    } else {
      hide LeaseStep, Recorded, Story, SameStanding, Loses, Wakes;
      RegistryFollowsStories(states, events, capacity, n - 1, id);
      assert Step(states[n - 1], capacity, events[n - 1], states[n]);
      assert events[..n] == events[..n - 1] + [events[n - 1]];
      StoryMore(id, events[..n - 1], events[n - 1]);
      RecordedGrant(id, Story(id, events[..n - 1]), events[n - 1]);
    }
  }

  lemma RecordedGrant(id: string, c: Option<Chronicle>, e: Event)
    ensures GrantOf(Recorded(id, c, e)) == LeaseStep(id, GrantOf(c), e)
  {
    hide LeaseStep, Extends, Late;
  }

  /** Never more leases than the capacity, and an admitted batch is tracked as a whole. */
  lemma {:induction false} WithinCapacity(states: seq<Registry>, events: seq<Event>, capacity: nat, n: nat)
    requires IsRun(states, events, capacity) && n <= |events|
    ensures |states[n].grants| <= capacity
  {
    if n == 0 {
    } else {
      WithinCapacity(states, events, capacity, n - 1);
      assert Step(states[n - 1], capacity, events[n - 1], states[n]);
      hide EachSteps, SameStanding, Loses, Wakes, Untracked;
      StepKeys(states[n - 1].grants, events[n - 1], states[n].grants);
      if events[n - 1].Track? {
        UnionSize(states[n - 1].grants.Keys, Untracked(states[n - 1].grants, events[n - 1].ids));
      } else {
        SubsetSize(states[n].grants.Keys, states[n - 1].grants.Keys);
      }
    }
  }

  /** A batch is admitted exactly when its identifiers are valid and the leases tracked with
      those of the batch are no more than the capacity. */
  lemma AdmittedWhenItFits(r: Registry, capacity: nat, ids: seq<string>, admitted: bool, s: Registry)
    requires Step(r, capacity, Track(ids, admitted), s)
    ensures admitted <==>
      (forall k :: 0 <= k < |ids| ==> ids[k] != "" && |ids[k]| <= 256) && |r.grants.Keys + set id | id in ids| <= capacity
    ensures admitted ==> s.grants.Keys == r.grants.Keys + set id | id in ids
    ensures !admitted ==> s.grants.Keys == r.grants.Keys
  {
    hide EachSteps, SameStanding, Loses, Wakes, Admits, Untracked;
    StepKeys(r.grants, Track(ids, admitted), s.grants);
    BatchFits(r.grants, capacity, ids);
  }

  lemma BatchFits(grants: Grants, capacity: nat, ids: seq<string>)
    ensures Admits(grants, capacity, ids) <==>
      (forall k :: 0 <= k < |ids| ==> ids[k] != "" && |ids[k]| <= 256) && |grants.Keys + set id | id in ids| <= capacity
    ensures grants.Keys + Untracked(grants, ids) == grants.Keys + set id | id in ids
  {
    var more := Untracked(grants, ids);
    assert grants.Keys + more == grants.Keys + set id | id in ids;
    hide Untracked;
    assert grants.Keys !! more by { NoneTracked(grants, ids); }
    DisjointSize(grants.Keys, more);
    assert |grants.Keys| == |grants|;
  }

  lemma NoneTracked(grants: Grants, ids: seq<string>)
    ensures grants.Keys !! Untracked(grants, ids)
  {
  }

  lemma DisjointSize(a: set<string>, b: set<string>)
    requires a !! b
    ensures |a + b| == |a| + |b|
  {
  }

  /** Tracking adds all of the batch or none; nothing else adds a lease. */
  lemma StepKeys(grants: Grants, e: Event, after: Grants)
    requires EachSteps(grants, e, after)
    ensures e.Track? ==> after.Keys == grants.Keys + if e.admitted then Untracked(grants, e.ids) else {}
    ensures !e.Track? ==> after.Keys <= grants.Keys
  {
    forall id ensures id in after.Keys <==> LeaseStep(id, Lookup(grants, id), e).Some? {
      assert Lookup(after, id) == LeaseStep(id, Lookup(grants, id), e);
    }
    hide EachSteps;
    if e.Track? {
      forall id ensures id in after.Keys <==> id in grants.Keys || (e.admitted && id in e.ids) {
      }
    }
  }

  lemma UnionSize(a: set<string>, b: set<string>)
    ensures |a + b| <= |a| + |b|
  {
    assert a + b == a + (b - a);
    SubsetSize(b - a, b);
  }

  // ---------------------------------------------------------------------
  // Signals

  lemma {:induction false} SignalsOnlyGrow(states: seq<Registry>, events: seq<Event>, capacity: nat, i: nat, j: nat)
    requires IsRun(states, events, capacity) && i <= j < |states|
    ensures states[i].availability <= states[j].availability && states[i].losses <= states[j].losses
    decreases j
  {
    if i == j {
    } else {
      SignalsOnlyGrow(states, events, capacity, i, j - 1);
      assert Step(states[j - 1], capacity, events[j - 1], states[j]);
    }
  }

  /** Two observations with the same availability signal see the same leases tracked and the
      same leases confirmed, at both moments and at every moment between. */
  lemma {:induction false} NoMissedAvailability(states: seq<Registry>, events: seq<Event>, capacity: nat,
                                                i: nat, j: nat)
    requires IsRun(states, events, capacity) && i <= j < |states|
    ensures states[i].availability == states[j].availability <==>
      forall k :: i <= k <= j ==> SameStanding(states[i].grants, states[k].grants)
    decreases j
  {
    hide SameStanding, EachSteps, Loses, Wakes;
    StandingReflexive(states[i].grants);
    if i == j {
    } else {
      NoMissedAvailability(states, events, capacity, i, j - 1);
      SignalsOnlyGrow(states, events, capacity, i, j - 1);
      assert Step(states[j - 1], capacity, events[j - 1], states[j]);
      if SameStanding(states[i].grants, states[j - 1].grants) {
        StandingTransitive(states[i].grants, states[j - 1].grants, states[j].grants);
      }
    }
  }

  lemma StandingReflexive(a: Grants)
    ensures SameStanding(a, a)
  {
  }

  lemma StandingTransitive(a: Grants, b: Grants, c: Grants)
    requires SameStanding(a, b)
    ensures SameStanding(a, c) <==> SameStanding(b, c)
  {
  }

  /** A lease is lost when it goes by rejection, by an answer, by the clock or by the failure of
      its last settlement attempt. */
  lemma LossMeans(grants: Grants, e: Event, after: Grants)
    requires EachSteps(grants, e, after)
    ensures Loses(grants, e, after) <==>
      exists id :: id in grants && id !in after
                   && (e.Reject? || e.Renew? || e.Observe? || e.BeginSettlement? || e.SettlementFailed?)
  {
    if e.Track? {
      forall id | id in grants ensures id in after {
        assert Lookup(after, id) == LeaseStep(id, Lookup(grants, id), e);
      }
    }
  }

  /** The loss signal is unchanged exactly when no lease was lost in between. */
  lemma {:induction false} NoMissedLoss(states: seq<Registry>, events: seq<Event>, capacity: nat, i: nat, j: nat)
    requires IsRun(states, events, capacity) && i <= j < |states|
    ensures states[i].losses == states[j].losses <==>
      forall k :: i <= k < j ==> !Loses(states[k].grants, events[k], states[k + 1].grants)
    decreases j
  {
    hide SameStanding, EachSteps, Loses, Wakes;
    if i == j {
    } else {
      NoMissedLoss(states, events, capacity, i, j - 1);
      SignalsOnlyGrow(states, events, capacity, i, j - 1);
      assert Step(states[j - 1], capacity, events[j - 1], states[j]);
    }
  }

  // ---------------------------------------------------------------------
  // The watcher

  datatype Watcher = Awake | Sleeping(until: int) | Blocked | Stopped

  datatype Watched = Watched(r: Registry, watcher: Watcher)

  /** The registry moves, the watcher looks for the next expiry, is woken by the wake signal
      or its timer, or stops. */
  datatype Move = Act(e: Event) | Look(now: nat) | Woken | TimerFired(now: nat) | Stop

  ghost predicate Exposes(grants: Grants, id: string) {
    id in grants && grants[id].Exposed()
  }

  ghost predicate EarliestExpiry(grants: Grants, at: int) {
    && (exists id :: Exposes(grants, id) && grants[id].expiresAt == at)
    && forall id :: Exposes(grants, id) ==> grants[id].expiresAt >= at
  }

  ghost predicate Moves(w: Watched, capacity: nat, m: Move, v: Watched) {
    match m
    case Act(e) => Step(w.r, capacity, e, v.r) && v.watcher == w.watcher
    case Look(now) =>
      && w.watcher.Awake? && Step(w.r, capacity, Observe(now), v.r)
      && if exists id :: Exposes(v.r.grants, id)
         then v.watcher.Sleeping? && EarliestExpiry(v.r.grants, v.watcher.until)
         else v.watcher.Blocked?
    case Woken =>
      && (w.watcher.Sleeping? || w.watcher.Blocked?) && w.r.wake
      && v == Watched(w.r.(wake := false), Awake)
    case TimerFired(now) =>
      && w.watcher.Sleeping? && w.watcher.until <= now
      && Step(w.r, capacity, Observe(now), v.r) && v.watcher == Awake
    case Stop =>
      (w.watcher.Sleeping? || w.watcher.Blocked?) && Step(w.r, capacity, Close, v.r) && v.watcher == Stopped
  }

  /** Asleep with no wake-up pending, the watcher misses no expiry. */
  ghost predicate NoExpiryMissed(w: Watched) {
    !w.r.wake ==>
      forall id :: Exposes(w.r.grants, id) ==>
        !w.watcher.Blocked? && (w.watcher.Sleeping? ==> w.watcher.until <= w.r.grants[id].expiresAt)
  }

  /** Without a wake-up, a lease open to expiry was open to the same expiry before. */
  lemma QuietStep(grants: Grants, e: Event, after: Grants, id: string)
    requires EachSteps(grants, e, after) && !Wakes(grants, e) && Exposes(after, id)
    ensures Exposes(grants, id) && grants[id].expiresAt == after[id].expiresAt
  {
    assert Lookup(after, id) == LeaseStep(id, Lookup(grants, id), e);
  }

  lemma MoveMissesNothing(w: Watched, capacity: nat, m: Move, v: Watched)
    requires NoExpiryMissed(w) && Moves(w, capacity, m, v)
    ensures NoExpiryMissed(v)
  {
    hide EachSteps, SameStanding, Loses;
    if m.Act? && !v.r.wake {
      forall id | Exposes(v.r.grants, id)
        ensures Exposes(w.r.grants, id) && w.r.grants[id].expiresAt == v.r.grants[id].expiresAt
      {
        QuietStep(w.r.grants, m.e, v.r.grants, id);
      }
    }
  }

  ghost predicate IsWatchedRun(states: seq<Watched>, moves: seq<Move>, capacity: nat) {
    && |states| == |moves| + 1 && states[0] == Watched(EMPTY, Awake)
    && forall i :: 0 <= i < |moves| ==> Moves(states[i], capacity, moves[i], states[i + 1])
  }

  /** At every moment of every run: a watcher asleep until some time with no wake-up pending
      has every confirmed, unprotected grant expire no earlier, and one asleep without a
      time has none. */
  lemma {:induction false} WatcherMissesNothing(states: seq<Watched>, moves: seq<Move>, capacity: nat, n: nat)
    requires IsWatchedRun(states, moves, capacity) && n < |states|
    ensures NoExpiryMissed(states[n])
  {
    if n == 0 {
    } else {
      WatcherMissesNothing(states, moves, capacity, n - 1);
      MoveMissesNothing(states[n - 1], capacity, moves[n - 1], states[n]);
    }
  }
}
