/** Rotation over whole runs of the discovery cache (app/discovery.rs). */
module DiscoveryRotation {
  import opened Basics
  import opened PeerSets
  import opened Associations
  import opened DiscoverySpec
  import opened Paging
  import opened Rotation
  import opened DiscoveryRuns

  function TierIn(apps: Apps, app: string, tier: Tier): seq<Membership> {
    if app in apps then TierOf(apps[app], tier) else []
  }

  // ---- what each step does to the return times ----

  /** Every membership of `b` that a peer of `a` holds has that peer's return time. */
  ghost predicate Traces(a: seq<Membership>, b: seq<Membership>) {
    forall m :: m in b && m.peer in Peers(a) ==> exists q :: q in a && q.peer == m.peer && q.returned == m.returned
  }

  /** `b` came from `a` by dropping memberships. */
  ghost predicate Within(a: Apps, b: Apps) {
    forall app, tier, m :: m in TierIn(b, app, tier) ==> m in TierIn(a, app, tier)
  }

  lemma SiftWithin(apps: Apps, keep: Entry -> bool)
    ensures Within(apps, Sift(apps, keep))
  {
  }

  lemma NonEmptyWithin(apps: Apps)
    ensures Within(apps, NonEmpty(apps))
  {
  }

  lemma WithinTrans(a: Apps, b: Apps, c: Apps)
    requires Within(a, b) && Within(b, c)
    ensures Within(a, c)
  {
  }

  lemma SiftedWithin(apps: Apps, keep: Entry -> bool)
    ensures Within(apps, NonEmpty(Sift(apps, keep)))
  {
    SiftWithin(apps, keep);
    NonEmptyWithin(Sift(apps, keep));
    WithinTrans(apps, Sift(apps, keep), NonEmpty(Sift(apps, keep)));
  }

  lemma PrunedWithin(c: Cache, now: U64)
    ensures Within(c.apps, Pruned(c, now).apps)
  {
    var kept := OfApps(c.apps, FreshInterests(c, now).Keys);
    assert Within(c.apps, kept);
    SiftedWithin(kept, VerifiedSince(Cutoff(now)));
    WithinTrans(c.apps, kept, Pruned(c, now).apps);
  }

  lemma CutsWithin(c: Cache, cut: set<Entry>, gone: set<Candidate>)
    ensures Within(c.apps, AfterPeerCut(c.(apps := AfterGlobalCut(c.apps, cut)), gone).apps)
  {
    var g := c.(apps := AfterGlobalCut(c.apps, cut));
    SiftedWithin(c.apps, NotIn(cut));
    SiftedWithin(g.apps, OtherThan(IdsOf(g, Addresses(gone))));
    WithinTrans(c.apps, g.apps, AfterPeerCut(g, gone).apps);
  }

  /** Observing a peer leaves the return time of everyone who stays in a tier. */
  lemma ObservedTraces(sample: Sample, app: string, s: PeerSet, peer: nat, at: U64, tier: Tier)
    requires WellFormed(s)
    ensures Traces(TierOf(s, tier), TierOf(Observed(sample, app, s, peer, at), tier))
  {
    var a, b := TierOf(s, tier), TierOf(Observed(sample, app, s, peer, at), tier);
    if s.recent != [] {
      var worn := s.recent[MostWorn(s.recent, |s.recent|)];
      assert worn in s.recent && worn.peer in Peers(s.recent);
    }
    forall m | m in b && m.peer in Peers(a) ensures exists q :: q in a && q.peer == m.peer && q.returned == m.returned {
      if m !in a {
        var i := Position(a, peer);
        assert i.Some? ==> a[i.value] in a;
      }
    }
  }

  lemma JoinedTraces(sample: Sample, apps: Apps, advertised: set<string>, peer: nat, at: U64,
                     app: string, tier: Tier)
    requires AllWellFormed(apps)
    ensures Traces(TierIn(apps, app, tier), TierIn(Joined(sample, apps, advertised, peer, at), app, tier))
    ensures app !in advertised ==>
        TierIn(Joined(sample, apps, advertised, peer, at), app, tier) == TierIn(apps, app, tier)
  {
    if app in advertised { ObservedTraces(sample, app, SetOf(apps, app), peer, at, tier); }
  }

  /** Withdrawing touches only applications that are not advertised any more. */
  lemma WithdrawnWithin(p: Cache, address: string, advertised: set<string>, app: string, tier: Tier)
    ensures forall m :: m in TierIn(Withdrawn(p, address, advertised).apps, app, tier) ==>
        m in TierIn(p.apps, app, tier)
    ensures app in advertised ==> forall m :: m in TierIn(p.apps, app, tier) ==>
              m in TierIn(Withdrawn(p, address, advertised).apps, app, tier)
  {
    if address in p.peers && app in p.apps && app in advertised {
      forall m | m in TierIn(p.apps, app, tier) ensures m in TierIn(Withdrawn(p, address, advertised).apps, app, tier) {
        assert Advertised(advertised, p.peers[address].id)(EntryOf(app, tier, m));
      }
    }
  }

  lemma AdvertisingTraces(sample: Sample, p: Cache, address: string, advertised: set<string>, at: U64,
                          infoAt: U64, app: string, tier: Tier)
    requires Linked(p)
    ensures Traces(TierIn(p.apps, app, tier),
                   TierIn(Advertising(sample, p, address, advertised, at, infoAt).apps, app, tier))
  {
    WithdrawnKeeps(p, address, advertised);
    WithdrawnWithin(p, address, advertised, app, tier);
    var w := Withdrawn(p, address, advertised);
    var r := Recorded(w, address, at, infoAt);
    JoinedTraces(sample, w.apps, advertised, r.peers[address].id, at, app, tier);
    TracesThrough(TierIn(p.apps, app, tier), TierIn(w.apps, app, tier),
                  TierIn(Joined(sample, w.apps, advertised, r.peers[address].id, at), app, tier));
  }

  /** Drop first, then trace, when one of the two leaves everything as it is. */
  lemma TracesThrough(a: seq<Membership>, b: seq<Membership>, c: seq<Membership>)
    requires (forall m :: m in b ==> m in a) && Traces(b, c)
    requires (forall m :: m in a ==> m in b) || b == c
    ensures Traces(a, c)
  {
  }

  lemma ObservedStepTraces(sample: Sample, p: Cache, address: string, listed: set<string>, infoAt: U64,
                           at: U64, d: Cache, cut: set<Entry>, gone: set<Candidate>, app: string, tier: Tier)
    requires Inv(p) && IsObserved(sample, p, address, listed, infoAt, at, d, cut, gone)
    ensures Traces(TierIn(p.apps, app, tier), TierIn(d.apps, app, tier))
  {
    var advertised := listed * p.interests.Keys;
    if !Stale(p, address, infoAt) {
      if advertised == {} {
        if address in p.peers { SiftWithin(p.apps, Advertised({}, p.peers[address].id)); }
      } else {
        var o := Advertising(sample, p, address, advertised, at, infoAt);
        AdvertisingTraces(sample, p, address, advertised, at, infoAt, app, tier);
        CutsWithin(o, cut, gone);
      }
    }
  }

  // ---- one step ----

  /** The cache an event works on once expired entries are gone. */
  function Seen(c: Cache, e: Event): Cache {
    match e
    case Register(_, _) => c
    case Remove(_) => c
    case Observe(_, _, _, _, now, _, _) => Pruned(c, now)
    case ListPeers(_, _, now) => Pruned(c, now)
    case Sweep(now) => Pruned(c, now)
  }

  function Picks(s: PeerSet, tier: Tier, limit: nat): nat {
    if tier == Recent then RecentPicks(limit, |s.recent|, |s.archive|) else ArchivePicks(limit, |s.recent|, |s.archive|)
  }

  predicate Lists(e: Event, app: string) {
    e.ListPeers? && e.app == app
  }

  /** `e` hands out `peer` from the tier. */
  ghost predicate HandedOut(c: Cache, e: Event, app: string, tier: Tier, peer: nat) {
    && Lists(e, app) && app in Seen(c, e).apps
    && var s := Seen(c, e).apps[app];
       exists order :: SortedTier(order, TierOf(s, tier)) && InFirst(order, Picks(s, tier, Limit(e.requested)), peer)
  }

  lemma TracesReturns(a: seq<Membership>, b: seq<Membership>, peer: nat)
    requires OncePerPeer(a) && OncePerPeer(b) && Traces(a, b) && peer in Peers(a) && peer in Peers(b)
    ensures Returns(b)[peer] == Returns(a)[peer]
  {
    var m := MemberOf(b, peer);
    assert m in b;
    var q :| q in a && q.peer == m.peer && q.returned == m.returned;
    MemberIs(a, q);
  }

  lemma TiersOnce(c: Cache, app: string, tier: Tier)
    requires Inv(c)
    ensures OncePerPeer(TierIn(c.apps, app, tier))
  {
  }

  lemma SeenInv(c: Cache, e: Event)
    requires Inv(c)
    ensures Inv(Seen(c, e))
  {
    if e.Observe? || e.ListPeers? || e.Sweep? { PrunedInv(c, e.now); }
  }

  lemma DroppedTraces(a: Apps, b: Apps, app: string, tier: Tier)
    requires Within(a, b)
    ensures Traces(TierIn(a, app, tier), TierIn(b, app, tier))
  {
  }

  lemma SeenTraces(c: Cache, e: Event, app: string, tier: Tier)
    requires Inv(c)
    ensures OncePerPeer(TierIn(c.apps, app, tier)) && OncePerPeer(TierIn(Seen(c, e).apps, app, tier))
    ensures Traces(TierIn(c.apps, app, tier), TierIn(Seen(c, e).apps, app, tier))
  {
    SeenInv(c, e);
    TiersOnce(c, app, tier);
    TiersOnce(Seen(c, e), app, tier);
    if e.Observe? || e.ListPeers? || e.Sweep? {
      PrunedWithin(c, e.now);
      DroppedTraces(c.apps, Pruned(c, e.now).apps, app, tier);
    }
  }

  /** A step that is not a listing of `app` leaves the return time of everyone
      who neither expires nor leaves. */
  lemma OtherStepTraces(sample: Sample, c: Cache, e: Event, d: Cache, app: string, tier: Tier)
    requires Inv(c) && Step(sample, c, e, d) && !Lists(e, app)
    ensures Traces(TierIn(Seen(c, e).apps, app, tier), TierIn(d.apps, app, tier))
  {
    match e
    case Register(_, _) =>
    case Observe(address, listed, infoAt, directAt, now, cut, gone) =>
      PrunedInv(c, now);
      var p := Pruned(c, now);
      ObservedStepTraces(sample, p, address, listed, infoAt, Min(directAt, now), d, cut, gone, app, tier);
    case ListPeers(other, requested, now) =>
      OtherListingTraces(sample, c, e, d, app, tier);
    case Remove(addresses) =>
      SiftedWithin(c.apps, OtherThan(IdsOf(c, addresses)));
      assert addresses != {} ==> Within(c.apps, d.apps);
      if addresses != {} { DroppedTraces(c.apps, d.apps, app, tier); }
    case Sweep(_) =>
  }

  lemma OtherListingTraces(sample: Sample, c: Cache, e: Event, d: Cache, app: string, tier: Tier)
    requires Step(sample, c, e, d) && e.ListPeers? && e.app != app
    ensures TierIn(d.apps, app, tier) == TierIn(Seen(c, e).apps, app, tier)
  {
  }

  lemma ListingReturns(sample: Sample, c: Cache, e: Event, d: Cache, app: string, tier: Tier, peer: nat)
    requires Inv(c) && Step(sample, c, e, d) && Lists(e, app) && peer in Peers(TierIn(Seen(c, e).apps, app, tier))
    ensures var s, left := TierIn(Seen(c, e).apps, app, tier), TierIn(d.apps, app, tier);
            && peer in Peers(left) && OncePerPeer(left)
            && Returns(left)[peer] == if HandedOut(c, e, app, tier, peer) then e.now else Returns(s)[peer]
  {
    SeenInv(c, e);
    SeenTraces(c, e, app, tier);
    var p := Pruned(c, e.now);
    var recentOrder, archiveOrder :| IsListed(p, app, e.requested, e.now, d, recentOrder, archiveOrder);
    var s := p.apps[app];
    var order := if tier == Recent then recentOrder else archiveOrder;
    PageReturns(TierOf(s, tier), order, Picks(s, tier, Limit(e.requested)), e.now, peer);
    if HandedOut(c, e, app, tier, peer) {
      var other :| SortedTier(other, TierOf(s, tier)) && InFirst(other, Picks(s, tier, Limit(e.requested)), peer);
      UniqueOrder(TierOf(s, tier), order, other);
    }
  }

  lemma OtherStepReturns(sample: Sample, c: Cache, e: Event, d: Cache, app: string, tier: Tier, peer: nat)
    requires Inv(c) && Step(sample, c, e, d) && !Lists(e, app)
    requires peer in Peers(TierIn(Seen(c, e).apps, app, tier)) && peer in Peers(TierIn(d.apps, app, tier))
    ensures Returns(TierIn(d.apps, app, tier))[peer] == Returns(TierIn(Seen(c, e).apps, app, tier))[peer]
  {
    SeenTraces(c, e, app, tier);
    OtherStepTraces(sample, c, e, d, app, tier);
    StepInv(sample, c, e, d);
    TiersOnce(d, app, tier);
    TracesReturns(TierIn(Seen(c, e).apps, app, tier), TierIn(d.apps, app, tier), peer);
  }

  lemma SeenReturns(c: Cache, e: Event, app: string, tier: Tier, peer: nat)
    requires Inv(c)
    requires peer in Peers(TierIn(c.apps, app, tier)) && peer in Peers(TierIn(Seen(c, e).apps, app, tier))
    ensures Returns(TierIn(Seen(c, e).apps, app, tier))[peer] == Returns(TierIn(c.apps, app, tier))[peer]
  {
    SeenTraces(c, e, app, tier);
    TracesReturns(TierIn(c.apps, app, tier), TierIn(Seen(c, e).apps, app, tier), peer);
  }

  /** Any step at all: a member who stays throughout has the time of the step if
      it was handed out, and its old time otherwise. */
  lemma StepReturns(sample: Sample, c: Cache, e: Event, d: Cache, app: string, tier: Tier, peer: nat)
    requires Inv(c) && Step(sample, c, e, d)
    requires peer in Peers(TierIn(c.apps, app, tier)) && peer in Peers(TierIn(Seen(c, e).apps, app, tier))
    requires peer in Peers(TierIn(d.apps, app, tier))
    ensures Returns(TierIn(d.apps, app, tier))[peer] ==
            if HandedOut(c, e, app, tier, peer) then e.now else Returns(TierIn(c.apps, app, tier))[peer]
  {
    SeenReturns(c, e, app, tier, peer);
    if Lists(e, app) {
      ListingReturns(sample, c, e, d, app, tier, peer);
    } else {
      OtherStepReturns(sample, c, e, d, app, tier, peer);
    }
  }

  // ---- one peer's timeline ----

  /** What a peer's return time was before an event, whether the event handed the
      peer out, and when it did. */
  datatype Moment = Moment(time: U64, handed: bool, now: U64)

  predicate Timely(t: seq<Moment>) {
    forall k :: 0 <= k < |t| - 1 ==> t[k + 1].time == (if t[k].handed then t[k].now else t[k].time)
  }

  lemma {:induction false} NeverHanded(t: seq<Moment>, n: nat)
    requires Timely(t) && n < |t| && forall k :: 0 <= k < n ==> !t[k].handed
    ensures t[n].time == t[0].time
  {
    if n > 0 { NeverHanded(t, n - 1); }
  }

  /** Handed out first, and never at an earlier time before moment `n`. */
  predicate HandedForward(t: seq<Moment>, n: nat) {
    n < |t| && t[0].handed && forall k :: 0 <= k < n && t[k].handed ==> t[k].now >= t[0].now
  }

  lemma {:induction false} OnceHanded(t: seq<Moment>, n: nat)
    requires Timely(t) && 0 < n && HandedForward(t, n)
    ensures t[n].time >= t[0].now
  {
    if n > 1 { OnceHanded(t, n - 1); }
  }

  // ---- runs ----

  /** From event `i` to event `j` nobody of the tier joins, leaves or expires. */
  ghost predicate Steady(states: seq<Cache>, events: seq<Event>, i: nat, j: nat, app: string, tier: Tier,
      members: set<nat>)
    requires |states| == |events| + 1 && j < |events|
  {
    forall k :: i <= k <= j ==> SteadyAt(states, events, k, app, tier, members)
  }

  ghost predicate SteadyAt(states: seq<Cache>, events: seq<Event>, k: nat, app: string, tier: Tier, members: set<nat>)
    requires |states| == |events| + 1 && k < |events|
  {
    && Peers(TierIn(states[k].apps, app, tier)) == members
    && Peers(TierIn(Seen(states[k], events[k]).apps, app, tier)) == members
  }

  ghost predicate HandedOutAt(states: seq<Cache>, events: seq<Event>, k: nat, app: string, tier: Tier, peer: nat)
    requires |states| == |events| + 1 && k < |events|
  {
    HandedOut(states[k], events[k], app, tier, peer)
  }

  /** The clock of the listings from event `i` to event `j` does not step back. */
  predicate ClockForward(events: seq<Event>, i: nat, j: nat, app: string)
    requires j < |events|
  {
    forall k, l :: i <= k <= l <= j && Lists(events[k], app) && Lists(events[l], app) ==> events[k].now <= events[l].now
  }

  /** The stored return time of a member, 0 for anyone else. */
  function ReturnTime(states: seq<Cache>, k: nat, app: string, tier: Tier, peer: nat): U64
    requires k < |states|
  {
    var s := TierIn(states[k].apps, app, tier);
    if peer in Peers(s) then Returns(s)[peer] else 0
  }

  ghost function MomentAt(states: seq<Cache>, events: seq<Event>, k: nat, app: string, tier: Tier, peer: nat): Moment
    requires |states| == |events| + 1 && k < |events|
  {
    Moment(ReturnTime(states, k, app, tier, peer), HandedOutAt(states, events, k, app, tier, peer),
           if Lists(events[k], app) then events[k].now else 0)
  }

  ghost function Timeline(states: seq<Cache>, events: seq<Event>, i: nat, j: nat, app: string, tier: Tier, peer: nat)
    : (t: seq<Moment>)
    requires |states| == |events| + 1 && i <= j < |events|
    ensures |t| == j - i + 1
    ensures forall k :: 0 <= k < |t| ==> t[k] == MomentAt(states, events, i + k, app, tier, peer)
    decreases j
  {
    if i == j then [MomentAt(states, events, i, app, tier, peer)]
    else Timeline(states, events, i, j - 1, app, tier, peer) + [MomentAt(states, events, j, app, tier, peer)]
  }

  lemma NextMoment(sample: Sample, states: seq<Cache>, events: seq<Event>, k: nat, app: string,
                   tier: Tier, members: set<nat>, peer: nat)
    requires IsRun(sample, states, events) && k + 1 < |events| && peer in members
    requires SteadyAt(states, events, k, app, tier, members) && SteadyAt(states, events, k + 1, app, tier, members)
    ensures var m := MomentAt(states, events, k, app, tier, peer);
            MomentAt(states, events, k + 1, app, tier, peer).time == if m.handed then m.now else m.time
  {
    RunInv(sample, states, events, k);
    assert StepAt(sample, states, events, k);
    StepReturns(sample, states[k], events[k], states[k + 1], app, tier, peer);
  }

  lemma TimelineIsTimely(sample: Sample, states: seq<Cache>, events: seq<Event>, i: nat, j: nat, app: string,
                         tier: Tier, members: set<nat>, peer: nat)
    requires IsRun(sample, states, events) && i <= j < |events| && peer in members
    requires Steady(states, events, i, j, app, tier, members)
    ensures Timely(Timeline(states, events, i, j, app, tier, peer))
  {
    forall k | i <= k < j
      ensures var m := MomentAt(states, events, k, app, tier, peer);
              MomentAt(states, events, k + 1, app, tier, peer).time == if m.handed then m.now else m.time
    {
      assert SteadyAt(states, events, k, app, tier, members) && SteadyAt(states, events, k + 1, app, tier, members);
      NextMoment(sample, states, events, k, app, tier, members, peer);
    }
  }

  /** A member not handed out in between keeps its time. */
  lemma PassedOver(sample: Sample, states: seq<Cache>, events: seq<Event>, i: nat, j: nat,
                   app: string, tier: Tier, members: set<nat>, peer: nat)
    requires IsRun(sample, states, events) && i <= j < |events| && peer in members
    requires Steady(states, events, i, j, app, tier, members)
    requires forall k :: i <= k < j ==> !HandedOutAt(states, events, k, app, tier, peer)
    ensures ReturnTime(states, j, app, tier, peer) == ReturnTime(states, i, app, tier, peer)
  {
    TimelineIsTimely(sample, states, events, i, j, app, tier, members, peer);
    var t := Timeline(states, events, i, j, app, tier, peer);
    forall k | 0 <= k < j - i ensures !t[k].handed {
      assert t[k] == MomentAt(states, events, i + k, app, tier, peer);
      assert !HandedOutAt(states, events, i + k, app, tier, peer);
    }
    NeverHanded(t, j - i);
    assert t[0] == MomentAt(states, events, i, app, tier, peer);
    assert t[j - i] == MomentAt(states, events, j, app, tier, peer);
  }

  lemma HandedInOrder(states: seq<Cache>, events: seq<Event>, i: nat, j: nat, app: string, tier: Tier, peer: nat)
    requires |states| == |events| + 1 && i <= j < |events| && ClockForward(events, i, j, app)
    requires HandedOutAt(states, events, i, app, tier, peer)
    ensures HandedForward(Timeline(states, events, i, j, app, tier, peer), j - i)
    ensures Timeline(states, events, i, j, app, tier, peer)[0].now == events[i].now
  {
    var t := Timeline(states, events, i, j, app, tier, peer);
    assert t[0] == MomentAt(states, events, i, app, tier, peer);
    forall k | 0 <= k < j - i && t[k].handed ensures t[k].now >= t[0].now {
      assert t[k] == MomentAt(states, events, i + k, app, tier, peer);
      assert Lists(events[i], app) && Lists(events[i + k], app);
    }
  }

  lemma LastMoment(states: seq<Cache>, events: seq<Event>, i: nat, j: nat, app: string, tier: Tier, peer: nat)
    requires |states| == |events| + 1 && i < j < |events| && ClockForward(events, i, j, app)
    requires Timely(Timeline(states, events, i, j, app, tier, peer))
    requires HandedOutAt(states, events, i, app, tier, peer)
    ensures ReturnTime(states, j, app, tier, peer) >= events[i].now
  {
    HandedInOrder(states, events, i, j, app, tier, peer);
    OnceHanded(Timeline(states, events, i, j, app, tier, peer), j - i);
    TimelineAt(states, events, i, j, app, tier, peer, j - i);
  }

  lemma TimelineAt(states: seq<Cache>, events: seq<Event>, i: nat, j: nat, app: string, tier: Tier, peer: nat, k: nat)
    requires |states| == |events| + 1 && i <= j < |events| && k <= j - i
    ensures Timeline(states, events, i, j, app, tier, peer)[k].time == ReturnTime(states, i + k, app, tier, peer)
  {
  }

  /** A member handed out once never looks older than that afterwards. */
  lemma SinceHandedOut(sample: Sample, states: seq<Cache>, events: seq<Event>, i: nat, j: nat,
                       app: string, tier: Tier, members: set<nat>, peer: nat)
    requires IsRun(sample, states, events) && i < j < |events| && peer in members
    requires Steady(states, events, i, j, app, tier, members) && ClockForward(events, i, j, app)
    requires HandedOutAt(states, events, i, app, tier, peer)
    ensures ReturnTime(states, j, app, tier, peer) >= events[i].now
  {
    TimelineIsTimely(sample, states, events, i, j, app, tier, members, peer);
    LastMoment(states, events, i, j, app, tier, peer);
  }

  lemma HandedOutIsMember(c: Cache, e: Event, app: string, tier: Tier, peer: nat)
    requires Inv(c) && HandedOut(c, e, app, tier, peer)
    ensures peer in Peers(TierIn(Seen(c, e).apps, app, tier))
  {
    SeenTraces(c, e, app, tier);
    var s := Seen(c, e).apps[app];
    var order: seq<Membership> :| SortedTier(order, TierOf(s, tier))
        && InFirst(order, Picks(s, tier, Limit(e.requested)), peer);
    StampedKeeps(TierOf(s, tier), order, 0, 0);
    var i :| 0 <= i < |order| && order[i].peer == peer;
    assert order[i] in TierOf(s, tier);
  }

  /** `x` and `y` were both last handed out at second `at`, and the tie goes to `x`. */
  ghost predicate Tied(s: seq<Membership>, x: nat, y: nat, at: U64) {
    && x in Peers(s) && y in Peers(s)
    && MemberOf(s, x).returned == at && MemberOf(s, y).returned == at
    && TieBreak(MemberOf(s, x), MemberOf(s, y))
  }

  /** What a page finds of two members, the second of them no newer than `at` and
      the first no older. */
  lemma PrecedesIff(s: seq<Membership>, order: seq<Membership>, x: nat, y: nat, at: U64)
    requires OncePerPeer(s) && SortedTier(order, s) && x in Peers(s) && y in Peers(s) && x != y
    requires MemberOf(s, x).returned >= at >= MemberOf(s, y).returned
    ensures (exists n: nat :: InFirst(order, n, x) && !InFirst(order, n, y)) <==> Tied(s, x, y, at)
  {
    PriorityIff(s, order, x, y);
    PriorityOnTie(MemberOf(s, x), MemberOf(s, y));
  }

  /** Exactly when a peer handed out at event `i` comes before one not handed out
      since: a listing at event `j`, of some size, takes it again and leaves the
      other exactly when both carry the time of event `i`, and count, first-seen
      time and id favour the one already handed out. */
  lemma RepeatsBeforeIff(sample: Sample, states: seq<Cache>, events: seq<Event>, i: nat, j: nat,
                         app: string, tier: Tier, members: set<nat>, again: nat, other: nat, order: seq<Membership>)
    requires IsRun(sample, states, events) && i < j < |events| && again in members && other in members
    requires Steady(states, events, i, j, app, tier, members) && ClockForward(events, i, j, app)
    requires HandedOutAt(states, events, i, app, tier, again)
    requires forall k :: i <= k < j ==> !HandedOutAt(states, events, k, app, tier, other)
    requires ReturnTime(states, i, app, tier, other) <= events[i].now
    requires SortedTier(order, TierIn(Seen(states[j], events[j]).apps, app, tier))
    ensures (exists n: nat :: InFirst(order, n, again) && !InFirst(order, n, other)) <==>
            Tied(TierIn(Seen(states[j], events[j]).apps, app, tier), again, other, events[i].now)
    ensures Tied(TierIn(Seen(states[j], events[j]).apps, app, tier), again, other, events[i].now) ==>
              ReturnTime(states, i, app, tier, other) == events[i].now
  {
    SinceHandedOut(sample, states, events, i, j, app, tier, members, again);
    PassedOver(sample, states, events, i, j, app, tier, members, other);
    assert again != other;
    assert SteadyAt(states, events, j, app, tier, members);
    AtListing(sample, states, events, j, app, tier, members, again);
    AtListing(sample, states, events, j, app, tier, members, other);
    PrecedesIff(TierIn(Seen(states[j], events[j]).apps, app, tier), order, again, other, events[i].now);
  }

  lemma AtListing(sample: Sample, states: seq<Cache>, events: seq<Event>, j: nat, app: string, tier: Tier,
                  members: set<nat>, peer: nat)
    requires IsRun(sample, states, events) && j < |events| && SteadyAt(states, events, j, app, tier, members)
    requires peer in members
    ensures var s := TierIn(Seen(states[j], events[j]).apps, app, tier);
            OncePerPeer(s) && peer in Peers(s) && MemberOf(s, peer).returned == ReturnTime(states, j, app, tier, peer)
  {
    RunInv(sample, states, events, j);
    SeenTraces(states[j], events[j], app, tier);
    SeenReturns(states[j], events[j], app, tier, peer);
  }

  /** In every run of the cache: while nobody of a tier joins, leaves or expires
      and the clock does not step back, a peer handed out at event `i` is not
      handed out again before every peer whose stored return time was then
      earlier than that call has been handed out as well. */
  lemma EveryoneElseFirst(sample: Sample, states: seq<Cache>, events: seq<Event>, i: nat, j: nat, app: string,
                          tier: Tier, members: set<nat>, again: nat, other: nat)
    requires IsRun(sample, states, events) && i < j < |events| && other in members
    requires Steady(states, events, i, j, app, tier, members) && ClockForward(events, i, j, app)
    requires HandedOutAt(states, events, i, app, tier, again) && HandedOutAt(states, events, j, app, tier, again)
    requires ReturnTime(states, i, app, tier, other) < events[i].now
    ensures exists k :: i <= k <= j && HandedOutAt(states, events, k, app, tier, other)
  {
    RunInv(sample, states, events, i);
    HandedOutIsMember(states[i], events[i], app, tier, again);
    assert SteadyAt(states, events, i, app, tier, members);
    if forall k :: i <= k < j ==> !HandedOutAt(states, events, k, app, tier, other) {
      var order, n := OrderOf(states[j], events[j], app, tier, again);
      RepeatsBeforeIff(sample, states, events, i, j, app, tier, members, again, other, order);
      HandedByOrder(states[j], events[j], app, tier, other, order, n);
      assert HandedOutAt(states, events, j, app, tier, other);
    }
  }

  lemma OrderOf(c: Cache, e: Event, app: string, tier: Tier, peer: nat) returns (order: seq<Membership>, n: nat)
    requires HandedOut(c, e, app, tier, peer)
    ensures SortedTier(order, TierIn(Seen(c, e).apps, app, tier)) && InFirst(order, n, peer)
    ensures n == Picks(Seen(c, e).apps[app], tier, Limit(e.requested))
  {
    var s := Seen(c, e).apps[app];
    n := Picks(s, tier, Limit(e.requested));
    order :| SortedTier(order, TierOf(s, tier)) && InFirst(order, n, peer);
  }

  lemma HandedByOrder(c: Cache, e: Event, app: string, tier: Tier, peer: nat, order: seq<Membership>, n: nat)
    requires Lists(e, app) && app in Seen(c, e).apps && SortedTier(order, TierIn(Seen(c, e).apps, app, tier))
    requires n == Picks(Seen(c, e).apps[app], tier, Limit(e.requested)) && InFirst(order, n, peer)
    ensures HandedOut(c, e, app, tier, peer)
  {
  }
}
