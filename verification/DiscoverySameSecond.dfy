/** A whole run of the discovery cache within one second in which a peer comes
    again before a busier one (app/discovery.rs). */
module DiscoverySameSecond {
  import opened Basics
  import opened Sorting
  import opened PeerSets
  import opened Associations
  import opened DiscoverySpec
  import opened Paging
  import opened Rotation
  import opened DiscoveryRuns
  import opened DiscoveryRotation

  const APP := "app"

  // ---- nothing expires ----

  lemma {:induction false} RetainAll(s: seq<Membership>, keep: Membership -> bool)
    requires forall m :: m in s ==> keep(m)
    ensures Retain(s, keep) == s
  {
    if s != [] {
      RetainAll(s[..|s| - 1], keep);
      assert s == s[..|s| - 1] + [s[|s| - 1]];
    }
  }

  lemma SiftNothing(apps: Apps, keep: Entry -> bool)
    requires forall e :: e in Entries(apps) ==> keep(e)
    ensures Sift(apps, keep) == apps
  {
    forall app | app in apps ensures SiftSet(app, apps[app], keep) == apps[app] {
      var s := apps[app];
      forall m | m in s.recent ensures keep(EntryOf(app, Recent, m)) {
        EntryIn(apps, EntryOf(app, Recent, m));
      }
      forall m | m in s.archive ensures keep(EntryOf(app, Archive, m)) {
        EntryIn(apps, EntryOf(app, Archive, m));
      }
      RetainAll(s.recent, m => keep(EntryOf(app, Recent, m)));
      RetainAll(s.archive, m => keep(EntryOf(app, Archive, m)));
    }
  }

  ghost predicate AllFresh(c: Cache, now: U64) {
    && (forall a :: a in c.interests ==> c.interests[a] >= Cutoff(now))
    && c.apps.Keys <= c.interests.Keys
    && (forall e :: e in Entries(c.apps) ==> e.verified >= Cutoff(now))
    && (forall a :: a in c.apps ==> c.apps[a].recent != [] || c.apps[a].archive != [])
    && (forall a :: a in c.peers ==> c.peers[a].verified >= Cutoff(now))
  }

  lemma NothingExpires(c: Cache, now: U64)
    requires AllFresh(c, now)
    ensures Pruned(c, now) == c
  {
    assert FreshInterests(c, now) == c.interests;
    assert OfApps(c.apps, c.interests.Keys) == c.apps;
    SiftNothing(c.apps, VerifiedSince(Cutoff(now)));
    assert NonEmpty(c.apps) == c.apps;
  }

  // ---- caches with one application ----

  /** One application of interest, everything of second `t`. */
  ghost predicate Single(c: Cache, s: PeerSet, t: U64) {
    && c.nextId >= 1 && c.interests == map[APP := t] && c.apps == map[APP := s] && s.archive == [] && s.recent != []
    && (forall m :: m in s.recent ==> m.verified == t)
    && (forall a :: a in c.peers ==> c.peers[a].verified == t)
  }

  lemma SingleEntries(s: PeerSet)
    ensures Entries(map[APP := s]) == EntriesOf(APP, s)
  {
    forall e ensures e in Entries(map[APP := s]) <==> e in EntriesOf(APP, s) {
      EntryIn(map[APP := s], e);
      if e in EntriesOf(APP, s) { EntriesNameTheirApp(APP, s, e); }
    }
  }

  lemma SingleStays(c: Cache, s: PeerSet, t: U64)
    requires Single(c, s, t)
    ensures Pruned(c, t) == c
  {
    SingleEntries(s);
    NothingExpires(c, t);
  }

  lemma AfterPageOfOne(s: PeerSet, order: seq<Membership>, t: U64)
    requires s.archive == [] && s.recent != []
    ensures AfterPage(s, order, [], Limit(1), t) == PeerSet(s.total, Stamped(order, 1, t), [])
    ensures Picks(s, Recent, Limit(1)) == 1 && SortedTier([], s.archive)
  {
    assert Stamped([], 0, t) == [];
  }

  /** The cache after a page of one. */
  function Paged(c: Cache, s: PeerSet, order: seq<Membership>, t: U64): Cache {
    c.(apps := map[APP := PeerSet(s.total, Stamped(order, 1, t), [])])
  }

  lemma PageIsListed(c: Cache, s: PeerSet, order: seq<Membership>, t: U64)
    requires c.apps == map[APP := s] && s.archive == [] && s.recent != [] && SortedTier(order, s.recent)
    ensures IsListed(c, APP, 1, t, Paged(c, s, order, t), order, [])
  {
    AfterPageOfOne(s, order, t);
  }

  lemma PageIsStep(sample: Sample, c: Cache, d: Cache, order: seq<Membership>, t: U64)
    requires Pruned(c, t) == c && IsListed(c, APP, 1, t, d, order, [])
    ensures Step(sample, c, ListPeers(APP, 1, t), d)
  {
  }

  lemma PageHandsOut(c: Cache, s: PeerSet, order: seq<Membership>, t: U64)
    requires Pruned(c, t) == c && c.apps == map[APP := s] && s.archive == [] && s.recent != []
    requires SortedTier(order, s.recent) && |order| > 0
    ensures HandedOut(c, ListPeers(APP, 1, t), APP, Recent, order[0].peer)
  {
    AfterPageOfOne(s, order, t);
    assert InFirst(order, 1, order[0].peer);
  }

  lemma PagedIsSingle(c: Cache, s: PeerSet, order: seq<Membership>, t: U64)
    requires Single(c, s, t) && SortedTier(order, s.recent)
    ensures Single(Paged(c, s, order, t), PeerSet(s.total, Stamped(order, 1, t), []), t)
  {
    assert |order| == |s.recent| by { SortedLength(order, s.recent); }
    var after := Stamped(order, 1, t);
    forall m | m in after ensures m.verified == t {
      var i :| 0 <= i < |after| && after[i] == m;
      assert order[i] in multiset(order);
    }
  }

  lemma SortedLength(order: seq<Membership>, s: seq<Membership>)
    requires SortedTier(order, s)
    ensures |order| == |s|
  {
    assert |multiset(order)| == |multiset(s)|;
  }

  /** A page of one. */
  lemma ListOne(sample: Sample, c: Cache, s: PeerSet, order: seq<Membership>, t: U64)
    requires Single(c, s, t) && SortedTier(order, s.recent) && |order| > 0
    ensures Step(sample, c, ListPeers(APP, 1, t), Paged(c, s, order, t))
    ensures Single(Paged(c, s, order, t), PeerSet(s.total, Stamped(order, 1, t), []), t)
    ensures HandedOut(c, ListPeers(APP, 1, t), APP, Recent, order[0].peer)
  {
    SingleStays(c, s, t);
    PageIsListed(c, s, order, t);
    PageIsStep(sample, c, Paged(c, s, order, t), order, t);
    PagedIsSingle(c, s, order, t);
    PageHandsOut(c, s, order, t);
  }

  /** A page of one takes the first of the order and nobody else. */
  lemma OnlyFirst(c: Cache, s: PeerSet, order: seq<Membership>, peer: nat, t: U64)
    requires Single(c, s, t) && OncePerPeer(s.recent) && SortedTier(order, s.recent)
    requires |order| > 0 && order[0].peer != peer
    ensures !HandedOut(c, ListPeers(APP, 1, t), APP, Recent, peer)
  {
    SingleStays(c, s, t);
    AfterPageOfOne(s, order, t);
    forall other | SortedTier(other, s.recent) ensures !InFirst(other, 1, peer) {
      UniqueOrder(s.recent, order, other);
    }
  }

  /** The cache around the application after a new peer joined it. */
  function Joining(c: Cache, s: PeerSet, address: string, t: U64): Cache {
    Cache(c.nextId + 1, c.interests, c.peers[address := PeerRecord(c.nextId, t, t, t)], map[APP := Grown(c, s, t)])
  }

  function Grown(c: Cache, s: PeerSet, t: U64): PeerSet {
    PeerSet(Min(s.total + 1, U64_MAX), s.recent + [Newcomer(c.nextId, t)], [])
  }

  lemma JoiningIsAdvertising(sample: Sample, c: Cache, s: PeerSet, address: string, t: U64)
    requires c.nextId >= 1 && address !in c.peers && c.apps.Keys <= {APP} && SetOf(c.apps, APP) == s && s.archive == []
    requires c.nextId !in Peers(s.recent) && |s.recent| < RECENT_CAPACITY
    ensures Advertising(sample, c, address, {APP}, t, t) == Joining(c, s, address, t)
  {
    var r := Recorded(c, address, t, t);
    assert Observed(sample, APP, s, c.nextId, t) == Grown(c, s, t);
    assert Joined(sample, r.apps, {APP}, c.nextId, t) == Joining(c, s, address, t).apps;
  }

  lemma NothingToCut(c: Cache, s: PeerSet)
    requires c.apps == map[APP := s] && WellFormed(s) && |s.recent| < 10 && s.archive == [] && |c.peers| < 10
    ensures IsGlobalCut(c.apps, {}) && IsPeerCut(c, {})
  {
    SetCount(APP, s);
    SingleEntries(s);
  }

  lemma SmallIsObserved(sample: Sample, p: Cache, address: string, at: U64, infoAt: U64)
    requires address !in p.peers && p.interests.Keys == {APP}
    requires var o := Advertising(sample, p, address, {APP}, at, infoAt); IsGlobalCut(o.apps, {}) && IsPeerCut(o, {})
    ensures var o := Advertising(sample, p, address, {APP}, at, infoAt);
            IsObserved(sample, p, address, {APP}, infoAt, at, o, {}, {})
  {
    var o := Advertising(sample, p, address, {APP}, at, infoAt);
    assert {APP} * p.interests.Keys == {APP};
    assert o.(apps := AfterGlobalCut(o.apps, {})) == o;
  }

  /** A small set and a small cache a new peer can join. */
  ghost predicate Small(c: Cache, s: PeerSet, t: U64) {
    && c.nextId >= 1 && c.interests == map[APP := t] && c.apps.Keys <= {APP} && SetOf(c.apps, APP) == s
    && s.archive == [] && OncePerPeer(s.recent) && c.nextId !in Peers(s.recent)
    && |s.recent| < 9 && |c.peers| < 9
    && (forall m :: m in s.recent ==> m.verified == t) && (forall a :: a in c.peers ==> c.peers[a].verified == t)
  }

  lemma GrownIsWellFormed(c: Cache, s: PeerSet, t: U64)
    requires Small(c, s, t)
    ensures WellFormed(Grown(c, s, t))
  {
    AppendPeers(s.recent, Newcomer(c.nextId, t));
  }

  lemma JoiningIsSingle(c: Cache, s: PeerSet, address: string, t: U64)
    requires Small(c, s, t)
    ensures Single(Joining(c, s, address, t), Grown(c, s, t), t)
  {
  }

  lemma ObservedIsStep(sample: Sample, c: Cache, address: string, t: U64, d: Cache)
    requires Pruned(c, t) == c && IsObserved(sample, c, address, {APP}, t, t, d, {}, {})
    ensures Step(sample, c, Observe(address, {APP}, t, t, t, {}, {}), d)
  {
    assert Min(t, t) == t;
  }

  /** A new peer that advertises the application, in a small cache. */
  lemma ObserveNew(sample: Sample, c: Cache, s: PeerSet, address: string, t: U64)
    requires Pruned(c, t) == c && Small(c, s, t) && address !in c.peers
    ensures Step(sample, c, Observe(address, {APP}, t, t, t, {}, {}), Joining(c, s, address, t))
  {
    var d := Joining(c, s, address, t);
    NewIsObserved(sample, c, s, address, t);
    ObservedIsStep(sample, c, address, t, d);
  }

  lemma NewIsObserved(sample: Sample, c: Cache, s: PeerSet, address: string, t: U64)
    requires Small(c, s, t) && address !in c.peers
    ensures IsObserved(sample, c, address, {APP}, t, t, Joining(c, s, address, t), {}, {})
  {
    var d := Joining(c, s, address, t);
    JoiningIsAdvertising(sample, c, s, address, t);
    GrownIsWellFormed(c, s, t);
    NothingToCut(d, Grown(c, s, t));
    SmallIsObserved(sample, c, address, t, t);
  }

  // ---- the run ----

  lemma TwoInOrder(x: Membership, y: Membership, s: seq<Membership>)
    requires ReturnedFirst(x, y) && x.peer != y.peer && (s == [x, y] || s == [y, x])
    ensures SortedTier([x, y], s) && OncePerPeer(s)
  {
    assert multiset([x, y]) == multiset(s);
  }

  /** The first peer after two pages. */
  function Busy(t: U64): Membership {
    Stamp(Stamp(Newcomer(1, t), t), t)
  }

  const NONE := PeerSet(0, [], [])

  /** The cache after each of the seven calls. */
  function At(k: nat, t: U64): Cache
    requires k <= 7
    decreases k
  {
    if k == 0 then EMPTY
    else
      var c := At(k - 1, t);
      if k == 1 then Registered(c, APP, t)
      else if k == 2 then Joining(c, NONE, "q", t)
      else if k == 5 then Joining(c, SetAt(4, t), "p", t)
      else Paged(c, SetAt(k - 1, t), OrderAt(k - 1, t), t)
  }

  function SetAt(k: nat, t: U64): PeerSet
    requires k <= 7
  {
    if k <= 1 then NONE
    else PeerSet(if k <= 4 then 1 else 2, RecentAt(k, t), [])
  }

  function RecentAt(k: nat, t: U64): seq<Membership>
    requires 2 <= k <= 7
  {
    var first, rare := Newcomer(1, t), Newcomer(2, t);
    if k == 2 then [first]
    else if k == 3 then [Stamp(first, t)]
    else if k == 4 then [Busy(t)]
    else if k == 5 then [Busy(t), rare]
    else if k == 6 then [Stamp(rare, t), Busy(t)]
    else [Stamp(Stamp(rare, t), t), Busy(t)]
  }

  /** The order in which the recent tier is handed out. */
  function OrderAt(k: nat, t: U64): seq<Membership>
    requires 2 <= k <= 7
  {
    if k == 5 then [Newcomer(2, t), Busy(t)] else RecentAt(k, t)
  }

  function EventAt(k: nat, t: U64): Event
    requires k < 7
  {
    if k == 0 then Register(APP, t)
    else if k == 1 then Observe("q", {APP}, t, t, t, {}, {})
    else if k == 4 then Observe("p", {APP}, t, t, t, {}, {})
    else ListPeers(APP, 1, t)
  }

  lemma OrderSorted(k: nat, t: U64)
    requires 2 <= k <= 6
    ensures SortedTier(OrderAt(k, t), RecentAt(k, t)) && OncePerPeer(RecentAt(k, t)) && |OrderAt(k, t)| > 0
  {
    if k >= 5 { TwoInOrder(OrderAt(k, t)[0], Busy(t), RecentAt(k, t)); }
  }

  lemma StampedFirst(k: nat, t: U64)
    requires k == 2 || k == 3 || k == 5 || k == 6
    ensures Stamped(OrderAt(k, t), 1, t) == RecentAt(k + 1, t)
  {
  }

  lemma PageAt(sample: Sample, k: nat, t: U64)
    requires k == 2 || k == 3 || k == 5 || k == 6
    requires Single(At(k, t), SetAt(k, t), t)
    ensures Step(sample, At(k, t), EventAt(k, t), At(k + 1, t))
    ensures Single(At(k + 1, t), SetAt(k + 1, t), t)
    ensures HandedOut(At(k, t), EventAt(k, t), APP, Recent, OrderAt(k, t)[0].peer)
  {
    OrderSorted(k, t);
    StampedFirst(k, t);
    ListOne(sample, At(k, t), SetAt(k, t), OrderAt(k, t), t);
  }

  lemma FirstDiscovery(sample: Sample, t: U64)
    ensures Step(sample, At(0, t), EventAt(0, t), At(1, t)) && Step(sample, At(1, t), EventAt(1, t), At(2, t))
    ensures Single(At(2, t), SetAt(2, t), t)
  {
    assert At(0, t) == EMPTY;
    var c := At(1, t);
    NothingExpires(c, t);
    ObserveNew(sample, c, NONE, "q", t);
    JoiningIsSingle(c, NONE, "q", t);
    assert Grown(c, NONE, t) == SetAt(2, t);
  }

  /** Pages issue no id and leave the records alone. */
  lemma RecordsAt4(t: U64)
    ensures At(4, t).nextId == 2 && At(4, t).interests == map[APP := t] && At(4, t).peers == At(2, t).peers
    ensures At(2, t).peers.Keys == {"q"}
  {
    var c := At(1, t);
    assert At(0, t) == EMPTY;
    assert c.nextId == 1 && c.peers == map[];
    assert At(2, t) == Joining(c, NONE, "q", t);
    assert At(3, t).peers == At(2, t).peers && At(3, t).nextId == At(2, t).nextId;
  }

  lemma Small4(t: U64)
    requires Single(At(4, t), SetAt(4, t), t)
    ensures Small(At(4, t), SetAt(4, t), t) && "p" !in At(4, t).peers
    ensures Grown(At(4, t), SetAt(4, t), t) == SetAt(5, t)
  {
    RecordsAt4(t);
    assert |At(4, t).peers| == |At(4, t).peers.Keys| == 1;
    assert "q" != "p";
  }

  lemma SecondDiscovery(sample: Sample, t: U64)
    requires Single(At(4, t), SetAt(4, t), t)
    ensures Step(sample, At(4, t), EventAt(4, t), At(5, t)) && Single(At(5, t), SetAt(5, t), t)
  {
    Small4(t);
    SingleStays(At(4, t), SetAt(4, t), t);
    ObserveNew(sample, At(4, t), SetAt(4, t), "p", t);
    JoiningIsSingle(At(4, t), SetAt(4, t), "p", t);
  }

  function States(t: U64): seq<Cache> {
    seq(8, k requires 0 <= k < 8 => At(k, t))
  }

  function Events(t: U64): seq<Event> {
    seq(7, k requires 0 <= k < 7 => EventAt(k, t))
  }

  lemma TheStep(sample: Sample, k: nat, t: U64)
    requires k < 7 && Step(sample, At(k, t), EventAt(k, t), At(k + 1, t))
    ensures StepAt(sample, States(t), Events(t), k)
  {
  }

  lemma ThePage(sample: Sample, k: nat, t: U64)
    requires k == 2 || k == 3 || k == 5 || k == 6
    requires Single(At(k, t), SetAt(k, t), t)
    ensures StepAt(sample, States(t), Events(t), k) && Single(At(k + 1, t), SetAt(k + 1, t), t)
    ensures HandedOutAt(States(t), Events(t), k, APP, Recent, OrderAt(k, t)[0].peer)
  {
    PageAt(sample, k, t);
    TheStep(sample, k, t);
  }

  lemma TheFirst(sample: Sample, k: nat, t: U64)
    requires k <= 1
    ensures StepAt(sample, States(t), Events(t), k) && (k == 1 ==> Single(At(k + 1, t), SetAt(k + 1, t), t))
  {
    FirstDiscovery(sample, t);
    TheStep(sample, k, t);
  }

  lemma TheSecond(sample: Sample, k: nat, t: U64)
    requires k == 4 && Single(At(k, t), SetAt(k, t), t)
    ensures StepAt(sample, States(t), Events(t), k) && Single(At(k + 1, t), SetAt(k + 1, t), t)
  {
    SecondDiscovery(sample, t);
    TheStep(sample, k, t);
  }

  lemma {:induction false} EachStep(sample: Sample, k: nat, t: U64)
    requires k < 7
    ensures StepAt(sample, States(t), Events(t), k) && (k >= 1 ==> Single(At(k + 1, t), SetAt(k + 1, t), t))
  {
    if k <= 1 {
      TheFirst(sample, k, t);
    } else {
      EachStep(sample, k - 1, t);
      if k == 4 { TheSecond(sample, k, t); } else { ThePage(sample, k, t); }
    }
  }

  lemma NewcomerIsFirst(k: nat, t: U64)
    requires k == 5 || k == 6
    ensures OrderAt(k, t)[0].peer == 2
  {
  }

  lemma NotTheBusyOne(k: nat, t: U64)
    requires (k == 5 || k == 6) && Single(At(k, t), SetAt(k, t), t)
    ensures !HandedOutAt(States(t), Events(t), k, APP, Recent, 1)
  {
    OrderSorted(k, t);
    NewcomerIsFirst(k, t);
    OnlyFirst(At(k, t), SetAt(k, t), OrderAt(k, t), 1, t);
  }

  lemma NewcomerOnly(sample: Sample, k: nat, t: U64)
    requires k == 5 || k == 6
    ensures HandedOutAt(States(t), Events(t), k, APP, Recent, 2)
    ensures !HandedOutAt(States(t), Events(t), k, APP, Recent, 1)
  {
    EachStep(sample, k - 1, t);
    ThePage(sample, k, t);
    NewcomerIsFirst(k, t);
    NotTheBusyOne(k, t);
  }

  lemma TheRun(sample: Sample, t: U64)
    ensures IsRun(sample, States(t), Events(t)) && States(t)[0] == EMPTY
    ensures forall k :: 0 <= k < 7 ==> Events(t)[k].now == t
  {
    EmptyInv();
    forall k | 0 <= k < 7 ensures StepAt(sample, States(t), Events(t), k) { EachStep(sample, k, t); }
    forall k | 0 <= k < 7 ensures Events(t)[k].now == t { assert Events(t)[k] == EventAt(k, t); }
  }

  /** Within one second, from an empty cache: a peer is listed twice, a second one
      is discovered and listed, and the next page takes the newcomer again and
      not the first. */
  lemma SameSecondRepeats(sample: Sample, t: U64)
    ensures IsRun(sample, States(t), Events(t)) && States(t)[0] == EMPTY
    ensures forall k :: 0 <= k < 7 ==> Events(t)[k].now == t
    ensures forall k :: 5 <= k <= 6 ==> HandedOutAt(States(t), Events(t), k, APP, Recent, 2)
    ensures forall k :: 5 <= k <= 6 ==> !HandedOutAt(States(t), Events(t), k, APP, Recent, 1)
  {
    TheRun(sample, t);
    forall k | 5 <= k <= 6
      ensures HandedOutAt(States(t), Events(t), k, APP, Recent, 2)
      ensures !HandedOutAt(States(t), Events(t), k, APP, Recent, 1)
    {
      NewcomerOnly(sample, k, t);
    }
  }
}
