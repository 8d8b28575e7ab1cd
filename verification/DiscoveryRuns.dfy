/** Runs of the discovery cache: every operation as a step, and what holds of
    any sequence of them (app/discovery.rs). */
module DiscoveryRuns {
  import opened Basics
  import opened PeerSets
  import opened Associations
  import opened DiscoverySpec
  import opened Paging

  /** What a non-stale direct read leaves: the peer is a member of advertised
      applications of interest only, and of each of those, verified no earlier than
      at the read, unless the global cut took that very association. */
  lemma DirectReadIsAuthoritative(sample: Sample, p: Cache, address: string, listed: set<string>, infoAt: U64,
                                  at: U64, d: Cache, cut: set<Entry>, gone: set<Candidate>)
    requires Inv(p) && IsObserved(sample, p, address, listed, infoAt, at, d, cut, gone) && !Stale(p, address, infoAt)
    ensures var id, advertised := KnownAs(p, address), listed * p.interests.Keys;
            && (forall e :: e in Entries(d.apps) && e.peer == id ==> e.app in advertised)
            && (forall app :: app in advertised ==>
                  exists e :: (e in Entries(d.apps) || e in cut) && e.app == app && e.peer == id && e.verified >= at)
  {
    var advertised := listed * p.interests.Keys;
    if advertised == {} {
      NoMemberships(p, address);
    } else {
      JoinsUnlessCut(sample, p, address, advertised, infoAt, at, d, cut, gone);
    }
  }

  lemma NoMemberships(p: Cache, address: string)
    requires Linked(p)
    ensures forall e :: e in Entries(Withdrawn(p, address, {}).apps) ==> e.peer != KnownAs(p, address)
  {
    WithdrawnKeeps(p, address, {});
    if address !in p.peers {
      forall e | e in Entries(p.apps) ensures e.peer != p.nextId {
        assert e.peer in Referenced(p.apps);
      }
    }
  }

  lemma JoinsUnlessCut(sample: Sample, p: Cache, address: string, advertised: set<string>, infoAt: U64, at: U64,
                       d: Cache, cut: set<Entry>, gone: set<Candidate>)
    requires Inv(p) && advertised <= p.interests.Keys
    requires var o := Advertising(sample, p, address, advertised, at, infoAt);
             IsGlobalCut(o.apps, cut) && IsPeerCut(o.(apps := AfterGlobalCut(o.apps, cut)), gone)
             && d == AfterPeerCut(o.(apps := AfterGlobalCut(o.apps, cut)), gone)
    ensures forall e :: e in Entries(d.apps) && e.peer == KnownAs(p, address) ==> e.app in advertised
    ensures forall app :: app in advertised ==>
              exists e :: (e in Entries(d.apps) || e in cut) && e.app == app && e.peer == KnownAs(p, address)
                          && e.verified >= at
  {
    var o := Advertising(sample, p, address, advertised, at, infoAt);
    AdvertisingKeeps(sample, p, address, advertised, at, infoAt);
    IssuedId(sample, p, address, advertised, at, infoAt);
    CutsKeepOrList(o, cut, gone);
    forall app | app in advertised
      ensures exists e :: (e in Entries(d.apps) || e in cut) && e.app == app && e.peer == KnownAs(p, address)
                          && e.verified >= at
    {
      var e := AdvertisedJoin(sample, p, address, advertised, at, infoAt, app);
      assert e in Entries(d.apps) || e in cut;
    }
  }

  lemma IssuedId(sample: Sample, p: Cache, address: string, advertised: set<string>, at: U64, infoAt: U64)
    requires Linked(p)
    ensures var o := Advertising(sample, p, address, advertised, at, infoAt);
            address in o.peers && o.peers[address].id == KnownAs(p, address)
  {
    WithdrawnKeeps(p, address, advertised);
  }

  /** What a direct read at `at` makes of the records: the peer's own carries the
      first read's time, the latest read's time and the time of this AppInfo. */
  ghost predicate Reread(p: Cache, d: Cache, address: string, infoAt: U64, at: U64) {
    && (address in d.peers && address in p.peers ==>
          var was, r := p.peers[address], d.peers[address];
          && r.id == was.id && r.firstDiscovered == was.firstDiscovered && r.infoAt == infoAt
          && r.verified >= at && r.verified >= was.verified && (r.verified == at || r.verified == was.verified))
    && (address in d.peers && address !in p.peers ==> d.peers[address] == PeerRecord(p.nextId, at, at, infoAt))
    && (forall a :: a in d.peers && a != address ==> a in p.peers && d.peers[a] == p.peers[a])
  }

  /** While it is kept, the observed peer's record is as a direct read makes it; no
      other record changes, and a peer that advertises nothing of interest gets
      none. */
  lemma DirectReadIsRecorded(sample: Sample, p: Cache, address: string, listed: set<string>, infoAt: U64,
                             at: U64, d: Cache, cut: set<Entry>, gone: set<Candidate>)
    requires Inv(p) && IsObserved(sample, p, address, listed, infoAt, at, d, cut, gone) && !Stale(p, address, infoAt)
    ensures Reread(p, d, address, infoAt, at)
    ensures listed * p.interests.Keys == {} && address !in p.peers ==> address !in d.peers
  {
    var advertised := listed * p.interests.Keys;
    if advertised == {} {
      SilentReread(p, address, infoAt, at);
    } else {
      var o := Advertising(sample, p, address, advertised, at, infoAt);
      AdvertisingReread(sample, p, address, advertised, infoAt, at);
      PeersAfterCuts(o, cut, gone);
      FewerReread(p, o, d, Addresses(gone), address, infoAt, at);
    }
  }

  lemma SilentReread(p: Cache, address: string, infoAt: U64, at: U64)
    ensures Reread(p, Silent(p, address, at, infoAt), address, infoAt, at)
    ensures address !in p.peers ==> address !in Silent(p, address, at, infoAt).peers
  {
  }

  lemma AdvertisingReread(sample: Sample, p: Cache, address: string, advertised: set<string>, infoAt: U64, at: U64)
    requires p.nextId >= 1
    ensures Reread(p, Advertising(sample, p, address, advertised, at, infoAt), address, infoAt, at)
  {
  }

  lemma FewerReread(p: Cache, o: Cache, d: Cache, gone: set<string>, address: string, infoAt: U64, at: U64)
    requires Reread(p, o, address, infoAt, at) && d.peers == o.peers - gone
    ensures Reread(p, d, address, infoAt, at)
  {
  }

  lemma PeersAfterCuts(o: Cache, cut: set<Entry>, gone: set<Candidate>)
    ensures AfterPeerCut(o.(apps := AfterGlobalCut(o.apps, cut)), gone).peers == o.peers - Addresses(gone)
  {
    if gone == {} { assert Addresses(gone) == {} && o.peers - {} == o.peers; }
  }

  function KnownAs(c: Cache, address: string): nat {
    if address in c.peers then c.peers[address].id else c.nextId
  }

  /** The peer's association with an application it advertises. */
  lemma AdvertisedJoin(sample: Sample, c: Cache, address: string, advertised: set<string>, at: U64, infoAt: U64,
                       app: string)
    returns (e: Entry)
    requires Linked(c) && app in advertised
    ensures e in Entries(Advertising(sample, c, address, advertised, at, infoAt).apps)
    ensures e.app == app && e.peer == KnownAs(c, address) && e.verified >= at
  {
    var w := Withdrawn(c, address, advertised);
    WithdrawnKeeps(c, address, advertised);
    RecordedKeeps(w, address, at, infoAt);
    var apps := Advertising(sample, c, address, advertised, at, infoAt).apps;
    var id := KnownAs(c, address);
    assert apps[app] == Observed(sample, app, SetOf(w.apps, app), id, at);
    ObservedIsFresh(sample, app, SetOf(w.apps, app), id, at);
    var m :| (m in apps[app].recent || m in apps[app].archive) && m.peer == id && m.verified >= at;
    e := EntryOf(app, if m in apps[app].recent then Recent else Archive, m);
    EntryIn(apps, e);
  }

  /** Before the capacity passes everyone else is still there, except for those
      displaced from an advertised application whose two tiers are full. */
  lemma OthersJoin(sample: Sample, p: Cache, address: string, advertised: set<string>, at: U64,
                   infoAt: U64, e: Entry)
    requires Linked(p) && e in Entries(p.apps) && e.peer != KnownAs(p, address)
    requires e.app in advertised ==> !Full(Withdrawn(p, address, advertised).apps[e.app])
    ensures var o := Advertising(sample, p, address, advertised, at, infoAt);
            exists f :: f in Entries(o.apps) && f.app == e.app && f.peer == e.peer
  {
    var w := Withdrawn(p, address, advertised);
    OthersNotWithdrawn(p, address, advertised, e);
    WithdrawnKeeps(p, address, advertised);
    RecordedKeeps(w, address, at, infoAt);
    var o := Advertising(sample, p, address, advertised, at, infoAt);
    EntryPeer(w.apps, e);
    if e.app in advertised {
      ObservedKeeps(sample, e.app, w.apps[e.app], KnownAs(p, address), at);
    }
    MembersReferenced(o.apps, e.app);
  }

  lemma OthersNotWithdrawn(p: Cache, address: string, advertised: set<string>, e: Entry)
    requires e in Entries(p.apps) && e.peer != KnownAs(p, address)
    ensures e in Entries(Withdrawn(p, address, advertised).apps)
  {
    if address in p.peers { SiftKeeps(p.apps, Advertised(advertised, p.peers[address].id)); }
  }

  /** A peer that is not the one observed loses an association only to the
      global cut, or by displacement from an advertised application whose two
      tiers are both full. */
  lemma OthersStay(sample: Sample, p: Cache, address: string, listed: set<string>, infoAt: U64, at: U64,
                   d: Cache, cut: set<Entry>, gone: set<Candidate>, e: Entry)
    requires Inv(p) && IsObserved(sample, p, address, listed, infoAt, at, d, cut, gone)
    requires e in Entries(p.apps) && e.peer != KnownAs(p, address)
    requires var advertised := listed * p.interests.Keys;
             e.app in advertised ==> !Full(Withdrawn(p, address, advertised).apps[e.app])
    ensures exists f :: (f in Entries(d.apps) || f in cut) && f.app == e.app && f.peer == e.peer
  {
    var advertised := listed * p.interests.Keys;
    if Stale(p, address, infoAt) {
      assert e in Entries(d.apps);
    } else if advertised == {} {
      OthersNotWithdrawn(p, address, {}, e);
      assert e in Entries(d.apps);
    } else {
      OthersJoin(sample, p, address, advertised, at, infoAt, e);
      var o := Advertising(sample, p, address, advertised, at, infoAt);
      AdvertisingKeeps(sample, p, address, advertised, at, infoAt);
      CutsKeepOrList(o, cut, gone);
    }
  }

  /** After both capacity passes: what is left, and what the first one took. */
  lemma CutsKeepOrList(o: Cache, cut: set<Entry>, gone: set<Candidate>)
    requires Linked(o) && IsGlobalCut(o.apps, cut) && IsPeerCut(o.(apps := AfterGlobalCut(o.apps, cut)), gone)
    ensures Entries(AfterPeerCut(o.(apps := AfterGlobalCut(o.apps, cut)), gone).apps) == Entries(o.apps) - cut
  {
    GlobalCutKeeps(o, cut);
    GlobalCutExact(o, cut);
    CapsCooperate(o.(apps := AfterGlobalCut(o.apps, cut)), gone);
  }

  // ---- result pages ----

  ghost predicate IsListed(p: Cache, app: string, requested: nat, now: U64, d: Cache,
                           recentOrder: seq<Membership>, archiveOrder: seq<Membership>) {
    if app !in p.apps then d == p
    else
      var s := p.apps[app];
      && SortedTier(recentOrder, s.recent) && SortedTier(archiveOrder, s.archive)
      && d == p.(apps := p.apps[app := AfterPage(s, recentOrder, archiveOrder, Limit(requested), now)])
  }

  /** The set after a page of `limit` was taken from it. */
  function AfterPage(s: PeerSet, recentOrder: seq<Membership>, archiveOrder: seq<Membership>, limit: nat,
      now: U64): PeerSet {
    PeerSet(s.total,
            Stamped(recentOrder, RecentPicks(limit, |s.recent|, |s.archive|), now),
            Stamped(archiveOrder, ArchivePicks(limit, |s.recent|, |s.archive|), now))
  }

  lemma TierEntries(app: string, tier: Tier, s: seq<Membership>, order: seq<Membership>, n: nat, now: U64)
    requires OncePerPeer(s) && multiset(order) == multiset(s)
    ensures (set m | m in Stamped(order, n, now) :: EntryOf(app, tier, m)) == set m | m in s :: EntryOf(app, tier, m)
  {
    StampedKeeps(s, order, n, now);
    var after := Stamped(order, n, now);
    forall m | m in s ensures exists q :: q in after && EntryOf(app, tier, q) == EntryOf(app, tier, m) {
      assert m in order;
      var i :| 0 <= i < |order| && order[i] == m;
      assert after[i] in after;
    }
    forall m | m in after ensures exists q :: q in s && EntryOf(app, tier, q) == EntryOf(app, tier, m) {
      var i :| 0 <= i < |after| && after[i] == m;
      assert order[i] in s;
    }
  }

  /** Handing out a page changes who was returned when, and no association. */
  lemma ListedInv(p: Cache, app: string, requested: nat, now: U64, d: Cache,
                  recentOrder: seq<Membership>, archiveOrder: seq<Membership>)
    requires Inv(p) && IsListed(p, app, requested, now, d, recentOrder, archiveOrder)
    ensures Inv(d) && Entries(d.apps) == Entries(p.apps) && d.peers == p.peers && d.nextId == p.nextId
    ensures d.apps.Keys == p.apps.Keys && forall a :: a in p.apps ==> d.apps[a].total == p.apps[a].total
  {
    if app in p.apps {
      var s, limit := p.apps[app], Limit(requested);
      StampedKeeps(s.recent, recentOrder, RecentPicks(limit, |s.recent|, |s.archive|), now);
      StampedKeeps(s.archive, archiveOrder, ArchivePicks(limit, |s.recent|, |s.archive|), now);
      TierEntries(app, Recent, s.recent, recentOrder, RecentPicks(limit, |s.recent|, |s.archive|), now);
      TierEntries(app, Archive, s.archive, archiveOrder, ArchivePicks(limit, |s.recent|, |s.archive|), now);
      SameEntries(p.apps, app, d.apps[app]);
    }
  }

  lemma SameEntries(apps: Apps, app: string, s: PeerSet)
    requires app in apps && EntriesOf(app, s) == EntriesOf(app, apps[app])
    ensures Entries(apps[app := s]) == Entries(apps)
  {
    forall e ensures e in Entries(apps[app := s]) <==> e in Entries(apps) {
      EntryIn(apps, e);
      EntryIn(apps[app := s], e);
      if e.app == app && e in EntriesOf(app, s) { EntriesNameTheirApp(app, s, e); }
    }
  }

  lemma EntriesNameTheirApp(app: string, s: PeerSet, e: Entry)
    requires e in EntriesOf(app, s)
    ensures e.app == app
  {
  }

  // ---- runs ----

  datatype Event =
    | Register(app: string, now: U64)
    | Observe(address: string, listed: set<string>, infoAt: U64, directAt: U64, now: U64,
              cut: set<Entry>, gone: set<Candidate>)  // what the capacity passes took, among ties
    | ListPeers(app: string, requested: nat, now: U64)
    | Remove(addresses: set<string>)
    | Sweep(now: U64)

  ghost predicate Step(sample: Sample, c: Cache, e: Event, d: Cache) {
    match e
    case Register(app, now) => d == Registered(c, app, now)
    case Observe(address, listed, infoAt, directAt, now, cut, gone) =>
      IsObserved(sample, Pruned(c, now), address, listed, infoAt, Min(directAt, now), d, cut, gone)
    case ListPeers(app, requested, now) =>
      exists recentOrder, archiveOrder :: IsListed(Pruned(c, now), app, requested, now, d, recentOrder, archiveOrder)
    case Remove(addresses) => d == if addresses == {} then c else Dropped(c, addresses)
    case Sweep(now) => d == Pruned(c, now)
  }

  lemma StepInv(sample: Sample, c: Cache, e: Event, d: Cache)
    requires Inv(c) && Step(sample, c, e, d)
    ensures Inv(d)
  {
    match e
    case Register(app, now) =>
    case Observe(address, listed, infoAt, directAt, now, cut, gone) =>
      PrunedInv(c, now);
      ObservedInv(sample, Pruned(c, now), address, listed, infoAt, Min(directAt, now), d, cut, gone);
    case ListPeers(app, requested, now) =>
      PrunedInv(c, now);
      var recentOrder, archiveOrder :| IsListed(Pruned(c, now), app, requested, now, d, recentOrder, archiveOrder);
      ListedInv(Pruned(c, now), app, requested, now, d, recentOrder, archiveOrder);
    case Remove(addresses) => DroppedKeeps(c, addresses);
    case Sweep(now) => PrunedInv(c, now);
  }

  ghost predicate StepAt(sample: Sample, states: seq<Cache>, events: seq<Event>, i: nat)
    requires |states| == |events| + 1 && i < |events|
  {
    Step(sample, states[i], events[i], states[i + 1])
  }

  ghost predicate IsRun(sample: Sample, states: seq<Cache>, events: seq<Event>) {
    && |states| == |events| + 1
    && Inv(states[0])
    && forall i :: 0 <= i < |events| ==> StepAt(sample, states, events, i)
  }

  lemma StepAtInv(sample: Sample, states: seq<Cache>, events: seq<Event>, i: nat)
    requires |states| == |events| + 1 && i < |events| && StepAt(sample, states, events, i) && Inv(states[i])
    ensures Inv(states[i + 1])
  {
    StepInv(sample, states[i], events[i], states[i + 1]);
  }

  /** Every reachable cache has its representation: tier and global capacities,
      a peer once per application, unique issued ids, no dangling membership, no
      application nobody asked for. */
  lemma {:induction false} RunInv(sample: Sample, states: seq<Cache>, events: seq<Event>, i: nat)
    requires IsRun(sample, states, events) && i < |states|
    ensures Inv(states[i])
  {
    if i > 0 {
      RunInv(sample, states, events, i - 1);
      StepAtInv(sample, states, events, i - 1);
    }
  }

  lemma EmptyInv()
    ensures Inv(EMPTY)
  {
    assert Entries(EMPTY.apps) == {};
  }

  /** The same record, later: nothing it knows is older than before. */
  predicate Continues(r: PeerRecord, later: PeerRecord) {
    && r.id == later.id && r.firstDiscovered == later.firstDiscovered
    && r.infoAt <= later.infoAt && r.verified <= later.verified
  }

  /** Every record of `d` continues one of `c`, or is newer than everything `c`
      ever issued. */
  ghost predicate Ages(c: Cache, d: Cache) {
    && c.nextId <= d.nextId
    && forall a :: a in d.peers ==>
         || d.peers[a].id >= c.nextId
         || (a in c.peers && Continues(c.peers[a], d.peers[a]))
  }

  lemma StepAges(sample: Sample, c: Cache, e: Event, d: Cache)
    requires Inv(c) && Step(sample, c, e, d)
    ensures Ages(c, d)
  {
    match e
    case Register(app, now) =>
    case Observe(address, listed, infoAt, directAt, now, cut, gone) =>
      PrunedInv(c, now);
      ObservedAges(sample, Pruned(c, now), address, listed, infoAt, Min(directAt, now), d, cut, gone);
    case ListPeers(app, requested, now) =>
      PrunedInv(c, now);
      var recentOrder, archiveOrder :| IsListed(Pruned(c, now), app, requested, now, d, recentOrder, archiveOrder);
    case Remove(addresses) =>
    case Sweep(now) =>
  }

  lemma ObservedAges(sample: Sample, p: Cache, address: string, listed: set<string>, infoAt: U64, at: U64,
                     d: Cache, cut: set<Entry>, gone: set<Candidate>)
    requires Inv(p) && IsObserved(sample, p, address, listed, infoAt, at, d, cut, gone)
    ensures Ages(p, d)
  {
    var advertised := listed * p.interests.Keys;
    if Stale(p, address, infoAt) {
      SameAges(p);
    } else if advertised == {} {
      SilentAges(p, address, at, infoAt);
    } else {
      AdvertisingAges(sample, p, address, advertised, at, infoAt);
      AfterCutsAges(p, Advertising(sample, p, address, advertised, at, infoAt), cut, gone);
    }
  }

  lemma AdvertisingAges(sample: Sample, p: Cache, address: string, advertised: set<string>, at: U64, infoAt: U64)
    requires Linked(p) && !Stale(p, address, infoAt)
    ensures Ages(p, Advertising(sample, p, address, advertised, at, infoAt))
  {
    WithdrawnKeeps(p, address, advertised);
    RecordedKeeps(Withdrawn(p, address, advertised), address, at, infoAt);
  }

  lemma SameAges(p: Cache)
    ensures Ages(p, p)
  {
  }

  lemma SilentAges(p: Cache, address: string, at: U64, infoAt: U64)
    requires !Stale(p, address, infoAt)
    ensures Ages(p, Silent(p, address, at, infoAt))
  {
  }

  lemma AfterCutsAges(p: Cache, o: Cache, cut: set<Entry>, gone: set<Candidate>)
    requires Ages(p, o)
    ensures Ages(p, AfterPeerCut(o.(apps := AfterGlobalCut(o.apps, cut)), gone))
  {
  }

  lemma AgesTrans(b: Cache, c: Cache, d: Cache)
    requires Ages(b, c) && Ages(c, d)
    ensures Ages(b, d)
  {
  }

  lemma OneStepAges(sample: Sample, states: seq<Cache>, events: seq<Event>, i: nat)
    requires IsRun(sample, states, events) && i < |events|
    ensures Ages(states[i], states[i + 1])
  {
    RunInv(sample, states, events, i);
    assert StepAt(sample, states, events, i);
    StepAges(sample, states[i], events[i], states[i + 1]);
  }

  lemma {:induction false} RunAges(sample: Sample, states: seq<Cache>, events: seq<Event>, i: nat, j: nat)
    requires IsRun(sample, states, events) && i <= j < |states|
    ensures Ages(states[i], states[j])
    decreases j
  {
    if i < j {
      RunAges(sample, states, events, i, j - 1);
      OneStepAges(sample, states, events, j - 1);
      AgesTrans(states[i], states[j - 1], states[j]);
    }
  }

  /** While a record lives, and whatever else happens, neither the AppInfo time
      nor the verification time it carries ever goes back. */
  lemma InfoNeverDecreases(sample: Sample, states: seq<Cache>, events: seq<Event>, i: nat, j: nat, address: string)
    requires IsRun(sample, states, events) && i <= j < |states|
    requires address in states[i].peers && address in states[j].peers
    requires states[i].peers[address].id == states[j].peers[address].id
    ensures Continues(states[i].peers[address], states[j].peers[address])
  {
    RunAges(sample, states, events, i, j);
    RunInv(sample, states, events, i);
  }
}
