/** The discovery cache as the code updates it in place (app/discovery.rs). */
module DiscoveryPage {
  import opened Basics
  import opened Sorting
  import opened PeerSets
  import opened DiscoverySpec
  import opened Paging

  datatype PeerResult = PeerResult(address: string, firstDiscovered: U64, verified: U64, returned: U64, count: nat,
      tier: Tier)

  /** The result a membership gives, with its peer's own record. */
  predicate ResultFor(peers: map<string, PeerRecord>, tier: Tier, m: Membership, r: PeerResult) {
    && r.address in peers && peers[r.address].id == m.peer
    && r == PeerResult(r.address, peers[r.address].firstDiscovered, m.verified, m.returned, m.count, tier)
  }

  predicate InTiers(recent: seq<Membership>, archive: seq<Membership>, slot: Slot) {
    slot.index < if slot.tier == Recent then |recent| else |archive|
  }

  function At(recent: seq<Membership>, archive: seq<Membership>, slot: Slot): Membership
    requires InTiers(recent, archive, slot)
  {
    if slot.tier == Recent then recent[slot.index] else archive[slot.index]
  }

  ghost predicate UniqueIds(peers: map<string, PeerRecord>) {
    forall a, b :: a in peers && b in peers && peers[a].id == peers[b].id ==> a == b
  }

  /** Records by id. */
  ghost predicate IsIndex(index: map<nat, string>, peers: map<string, PeerRecord>, addresses: set<string>) {
    && (forall a :: a in addresses && a in peers ==> peers[a].id in index && index[peers[a].id] == a)
    && (forall id :: id in index ==> index[id] in peers && peers[index[id]].id == id)
  }

  method IndexById(peers: map<string, PeerRecord>) returns (index: map<nat, string>)
    requires UniqueIds(peers)
    ensures IsIndex(index, peers, peers.Keys)
  {
    index := map[];
    var rest := peers.Keys;
    while rest != {}
      invariant rest <= peers.Keys && IsIndex(index, peers, peers.Keys - rest)
      decreases rest
    {
      var a :| a in rest;
      index := index[peers[a].id := a];
      rest := rest - {a};
    }
  }

  /** `s` with the slots of `tier` among `done` stamped. */
  ghost predicate PartStamped(s: seq<Membership>, order: seq<Membership>, tier: Tier, done: seq<Slot>, now: U64) {
    && |s| == |order|
    && forall i :: 0 <= i < |s| ==> s[i] == if Slot(tier, i) in done then Stamp(order[i], now) else order[i]
  }

  lemma StampNext(s: seq<Membership>, order: seq<Membership>, tier: Tier, done: seq<Slot>, slot: Slot, now: U64)
    requires PartStamped(s, order, tier, done, now) && slot !in done && slot.tier == tier && slot.index < |s|
    ensures s[slot.index] == order[slot.index]
    ensures PartStamped(s[slot.index := Stamp(order[slot.index], now)], order, tier, done + [slot], now)
  {
  }

  lemma SkipOther(s: seq<Membership>, order: seq<Membership>, tier: Tier, done: seq<Slot>, slot: Slot, now: U64)
    requires PartStamped(s, order, tier, done, now) && slot.tier != tier
    ensures PartStamped(s, order, tier, done + [slot], now)
  {
  }

  /** Each of the selected memberships has given its result. */
  ghost predicate Collected(peers: map<string, PeerRecord>, recent: seq<Membership>, archive: seq<Membership>,
                            selected: seq<Slot>, results: seq<PeerResult>) {
    && |results| == |selected|
    && forall k :: 0 <= k < |selected| ==>
         InTiers(recent, archive, selected[k])
         && ResultFor(peers, selected[k].tier, At(recent, archive, selected[k]), results[k])
  }

  /** Stamp every selected membership and collect its result.  No membership is
      skipped: each has a record. */
  method TakePage(peers: map<string, PeerRecord>, recentOrder: seq<Membership>, archiveOrder: seq<Membership>,
      selected: seq<Slot>, now: U64)
    returns (recent: seq<Membership>, archive: seq<Membership>, results: seq<PeerResult>)
    requires UniqueIds(peers) && Distinct(selected)
    requires forall slot :: slot in selected ==> InTiers(recentOrder, archiveOrder, slot)
    requires forall m :: m in recentOrder || m in archiveOrder ==> m.peer in Ids(peers)
    ensures PartStamped(recent, recentOrder, Recent, selected, now)
        && PartStamped(archive, archiveOrder, Archive, selected, now)
    ensures Collected(peers, recentOrder, archiveOrder, selected, results)
  {
    var index := IndexById(peers);
    recent, archive, results := recentOrder, archiveOrder, [];
    var k := 0;
    while k < |selected|
      invariant 0 <= k <= |selected|
      invariant PartStamped(recent, recentOrder, Recent, selected[..k], now)
      invariant PartStamped(archive, archiveOrder, Archive, selected[..k], now)
      invariant Collected(peers, recentOrder, archiveOrder, selected[..k], results)
    {
      var slot := selected[k];
      var m;
      recent, archive, m := StampSlot(recent, archive, recentOrder, archiveOrder, selected[..k], slot, now);
      assert selected[..k + 1] == selected[..k] + [slot];
      k := k + 1;
      if m.peer !in index {
        continue;
      }
      var address := index[m.peer];
      results := results + [PeerResult(address, peers[address].firstDiscovered, m.verified, m.returned, m.count,
          slot.tier)];
    }
    assert selected[..k] == selected;
  }

  method StampSlot(recent: seq<Membership>, archive: seq<Membership>, ghost recentOrder: seq<Membership>,
      ghost archiveOrder: seq<Membership>,
                   ghost done: seq<Slot>, slot: Slot, now: U64)
    returns (newRecent: seq<Membership>, newArchive: seq<Membership>, was: Membership)
    requires PartStamped(recent, recentOrder, Recent, done, now)
        && PartStamped(archive, archiveOrder, Archive, done, now)
    requires slot !in done && InTiers(recentOrder, archiveOrder, slot)
    ensures PartStamped(newRecent, recentOrder, Recent, done + [slot], now)
    ensures PartStamped(newArchive, archiveOrder, Archive, done + [slot], now)
    ensures was == At(recentOrder, archiveOrder, slot) && (was in recentOrder || was in archiveOrder)
  {
    was := At(recent, archive, slot);
    newRecent, newArchive := recent, archive;
    if slot.tier == Recent {
      StampNext(recent, recentOrder, Recent, done, slot, now);
      SkipOther(archive, archiveOrder, Archive, done, slot, now);
      newRecent := recent[slot.index := Stamp(was, now)];
    } else {
      StampNext(archive, archiveOrder, Archive, done, slot, now);
      SkipOther(recent, recentOrder, Recent, done, slot, now);
      newArchive := archive[slot.index := Stamp(was, now)];
    }
  }

  lemma FullyStamped(s: seq<Membership>, order: seq<Membership>, tier: Tier, selected: seq<Slot>, n: nat, now: U64)
    requires PartStamped(s, order, tier, selected, now)
    requires forall i :: 0 <= i < |order| ==> (Slot(tier, i) in selected <==> i < n)
    ensures s == Stamped(order, n, now)
  {
  }
}

module DiscoveryCache {
  import opened Basics
  import opened Sorting
  import opened PeerSets
  import opened Associations
  import opened DiscoverySpec
  import opened Paging
  import opened DiscoveryPage
  import opened DiscoveryRuns

  datatype Triple = Triple(app: string, tier: Tier, peer: nat)

  function TripleOf(e: Entry): Triple {
    Triple(e.app, e.tier, e.peer)
  }

  function NotAmong(remove: set<Triple>): Entry -> bool {
    (e: Entry) => TripleOf(e) !in remove
  }

  /** Removing by triple removes exactly the listed entries. */
  lemma RemoveByTriple(apps: Apps, gone: set<Entry>)
    requires AllWellFormed(apps) && gone <= Entries(apps)
    ensures Sift(apps, NotAmong(set e | e in gone :: TripleOf(e))) == Sift(apps, NotIn(gone))
  {
    var remove := set e | e in gone :: TripleOf(e);
    forall e | e in Entries(apps) ensures NotAmong(remove)(e) == NotIn(gone)(e) {
      if TripleOf(e) in remove {
        var f :| f in gone && TripleOf(f) == TripleOf(e);
        TriplesUnique(apps, e, f);
      }
    }
    SiftAgrees(apps, NotAmong(remove), NotIn(gone));
  }

  /** The association pass's list: sorted, and its first `total - cap` taken. */
  method OldestEntries(apps: Apps, total: nat) returns (gone: set<Entry>)
    requires total == |Entries(apps)| > ASSOCIATION_CAPACITY
    ensures IsGlobalCut(apps, gone)
  {
    var candidates := Listed(Entries(apps));
    var order := Sort(candidates, OlderEntry);
    PermutedDistinct(candidates, order);
    PrefixCuts(Entries(apps), order, total - ASSOCIATION_CAPACITY, OlderEntry);
    gone := Elements(order[..total - ASSOCIATION_CAPACITY]);
  }

  /** The peer pass's list. */
  method PeersToEvict(c: Cache) returns (gone: set<Candidate>)
    requires |c.peers| > PEER_CAPACITY
    ensures IsPeerCut(c, gone) && gone != {}
  {
    var found := Candidates(c);
    CandidateCount(c, c.peers.Keys);
    assert found == set a | a in c.peers.Keys :: CandidateOf(c, a);
    var candidates := Listed(found);
    var order := Sort(candidates, EvictedFirst);
    PermutedDistinct(candidates, order);
    PrefixCuts(found, order, |c.peers| - PEER_CAPACITY, EvictedFirst);
    gone := Elements(order[..|c.peers| - PEER_CAPACITY]);
  }

  class AppDiscoveryCache {
    const sample: Sample  // hash behind the archive draw
    var nextId: nat
    var interests: map<string, U64>
    var peers: map<string, PeerRecord>
    var apps: Apps

    function Now(): Cache
      reads this
    {
      Cache(nextId, interests, peers, apps)
    }

    ghost predicate Valid()
      reads this
    {
      Inv(Now())
    }

    constructor (sample: Sample)
      ensures Valid() && Now() == EMPTY && this.sample == sample
    {
      this.sample := sample;
      nextId, interests, peers, apps := 1, map[], map[], map[];
      new;
      EmptyInv();
    }

    method RegisterInterest(app: string, now: U64) returns (newlyActive: bool)
      requires Valid()
      modifies this`interests
      ensures Valid() && Now() == Registered(old(Now()), app, now)
      ensures newlyActive <==> app !in Pruned(old(Now()), now).interests
    {
      newlyActive := app !in interests || interests[app] < Cutoff(now);
      interests := interests[app := now];
    }

    /** `prune_expired_locked`, with its capacity pass. */
    method PruneExpired(now: U64)
      requires Valid()
      modifies this`interests, this`apps, this`peers
      ensures Valid() && Now() == Pruned(old(Now()), now)
    {
      PrunedInv(Now(), now);
      DropExpired(now);
      var gone := EnforcePeerCapacity();
    }

    method DropExpired(now: U64)
      modifies this`interests, this`apps, this`peers
      ensures Now() == Pruned(old(Now()), now)
    {
      var cutoff := Cutoff(now);
      interests := map a | a in interests && interests[a] >= cutoff :: interests[a];
      assert interests == FreshInterests(old(Now()), now);
      apps := OfApps(apps, interests.Keys);
      apps := Sift(apps, VerifiedSince(cutoff));
      apps := NonEmpty(apps);
      var referenced := Referenced(apps);
      peers := map a | a in peers && (peers[a].verified >= cutoff || peers[a].id in referenced) :: peers[a];
    }

    method EnforceGlobalCapacity() returns (ghost gone: set<Entry>)
      requires Linked(Now())
      modifies this`apps
      ensures IsGlobalCut(old(apps), gone) && apps == AfterGlobalCut(old(apps), gone)
    {
      var total := TotalAssociations(apps);
      if total <= ASSOCIATION_CAPACITY {
        gone := {};
        return;
      }
      var remove := OldestEntries(apps, total);
      gone := remove;
      RemoveByTriple(apps, gone);
      apps := Sift(apps, NotAmong(set e | e in remove :: TripleOf(e)));
      apps := NonEmpty(apps);
    }

    method EnforcePeerCapacity() returns (gone: set<Candidate>)
      modifies this`apps, this`peers
      ensures IsPeerCut(old(Now()), gone) && Now() == AfterPeerCut(old(Now()), gone)
    {
      gone := {};
      if |peers| <= PEER_CAPACITY {
        return;
      }
      var was := Now();
      gone := PeersToEvict(was);
      var ids := IdsOf(was, Addresses(gone));
      peers := peers - Addresses(gone);
      apps := Sift(apps, OtherThan(ids));
      apps := NonEmpty(apps);
    }

    /** The membership loop of `observe_direct_app_set`. */
    method JoinAll(advertised: set<string>, peer: nat, at: U64)
      modifies this`apps
      ensures apps == Joined(sample, old(apps), advertised, peer, at)
    {
      var rest := advertised;
      while rest != {}
        invariant rest <= advertised
        invariant apps == Joined(sample, old(apps), advertised - rest, peer, at)
        decreases rest
      {
        var app :| app in rest;
        var s := ObserveMembership(sample, app, SetOf(apps, app), peer, at);
        apps := apps[app := s];
        rest := rest - {app};
      }
      assert advertised - rest == advertised;
    }

    method ObserveDirectAppSet(address: string, listed: seq<string>, infoAt: U64, directAt: U64, now: U64)
      returns (ghost cut: set<Entry>, ghost gone: set<Candidate>)
      requires Valid()
      modifies this`nextId, this`interests, this`apps, this`peers
      ensures Valid()
      ensures IsObserved(sample, Pruned(old(Now()), now), address, Elements(listed), infoAt, Min(directAt, now), Now(),
          cut, gone)
    {
      cut, gone := {}, {};
      var at := Min(directAt, now);
      PruneExpired(now);
      ghost var p := Now();
      var advertised := Elements(listed) * interests.Keys;
      if Stale(Now(), address, infoAt) {
        return;
      }
      cut, gone := Apply(address, advertised, infoAt, at);
      assert IsObserved(sample, p, address, Elements(listed), infoAt, at, Now(), cut, gone);
      ObservedInv(sample, p, address, Elements(listed), infoAt, at, Now(), cut, gone);
    }

    /** A direct read that is not stale, on a pruned cache. */
    method Apply(address: string, advertised: set<string>, infoAt: U64, at: U64)
      returns (ghost cut: set<Entry>, ghost gone: set<Candidate>)
      requires Valid() && advertised <= interests.Keys && !Stale(Now(), address, infoAt)
      modifies this`nextId, this`apps, this`peers
      ensures if advertised == {} then Now() == Silent(old(Now()), address, at, infoAt) && cut == {} && gone == {}
              else
                var o := Advertising(sample, old(Now()), address, advertised, at, infoAt);
                && IsGlobalCut(o.apps, cut)
                && IsPeerCut(o.(apps := AfterGlobalCut(o.apps, cut)), gone)
                && Now() == AfterPeerCut(o.(apps := AfterGlobalCut(o.apps, cut)), gone)
    {
      ghost var p := Now();
      if address in peers {
        apps := Sift(apps, Advertised(advertised, peers[address].id));
      }
      assert Now() == Withdrawn(p, address, advertised);
      if advertised == {} {
        cut, gone := {}, {};
        SilentInv(p, address, at, infoAt);
        Tombstone(address, at, infoAt);
        return;
      }
      AdvertisingKeeps(sample, p, address, advertised, at, infoAt);
      Record(address, at, infoAt);
      JoinAll(advertised, peers[address].id, at);
      assert Now() == Advertising(sample, p, address, advertised, at, infoAt);
      cut := EnforceGlobalCapacity();
      gone := EnforcePeerCapacity();
    }

    method Tombstone(address: string, at: U64, infoAt: U64)
      requires |peers| <= PEER_CAPACITY
      modifies this`apps, this`peers
      ensures Now() == if address in old(peers)
                       then old(Now()).(peers := old(peers)[address := Touched(old(peers)[address], at, infoAt)])
                           else old(Now())
    {
      if address in peers {
        assert peers[address := Touched(peers[address], at, infoAt)].Keys == peers.Keys;
        peers := peers[address := Touched(peers[address], at, infoAt)];
      }
      var none := EnforcePeerCapacity();
    }

    method Record(address: string, at: U64, infoAt: U64)
      modifies this`nextId, this`peers
      ensures Now() == Recorded(old(Now()), address, at, infoAt) && address in peers
    {
      if address in peers {
        peers := peers[address := Touched(peers[address], at, infoAt)];
      } else {
        var id := Max(nextId, 1);
        nextId := id + 1;
        peers := peers[address := PeerRecord(id, at, at, infoAt)];
      }
    }

    method RemovePeers(blocked: seq<string>)
      requires Valid()
      modifies this`apps, this`peers
      ensures Valid() && Now() == if blocked == [] then old(Now()) else Dropped(old(Now()), Elements(blocked))
    {
      if blocked == [] {
        return;
      }
      DroppedKeeps(Now(), Elements(blocked));
      var ids := IdsOf(Now(), Elements(blocked));
      peers := peers - Elements(blocked);
      apps := Sift(apps, OtherThan(ids));
      apps := NonEmpty(apps);
    }

    /** `list_peers`. */
    method ListPeers(app: string, requested: nat, now: U64)
      returns (total: nat, results: seq<PeerResult>, selected: seq<Slot>,
               recentOrder: seq<Membership>, archiveOrder: seq<Membership>)
      requires Valid()
      modifies this`interests, this`apps, this`peers
      ensures Valid() && IsListed(Pruned(old(Now()), now), app, requested, now, Now(), recentOrder, archiveOrder)
      ensures app !in apps ==> total == 0 && results == []
      ensures app in apps ==> total == |apps[app].recent| + |apps[app].archive|
      ensures |results| == |selected| && Distinct(selected)
      ensures requested > 0 ==> |results| == Min(Min(requested, 1_000), total)
      ensures requested == 0 ==> |results| == Min(1, total)
      ensures app in apps ==> IsSelection(selected, Limit(requested), |apps[app].recent|, |apps[app].archive|)
      ensures Collected(peers, recentOrder, archiveOrder, selected, results)
    {
      total, results, selected, recentOrder, archiveOrder := 0, [], [], [], [];
      PruneExpired(now);
      if app !in apps {
        return;
      }
      recentOrder, archiveOrder, selected, results := ListFrom(app, requested, now);
      total := |apps[app].recent| + |apps[app].archive|;
    }

    /** The page of an application that has peers. */
    method ListFrom(app: string, requested: nat, now: U64)
      returns (recentOrder: seq<Membership>, archiveOrder: seq<Membership>, selected: seq<Slot>,
          results: seq<PeerResult>)
      requires Valid() && app in apps
      modifies this`apps
      ensures Valid() && app in apps && IsListed(old(Now()), app, requested, now, Now(), recentOrder, archiveOrder)
      ensures var total := |apps[app].recent| + |apps[app].archive|;
              && (requested > 0 ==> |results| == Min(Min(requested, 1_000), total))
              && (requested == 0 ==> |results| == Min(1, total))
      ensures |results| == |selected| && Distinct(selected)
      ensures IsSelection(selected, Limit(requested), |apps[app].recent|, |apps[app].archive|)
      ensures Collected(peers, recentOrder, archiveOrder, selected, results)
    {
      ghost var p := Now();
      recentOrder, archiveOrder, selected, results := Page(app, Limit(requested), now);
      assert Now() == p.(apps := apps);
      ListedInv(p, app, requested, now, Now(), recentOrder, archiveOrder);
    }

    method Page(app: string, limit: nat, now: U64)
      returns (recentOrder: seq<Membership>, archiveOrder: seq<Membership>, selected: seq<Slot>,
          results: seq<PeerResult>)
      requires Valid() && app in apps && 1 <= limit <= MAX_RESULTS
      modifies this`apps
      ensures SortedTier(recentOrder, old(apps)[app].recent) && SortedTier(archiveOrder, old(apps)[app].archive)
      ensures apps == old(apps)[app := AfterPage(old(apps)[app], recentOrder, archiveOrder, limit, now)]
      ensures |apps[app].recent| == |old(apps)[app].recent| && |apps[app].archive| == |old(apps)[app].archive|
      ensures |selected| == Min(limit, |apps[app].recent| + |apps[app].archive|) && Distinct(selected)
      ensures IsSelection(selected, limit, |apps[app].recent|, |apps[app].archive|)
      ensures Collected(peers, recentOrder, archiveOrder, selected, results)
    {
      var s := apps[app];
      PriorityIsPreorder();
      recentOrder := Sort(s.recent, ReturnedFirst);
      archiveOrder := Sort(s.archive, ReturnedFirst);
      StampedKeeps(s.recent, recentOrder, 0, now);
      StampedKeeps(s.archive, archiveOrder, 0, now);
      MembersReferenced(apps, app);
      forall m | m in recentOrder || m in archiveOrder ensures m.peer in Ids(peers) {
        assert m.peer in Members(s);
      }
      ghost var topUp;
      selected, topUp := Select(limit, |s.recent|, |s.archive|);
      var recent, archive;
      recent, archive, results := TakePage(peers, recentOrder, archiveOrder, selected, now);
      FullyStamped(recent, recentOrder, Recent, selected, RecentPicks(limit, |s.recent|, |s.archive|), now);
      FullyStamped(archive, archiveOrder, Archive, selected, ArchivePicks(limit, |s.recent|, |s.archive|), now);
      apps := apps[app := PeerSet(s.total, recent, archive)];
    }
  }
}
