/** How long a record of the discovery cache lasts, and what that means for AppInfo
    that arrives late (app/discovery.rs). */
module DiscoveryTombstones {
  import opened Basics
  import opened Sorting
  import opened PeerSets
  import opened Associations
  import opened DiscoverySpec
  import opened DiscoveryRuns

  const LIFETIME: nat := 180 * 24 * 60 * 60

  // ---- expiry ----

  /** An association of `id` that survives pruning. */
  predicate LivesOn(c: Cache, id: nat, now: U64, f: Entry) {
    f.peer == id && f.app in c.interests && now <= c.interests[f.app] + LIFETIME && now <= f.verified + LIFETIME
  }

  /** No direct read within 180 days, and no association that lives on. */
  ghost predicate Expires(c: Cache, address: string, now: U64)
    requires address in c.peers
  {
    && c.peers[address].verified + LIFETIME < now
    && forall f :: f in Entries(c.apps) ==> !LivesOn(c, c.peers[address].id, now, f)
  }

  /** Pruning drops exactly the expired records and changes none. */
  lemma RecordSurvivesIff(c: Cache, address: string, now: U64)
    requires address in c.peers
    ensures address in Pruned(c, now).peers <==> !Expires(c, address, now)
    ensures address in Pruned(c, now).peers ==> Pruned(c, now).peers[address] == c.peers[address]
  {
    FreshEntries(c, now);
    var id := c.peers[address].id;
    if f :| f in Entries(c.apps) && LivesOn(c, id, now, f) {
      assert f in Entries(Pruned(c, now).apps);
    }
  }

  /** The event prunes, at `e.now`. */
  predicate Prunes(e: Event) {
    e.Observe? || e.ListPeers? || e.Sweep?
  }

  /** An application is of interest after a step exactly when the step registers it,
      or it was and is not pruned 180 days after it was last registered. */
  lemma StepInterestIff(sample: Sample, c: Cache, e: Event, d: Cache, app: string)
    requires Step(sample, c, e, d)
    ensures var registers := e.Register? && e.app == app;
            && (app in d.interests <==>
                 registers || (app in c.interests && (Prunes(e) ==> e.now <= c.interests[app] + LIFETIME)))
            && (app in d.interests ==> d.interests[app] == if registers then e.now else c.interests[app])
  {
    if Prunes(e) {
      PrunedInterest(c, e.now, app);
      InterestsStay(sample, c, e, d);
    }
  }

  lemma PrunedInterest(c: Cache, now: U64, app: string)
    ensures app in Pruned(c, now).interests <==> app in c.interests && now <= c.interests[app] + LIFETIME
    ensures app in Pruned(c, now).interests ==> Pruned(c, now).interests[app] == c.interests[app]
  {
  }

  lemma InterestsStay(sample: Sample, c: Cache, e: Event, d: Cache)
    requires Step(sample, c, e, d) && Prunes(e)
    ensures d.interests == Pruned(c, e.now).interests
  {
    if e.Observe? {
      ObservedInterests(sample, Pruned(c, e.now), e.address, e.listed, e.infoAt, Min(e.directAt, e.now), d, e.cut,
                        e.gone);
    }
  }

  lemma ObservedInterests(sample: Sample, p: Cache, address: string, listed: set<string>, infoAt: U64, at: U64,
                          d: Cache, cut: set<Entry>, gone: set<Candidate>)
    requires IsObserved(sample, p, address, listed, infoAt, at, d, cut, gone)
    ensures d.interests == p.interests
  {
  }

  // ---- the peer cut ----

  /** Unreferenced, and no unreferenced record was verified earlier. */
  ghost predicate OldestTombstone(c: Cache, address: string)
    requires address in c.peers
  {
    && c.peers[address].id !in Referenced(c.apps)
    && forall b :: b in c.peers && c.peers[b].id !in Referenced(c.apps) ==>
         c.peers[address].verified <= c.peers[b].verified
  }

  lemma TakenIsOldest(c: Cache, address: string, gone: set<Candidate>)
    requires Linked(c) && |Entries(c.apps)| <= ASSOCIATION_CAPACITY && |c.peers| == PEER_CAPACITY + 1
    requires address in c.peers && IsPeerCut(c, gone) && address in Addresses(gone)
    ensures OldestTombstone(c, address)
  {
    OnlyTombstones(c, gone);
    PeerCutSizes(c, gone);
    Singleton(gone, CandidateOf(c, address));
    CutAloneIsOldest(c, address);
  }

  lemma CutAloneIsOldest(c: Cache, address: string)
    requires address in c.peers && c.peers[address].id !in Referenced(c.apps)
    requires Cut(Candidates(c), {CandidateOf(c, address)}, EvictedFirst)
    ensures OldestTombstone(c, address)
  {
    var a := CandidateOf(c, address);
    forall b | b in c.peers && c.peers[b].id !in Referenced(c.apps) ensures a.verified <= c.peers[b].verified {
      var k := CandidateOf(c, b);
      assert k in Candidates(c);
      assert k != a ==> EvictedFirst(a, k);
    }
  }

  lemma Singleton<T>(s: set<T>, x: T)
    requires |s| == 1 && x in s
    ensures s == {x}
  {
    forall y | y in s ensures y == x { SubsetSize({x, y}, s); }
  }

  lemma OldestMayGo(c: Cache, address: string)
    requires |c.peers| == PEER_CAPACITY + 1 && address in c.peers && OldestTombstone(c, address)
    ensures IsPeerCut(c, {CandidateOf(c, address)}) && address in Addresses({CandidateOf(c, address)})
  {
    var a := CandidateOf(c, address);
    forall k | k in Candidates(c) ensures EvictedFirst(a, k) {
      var b :| b in c.peers && CandidateOf(c, b) == k;
    }
  }

  /** A cache one record over its cap may lose a record exactly when it is the
      oldest tombstone, up to ties. */
  lemma PeerCutTakesIff(c: Cache, address: string)
    requires Linked(c) && |Entries(c.apps)| <= ASSOCIATION_CAPACITY && |c.peers| == PEER_CAPACITY + 1
    requires address in c.peers
    ensures (exists gone :: IsPeerCut(c, gone) && address in Addresses(gone)) <==> OldestTombstone(c, address)
  {
    if gone :| IsPeerCut(c, gone) && address in Addresses(gone) {
      TakenIsOldest(c, address, gone);
    }
    if OldestTombstone(c, address) {
      OldestMayGo(c, address);
    }
  }

  /** An observation evicts at most one record, and one only when the cache is
      full of records and the observed peer is new and advertises something. */
  lemma OneRecordGoes(sample: Sample, p: Cache, address: string, listed: set<string>, infoAt: U64, at: U64, d: Cache,
                      cut: set<Entry>, gone: set<Candidate>)
    requires Inv(p) && IsObserved(sample, p, address, listed, infoAt, at, d, cut, gone)
    ensures |gone| == if |p.peers| == PEER_CAPACITY && address !in p.peers && listed * p.interests.Keys != {}
                      then 1 else 0
  {
    var advertised := listed * p.interests.Keys;
    if !Stale(p, address, infoAt) && advertised != {} {
      WithdrawnKeeps(p, address, advertised);
      RecordedKeeps(Withdrawn(p, address, advertised), address, at, infoAt);
      if address !in p.peers {
        NewRecordLinked(p, address, PeerRecord(p.nextId, at, at, infoAt));
      }
    }
  }

  // ---- a record through one step ----

  /** `e` takes the record of `address` away: it is blocked, expires, or is what
      the peer cut takes. */
  ghost predicate Loses(c: Cache, e: Event, address: string)
    requires address in c.peers
  {
    match e
    case Register(_, _) => false
    case Observe(_, _, _, _, now, _, gone) => Expires(c, address, now) || address in Addresses(gone)
    case ListPeers(_, _, now) => Expires(c, address, now)
    case Remove(addresses) => address in addresses
    case Sweep(now) => Expires(c, address, now)
  }

  /** The same record, not a later one of the same peer. */
  predicate SameRecord(c: Cache, d: Cache, address: string) {
    address in c.peers && address in d.peers && c.peers[address].id == d.peers[address].id
  }

  lemma AdvertisingPeers(sample: Sample, p: Cache, observed: string, advertised: set<string>, at: U64, infoAt: U64,
                         address: string)
    requires p.nextId >= 1
    ensures var o := Advertising(sample, p, observed, advertised, at, infoAt);
            && (address in p.peers ==> SameRecord(p, o, address))
            && (address !in p.peers && address in o.peers ==> o.peers[address].id == p.nextId)
  {
  }

  /** Dropping addresses keeps the records of all others. */
  lemma SameUnlessGone(p: Cache, o: Cache, d: Cache, gone: set<string>, address: string)
    requires d.peers == o.peers - gone
    requires address in p.peers ==> SameRecord(p, o, address)
    ensures address in p.peers ==> (SameRecord(p, d, address) <==> address !in gone)
  {
  }

  lemma ObservedKeepsIff(sample: Sample, p: Cache, observed: string, listed: set<string>, infoAt: U64, at: U64,
                         d: Cache, cut: set<Entry>, gone: set<Candidate>, address: string)
    requires p.nextId >= 1 && IsObserved(sample, p, observed, listed, infoAt, at, d, cut, gone)
    ensures address in p.peers ==> (SameRecord(p, d, address) <==> address !in Addresses(gone))
    ensures address !in p.peers && address in d.peers ==> d.peers[address].id == p.nextId
  {
    var advertised := listed * p.interests.Keys;
    if Stale(p, observed, infoAt) || advertised == {} {
      SameUnlessGone(p, d, d, Addresses(gone), address);
    } else {
      var o := Advertising(sample, p, observed, advertised, at, infoAt);
      AdvertisingPeers(sample, p, observed, advertised, at, infoAt, address);
      PeersAfterCuts(o, cut, gone);
      SameUnlessGone(p, o, d, Addresses(gone), address);
    }
  }

  /** A step keeps a record exactly when it does not lose it. */
  lemma StepKeepsIff(sample: Sample, c: Cache, e: Event, d: Cache, address: string)
    requires Inv(c) && Step(sample, c, e, d) && address in c.peers
    ensures SameRecord(c, d, address) <==> !Loses(c, e, address)
  {
    match e
    case Register(_, _) =>
    case Observe(observed, listed, infoAt, directAt, now, cut, gone) =>
      PrunedInv(c, now);
      RecordSurvivesIff(c, address, now);
      ObservedKeepsIff(sample, Pruned(c, now), observed, listed, infoAt, Min(directAt, now), d, cut, gone, address);
    case ListPeers(app, requested, now) =>
      PrunedInv(c, now);
      RecordSurvivesIff(c, address, now);
      var recentOrder, archiveOrder :| IsListed(Pruned(c, now), app, requested, now, d, recentOrder, archiveOrder);
      ListedInv(Pruned(c, now), app, requested, now, d, recentOrder, archiveOrder);
    case Remove(addresses) =>
    case Sweep(now) =>
      RecordSurvivesIff(c, address, now);
  }

  // ---- a record through a run ----

  /** At event `k` the record is there and is not lost. */
  ghost predicate Spared(states: seq<Cache>, events: seq<Event>, k: nat, address: string)
    requires |states| == |events| + 1 && k < |events|
  {
    address in states[k].peers && !Loses(states[k], events[k], address)
  }

  ghost predicate SparedThroughout(states: seq<Cache>, events: seq<Event>, i: nat, j: nat, address: string)
    requires |states| == |events| + 1 && j <= |events|
  {
    forall k :: i <= k < j ==> Spared(states, events, k, address)
  }

  lemma NextRecord(sample: Sample, states: seq<Cache>, events: seq<Event>, k: nat, address: string)
    requires IsRun(sample, states, events) && k < |events| && address in states[k].peers
    ensures SameRecord(states[k], states[k + 1], address) <==> Spared(states, events, k, address)
  {
    RunInv(sample, states, events, k);
    assert StepAt(sample, states, events, k);
    StepKeepsIff(sample, states[k], events[k], states[k + 1], address);
  }

  /** Record ids are never issued twice, so a record that is there later was there
      all along. */
  lemma SameRecordBefore(sample: Sample, states: seq<Cache>, events: seq<Event>, i: nat, j: nat, address: string)
    requires IsRun(sample, states, events) && i <= j < |events| && SameRecord(states[i], states[j + 1], address)
    ensures SameRecord(states[i], states[j], address)
  {
    RunInv(sample, states, events, i);
    RunAges(sample, states, events, i, j);
    OneStepAges(sample, states, events, j);
  }

  /** Over any run a record lasts exactly as long as no step loses it. */
  lemma {:induction false} RecordLastsIff(sample: Sample, states: seq<Cache>, events: seq<Event>, i: nat, j: nat,
                                          address: string)
    requires IsRun(sample, states, events) && i <= j <= |events| && address in states[i].peers
    ensures SameRecord(states[i], states[j], address) <==> SparedThroughout(states, events, i, j, address)
    decreases j
  {
    if i < j {
      RecordLastsIff(sample, states, events, i, j - 1, address);
      if SameRecord(states[i], states[j], address) {
        SameRecordBefore(sample, states, events, i, j - 1, address);
      }
      if SameRecord(states[i], states[j - 1], address) {
        NextRecord(sample, states, events, j - 1, address);
      }
    }
  }

  /** Event `i` is a direct read that is not stale and leaves the peer a record. */
  ghost predicate Reads(states: seq<Cache>, events: seq<Event>, i: nat, address: string)
    requires |states| == |events| + 1
  {
    && i < |events| && events[i].Observe? && events[i].address == address
    && !Stale(Pruned(states[i], events[i].now), address, events[i].infoAt)
    && address in states[i + 1].peers
  }

  lemma ReadIsFresh(sample: Sample, states: seq<Cache>, events: seq<Event>, i: nat, j: nat, address: string)
    requires IsRun(sample, states, events) && i < j <= |events| && Reads(states, events, i, address)
    requires SameRecord(states[i + 1], states[j], address)
    ensures states[j].peers[address].verified >= Min(events[i].directAt, events[i].now)
  {
    var e := events[i];
    RunInv(sample, states, events, i);
    PrunedInv(states[i], e.now);
    assert StepAt(sample, states, events, i);
    var p, at := Pruned(states[i], e.now), Min(e.directAt, e.now);
    DirectReadIsRecorded(sample, p, address, e.listed, e.infoAt, at, states[i + 1], e.cut, e.gone);
    InfoNeverDecreases(sample, states, events, i + 1, j, address);
  }

  /** `e` removes the peer or evicts its record. */
  predicate TakesAway(e: Event, address: string) {
    (e.Remove? && address in e.addresses) || (e.Observe? && address in Addresses(e.gone))
  }

  /** A peer read directly keeps that record for 180 days, however the run goes on,
      unless it is removed or evicted. */
  lemma {:induction false} ReadRecordLasts(sample: Sample, states: seq<Cache>, events: seq<Event>, i: nat, j: nat,
                                           address: string)
    requires IsRun(sample, states, events) && i < j <= |events| && Reads(states, events, i, address)
    requires forall k :: i < k < j ==> !TakesAway(events[k], address)
    requires forall k :: i < k < j && Prunes(events[k]) ==>
               events[k].now <= Min(events[i].directAt, events[i].now) + LIFETIME
    ensures SameRecord(states[i + 1], states[j], address)
    decreases j
  {
    if i + 1 < j {
      ReadRecordLasts(sample, states, events, i, j - 1, address);
      ReadIsFresh(sample, states, events, i, j - 1, address);
      NextRecord(sample, states, events, j - 1, address);
    }
  }

  // ---- AppInfo that arrives late ----

  /** `states[i]` holds a record of `address` with AppInfo newer than `infoAt`. */
  ghost predicate KnewNewer(states: seq<Cache>, i: nat, address: string, infoAt: U64) {
    i < |states| && address in states[i].peers && infoAt < states[i].peers[address].infoAt
  }

  /** The record of moment `i` is still there when event `j` has pruned. */
  ghost predicate Protects(states: seq<Cache>, events: seq<Event>, i: nat, j: nat, address: string)
    requires |states| == |events| + 1 && j < |events| && events[j].Observe?
  {
    && SparedThroughout(states, events, i, j, address)
    && address in states[j].peers && !Expires(states[j], address, events[j].now)
  }

  lemma ProtectedIsStale(sample: Sample, states: seq<Cache>, events: seq<Event>, i: nat, j: nat)
    requires IsRun(sample, states, events) && i <= j < |events| && events[j].Observe?
    requires KnewNewer(states, i, events[j].address, events[j].infoAt)
    requires Protects(states, events, i, j, events[j].address)
    ensures Stale(Pruned(states[j], events[j].now), events[j].address, events[j].infoAt)
  {
    var e := events[j];
    RecordLastsIff(sample, states, events, i, j, e.address);
    InfoNeverDecreases(sample, states, events, i, j, e.address);
    RecordSurvivesIff(states[j], e.address, e.now);
  }

  /** An AppInfo older than one seen before adds and restores nothing, even after
      a newer one emptied the peer's applications, while the record that knew the
      newer one has not been lost: the observation does no more than prune. */
  lemma OlderInfoAddsNothing(sample: Sample, states: seq<Cache>, events: seq<Event>, i: nat, j: nat)
    requires IsRun(sample, states, events) && i <= j < |events| && events[j].Observe?
    requires KnewNewer(states, i, events[j].address, events[j].infoAt)
    requires Protects(states, events, i, j, events[j].address)
    ensures states[j + 1] == Pruned(states[j], events[j].now)
    ensures Entries(states[j + 1].apps) <= Entries(states[j].apps)
  {
    ProtectedIsStale(sample, states, events, i, j);
    assert StepAt(sample, states, events, j);
    FreshEntries(states[j], events[j].now);
  }

  /** Over any run an AppInfo is taken over exactly when every record that ever
      knew a newer one has been lost: blocked, expired, or evicted by the peer
      cut, which may take a tombstone long before it expires. */
  lemma OlderInfoTakenIff(sample: Sample, states: seq<Cache>, events: seq<Event>, j: nat)
    requires IsRun(sample, states, events) && j < |events| && events[j].Observe?
    requires events[j].listed * Pruned(states[j], events[j].now).interests.Keys != {}
    requires events[j].address in states[j + 1].peers
    ensures states[j + 1].peers[events[j].address].infoAt == events[j].infoAt <==>
            forall i :: 0 <= i <= j && KnewNewer(states, i, events[j].address, events[j].infoAt) ==>
              !Protects(states, events, i, j, events[j].address)
  {
    var e, p := events[j], Pruned(states[j], events[j].now);
    RunInv(sample, states, events, j);
    PrunedInv(states[j], e.now);
    assert StepAt(sample, states, events, j);
    var at := Min(e.directAt, e.now);
    if Stale(p, e.address, e.infoAt) {
      RecordSurvivesIff(states[j], e.address, e.now);
      assert KnewNewer(states, j, e.address, e.infoAt) && Protects(states, events, j, j, e.address);
    } else {
      DirectReadIsRecorded(sample, p, e.address, e.listed, e.infoAt, at, states[j + 1], e.cut, e.gone);
      forall i | 0 <= i <= j && KnewNewer(states, i, e.address, e.infoAt)
        ensures !Protects(states, events, i, j, e.address)
      {
        if Protects(states, events, i, j, e.address) {
          ProtectedIsStale(sample, states, events, i, j);
        }
      }
    }
  }

  // ---- a full cache forgets a tombstone ----

  /** A full cache in which `tomb` is unreferenced and was verified no later than
      anyone, room for an association, and an application nobody joined yet. */
  ghost predicate AboutToForget(p: Cache, tomb: string, newcomer: string, app: string) {
    && Inv(p) && |p.peers| == PEER_CAPACITY && |Entries(p.apps)| < ASSOCIATION_CAPACITY
    && tomb in p.peers && p.peers[tomb].id !in Referenced(p.apps)
    && (forall b :: b in p.peers ==> p.peers[tomb].verified <= p.peers[b].verified)
    && newcomer !in p.peers && app in p.interests && app !in p.apps
  }

  lemma NewcomerEntry(app: string, s: PeerSet, peer: nat, at: U64)
    requires s.recent == [Newcomer(peer, at)] && s.archive == []
    ensures EntriesOf(app, s) == {Entry(at, app, Recent, peer)}
  {
    var m := Newcomer(peer, at);
    assert m in s.recent && EntryOf(app, Recent, m) == Entry(at, app, Recent, peer);
  }

  lemma OneMoreEntry(sample: Sample, apps: Apps, app: string, peer: nat, at: U64)
    requires app !in apps
    ensures Entries(Joined(sample, apps, {app}, peer, at)) == Entries(apps) + {Entry(at, app, Recent, peer)}
  {
    var r := Joined(sample, apps, {app}, peer, at);
    NewcomerEntry(app, r[app], peer, at);
    assert forall b :: b in apps ==> r[b] == apps[b];
    forall e ensures e in Entries(r) <==> e in Entries(apps) + {Entry(at, app, Recent, peer)} {
      EntryIn(apps, e);
      EntryIn(r, e);
    }
  }

  lemma NewcomerJoins(sample: Sample, p: Cache, tomb: string, newcomer: string, app: string, at: U64)
    requires AboutToForget(p, tomb, newcomer, app) && p.peers[tomb].verified <= at
    ensures var o := Advertising(sample, p, newcomer, {app}, at, at);
            && Linked(o) && |Entries(o.apps)| <= ASSOCIATION_CAPACITY && |o.peers| == PEER_CAPACITY + 1
            && tomb in o.peers && OldestTombstone(o, tomb)
  {
    AdvertisingKeeps(sample, p, newcomer, {app}, at, at);
    NewRecordLinked(p, newcomer, PeerRecord(p.nextId, at, at, at));
    OneMoreEntry(sample, p.apps, app, p.nextId, at);
  }

  /** Observing the newcomer evicts the tombstone, whatever its age; from then on
      an AppInfo of any time is taken over for that peer. */
  lemma ForgottenEarly(sample: Sample, p: Cache, tomb: string, newcomer: string, app: string, at: U64)
    returns (d: Cache, gone: set<Candidate>)
    requires AboutToForget(p, tomb, newcomer, app) && p.peers[tomb].verified <= at
    ensures IsObserved(sample, p, newcomer, {app}, at, at, d, {}, gone)
    ensures Inv(d) && tomb !in d.peers && forall older :: !Stale(d, tomb, older)
  {
    var o := Advertising(sample, p, newcomer, {app}, at, at);
    NewcomerJoins(sample, p, tomb, newcomer, app, at);
    OldestMayGo(o, tomb);
    gone := {CandidateOf(o, tomb)};
    d := AfterPeerCut(o.(apps := AfterGlobalCut(o.apps, {})), gone);
    assert o.(apps := AfterGlobalCut(o.apps, {})) == o;
    assert {app} * p.interests.Keys == {app};
    PeersAfterCuts(o, {}, gone);
    ObservedInv(sample, p, newcomer, {app}, at, at, d, {}, gone);
  }

  ghost predicate Restored(c: Cache, cut: set<Entry>, address: string, app: string, infoAt: U64)
    requires address in c.peers
  {
    && c.peers[address].infoAt == infoAt
    && exists f :: (f in Entries(c.apps) || f in cut) && f.app == app && f.peer == c.peers[address].id
  }

  /** So an AppInfo older than the one the tombstone knew brings the peer back,
      and the application with it unless the association cap takes it. */
  lemma OlderInfoRestores(sample: Sample, p: Cache, tomb: string, newcomer: string, app: string, at: U64, older: U64)
    returns (d: Cache, gone: set<Candidate>)
    requires AboutToForget(p, tomb, newcomer, app) && p.peers[tomb].verified <= at && older < p.peers[tomb].infoAt
    ensures IsObserved(sample, p, newcomer, {app}, at, at, d, {}, gone)
    ensures forall e, cut, late :: IsObserved(sample, d, tomb, {app}, older, at, e, cut, late) && tomb in e.peers ==>
              Restored(e, cut, tomb, app, older)
  {
    d, gone := ForgottenEarly(sample, p, tomb, newcomer, app, at);
    forall e, cut, late | IsObserved(sample, d, tomb, {app}, older, at, e, cut, late) && tomb in e.peers
      ensures Restored(e, cut, tomb, app, older)
    {
      assert app in {app} * d.interests.Keys;
      DirectReadIsAuthoritative(sample, d, tomb, {app}, older, at, e, cut, late);
      DirectReadIsRecorded(sample, d, tomb, {app}, older, at, e, cut, late);
    }
  }
}
