/** The whole discovery cache as a value, and what each operation makes of it
    (app/discovery.rs). */
module DiscoverySpec {
  import opened Basics
  import opened Sorting
  import opened PeerSets
  import opened Associations

  const ASSOCIATION_CAPACITY: nat := 24_576
  const PEER_CAPACITY: nat := 24_576
  const ACTIVITY_TTL: nat := 15_552_000  // 180 days

  datatype PeerRecord = PeerRecord(id: nat, firstDiscovered: U64, verified: U64, infoAt: U64)

  datatype Cache = Cache(nextId: nat, interests: map<string, U64>, peers: map<string, PeerRecord>, apps: Apps)

  function Ids(peers: map<string, PeerRecord>): set<nat> {
    set a | a in peers :: peers[a].id
  }

  /** Record ids are unique and already issued, every membership has a record,
      every cached application is one of interest. */
  ghost predicate Linked(c: Cache) {
    && c.nextId >= 1
    && (forall a :: a in c.peers ==> 1 <= c.peers[a].id < c.nextId)
    && (forall a, b :: a in c.peers && b in c.peers && c.peers[a].id == c.peers[b].id ==> a == b)
    && AllWellFormed(c.apps)
    && c.apps.Keys <= c.interests.Keys
    && Referenced(c.apps) <= Ids(c.peers)
  }

  ghost predicate Inv(c: Cache) {
    Linked(c) && |Entries(c.apps)| <= ASSOCIATION_CAPACITY && |c.peers| <= PEER_CAPACITY
  }

  const EMPTY := Cache(1, map[], map[], map[])

  // ---- what the passes keep ----

  function NotIn(gone: set<Entry>): Entry -> bool {
    (e: Entry) => e !in gone
  }

  function OtherThan(ids: set<nat>): Entry -> bool {
    (e: Entry) => e.peer !in ids
  }

  function VerifiedSince(cutoff: nat): Entry -> bool {
    (e: Entry) => e.verified >= cutoff
  }

  function Advertised(advertised: set<string>, peer: nat): Entry -> bool {
    (e: Entry) => e.app in advertised || e.peer != peer
  }

  // ---- the capacity passes ----

  predicate OlderEntry(a: Entry, b: Entry) {
    a.verified <= b.verified
  }

  /** `gone` is what the association pass removes: the least recently verified
      entries over the cap, ties broken anyhow. */
  ghost predicate IsGlobalCut(apps: Apps, gone: set<Entry>) {
    Cut(Entries(apps), gone, OlderEntry) && |gone| == SatSub(|Entries(apps)|, ASSOCIATION_CAPACITY)
  }

  function AfterGlobalCut(apps: Apps, gone: set<Entry>): Apps {
    if gone == {} then apps else NonEmpty(Sift(apps, NotIn(gone)))
  }

  datatype Candidate = Candidate(referenced: bool, verified: U64, address: string, id: nat)

  function CandidateOf(c: Cache, a: string): Candidate
    requires a in c.peers
  {
    Candidate(c.peers[a].id in Referenced(c.apps), c.peers[a].verified, a, c.peers[a].id)
  }

  function Candidates(c: Cache): set<Candidate> {
    set a | a in c.peers :: CandidateOf(c, a)
  }

  predicate EvictedFirst(a: Candidate, b: Candidate) {
    (!a.referenced && b.referenced) || (a.referenced == b.referenced && a.verified <= b.verified)
  }

  /** `gone` is what the peer pass removes. */
  ghost predicate IsPeerCut(c: Cache, gone: set<Candidate>) {
    Cut(Candidates(c), gone, EvictedFirst) && |gone| == SatSub(|c.peers|, PEER_CAPACITY)
  }

  function Addresses(gone: set<Candidate>): set<string> {
    set g | g in gone :: g.address
  }

  function IdsOf(c: Cache, addresses: set<string>): set<nat> {
    set a | a in addresses && a in c.peers :: c.peers[a].id
  }

  /** Without these peers, their memberships and the applications left empty. */
  function Dropped(c: Cache, addresses: set<string>): Cache {
    c.(peers := c.peers - addresses, apps := NonEmpty(Sift(c.apps, OtherThan(IdsOf(c, addresses)))))
  }

  function AfterPeerCut(c: Cache, gone: set<Candidate>): Cache {
    if gone == {} then c else Dropped(c, Addresses(gone))
  }

  // ---- operations ----

  function Cutoff(now: U64): nat {
    SatSub(now, ACTIVITY_TTL)
  }

  function FreshInterests(c: Cache, now: U64): map<string, U64> {
    map a | a in c.interests && c.interests[a] >= Cutoff(now) :: c.interests[a]
  }

  function FreshApps(c: Cache, now: U64): Apps {
    NonEmpty(Sift(OfApps(c.apps, FreshInterests(c, now).Keys), VerifiedSince(Cutoff(now))))
  }

  /** `prune_expired_locked` before its capacity pass. */
  function Pruned(c: Cache, now: U64): Cache {
    var apps := FreshApps(c, now);
    c.(interests := FreshInterests(c, now),
       apps := apps,
       peers := map a | a in c.peers && (c.peers[a].verified >= Cutoff(now) || c.peers[a].id in Referenced(apps)) ::
           c.peers[a])
  }

  function Registered(c: Cache, app: string, now: U64): Cache {
    c.(interests := c.interests[app := now])
  }

  predicate Stale(c: Cache, address: string, infoAt: U64) {
    address in c.peers && infoAt < c.peers[address].infoAt
  }

  /** The peer's memberships in applications it does not advertise any more. */
  function Withdrawn(c: Cache, address: string, advertised: set<string>): Cache {
    if address !in c.peers then c
    else c.(apps := Sift(c.apps, Advertised(advertised, c.peers[address].id)))
  }

  function Touched(r: PeerRecord, at: U64, infoAt: U64): PeerRecord {
    r.(verified := Max(r.verified, at), infoAt := infoAt)
  }

  function Recorded(c: Cache, address: string, at: U64, infoAt: U64): Cache {
    if address in c.peers then c.(peers := c.peers[address := Touched(c.peers[address], at, infoAt)])
    else
      var id := Max(c.nextId, 1);
      c.(nextId := id + 1, peers := c.peers[address := PeerRecord(id, at, at, infoAt)])
  }

  function SetOf(apps: Apps, app: string): PeerSet {
    if app in apps then apps[app] else PeerSet(0, [], [])
  }

  function Joined(sample: Sample, apps: Apps, advertised: set<string>, peer: nat, at: U64): Apps {
    map app | app in apps.Keys + advertised ::
      if app in advertised then Observed(sample, app, SetOf(apps, app), peer, at) else apps[app]
  }

  /** A peer that advertises something of interest, before the capacity passes. */
  function Advertising(sample: Sample, c: Cache, address: string, advertised: set<string>, at: U64,
      infoAt: U64): Cache {
    var d := Recorded(Withdrawn(c, address, advertised), address, at, infoAt);
    d.(apps := Joined(sample, d.apps, advertised, d.peers[address].id, at))
  }

  /** A peer that advertises nothing of interest: its record stays as a tombstone. */
  function Silent(c: Cache, address: string, at: U64, infoAt: U64): Cache {
    var d := Withdrawn(c, address, {});
    if address in d.peers then d.(peers := d.peers[address := Touched(d.peers[address], at, infoAt)]) else d
  }

  /** `observe_direct_app_set` on a pruned cache; `cut` and `gone` are what its
      capacity passes take. */
  ghost predicate IsObserved(sample: Sample, p: Cache, address: string, listed: set<string>,
                             infoAt: U64, at: U64, d: Cache, cut: set<Entry>, gone: set<Candidate>) {
    var advertised := listed * p.interests.Keys;
    if Stale(p, address, infoAt) then d == p && cut == {} && gone == {}
    else if advertised == {} then d == Silent(p, address, at, infoAt) && cut == {} && gone == {}
    else
      var o := Advertising(sample, p, address, advertised, at, infoAt);
      && IsGlobalCut(o.apps, cut)
      && IsPeerCut(o.(apps := AfterGlobalCut(o.apps, cut)), gone)
      && d == AfterPeerCut(o.(apps := AfterGlobalCut(o.apps, cut)), gone)
  }

  // ---- what each keeps ----

  lemma FewerAssociations(c: Cache, keptInterests: map<string, U64>, keptPeers: map<string, PeerRecord>, keptApps: Apps)
    requires Linked(c)
    requires keptPeers.Keys <= c.peers.Keys && forall a :: a in keptPeers ==> keptPeers[a].id == c.peers[a].id
    requires AllWellFormed(keptApps) && keptApps.Keys <= keptInterests.Keys
    requires Entries(keptApps) <= Entries(c.apps) && Referenced(keptApps) <= Ids(keptPeers)
    ensures Linked(c.(interests := keptInterests, peers := keptPeers, apps := keptApps))
    ensures |Entries(keptApps)| <= |Entries(c.apps)| && |keptPeers| <= |c.peers|
  {
    SubsetSize(Entries(keptApps), Entries(c.apps));
    SubmapSize(keptPeers, c.peers);
  }

  lemma FreshEntries(c: Cache, now: U64)
    ensures Entries(FreshApps(c, now)) == set e | e in Entries(c.apps) && e.app in c.interests
                                                  && c.interests[e.app] >= Cutoff(now) && e.verified >= Cutoff(now)
    ensures AllWellFormed(c.apps) ==> AllWellFormed(FreshApps(c, now))
  {
    var interested := FreshInterests(c, now).Keys;
    var apps := OfApps(c.apps, interested);
    OfAppsKeeps(c.apps, interested);
    SiftKeeps(apps, VerifiedSince(Cutoff(now)));
    NonEmptyKeeps(Sift(apps, VerifiedSince(Cutoff(now))));
  }

  /** Pruning keeps the whole invariant, so its own capacity pass never acts. */
  lemma PrunedInv(c: Cache, now: U64)
    requires Inv(c)
    ensures Inv(Pruned(c, now))
    ensures forall gone :: IsPeerCut(Pruned(c, now), gone) ==> gone == {}
  {
    var p := Pruned(c, now);
    FreshEntries(c, now);
    forall id | id in Referenced(p.apps) ensures id in Ids(p.peers) {
      assert id in Referenced(c.apps);
      var a :| a in c.peers && c.peers[a].id == id;
      assert a in p.peers;
    }
    FewerAssociations(c, p.interests, p.peers, p.apps);
  }

  lemma WithdrawnKeeps(c: Cache, address: string, advertised: set<string>)
    requires Linked(c)
    ensures var d := Withdrawn(c, address, advertised);
            && Linked(d) && Entries(d.apps) <= Entries(c.apps)
            && d.peers == c.peers && d.nextId == c.nextId && d.interests == c.interests
            && (address in c.peers ==> forall e :: e in Entries(d.apps) && e.peer == c.peers[address].id ==>
                e.app in advertised)
  {
    if address in c.peers {
      var d := Withdrawn(c, address, advertised);
      SiftKeeps(c.apps, Advertised(advertised, c.peers[address].id));
      FewerAssociations(c, c.interests, c.peers, d.apps);
    }
  }

  lemma TouchedLinked(c: Cache, address: string, r: PeerRecord)
    requires Linked(c) && address in c.peers && r.id == c.peers[address].id
    ensures Linked(c.(peers := c.peers[address := r]))
  {
    assert c.peers[address := r].Keys == c.peers.Keys;
    forall a | a in c.peers ensures c.peers[address := r][a].id == c.peers[a].id {}
    forall id | id in Ids(c.peers) ensures id in Ids(c.peers[address := r]) {
      var a :| a in c.peers && c.peers[a].id == id;
      assert c.peers[address := r][a].id == id;
    }
  }

  lemma NewRecordLinked(c: Cache, address: string, r: PeerRecord)
    requires Linked(c) && address !in c.peers && r.id == c.nextId
    ensures Linked(c.(nextId := c.nextId + 1, peers := c.peers[address := r]))
    ensures |c.peers[address := r]| == |c.peers| + 1
  {
    var peers := c.peers[address := r];
    forall id | id in Ids(c.peers) ensures id in Ids(peers) {
      var a :| a in c.peers && c.peers[a].id == id;
      assert peers[a].id == id;
    }
  }

  lemma RecordedKeeps(c: Cache, address: string, at: U64, infoAt: U64)
    requires Linked(c)
    ensures var d := Recorded(c, address, at, infoAt);
            && Linked(d) && d.apps == c.apps && d.interests == c.interests && address in d.peers
            && d.peers[address].infoAt == infoAt
            && |d.peers| <= |c.peers| + 1
            && (forall a :: a in c.peers && a != address ==> a in d.peers && d.peers[a] == c.peers[a])
            && (if address in c.peers then d.peers[address].id == c.peers[address].id && d.nextId == c.nextId
                && |d.peers| == |c.peers|
                else d.peers[address].id == c.nextId && d.nextId == c.nextId + 1)
  {
    if address in c.peers {
      TouchedLinked(c, address, Touched(c.peers[address], at, infoAt));
      assert c.peers[address := Touched(c.peers[address], at, infoAt)].Keys == c.peers.Keys;
    } else {
      NewRecordLinked(c, address, PeerRecord(c.nextId, at, at, infoAt));
    }
  }

  /** The entries of one application after its set was observed. */
  lemma JoinedKeeps(sample: Sample, apps: Apps, advertised: set<string>, peer: nat, at: U64)
    requires AllWellFormed(apps)
    ensures var r := Joined(sample, apps, advertised, peer, at);
            && AllWellFormed(r) && r.Keys == apps.Keys + advertised
            && Referenced(r) <= Referenced(apps) + {peer}
            && (forall e :: e in Entries(r) && e.peer == peer ==>
                  e.app in advertised || exists f :: f in Entries(apps) && f.peer == peer && f.app == e.app)
  {
    var r := Joined(sample, apps, advertised, peer, at);
    forall app | app in r
      ensures WellFormed(r[app])
      ensures Members(r[app]) <= Members(SetOf(apps, app)) + {peer}
    {
      if app in advertised { ObservedKeeps(sample, app, SetOf(apps, app), peer, at); }
    }
    forall e | e in Entries(r)
      ensures e.app in r && (e.peer == peer || e.peer in Referenced(apps))
      ensures e.peer == peer ==>
                e.app in advertised || exists f :: f in Entries(apps) && f.peer == peer && f.app == e.app
    {
      EntryIn(r, e);
      EntryPeer(r, e);
      if e.app in apps { MembersReferenced(apps, e.app); }
    }
  }

  lemma EntryPeer(apps: Apps, e: Entry)
    requires e in Entries(apps)
    ensures e.app in apps && e.peer in Members(apps[e.app])
  {
    EntryIn(apps, e);
  }

  lemma AdvertisingKeeps(sample: Sample, c: Cache, address: string, advertised: set<string>, at: U64, infoAt: U64)
    requires Linked(c) && advertised <= c.interests.Keys
    ensures var d := Advertising(sample, c, address, advertised, at, infoAt);
            && Linked(d) && address in d.peers && d.peers[address].infoAt == infoAt
            && |d.peers| <= |c.peers| + 1
            && (forall e :: e in Entries(d.apps) && e.peer == d.peers[address].id ==> e.app in advertised)
  {
    var w := Withdrawn(c, address, advertised);
    WithdrawnKeeps(c, address, advertised);
    var r := Recorded(w, address, at, infoAt);
    RecordedKeeps(w, address, at, infoAt);
    var id := r.peers[address].id;
    JoinedKeeps(sample, r.apps, advertised, id, at);
    assert id in Ids(r.peers);
    if address !in c.peers {
      assert id == c.nextId && id !in Ids(c.peers);
      forall f | f in Entries(r.apps) ensures f.peer != id {
        assert f.peer in Referenced(c.apps);
      }
    }
  }

  // ---- the capacity passes together ----

  lemma GlobalCutKeeps(c: Cache, gone: set<Entry>)
    requires Linked(c) && IsGlobalCut(c.apps, gone)
    ensures Linked(c.(apps := AfterGlobalCut(c.apps, gone)))
    ensures Entries(AfterGlobalCut(c.apps, gone)) == Entries(c.apps) - gone
  {
    if gone != {} {
      var kept := Sift(c.apps, NotIn(gone));
      SiftKeeps(c.apps, NotIn(gone));
      NonEmptyKeeps(kept);
      FewerAssociations(c, c.interests, c.peers, AfterGlobalCut(c.apps, gone));
    }
  }

  /** Over the cap, the association pass leaves exactly the capacity, and
      nothing it removed was verified later than anything it kept. */
  lemma GlobalCutExact(c: Cache, gone: set<Entry>)
    requires Linked(c) && IsGlobalCut(c.apps, gone)
    ensures var left := Entries(AfterGlobalCut(c.apps, gone));
            && |left| == Min(|Entries(c.apps)|, ASSOCIATION_CAPACITY)
            && left + gone == Entries(c.apps)
            && forall r, k :: r in gone && k in left ==> r.verified <= k.verified
  {
    GlobalCutKeeps(c, gone);
    var left := Entries(AfterGlobalCut(c.apps, gone));
    forall r, k | r in gone && k in left ensures r.verified <= k.verified {
      assert OlderEntry(r, k);
    }
  }

  lemma RemainingIds(c: Cache, addresses: set<string>)
    ensures Ids(c.peers) - IdsOf(c, addresses) <= Ids(c.peers - addresses)
  {
    forall id | id in Ids(c.peers) - IdsOf(c, addresses) ensures id in Ids(c.peers - addresses) {
      var a :| a in c.peers && c.peers[a].id == id;
      assert a in c.peers - addresses;
    }
  }

  lemma DroppedEntries(c: Cache, addresses: set<string>)
    ensures Entries(Dropped(c, addresses).apps) == set e | e in Entries(c.apps) && e.peer !in IdsOf(c, addresses)
    ensures AllWellFormed(c.apps) ==> AllWellFormed(Dropped(c, addresses).apps)
  {
    SiftKeeps(c.apps, OtherThan(IdsOf(c, addresses)));
    NonEmptyKeeps(Sift(c.apps, OtherThan(IdsOf(c, addresses))));
  }

  lemma DroppedKeeps(c: Cache, addresses: set<string>)
    requires Linked(c)
    ensures var d := Dropped(c, addresses);
            && Linked(d) && |Entries(d.apps)| <= |Entries(c.apps)| && |d.peers| <= |c.peers|
  {
    var d := Dropped(c, addresses);
    DroppedEntries(c, addresses);
    RemainingIds(c, addresses);
    forall id | id in Referenced(d.apps) ensures id in Ids(d.peers) {
      assert id in Referenced(c.apps) && id !in IdsOf(c, addresses);
    }
    FewerAssociations(c, c.interests, d.peers, d.apps);
  }

  lemma {:induction false} AddressCount(c: Cache, addresses: set<string>)
    requires addresses <= c.peers.Keys
    requires forall a, b :: a in c.peers && b in c.peers && c.peers[a].id == c.peers[b].id ==> a == b
    ensures |addresses| == |IdsOf(c, addresses)|
  {
    if addresses != {} {
      var a :| a in addresses;
      AddressCount(c, addresses - {a});
      assert IdsOf(c, addresses) == IdsOf(c, addresses - {a}) + {c.peers[a].id};
      assert c.peers[a].id !in IdsOf(c, addresses - {a});
    }
  }

  lemma {:induction false} CandidateCount(c: Cache, addresses: set<string>)
    requires addresses <= c.peers.Keys
    ensures |set a | a in addresses :: CandidateOf(c, a)| == |addresses|
  {
    if addresses != {} {
      var a :| a in addresses;
      CandidateCount(c, addresses - {a});
      var less := set b | b in addresses - {a} :: CandidateOf(c, b);
      assert (set b | b in addresses :: CandidateOf(c, b)) == less + {CandidateOf(c, a)};
      assert CandidateOf(c, a) !in less;
    }
  }

  function Unreferenced(c: Cache): set<string> {
    set a | a in c.peers && c.peers[a].id !in Referenced(c.apps)
  }

  /** No more records are referenced than there are associations. */
  lemma TombstonesSuffice(c: Cache)
    requires Linked(c) && |Entries(c.apps)| <= ASSOCIATION_CAPACITY
    ensures |Unreferenced(c)| >= SatSub(|c.peers|, PEER_CAPACITY)
  {
    var used := c.peers.Keys - Unreferenced(c);
    AddressCount(c, used);
    SubsetSize(IdsOf(c, used), Referenced(c.apps));
    PeersOfEntries(Entries(c.apps));
    assert Referenced(c.apps) == set e | e in Entries(c.apps) :: e.peer;
    assert |c.peers| == |c.peers.Keys| == |used| + |Unreferenced(c)|;
  }

  lemma OnlyTombstones(c: Cache, gone: set<Candidate>)
    requires Linked(c) && |Entries(c.apps)| <= ASSOCIATION_CAPACITY && IsPeerCut(c, gone)
    ensures forall g :: g in gone ==> !g.referenced
  {
    if g :| g in gone && g.referenced {
      var idle := set a | a in Unreferenced(c) :: CandidateOf(c, a);
      CandidateCount(c, Unreferenced(c));
      TombstonesSuffice(c);
      forall k | k in idle ensures k in gone {
        assert k in Candidates(c) && !EvictedFirst(g, k);
      }
      SubsetSize(idle + {g}, gone);
      assert false;
    }
  }

  lemma DroppingTombstones(c: Cache, gone: set<Candidate>)
    requires IsPeerCut(c, gone) && forall g :: g in gone ==> !g.referenced
    ensures Entries(Dropped(c, Addresses(gone)).apps) == Entries(c.apps)
  {
    PeerCutSizes(c, gone);
    DroppedEntries(c, Addresses(gone));
    forall e | e in Entries(c.apps) ensures e.peer !in IdsOf(c, Addresses(gone)) {
      assert e.peer in Referenced(c.apps);
    }
  }

  /** The two equal caps cooperate: with the associations within theirs, the
      peer pass evicts unreferenced records only and drops no membership. */
  lemma CapsCooperate(c: Cache, gone: set<Candidate>)
    requires Linked(c) && |Entries(c.apps)| <= ASSOCIATION_CAPACITY && IsPeerCut(c, gone)
    ensures forall g :: g in gone ==> !g.referenced
    ensures Entries(AfterPeerCut(c, gone).apps) == Entries(c.apps)
    ensures Inv(AfterPeerCut(c, gone)) && |AfterPeerCut(c, gone).peers| == Min(|c.peers|, PEER_CAPACITY)
  {
    OnlyTombstones(c, gone);
    PeerCutSizes(c, gone);
    if gone != {} {
      DroppingTombstones(c, gone);
      DroppedKeeps(c, Addresses(gone));
    }
  }

  lemma PeerCutSizes(c: Cache, gone: set<Candidate>)
    requires IsPeerCut(c, gone)
    ensures |Addresses(gone)| == |gone| && Addresses(gone) <= c.peers.Keys
    ensures |c.peers - Addresses(gone)| == Min(|c.peers|, PEER_CAPACITY)
    ensures forall a :: a in Addresses(gone) ==> a in c.peers && CandidateOf(c, a) in gone
  {
    assert gone == set a | a in Addresses(gone) :: CandidateOf(c, a);
    CandidateCount(c, Addresses(gone));
    var left := c.peers - Addresses(gone);
    assert left.Keys == c.peers.Keys - Addresses(gone);
    assert |left| == |left.Keys| && |c.peers| == |c.peers.Keys|;
  }

  /** Observing keeps the invariant, whatever the capacity passes choose. */
  lemma ObservedInv(sample: Sample, p: Cache, address: string, listed: set<string>, infoAt: U64, at: U64,
                    d: Cache, cut: set<Entry>, gone: set<Candidate>)
    requires Inv(p) && IsObserved(sample, p, address, listed, infoAt, at, d, cut, gone)
    ensures Inv(d)
  {
    var advertised := listed * p.interests.Keys;
    if !Stale(p, address, infoAt) {
      if advertised == {} {
        SilentInv(p, address, at, infoAt);
      } else {
        var o := Advertising(sample, p, address, advertised, at, infoAt);
        AdvertisingKeeps(sample, p, address, advertised, at, infoAt);
        GlobalCutKeeps(o, cut);
        GlobalCutExact(o, cut);
        CapsCooperate(o.(apps := AfterGlobalCut(o.apps, cut)), gone);
      }
    }
  }

  lemma SilentInv(p: Cache, address: string, at: U64, infoAt: U64)
    requires Inv(p)
    ensures Inv(Silent(p, address, at, infoAt))
  {
    WithdrawnKeeps(p, address, {});
    var w := Withdrawn(p, address, {});
    SubsetSize(Entries(w.apps), Entries(p.apps));
    if address in w.peers {
      assert Silent(p, address, at, infoAt) == Recorded(w, address, at, infoAt);
      RecordedKeeps(w, address, at, infoAt);
    }
  }
}
