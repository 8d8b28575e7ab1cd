/** The associations of all applications with their peers, and what filtering
    them does (app/discovery.rs). */
module Associations {
  import opened Basics
  import opened PeerSets
  import opened Sorting

  /** One membership, as the capacity pass lists it. */
  datatype Entry = Entry(verified: U64, app: string, tier: Tier, peer: nat)

  type Apps = map<string, PeerSet>

  function EntryOf(app: string, tier: Tier, m: Membership): Entry {
    Entry(m.verified, app, tier, m.peer)
  }

  function EntriesOf(app: string, s: PeerSet): set<Entry> {
    (set m | m in s.recent :: EntryOf(app, Recent, m)) + (set m | m in s.archive :: EntryOf(app, Archive, m))
  }

  function Entries(apps: Apps): set<Entry> {
    set app, e | app in apps && e in EntriesOf(app, apps[app]) :: e
  }

  function Referenced(apps: Apps): set<nat> {
    set e | e in Entries(apps) :: e.peer
  }

  ghost predicate AllWellFormed(apps: Apps) {
    forall app :: app in apps ==> WellFormed(apps[app])
  }

  lemma EntryIn(apps: Apps, e: Entry)
    ensures e in Entries(apps) <==> e.app in apps && e in EntriesOf(e.app, apps[e.app])
  {
  }

  lemma MembersReferenced(apps: Apps, app: string)
    requires app in apps
    ensures Members(apps[app]) <= Referenced(apps)
    ensures forall peer :: peer in Members(apps[app]) <==>
              exists e :: e in Entries(apps) && e.app == app && e.peer == peer
  {
    forall peer | peer in Members(apps[app]) ensures exists e :: e in Entries(apps) && e.app == app && e.peer == peer {
      if peer in Peers(apps[app].recent) {
        var m :| m in apps[app].recent && m.peer == peer;
        EntryIn(apps, EntryOf(app, Recent, m));
      } else {
        var m :| m in apps[app].archive && m.peer == peer;
        EntryIn(apps, EntryOf(app, Archive, m));
      }
    }
  }

  // ---- filtering ----

  function SiftSet(app: string, s: PeerSet, keep: Entry -> bool): PeerSet {
    s.(recent := Retain(s.recent, m => keep(EntryOf(app, Recent, m))),
       archive := Retain(s.archive, m => keep(EntryOf(app, Archive, m))))
  }

  /** `retain` on both tiers of every application. */
  function Sift(apps: Apps, keep: Entry -> bool): Apps {
    map app | app in apps :: SiftSet(app, apps[app], keep)
  }

  /** Drop applications left without members. */
  function NonEmpty(apps: Apps): Apps {
    map app | app in apps && (apps[app].recent != [] || apps[app].archive != []) :: apps[app]
  }

  function OfApps(apps: Apps, kept: set<string>): Apps {
    map app | app in apps && app in kept :: apps[app]
  }

  lemma SiftSetKeeps(app: string, s: PeerSet, keep: Entry -> bool)
    ensures WellFormed(s) ==> WellFormed(SiftSet(app, s, keep))
    ensures SiftSet(app, s, keep).total == s.total
    ensures forall e :: e in EntriesOf(app, SiftSet(app, s, keep)) <==> e in EntriesOf(app, s) && keep(e)
  {
    var r := SiftSet(app, s, keep);
    forall m ensures m in r.recent <==> m in s.recent && keep(EntryOf(app, Recent, m)) {}
    forall m ensures m in r.archive <==> m in s.archive && keep(EntryOf(app, Archive, m)) {}
    if WellFormed(s) {
      RetainOnce(s.recent, m => keep(EntryOf(app, Recent, m)));
      RetainOnce(s.archive, m => keep(EntryOf(app, Archive, m)));
      assert Peers(r.recent) <= Peers(s.recent) && Peers(r.archive) <= Peers(s.archive);
    }
  }

  lemma SiftKeeps(apps: Apps, keep: Entry -> bool)
    ensures AllWellFormed(apps) ==> AllWellFormed(Sift(apps, keep))
    ensures Entries(Sift(apps, keep)) == set e | e in Entries(apps) && keep(e)
  {
    if AllWellFormed(apps) {
      forall app | app in apps ensures WellFormed(SiftSet(app, apps[app], keep)) {
        SiftSetKeeps(app, apps[app], keep);
      }
    }
    forall e ensures e in Entries(Sift(apps, keep)) <==> e in Entries(apps) && keep(e) {
      EntryIn(apps, e);
      EntryIn(Sift(apps, keep), e);
      if e.app in apps { SiftSetKeeps(e.app, apps[e.app], keep); }
    }
  }

  lemma NonEmptyKeeps(apps: Apps)
    ensures Entries(NonEmpty(apps)) == Entries(apps)
  {
    forall e ensures e in Entries(NonEmpty(apps)) <==> e in Entries(apps) {
      EntryIn(apps, e);
      EntryIn(NonEmpty(apps), e);
    }
  }

  lemma OfAppsKeeps(apps: Apps, kept: set<string>)
    ensures Entries(OfApps(apps, kept)) == set e | e in Entries(apps) && e.app in kept
  {
    forall e ensures e in Entries(OfApps(apps, kept)) <==> e in Entries(apps) && e.app in kept {
      EntryIn(apps, e);
      EntryIn(OfApps(apps, kept), e);
    }
  }

  lemma {:induction false} RetainAgrees(s: seq<Membership>, p: Membership -> bool, q: Membership -> bool)
    requires forall m :: m in s ==> p(m) == q(m)
    ensures Retain(s, p) == Retain(s, q)
  {
    if s != [] {
      RetainAgrees(s[..|s| - 1], p, q);
    }
  }

  /** Only the verdicts on entries that exist matter. */
  lemma SiftAgrees(apps: Apps, p: Entry -> bool, q: Entry -> bool)
    requires forall e :: e in Entries(apps) ==> p(e) == q(e)
    ensures Sift(apps, p) == Sift(apps, q)
  {
    forall app | app in apps ensures SiftSet(app, apps[app], p) == SiftSet(app, apps[app], q) {
      var s := apps[app];
      forall m | m in s.recent ensures p(EntryOf(app, Recent, m)) == q(EntryOf(app, Recent, m)) {
        EntryIn(apps, EntryOf(app, Recent, m));
      }
      forall m | m in s.archive ensures p(EntryOf(app, Archive, m)) == q(EntryOf(app, Archive, m)) {
        EntryIn(apps, EntryOf(app, Archive, m));
      }
      RetainAgrees(s.recent, m => p(EntryOf(app, Recent, m)), m => q(EntryOf(app, Recent, m)));
      RetainAgrees(s.archive, m => p(EntryOf(app, Archive, m)), m => q(EntryOf(app, Archive, m)));
    }
  }

  // ---- counting ----

  lemma {:induction false} TierCount(app: string, tier: Tier, s: seq<Membership>)
    requires OncePerPeer(s)
    ensures |set m | m in s :: EntryOf(app, tier, m)| == |s|
  {
    if s != [] {
      var init, last := s[..|s| - 1], s[|s| - 1];
      TierCount(app, tier, init);
      assert s == init + [last];
      var before := set m | m in init :: EntryOf(app, tier, m);
      assert (set m | m in s :: EntryOf(app, tier, m)) == before + {EntryOf(app, tier, last)};
      assert EntryOf(app, tier, last) !in before;
    }
  }

  /** Every membership is one entry: (application, tier, peer) never repeats. */
  lemma SetCount(app: string, s: PeerSet)
    requires WellFormed(s)
    ensures |EntriesOf(app, s)| == |s.recent| + |s.archive|
  {
    TierCount(app, Recent, s.recent);
    TierCount(app, Archive, s.archive);
  }

  lemma TriplesUnique(apps: Apps, e: Entry, f: Entry)
    requires AllWellFormed(apps) && e in Entries(apps) && f in Entries(apps)
    requires e.app == f.app && e.peer == f.peer
    ensures e == f
  {
    EntryIn(apps, e);
    EntryIn(apps, f);
    var s := apps[e.app];
    var m :| m in TierOf(s, e.tier) && EntryOf(e.app, e.tier, m) == e;
    var n :| n in TierOf(s, f.tier) && EntryOf(f.app, f.tier, n) == f;
    assert m.peer in Peers(TierOf(s, e.tier)) && n.peer in Peers(TierOf(s, f.tier));
  }

  lemma {:induction false} PeersOfEntries(entries: set<Entry>)
    ensures |set e | e in entries :: e.peer| <= |entries|
  {
    if entries != {} {
      var e :| e in entries;
      PeersOfEntries(entries - {e});
      var less := set f | f in entries - {e} :: f.peer;
      SubsetSize(set f | f in entries :: f.peer, less + {e.peer});
    }
  }

  /** The code's running total over the applications. */
  method TotalAssociations(apps: Apps) returns (total: nat)
    requires AllWellFormed(apps)
    ensures total == |Entries(apps)|
  {
    total := 0;
    var order := Listed(apps.Keys);
    var i := 0;
    while i < |order|
      invariant 0 <= i <= |order|
      invariant total == |Entries(OfApps(apps, Elements(order[..i])))|
    {
      OneMoreApp(apps, order, i);
      total := total + |apps[order[i]].recent| + |apps[order[i]].archive|;
      i := i + 1;
    }
    assert order[..i] == order;
    assert OfApps(apps, apps.Keys) == apps;
  }

  lemma OneMoreApp(apps: Apps, order: seq<string>, i: nat)
    requires AllWellFormed(apps) && Distinct(order) && Elements(order) == apps.Keys && i < |order|
    ensures order[i] in apps
    ensures |Entries(OfApps(apps, Elements(order[..i + 1])))| ==
            |Entries(OfApps(apps, Elements(order[..i])))| + |apps[order[i]].recent| + |apps[order[i]].archive|
  {
    var app := order[i];
    assert app in Elements(order);
    var before := Elements(order[..i]);
    assert order[..i + 1] == order[..i] + [app];
    assert Elements(order[..i + 1]) == before + {app};
    assert app !in before;
    OfAppsKeeps(apps, before);
    OfAppsKeeps(apps, before + {app});
    forall e ensures e in Entries(OfApps(apps, before + {app})) <==>
                     e in Entries(OfApps(apps, before)) || e in EntriesOf(app, apps[app]) {
      EntryIn(apps, e);
    }
    assert Entries(OfApps(apps, before + {app})) == Entries(OfApps(apps, before)) + EntriesOf(app, apps[app]);
    assert Entries(OfApps(apps, before)) !! EntriesOf(app, apps[app]);
    SetCount(app, apps[app]);
  }
}
