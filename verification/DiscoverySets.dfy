/** The two-tier peer set of one application (app/discovery.rs). */
module PeerSets {
  import opened Basics

  const RECENT_CAPACITY: nat := 3_072
  const ARCHIVE_CAPACITY: nat := 1_024

  datatype Tier = Recent | Archive

  datatype Membership = Membership(peer: nat, firstSeen: U64, verified: U64, returned: U64, count: nat)

  datatype PeerSet = PeerSet(total: nat, recent: seq<Membership>, archive: seq<Membership>)

  /** The hash behind the archive draw: of application, peer and observations so far. */
  type Sample = (string, nat, nat) -> nat

  function Peers(s: seq<Membership>): set<nat> {
    set m | m in s :: m.peer
  }

  function Members(s: PeerSet): set<nat> {
    Peers(s.recent) + Peers(s.archive)
  }

  function TierOf(s: PeerSet, tier: Tier): seq<Membership> {
    if tier == Recent then s.recent else s.archive
  }

  ghost predicate OncePerPeer(s: seq<Membership>) {
    forall i, j :: 0 <= i < j < |s| ==> s[i].peer != s[j].peer
  }

  /** Within capacity, and no peer twice across both tiers. */
  ghost predicate WellFormed(s: PeerSet) {
    && |s.recent| <= RECENT_CAPACITY && |s.archive| <= ARCHIVE_CAPACITY
    && OncePerPeer(s.recent) && OncePerPeer(s.archive)
    && Peers(s.recent) !! Peers(s.archive)
  }

  // ---- dropping memberships ----

  /** `Vec::retain`. */
  function Retain(s: seq<Membership>, keep: Membership -> bool): (r: seq<Membership>)
    ensures forall m :: m in r <==> m in s && keep(m)
    ensures |r| <= |s|
  {
    if s == [] then []
    else
      var init, last := s[..|s| - 1], s[|s| - 1];
      assert s == init + [last];
      if keep(last) then Retain(init, keep) + [last] else Retain(init, keep)
  }

  lemma {:induction false} RetainOnce(s: seq<Membership>, keep: Membership -> bool)
    requires OncePerPeer(s)
    ensures OncePerPeer(Retain(s, keep))
  {
    if s != [] {
      var init, last := s[..|s| - 1], s[|s| - 1];
      RetainOnce(init, keep);
      var r := Retain(init, keep);
      forall i | 0 <= i < |r| ensures r[i].peer != last.peer {
        assert r[i] in init;
        var j :| 0 <= j < |init| && init[j] == r[i];
      }
    }
  }

  // ---- observing a peer ----

  /** `find` by peer id. */
  function Position(s: seq<Membership>, peer: nat): (r: Option<nat>)
    ensures r.Some? ==> r.value < |s| && s[r.value].peer == peer
    ensures r.None? <==> peer !in Peers(s)
  {
    if s == [] then None
    else
      var init, last := s[..|s| - 1], s[|s| - 1];
      assert s == init + [last];
      assert Peers(s) == Peers(init) + {last.peer};
      var before := Position(init, peer);
      if before.Some? then before else if last.peer == peer then Some(|s| - 1) else None
  }

  /** `x` is at least as worn as `y`: returned later, then more often, then seen
      first earlier. */
  predicate NoMoreWorn(y: Membership, x: Membership) {
    || y.returned < x.returned
    || (y.returned == x.returned && (y.count < x.count || (y.count == x.count && y.firstSeen >= x.firstSeen)))
  }

  /** `max_by_key`, which keeps the last of equal maxima. */
  function MostWorn(s: seq<Membership>, n: nat): (r: nat)
    requires 0 < n <= |s|
    ensures r < n
    ensures forall j :: 0 <= j < n ==> NoMoreWorn(s[j], s[r])
    ensures forall j :: r < j < n ==> !NoMoreWorn(s[r], s[j])
  {
    if n == 1 then 0
    else
      var best := MostWorn(s, n - 1);
      if NoMoreWorn(s[best], s[n - 1]) then n - 1 else best
  }

  method MostWornIndex(s: seq<Membership>) returns (best: nat)
    requires s != []
    ensures best == MostWorn(s, |s|)
  {
    best := 0;
    var i := 1;
    while i < |s|
      invariant 1 <= i <= |s| && best == MostWorn(s, i)
    {
      if NoMoreWorn(s[best], s[i]) {
        best := i;
      }
      i := i + 1;
    }
  }

  /** The hash draw of `consider_archive_locked`, reduced to the observations. */
  function Draw(sample: Sample, app: string, peer: nat, total: nat): nat {
    sample(app, peer, total) % Max(total, 1)
  }

  function Archived(sample: Sample, app: string, archive: seq<Membership>, total: nat, m: Membership)
    : seq<Membership>
  {
    if |archive| < ARCHIVE_CAPACITY then archive + [m]
    else
      var draw := Draw(sample, app, m.peer, total);
      if draw < ARCHIVE_CAPACITY then archive[draw := m] else archive
  }

  function Newcomer(peer: nat, at: U64): Membership {
    Membership(peer, at, at, 0, 0)
  }

  /** A peer not yet in the set. */
  function Admitted(sample: Sample, app: string, s: PeerSet, peer: nat, at: U64): PeerSet {
    var total := SatAdd(s.total, 1);
    if |s.recent| < RECENT_CAPACITY then PeerSet(total, s.recent + [Newcomer(peer, at)], s.archive)
    else
      var worn := MostWorn(s.recent, |s.recent|);
      PeerSet(total, s.recent[worn := Newcomer(peer, at)], Archived(sample, app, s.archive, total, s.recent[worn]))
  }

  function Verified(s: seq<Membership>, i: nat, at: U64): seq<Membership>
    requires i < |s|
  {
    if at > s[i].verified then s[i := s[i].(verified := at)] else s
  }

  /** `observe_membership_locked` on one application's set. */
  function Observed(sample: Sample, app: string, s: PeerSet, peer: nat, at: U64): PeerSet {
    var r, a := Position(s.recent, peer), Position(s.archive, peer);
    if r.Some? then s.(recent := Verified(s.recent, r.value, at))
    else if a.Some? then s.(archive := Verified(s.archive, a.value, at))
    else Admitted(sample, app, s, peer, at)
  }

  lemma ReplacePeers(s: seq<Membership>, i: nat, m: Membership)
    requires OncePerPeer(s) && i < |s| && (m.peer == s[i].peer || m.peer !in Peers(s))
    ensures OncePerPeer(s[i := m])
    ensures Peers(s[i := m]) == Peers(s) - {s[i].peer} + {m.peer}
  {
    var t := s[i := m];
    forall j | 0 <= j < |s| && j != i ensures s[j].peer != m.peer && s[j].peer != s[i].peer {
      assert s[j].peer in Peers(s);
    }
    forall p ensures p in Peers(t) <==> p in Peers(s) - {s[i].peer} + {m.peer} {
      if p in Peers(t) {
        var j :| 0 <= j < |t| && t[j].peer == p;
        if j != i { assert s[j] in s; }
      }
      if p in Peers(s) - {s[i].peer} {
        var j :| 0 <= j < |s| && s[j].peer == p;
        assert t[j] in t;
      }
      if p == m.peer { assert t[i] in t; }
    }
  }

  lemma AppendPeers(s: seq<Membership>, m: Membership)
    requires OncePerPeer(s) && m.peer !in Peers(s)
    ensures OncePerPeer(s + [m]) && Peers(s + [m]) == Peers(s) + {m.peer}
  {
    forall j | 0 <= j < |s| ensures s[j].peer != m.peer {
      assert s[j].peer in Peers(s);
    }
  }

  /** `after` has everyone of `before` but at most one, and no one else. */
  ghost predicate LosesAtMostOne(before: set<nat>, after: set<nat>) {
    after <= before && |before - after| <= 1
  }

  lemma LostOne(before: set<nat>, after: set<nat>, lost: nat)
    requires after <= before && before - {lost} <= after
    ensures LosesAtMostOne(before, after)
  {
    SubsetSize(before - after, {lost});
  }

  /** What archiving keeps: everyone, while there is room; otherwise the
      displaced peer takes at most one place. */
  lemma ArchivedPeers(sample: Sample, app: string, archive: seq<Membership>, total: nat, m: Membership)
    requires OncePerPeer(archive) && m.peer !in Peers(archive) && |archive| <= ARCHIVE_CAPACITY
    ensures var r := Archived(sample, app, archive, total, m);
            && OncePerPeer(r) && |r| <= ARCHIVE_CAPACITY
            && LosesAtMostOne(Peers(archive) + {m.peer}, Peers(r))
            && (|archive| < ARCHIVE_CAPACITY ==> Peers(r) == Peers(archive) + {m.peer})
            && (m in r <==>
                  |archive| < ARCHIVE_CAPACITY || sample(app, m.peer, total) % Max(total, 1) < ARCHIVE_CAPACITY)
            && (m !in r ==> r == archive)
  {
    var r := Archived(sample, app, archive, total, m);
    assert m !in archive;
    if |archive| < ARCHIVE_CAPACITY {
      AppendPeers(archive, m);
    } else {
      var draw := Draw(sample, app, m.peer, total);
      if draw < ARCHIVE_CAPACITY {
        ReplacePeers(archive, draw, m);
        assert archive[draw] in archive;
        LostOne(Peers(archive) + {m.peer}, Peers(r), archive[draw].peer);
      } else {
        LostOne(Peers(archive) + {m.peer}, Peers(r), m.peer);
      }
    }
  }

  predicate Full(s: PeerSet) {
    |s.recent| >= RECENT_CAPACITY && |s.archive| >= ARCHIVE_CAPACITY
  }

  /** Whatever set it is applied to, observing a peer keeps the capacities and
      the uniqueness of peers, makes the peer a member, brings in nobody else,
      and loses at most one other member, and that only when both tiers are full. */
  lemma ObservedKeeps(sample: Sample, app: string, s: PeerSet, peer: nat, at: U64)
    requires WellFormed(s)
    ensures var r := Observed(sample, app, s, peer, at);
            && WellFormed(r) && peer in Members(r)
            && LosesAtMostOne(Members(s) + {peer}, Members(r))
            && (!Full(s) ==> Members(r) == Members(s) + {peer})
  {
    if peer in Members(s) {
      RefreshedKeeps(sample, app, s, peer, at);
    } else if |s.recent| < RECENT_CAPACITY {
      AppendPeers(s.recent, Newcomer(peer, at));
      assert Members(Observed(sample, app, s, peer, at)) == Members(s) + {peer};
    } else {
      AdmittedKeeps(sample, app, s, peer, at);
    }
  }

  lemma RefreshedKeeps(sample: Sample, app: string, s: PeerSet, peer: nat, at: U64)
    requires WellFormed(s) && peer in Members(s)
    ensures var r := Observed(sample, app, s, peer, at);
            && WellFormed(r) && Peers(r.recent) == Peers(s.recent) && Peers(r.archive) == Peers(s.archive)
            && |r.recent| == |s.recent| && |r.archive| == |s.archive|
  {
    var inRecent, inArchive := Position(s.recent, peer), Position(s.archive, peer);
    if inRecent.Some? {
      var i := inRecent.value;
      ReplacePeers(s.recent, i, s.recent[i].(verified := at));
      assert s.recent[i] in s.recent;
    } else {
      var i := inArchive.value;
      ReplacePeers(s.archive, i, s.archive[i].(verified := at));
      assert s.archive[i] in s.archive;
    }
  }

  lemma AdmittedKeeps(sample: Sample, app: string, s: PeerSet, peer: nat, at: U64)
    requires WellFormed(s) && |s.recent| == RECENT_CAPACITY && peer !in Members(s)
    ensures var r := Admitted(sample, app, s, peer, at);
            && WellFormed(r) && peer in Peers(r.recent)
            && LosesAtMostOne(Members(s) + {peer}, Members(r))
            && (!Full(s) ==> Members(r) == Members(s) + {peer})
  {
    var r := Admitted(sample, app, s, peer, at);
    var worn := MostWorn(s.recent, |s.recent|);
    var m := s.recent[worn];
    assert m in s.recent && m.peer in Peers(s.recent);
    ReplacePeers(s.recent, worn, Newcomer(peer, at));
    ArchivedPeers(sample, app, s.archive, r.total, m);
    Moved(Peers(s.recent), Peers(s.archive), m.peer, peer, Peers(r.archive));
  }

  /** `m` moves over from the recent tier and `peer` takes its place. */
  lemma Moved(recent: set<nat>, archive: set<nat>, m: nat, peer: nat, newArchive: set<nat>)
    requires recent !! archive && m in recent && peer !in recent + archive
    requires LosesAtMostOne(archive + {m}, newArchive)
    ensures recent - {m} + {peer} !! newArchive
    ensures LosesAtMostOne(recent + archive + {peer}, recent - {m} + {peer} + newArchive)
    ensures newArchive == archive + {m} ==> recent - {m} + {peer} + newArchive == recent + archive + {peer}
  {
    assert recent + archive + {peer} - (recent - {m} + {peer} + newArchive) == archive + {m} - newArchive;
  }

  /** An observed peer is on record as verified no earlier than now; a new one
      enters the recent tier as never handed out. */
  lemma ObservedIsFresh(sample: Sample, app: string, s: PeerSet, peer: nat, at: U64)
    ensures var r := Observed(sample, app, s, peer, at);
            exists m :: (m in r.recent || m in r.archive) && m.peer == peer && m.verified >= at
                        && (peer !in Members(s) ==> m == Newcomer(peer, at) && m in r.recent)
  {
    var r := Observed(sample, app, s, peer, at);
    var inRecent, inArchive := Position(s.recent, peer), Position(s.archive, peer);
    if inRecent.Some? {
      assert r.recent[inRecent.value] in r.recent;
    } else if inArchive.Some? {
      assert r.archive[inArchive.value] in r.archive;
    } else if |s.recent| < RECENT_CAPACITY {
      assert r.recent[|s.recent|] == Newcomer(peer, at);
    } else {
      assert r.recent[MostWorn(s.recent, |s.recent|)] == Newcomer(peer, at);
    }
  }

  /** The same membership, verified no earlier than at `at`. */
  function Reverified(m: Membership, at: U64): Membership {
    Membership(m.peer, m.firstSeen, Max(m.verified, at), m.returned, m.count)
  }

  /** A member stays in its tier, its verification time moved forward only; a
      newcomer is counted; nobody else's membership changes. */
  lemma ObservedRest(sample: Sample, app: string, s: PeerSet, peer: nat, at: U64)
    requires WellFormed(s)
    ensures var r := Observed(sample, app, s, peer, at);
            && (forall m :: m in s.recent && m.peer == peer ==> Reverified(m, at) in r.recent)
            && (forall m :: m in s.archive && m.peer == peer ==> Reverified(m, at) in r.archive)
            && (forall m :: (m in r.recent || m in r.archive) && m.peer != peer ==> m in s.recent || m in s.archive)
            && r.total == if peer in Members(s) then s.total else SatAdd(s.total, 1)
  {
    var r := Observed(sample, app, s, peer, at);
    var i, j := Position(s.recent, peer), Position(s.archive, peer);
    if i.Some? {
      assert r.recent[i.value] == Reverified(s.recent[i.value], at);
      assert s.recent[i.value].peer in Peers(s.recent);
    } else if j.Some? {
      assert r.archive[j.value] == Reverified(s.archive[j.value], at);
    } else if |s.recent| == RECENT_CAPACITY {
      assert s.recent[MostWorn(s.recent, |s.recent|)] in s.recent;
    }
  }

  /** Nobody of the tier was handed out later than `worn`; of those handed out then,
      nobody more often; of those, nobody was seen first earlier. */
  ghost predicate MostUsed(tier: seq<Membership>, worn: Membership) {
    forall m :: m in tier ==>
      && m.returned <= worn.returned
      && (m.returned == worn.returned ==> m.count <= worn.count)
      && (m.returned == worn.returned && m.count == worn.count ==> m.firstSeen >= worn.firstSeen)
  }

  lemma MostWornIsMostUsed(s: seq<Membership>)
    requires s != []
    ensures MostUsed(s, s[MostWorn(s, |s|)])
  {
    forall m | m in s ensures NoMoreWorn(m, s[MostWorn(s, |s|)]) {
      var j :| 0 <= j < |s| && s[j] == m;
    }
  }

  /** A newcomer to a full recent tier takes the place of its most used member, and
      of nobody else; a peer never handed out stays while some other was. */
  lemma DisplacedIsMostUsed(sample: Sample, app: string, s: PeerSet, peer: nat, at: U64)
    requires WellFormed(s) && |s.recent| == RECENT_CAPACITY && peer !in Members(s)
    ensures exists worn :: worn in s.recent && MostUsed(s.recent, worn)
                           && Peers(Observed(sample, app, s, peer, at).recent) == Peers(s.recent) - {worn.peer} + {peer}
    ensures (exists m :: m in s.recent && m.returned > 0) ==>
            forall m :: m in s.recent && m.returned == 0 ==> m.peer in Peers(Observed(sample, app, s, peer, at).recent)
  {
    var i := MostWorn(s.recent, |s.recent|);
    MostWornIsMostUsed(s.recent);
    ReplacePeers(s.recent, i, Newcomer(peer, at));
    assert s.recent[i] in s.recent;
    forall m | m in s.recent && m.peer == s.recent[i].peer ensures m == s.recent[i] {}
  }

  /** Executable form, as the code updates the set in place. */
  method ObserveMembership(sample: Sample, app: string, s: PeerSet, peer: nat, at: U64) returns (r: PeerSet)
    ensures r == Observed(sample, app, s, peer, at)
  {
    r := s;
    var i := Position(s.recent, peer);
    var j := Position(s.archive, peer);
    if i.Some? {
      if at > s.recent[i.value].verified {
        r := r.(recent := r.recent[i.value := r.recent[i.value].(verified := at)]);
      }
      return;
    }
    if j.Some? {
      if at > s.archive[j.value].verified {
        r := r.(archive := r.archive[j.value := r.archive[j.value].(verified := at)]);
      }
      return;
    }
    r := r.(total := SatAdd(r.total, 1));
    if |r.recent| < RECENT_CAPACITY {
      r := r.(recent := r.recent + [Newcomer(peer, at)]);
      return;
    }
    var worn := MostWornIndex(r.recent);
    var displaced := r.recent[worn];
    r := r.(recent := r.recent[worn := Newcomer(peer, at)]);
    r := r.(archive := Archived(sample, app, r.archive, r.total, displaced));
  }
}
