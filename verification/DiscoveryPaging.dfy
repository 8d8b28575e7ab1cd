/** Rotating result pages over the two tiers (app/discovery.rs, `list_peers`). */
module Paging {
  import opened Basics
  import opened Sorting
  import opened PeerSets

  const MAX_RESULTS: nat := 1_000

  /** `return_priority`: longest unreturned first. */
  predicate ReturnedFirst(a: Membership, b: Membership) {
    || a.returned < b.returned
    || (a.returned == b.returned &&
        (a.count < b.count || (a.count == b.count &&
         (a.firstSeen < b.firstSeen || (a.firstSeen == b.firstSeen && a.peer <= b.peer)))))
  }

  lemma PriorityIsPreorder()
    ensures TotalPreorder(ReturnedFirst)
  {
  }

  function Stamp(m: Membership, now: U64): Membership {
    m.(returned := now, count := Min(m.count + 1, U32_MAX))
  }

  /** The sorted tier after its first `n` members were handed out. */
  function Stamped(order: seq<Membership>, n: nat, now: U64): seq<Membership> {
    seq(|order|, i requires 0 <= i < |order| => if i < n then Stamp(order[i], now) else order[i])
  }

  ghost predicate SortedTier(order: seq<Membership>, tier: seq<Membership>) {
    Ordered(order, ReturnedFirst) && multiset(order) == multiset(tier)
  }

  lemma StampedKeeps(tier: seq<Membership>, order: seq<Membership>, n: nat, now: U64)
    requires OncePerPeer(tier) && multiset(order) == multiset(tier)
    ensures OncePerPeer(order) && |order| == |tier|
    ensures OncePerPeer(Stamped(order, n, now)) && Peers(Stamped(order, n, now)) == Peers(tier)
    ensures forall m :: m in order <==> m in tier
  {
    assert Distinct(tier);
    PermutedDistinct(tier, order);
    forall m ensures m in order <==> m in tier {
      assert m in Elements(order) <==> m in Elements(tier);
    }
    forall i, j | 0 <= i < j < |order| ensures order[i].peer != order[j].peer {
      assert order[i] != order[j] && order[i] in tier && order[j] in tier;
    }
    var after := Stamped(order, n, now);
    forall p ensures p in Peers(after) <==> p in Peers(tier) {
      if p in Peers(after) {
        var i :| 0 <= i < |after| && after[i].peer == p;
        assert order[i] in tier;
      }
      if p in Peers(tier) {
        var m :| m in tier && m.peer == p;
        var i :| 0 <= i < |order| && order[i] == m;
        assert after[i] in after;
      }
    }
  }

  /** How often the members of a tier were handed out. */
  function Handouts(s: seq<Membership>): nat {
    if s == [] then 0 else Handouts(s[..|s| - 1]) + s[|s| - 1].count
  }

  /** A page of `n` counts `n` handouts, below the end of the counters, dates them,
      and changes nothing else. */
  lemma {:induction false} PageCounts(order: seq<Membership>, n: nat, now: U64)
    requires n <= |order| && forall i :: 0 <= i < n ==> order[i].count < U32_MAX
    ensures var after := Stamped(order, n, now);
            && Handouts(after) == Handouts(order) + n
            && forall i :: 0 <= i < |order| ==>
                 && after[i].peer == order[i].peer
                 && after[i].firstSeen == order[i].firstSeen && after[i].verified == order[i].verified
                 && after[i].returned == (if i < n then now else order[i].returned)
  {
    if order != [] {
      var last := |order| - 1;
      PageCounts(order[..last], Min(n, last), now);
      assert Stamped(order, n, now)[..last] == Stamped(order[..last], Min(n, last), now);
    }
  }

  // ---- which positions a page takes ----

  datatype Slot = Slot(tier: Tier, index: nat)

  function Limit(requested: nat): nat {
    Max(1, Min(requested, MAX_RESULTS))
  }

  function DesiredRecent(limit: nat): nat {
    (limit * 4 + 4) / 5
  }

  /** How many of each tier a page takes, given what the tiers hold. */
  function RecentPicks(limit: nat, recent: nat, archive: nat): nat {
    Min(recent, Max(DesiredRecent(limit), SatSub(limit, archive)))
  }

  function ArchivePicks(limit: nat, recent: nat, archive: nat): nat {
    Min(archive, SatSub(limit, Min(recent, DesiredRecent(limit))))
  }

  /** A page is full whenever there are peers to fill it; four fifths of it,
      rounded up, are recent peers as far as there are any, and more only when the
      archive is used up. */
  lemma PageShape(limit: nat, recent: nat, archive: nat)
    requires limit > 0
    ensures var r, a := RecentPicks(limit, recent, archive), ArchivePicks(limit, recent, archive);
            && r + a == Min(limit, recent + archive)
            && r <= recent && a <= archive
            && r >= Min(recent, DesiredRecent(limit))
            && (r > DesiredRecent(limit) ==> a == archive)
            && 5 * (DesiredRecent(limit) - 1) < 4 * limit <= 5 * DesiredRecent(limit)
  {
  }

  function Range(tier: Tier, lo: nat, hi: nat): (r: seq<Slot>)
    requires lo <= hi
    ensures forall p: Slot :: p in r <==> p.tier == tier && lo <= p.index < hi
  {
    var r := seq(hi - lo, i requires 0 <= i < hi - lo => Slot(tier, lo + i));
    assert forall p: Slot :: p.tier == tier && lo <= p.index < hi ==> r[p.index - lo] == p;
    r
  }

  function CountTier(s: seq<Slot>, tier: Tier): nat {
    if s == [] then 0 else CountTier(s[..|s| - 1], tier) + (if s[|s| - 1].tier == tier then 1 else 0)
  }

  lemma {:induction false} CountAppend(s: seq<Slot>, t: seq<Slot>, tier: Tier)
    ensures CountTier(s + t, tier) == CountTier(s, tier) + CountTier(t, tier)
  {
    if t == [] {
      assert s + t == s;
    } else {
      CountAppend(s, t[..|t| - 1], tier);
      assert (s + t)[..|s + t| - 1] == s + t[..|t| - 1];
    }
  }

  lemma {:induction false} CountRange(tier: Tier, lo: nat, hi: nat, asked: Tier)
    requires lo <= hi
    ensures CountTier(Range(tier, lo, hi), asked) == if asked == tier then hi - lo else 0
    decreases hi
  {
    if hi > lo {
      CountRange(tier, lo, hi - 1, asked);
      assert Range(tier, lo, hi)[..hi - 1 - lo] == Range(tier, lo, hi - 1);
    }
  }

  /** The slots of a page: a prefix of each tier. */
  ghost predicate IsSelection(selected: seq<Slot>, limit: nat, recent: nat, archive: nat) {
    forall p :: p in selected <==>
      p.index < if p.tier == Recent then RecentPicks(limit, recent, archive) else ArchivePicks(limit, recent, archive)
  }

  /** The selection block of `list_peers`: four fifths recent, the archive, then
      two top-ups, the second of which never adds anything. */
  method Select(limit: nat, recent: nat, archive: nat) returns (selected: seq<Slot>, ghost topUp: nat)
    requires 1 <= limit <= MAX_RESULTS
    ensures Distinct(selected) && |selected| == Min(limit, recent + archive)
    ensures IsSelection(selected, limit, recent, archive)
    ensures topUp == 0
  {
    var first := Min(recent, DesiredRecent(limit));
    selected := Range(Recent, 0, first);
    var needed := SatSub(limit, |selected|);
    var fromArchive := Min(archive, needed);
    selected := selected + Range(Archive, 0, fromArchive);
    CountFirst(first, fromArchive);
    var more := first;
    if |selected| < limit {
      var start := CountTier(selected, Recent);
      more := Min(recent, start + limit - |selected|);
      selected := selected + Range(Recent, start, more);
    }
    assert selected == Range(Recent, 0, first) + Range(Archive, 0, fromArchive) + Range(Recent, first, more);
    PageShape(limit, recent, archive);
    SelectedOnce(first, fromArchive, more);
    topUp := 0;
    if |selected| < limit {
      CountSecond(first, fromArchive, more);
      var start := CountTier(selected, Archive);
      var end := Min(archive, start + limit - |selected|);
      topUp := end - start;
      assert Range(Archive, start, end) == [];
      selected := selected + Range(Archive, start, end);
    }
  }

  /** The positions of a page, without repetition. */
  lemma SelectedOnce(first: nat, fromArchive: nat, more: nat)
    requires first <= more
    ensures var s := Range(Recent, 0, first) + Range(Archive, 0, fromArchive) + Range(Recent, first, more);
            && Distinct(s) && |s| == more + fromArchive
            && forall p :: p in s <==> if p.tier == Recent then p.index < more else p.index < fromArchive
  {
  }

  lemma CountFirst(first: nat, fromArchive: nat)
    ensures CountTier(Range(Recent, 0, first) + Range(Archive, 0, fromArchive), Recent) == first
  {
    CountAppend(Range(Recent, 0, first), Range(Archive, 0, fromArchive), Recent);
    CountRange(Recent, 0, first, Recent);
    CountRange(Archive, 0, fromArchive, Recent);
  }

  lemma CountSecond(first: nat, fromArchive: nat, more: nat)
    requires first <= more
    ensures CountTier(Range(Recent, 0, first) + Range(Archive, 0, fromArchive) + Range(Recent, first, more), Archive) ==
        fromArchive
  {
    CountAppend(Range(Recent, 0, first) + Range(Archive, 0, fromArchive), Range(Recent, first, more), Archive);
    CountAppend(Range(Recent, 0, first), Range(Archive, 0, fromArchive), Archive);
    CountRange(Recent, 0, first, Archive);
    CountRange(Recent, first, more, Archive);
    CountRange(Archive, 0, fromArchive, Archive);
  }
}

/** What one page does to the return times of a tier, and whom it takes. */
module Rotation {
  import opened Basics
  import opened PeerSets
  import opened Paging

  function MemberOf(s: seq<Membership>, peer: nat): Membership
    requires peer in Peers(s)
  {
    s[Position(s, peer).value]
  }

  /** When each peer of a tier was last handed out. */
  function Returns(s: seq<Membership>): map<nat, U64> {
    map p | p in Peers(s) :: MemberOf(s, p).returned
  }

  /** `peer` is among the first `n` of `order`. */
  predicate InFirst(order: seq<Membership>, n: nat, peer: nat) {
    exists i :: 0 <= i < n && i < |order| && order[i].peer == peer
  }

  lemma MemberIs(s: seq<Membership>, m: Membership)
    requires OncePerPeer(s) && m in s
    ensures m.peer in Peers(s) && MemberOf(s, m.peer) == m
  {
    assert m.peer in Peers(s);
    assert s[Position(s, m.peer).value] in s;
  }

  /** Two sorted forms of one tier are the same. */
  lemma {:induction false} UniqueOrder(s: seq<Membership>, a: seq<Membership>, b: seq<Membership>)
    requires OncePerPeer(s) && SortedTier(a, s) && SortedTier(b, s)
    ensures a == b
  {
    StampedKeeps(s, a, 0, 0);
    StampedKeeps(s, b, 0, 0);
    forall i | 0 <= i < |a| ensures a[i] == b[i] {
      SamePlace(s, a, b, i);
    }
  }

  lemma {:induction false} SamePlace(s: seq<Membership>, a: seq<Membership>, b: seq<Membership>, i: nat)
    requires OncePerPeer(s) && SortedTier(a, s) && SortedTier(b, s) && i < |a| == |b|
    requires OncePerPeer(a) && OncePerPeer(b) && (forall m :: m in a <==> m in s) && (forall m :: m in b <==> m in s)
    ensures a[i] == b[i]
  {
    forall k | 0 <= k < i ensures a[k] == b[k] {
      SamePlace(s, a, b, k);
    }
    assert a[i] in s && b[i] in s;
    var j :| 0 <= j < |b| && b[j] == a[i];
    var k :| 0 <= k < |a| && a[k] == b[i];
    assert j >= i && k >= i;
    assert i < j ==> ReturnedFirst(b[i], b[j]);
  }

  /** One page moves exactly the peers it takes to its own time. */
  lemma PageReturns(s: seq<Membership>, order: seq<Membership>, n: nat, now: U64, peer: nat)
    requires OncePerPeer(s) && SortedTier(order, s) && peer in Peers(s)
    ensures var left := Stamped(order, n, now);
            && OncePerPeer(left) && peer in Peers(left)
            && Returns(left)[peer] == if InFirst(order, n, peer) then now else Returns(s)[peer]
  {
    StampedKeeps(s, order, n, now);
    var left, m := Stamped(order, n, now), MemberOf(s, peer);
    assert m in s;
    var i :| 0 <= i < |order| && order[i] == m;
    MemberIs(s, m);
    MemberIs(left, left[i]);
    forall j | 0 <= j < |order| && j != i ensures order[j].peer != peer {}
  }

  /** Some page size takes `x` and not `y` exactly when `x` has priority. */
  lemma PriorityIff(s: seq<Membership>, order: seq<Membership>, x: nat, y: nat)
    requires OncePerPeer(s) && SortedTier(order, s) && x in Peers(s) && y in Peers(s) && x != y
    ensures (exists n: nat :: InFirst(order, n, x) && !InFirst(order, n, y)) <==>
            ReturnedFirst(MemberOf(s, x), MemberOf(s, y))
  {
    StampedKeeps(s, order, 0, 0);
    var mx, my := MemberOf(s, x), MemberOf(s, y);
    assert mx in s && my in s;
    var i :| 0 <= i < |order| && order[i] == mx;
    var j :| 0 <= j < |order| && order[j] == my;
    assert forall k :: 0 <= k < |order| && k != i ==> order[k].peer != x;
    assert forall k :: 0 <= k < |order| && k != j ==> order[k].peer != y;
    if i < j {
      assert InFirst(order, i + 1, x) && !InFirst(order, i + 1, y);
    } else {
      assert ReturnedFirst(my, mx);
    }
  }

  /** Equal return times are decided by count, first-seen time and id. */
  predicate TieBreak(x: Membership, y: Membership) {
    || x.count < y.count
    || (x.count == y.count && (x.firstSeen < y.firstSeen || (x.firstSeen == y.firstSeen && x.peer <= y.peer)))
  }

  lemma PriorityOnTie(x: Membership, y: Membership)
    requires x.returned >= y.returned
    ensures ReturnedFirst(x, y) <==> x.returned == y.returned && TieBreak(x, y)
  {
  }
}
