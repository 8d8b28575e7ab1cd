/** Least-recently-used pruning of a vault's cache entries
    (private_app_storage.rs, `prune_cache_locked`). */
module CachePruning {
  import opened Basics
  import opened StorageSpec
  import opened Sorting

  datatype Candidate =
    | CachedValue(key: string, opaqueId: string, at: U64, bytes: nat)
    | CachedBlob(id: BlobId, at: U64, bytes: nat)

  function OfValue(key: string, v: Value): Candidate {
    CachedValue(key, v.opaqueId, v.lastAccessedAt, v.bytes)
  }

  function OfBlob(id: BlobId, b: Blob): Candidate {
    CachedBlob(id, b.lastAccessedAt, b.totalBytes)
  }

  /** What pruning may evict: cache values, and complete cache blobs. */
  function Candidates(m: Manifest): set<Candidate> {
    (set k | k in m.values && m.values[k].retention == Cache :: OfValue(k, m.values[k])) +
    (set id | id in m.blobs && m.blobs[id].complete && m.blobs[id].retention == Cache :: OfBlob(id, m.blobs[id]))
  }

  ghost function Total(s: set<Candidate>): nat {
    if s == {} then 0
    else
      var c :| c in s;
      c.bytes + Total(s - {c})
  }

  ghost function CacheBytes(m: Manifest): nat {
    Total(Candidates(m))
  }

  /** The manifest without the evicted entries. */
  function Without(m: Manifest, evicted: set<Candidate>): Manifest {
    Manifest(map k | k in m.values && OfValue(k, m.values[k]) !in evicted :: m.values[k],
             map id | id in m.blobs && OfBlob(id, m.blobs[id]) !in evicted :: m.blobs[id])
  }

  predicate ByAccess(s: seq<Candidate>) {
    forall i, j :: 0 <= i < j < |s| ==> s[i].at <= s[j].at && s[i] != s[j]
  }

  lemma {:induction false} TotalRemove(s: set<Candidate>, c: Candidate)
    requires c in s
    ensures Total(s) == c.bytes + Total(s - {c})
    decreases s
  {
    var d :| d in s && Total(s) == d.bytes + Total(s - {d});
    if d != c {
      TotalRemove(s - {d}, c);
      TotalRemove(s - {c}, d);
      assert s - {d} - {c} == s - {c} - {d};
    }
  }

  lemma CandidatesWithout(m: Manifest, evicted: set<Candidate>)
    ensures Candidates(Without(m, evicted)) == Candidates(m) - evicted
  {
    var w := Without(m, evicted);
    forall c ensures c in Candidates(w) <==> c in Candidates(m) && c !in evicted {
      match c
      case CachedValue(k, _, _, _) =>
        assert c in Candidates(w) <==> k in w.values && w.values[k].retention == Cache && c == OfValue(k, w.values[k]);
        assert c in Candidates(m) <==> k in m.values && m.values[k].retention == Cache && c == OfValue(k, m.values[k]);
      case CachedBlob(id, _, _) =>
        assert c in Candidates(w) <==>
            id in w.blobs && w.blobs[id].complete && w.blobs[id].retention == Cache && c == OfBlob(id, w.blobs[id]);
        assert c in Candidates(m) <==>
            id in m.blobs && m.blobs[id].complete && m.blobs[id].retention == Cache && c == OfBlob(id, m.blobs[id]);
    }
  }

  /** Only candidates are ever lost: other values, other blobs and unfinished
      uploads stay as they are. */
  lemma OthersStay(m: Manifest, evicted: set<Candidate>)
    requires evicted <= Candidates(m)
    ensures var w := Without(m, evicted);
            && (forall k :: k in m.values && m.values[k].retention != Cache ==>
                k in w.values && w.values[k] == m.values[k])
            && (forall id :: id in m.blobs && !(m.blobs[id].complete && m.blobs[id].retention == Cache) ==>
                  id in w.blobs && w.blobs[id] == m.blobs[id])
  {
    forall k | k in m.values && m.values[k].retention != Cache ensures OfValue(k, m.values[k]) !in evicted {
      assert OfValue(k, m.values[k]) !in Candidates(m);
    }
    forall id | id in m.blobs && !(m.blobs[id].complete && m.blobs[id].retention == Cache)
        ensures OfBlob(id, m.blobs[id]) !in evicted {
      assert OfBlob(id, m.blobs[id]) !in Candidates(m);
    }
  }

  /** Evict one more entry. */
  lemma WithoutOneMore(m: Manifest, evicted: set<Candidate>, c: Candidate)
    requires c in Candidates(m) && c !in evicted
    ensures var w := Without(m, evicted);
            && Without(m, evicted + {c}) == Evict(w, c)
            && match c case CachedValue(k, _, _, _) => k in w.values case CachedBlob(id, _, _) => id in w.blobs
  {
    var w, v := Without(m, evicted), Without(m, evicted + {c});
    match c
    case CachedValue(k, _, _, _) =>
      assert v.values == w.values - {k};
      assert v.blobs == w.blobs;
    case CachedBlob(id, _, _) =>
      assert v.blobs == w.blobs - {id};
      assert v.values == w.values;
  }

  /** The result of pruning: the shortest prefix, in order of last access, whose
      removal brings the cache to its limit. */
  ghost predicate LruPrune(m: Manifest, w: Manifest, evicted: seq<Candidate>, limit: nat) {
    && ByAccess(evicted)
    && Elements(evicted) <= Candidates(m)
    && w == Without(m, Elements(evicted))
    && CacheBytes(w) <= limit
    && (forall e, c :: e in evicted && c in Candidates(w) ==> e.at <= c.at)
    && (evicted != [] ==> CacheBytes(Without(m, Elements(evicted[..|evicted| - 1]))) > limit)
  }

  predicate NoLaterAccess(a: Candidate, b: Candidate) {
    a.at <= b.at
  }

  /** `sort_by_key` over the candidates, which come in no particular order. */
  method SortByAccess(candidates: set<Candidate>) returns (order: seq<Candidate>)
    ensures ByAccess(order) && Elements(order) == candidates
  {
    var listed := Listed(candidates);
    order := Sort(listed, NoLaterAccess);
    PermutedDistinct(listed, order);
    forall i, j | 0 <= i < j < |order| ensures order[i].at <= order[j].at {
      assert NoLaterAccess(order[i], order[j]);
    }
  }

  /** The loop's running byte count, by recomputation. */
  ghost predicate Running(m: Manifest, w: Manifest, order: seq<Candidate>, i: nat, cacheBytes: nat) {
    && i <= |order|
    && w == Without(m, Elements(order[..i]))
    && cacheBytes == CacheBytes(w)
    && cacheBytes == Total(Candidates(m) - Elements(order[..i]))
  }

  lemma RunningStep(m: Manifest, w: Manifest, order: seq<Candidate>, i: nat, cacheBytes: nat)
    requires ByAccess(order) && Elements(order) == Candidates(m)
    requires i < |order| && Running(m, w, order, i, cacheBytes)
    ensures cacheBytes >= order[i].bytes
    ensures Running(m, Evict(w, order[i]), order, i + 1, cacheBytes - order[i].bytes)
    ensures match order[i] case CachedValue(k, _, _, _) => k in w.values case CachedBlob(id, _, _) => id in w.blobs
  {
    var c := order[i];
    assert c in Elements(order);
    assert c !in Elements(order[..i]);
    assert order[..i + 1] == order[..i] + [c];
    assert Elements(order[..i + 1]) == Elements(order[..i]) + {c};
    WithoutOneMore(m, Elements(order[..i]), c);
    TotalRemove(Candidates(m) - Elements(order[..i]), c);
    assert Candidates(m) - Elements(order[..i]) - {c} == Candidates(m) - Elements(order[..i + 1]);
    CandidatesWithout(m, Elements(order[..i + 1]));
  }

  /** `remove` on the map the candidate comes from. */
  function Evict(w: Manifest, c: Candidate): Manifest {
    match c
    case CachedValue(k, _, _, _) => w.(values := w.values - {k})
    case CachedBlob(id, _, _) => w.(blobs := w.blobs - {id})
  }

  lemma RunningStart(m: Manifest, order: seq<Candidate>)
    requires Elements(order) == Candidates(m)
    ensures Running(m, m, order, 0, CacheBytes(m))
  {
    assert m == Without(m, {});
    assert Elements(order[..0]) == {} && Candidates(m) - {} == Candidates(m);
  }

  /** The manifest part of `prune_cache_locked`.  The running count equals the
      recomputed sum throughout, so it never saturates and the loop always gets
      to the limit. */
  method Prune(m: Manifest, limit: nat) returns (w: Manifest, evicted: seq<Candidate>)
    ensures LruPrune(m, w, evicted, limit)
    ensures evicted == [] <==> CacheBytes(m) <= limit
  {
    w := m;
    var order := SortByAccess(Candidates(m));
    var cacheBytes: nat := SumBytes(order);
    RunningStart(m, order);
    var i := 0;
    while i < |order| && cacheBytes > limit
      invariant Running(m, w, order, i, cacheBytes)
      invariant i > 0 ==> CacheBytes(Without(m, Elements(order[..i - 1]))) > limit && CacheBytes(m) > limit
      invariant i == 0 ==> w == m
    {
      RunningStep(m, w, order, i, cacheBytes);
      w := Evict(w, order[i]);
      cacheBytes := cacheBytes - order[i].bytes;
      i := i + 1;
    }
    evicted := order[..i];
    if i == |order| { NothingLeft(m, w, order, cacheBytes); }
    PrunedAll(m, w, order, i, limit);
  }

  lemma NothingLeft(m: Manifest, w: Manifest, order: seq<Candidate>, cacheBytes: nat)
    requires Elements(order) == Candidates(m) && Running(m, w, order, |order|, cacheBytes)
    ensures cacheBytes == 0
  {
    assert order[..|order|] == order;
    assert Candidates(m) - Elements(order) == {};
  }

  lemma PrunedAll(m: Manifest, w: Manifest, order: seq<Candidate>, i: nat, limit: nat)
    requires ByAccess(order) && Elements(order) == Candidates(m) && i <= |order|
        && w == Without(m, Elements(order[..i]))
    requires CacheBytes(w) <= limit
    requires i > 0 ==> CacheBytes(Without(m, Elements(order[..i - 1]))) > limit
    ensures LruPrune(m, w, order[..i], limit)
  {
    PrunedRest(m, order, i);
    assert i > 0 ==> order[..i][..i - 1] == order[..i - 1];
  }

  lemma PrunedRest(m: Manifest, order: seq<Candidate>, i: nat)
    requires ByAccess(order) && Elements(order) == Candidates(m) && i <= |order|
    ensures ByAccess(order[..i]) && Elements(order[..i]) <= Candidates(m)
    ensures forall e, c :: e in order[..i] && c in Candidates(Without(m, Elements(order[..i]))) ==> e.at <= c.at
  {
    CandidatesWithout(m, Elements(order[..i]));
    forall e, c | e in order[..i] && c in Candidates(Without(m, Elements(order[..i]))) ensures e.at <= c.at {
      assert c in Elements(order) && c !in Elements(order[..i]);
      var a :| 0 <= a < i && order[a] == e;
      var b :| 0 <= b < |order| && order[b] == c;
      assert b >= i;
    }
  }

  /** The initial sum. */
  method SumBytes(order: seq<Candidate>) returns (sum: nat)
    requires ByAccess(order)
    ensures sum == Total(Elements(order))
  {
    sum := 0;
    var i := 0;
    while i < |order|
      invariant 0 <= i <= |order|
      invariant sum == Total(Elements(order[..i]))
    {
      assert order[..i + 1] == order[..i] + [order[i]];
      assert Elements(order[..i + 1]) == Elements(order[..i]) + {order[i]};
      assert order[i] !in Elements(order[..i]);
      TotalRemove(Elements(order[..i + 1]), order[i]);
      assert Elements(order[..i + 1]) - {order[i]} == Elements(order[..i]);
      sum := sum + order[i].bytes;
      i := i + 1;
    }
    assert order[..i] == order;
  }

  // ---- what pruning promises, entry by entry ----

  /** Bytes of the cache among these values. */
  ghost function ValueBytes(vs: map<string, Value>): nat {
    if vs == map[] then 0
    else
      var k :| k in vs;
      (if vs[k].retention == Cache then vs[k].bytes else 0) + ValueBytes(vs - {k})
  }

  /** Bytes of the cache among these blobs; unfinished uploads do not count. */
  ghost function BlobBytes(bs: map<BlobId, Blob>): nat {
    if bs == map[] then 0
    else
      var id :| id in bs;
      (if bs[id].complete && bs[id].retention == Cache then bs[id].totalBytes else 0) + BlobBytes(bs - {id})
  }

  ghost function CacheUse(m: Manifest): nat {
    ValueBytes(m.values) + BlobBytes(m.blobs)
  }

  function CachedValues(vs: map<string, Value>): set<Candidate> {
    set k | k in vs && vs[k].retention == Cache :: OfValue(k, vs[k])
  }

  function CachedBlobs(bs: map<BlobId, Blob>): set<Candidate> {
    set id | id in bs && bs[id].complete && bs[id].retention == Cache :: OfBlob(id, bs[id])
  }

  lemma {:induction false} TotalUnion(a: set<Candidate>, b: set<Candidate>)
    requires a !! b
    ensures Total(a + b) == Total(a) + Total(b)
    decreases a
  {
    if a == {} {
      assert a + b == b;
    } else {
      var c :| c in a;
      TotalRemove(a, c);
      TotalRemove(a + b, c);
      assert (a - {c}) + b == a + b - {c};
      TotalUnion(a - {c}, b);
    }
  }

  lemma CachedValueIs(vs: map<string, Value>, c: Candidate)
    ensures c in CachedValues(vs) <==>
            c.CachedValue? && c.key in vs && vs[c.key].retention == Cache && c == OfValue(c.key, vs[c.key])
  {
  }

  lemma CachedBlobIs(bs: map<BlobId, Blob>, c: Candidate)
    ensures c in CachedBlobs(bs) <==>
            c.CachedBlob? && c.id in bs && bs[c.id].complete && bs[c.id].retention == Cache
            && c == OfBlob(c.id, bs[c.id])
  {
  }

  lemma DropValue(vs: map<string, Value>, k: string)
    requires k in vs
    ensures CachedValues(vs - {k}) == CachedValues(vs) - {OfValue(k, vs[k])}
  {
    forall c ensures c in CachedValues(vs - {k}) <==> c in CachedValues(vs) - {OfValue(k, vs[k])} {
      CachedValueIs(vs, c);
      CachedValueIs(vs - {k}, c);
    }
  }

  lemma DropBlob(bs: map<BlobId, Blob>, id: BlobId)
    requires id in bs
    ensures CachedBlobs(bs - {id}) == CachedBlobs(bs) - {OfBlob(id, bs[id])}
  {
    forall c ensures c in CachedBlobs(bs - {id}) <==> c in CachedBlobs(bs) - {OfBlob(id, bs[id])} {
      CachedBlobIs(bs, c);
      CachedBlobIs(bs - {id}, c);
    }
  }

  lemma {:induction false} ValueBytesIs(vs: map<string, Value>)
    ensures Total(CachedValues(vs)) == ValueBytes(vs)
    decreases |vs|
  {
    if vs != map[] {
      var k :| k in vs && ValueBytes(vs) ==
          (if vs[k].retention == Cache then vs[k].bytes else 0) + ValueBytes(vs - {k});
      ValueBytesIs(vs - {k});
      DropValue(vs, k);
      CachedValueIs(vs, OfValue(k, vs[k]));
      if OfValue(k, vs[k]) in CachedValues(vs) {
        TotalRemove(CachedValues(vs), OfValue(k, vs[k]));
      } else {
        assert CachedValues(vs - {k}) == CachedValues(vs);
      }
    }
  }

  lemma {:induction false} BlobBytesIs(bs: map<BlobId, Blob>)
    ensures Total(CachedBlobs(bs)) == BlobBytes(bs)
    decreases |bs|
  {
    if bs != map[] {
      var id :| id in bs && BlobBytes(bs) ==
          (if bs[id].complete && bs[id].retention == Cache then bs[id].totalBytes else 0) + BlobBytes(bs - {id});
      BlobBytesIs(bs - {id});
      DropBlob(bs, id);
      CachedBlobIs(bs, OfBlob(id, bs[id]));
      if OfBlob(id, bs[id]) in CachedBlobs(bs) {
        TotalRemove(CachedBlobs(bs), OfBlob(id, bs[id]));
      } else {
        assert CachedBlobs(bs - {id}) == CachedBlobs(bs);
      }
    }
  }

  lemma CacheBytesIsUse(m: Manifest)
    ensures CacheBytes(m) == CacheUse(m)
  {
    ValueBytesIs(m.values);
    BlobBytesIs(m.blobs);
    assert Candidates(m) == CachedValues(m.values) + CachedBlobs(m.blobs);
    TotalUnion(CachedValues(m.values), CachedBlobs(m.blobs));
  }

  /** Entries of `m` are entries of `n`. */
  ghost predicate Within(m: Manifest, n: Manifest) {
    && (forall k :: k in m.values ==> k in n.values && m.values[k] == n.values[k])
    && (forall id :: id in m.blobs ==> id in n.blobs && m.blobs[id] == n.blobs[id])
  }

  /** Only cache entries of `m` are missing in `w`. */
  ghost predicate LosesOnlyCache(m: Manifest, w: Manifest) {
    && (forall k :: k in m.values && m.values[k].retention != Cache ==> k in w.values)
    && (forall id :: id in m.blobs && !(m.blobs[id].complete && m.blobs[id].retention == Cache) ==> id in w.blobs)
  }

  /** Some cache entry of `m` was last accessed at `t` and is missing in `w`. */
  ghost predicate LostAt(m: Manifest, w: Manifest, t: U64) {
    || (exists k :: k in m.values && k !in w.values && m.values[k].lastAccessedAt == t)
    || (exists id :: id in m.blobs && id !in w.blobs && m.blobs[id].lastAccessedAt == t)
  }

  /** Every cache entry of `w` was last accessed at `t` or later. */
  ghost predicate KeepsFrom(w: Manifest, t: U64) {
    && (forall k :: k in w.values && w.values[k].retention == Cache ==> t <= w.values[k].lastAccessedAt)
    && (forall id :: id in w.blobs && w.blobs[id].complete && w.blobs[id].retention == Cache ==>
          t <= w.blobs[id].lastAccessedAt)
  }

  /** `u` is `w` with one entry of `m` put back. */
  ghost predicate OneBack(m: Manifest, w: Manifest, u: Manifest) {
    || (exists k :: k in m.values && k !in w.values && u == w.(values := w.values[k := m.values[k]]))
    || (exists id :: id in m.blobs && id !in w.blobs && u == w.(blobs := w.blobs[id := m.blobs[id]]))
  }

  /** Pruning `m` to `limit` gives `w`: only cache entries go, the least recently
      accessed first, and no more of them than it takes. */
  ghost predicate PrunedTo(m: Manifest, w: Manifest, limit: nat) {
    && Within(w, m) && LosesOnlyCache(m, w) && CacheUse(w) <= limit
    && (forall t :: LostAt(m, w, t) ==> KeepsFrom(w, t))
    && (w != m ==> exists u :: OneBack(m, w, u) && CacheUse(u) > limit)
  }

  lemma LostIsEvicted(m: Manifest, w: Manifest, evicted: seq<Candidate>, limit: nat, t: U64)
    requires LruPrune(m, w, evicted, limit) && LostAt(m, w, t)
    ensures exists e :: e in evicted && e.at == t
  {
    if k :| k in m.values && k !in w.values && m.values[k].lastAccessedAt == t {
      assert OfValue(k, m.values[k]) in Elements(evicted);
      assert OfValue(k, m.values[k]) in evicted;
    } else {
      var id :| id in m.blobs && id !in w.blobs && m.blobs[id].lastAccessedAt == t;
      assert OfBlob(id, m.blobs[id]) in Elements(evicted);
      assert OfBlob(id, m.blobs[id]) in evicted;
    }
  }

  lemma KeptLater(m: Manifest, w: Manifest, evicted: seq<Candidate>, limit: nat, t: U64)
    requires LruPrune(m, w, evicted, limit) && LostAt(m, w, t)
    ensures KeepsFrom(w, t)
  {
    LostIsEvicted(m, w, evicted, limit, t);
    var e :| e in evicted && e.at == t;
    forall k | k in w.values && w.values[k].retention == Cache ensures t <= w.values[k].lastAccessedAt {
      assert OfValue(k, w.values[k]) in Candidates(w);
    }
    forall id | id in w.blobs && w.blobs[id].complete && w.blobs[id].retention == Cache
      ensures t <= w.blobs[id].lastAccessedAt
    {
      assert OfBlob(id, w.blobs[id]) in Candidates(w);
    }
  }

  lemma PutBack(m: Manifest, before: set<Candidate>, c: Candidate)
    requires c in Candidates(m) && c !in before
    ensures OneBack(m, Without(m, before + {c}), Without(m, before))
  {
    var u, w := Without(m, before), Without(m, before + {c});
    WithoutOneMore(m, before, c);
    match c
    case CachedValue(k, _, _, _) =>
      assert w == Evict(u, c) && u.values[k] == m.values[k];
      assert u.values == w.values[k := m.values[k]] && u == w.(values := u.values);
    case CachedBlob(id, _, _) =>
      assert w == Evict(u, c) && u.blobs[id] == m.blobs[id];
      assert u.blobs == w.blobs[id := m.blobs[id]] && u == w.(blobs := u.blobs);
  }

  /** Without the last eviction the cache would be over its limit. */
  lemma LastWasNeeded(m: Manifest, w: Manifest, evicted: seq<Candidate>, limit: nat) returns (u: Manifest)
    requires LruPrune(m, w, evicted, limit) && evicted != []
    ensures OneBack(m, w, u) && CacheUse(u) > limit
  {
    var last := |evicted| - 1;
    var c, before := evicted[last], Elements(evicted[..last]);
    u := Without(m, before);
    SplitLast(evicted);
    PutBack(m, before, c);
    CacheBytesIsUse(u);
  }

  lemma SplitLast(evicted: seq<Candidate>)
    requires evicted != [] && ByAccess(evicted)
    ensures var last := |evicted| - 1;
            && evicted[last] in Elements(evicted) && evicted[last] !in Elements(evicted[..last])
            && Elements(evicted) == Elements(evicted[..last]) + {evicted[last]}
  {
    var last := |evicted| - 1;
    assert evicted == evicted[..last] + [evicted[last]];
  }

  /** The loop's result is the pruning promised. */
  lemma LruIsPruned(m: Manifest, w: Manifest, evicted: seq<Candidate>, limit: nat)
    requires LruPrune(m, w, evicted, limit)
    ensures PrunedTo(m, w, limit)
  {
    OthersStay(m, Elements(evicted));
    CacheBytesIsUse(w);
    forall t | LostAt(m, w, t) ensures KeepsFrom(w, t) {
      KeptLater(m, w, evicted, limit, t);
    }
    if w != m {
      assert evicted == [] ==> w == Without(m, {}) == m;
      var u := LastWasNeeded(m, w, evicted, limit);
    }
  }
}
