/** The vault's operations as the code orders their disk writes
    (private_app_storage.rs).  `history` records the disk after every single
    write or deletion, so its entries are the states a crash can leave. */
module PrivateVault {
  import opened Basics
  import opened Encoding
  import opened StorageSpec
  import opened CachePruning
  import opened Sorting

  /** A disk and, as history, the appends behind each blob of its manifest. */
  datatype Snapshot = Snapshot(disk: Disk, contents: map<BlobId, seq<Bytes>>)

  /** A blob that is still there still starts with what it held. */
  ghost predicate Grows(a: Snapshot, b: Snapshot) {
    forall id :: id in a.contents && id in b.contents ==> a.contents[id] <= b.contents[id]
  }

  /** Every recorded state is consistent, and blobs only grow from one to the next. */
  ghost predicate CrashSafe(history: seq<Snapshot>, nameOf: string -> string)
    decreases |history|
  {
    history != [] ==>
      var now, before := history[|history| - 1], history[..|history| - 1];
      && Consistent(now.disk, now.contents, nameOf)
      && (before != [] ==> Grows(before[|before| - 1], now))
      && CrashSafe(before, nameOf)
  }

  lemma {:induction false} EveryCrashState(history: seq<Snapshot>, nameOf: string -> string, i: nat)
    requires CrashSafe(history, nameOf) && i < |history|
    ensures Consistent(history[i].disk, history[i].contents, nameOf)
    ensures i > 0 ==> Grows(history[i - 1], history[i])
    decreases |history|
  {
    if i < |history| - 1 {
      EveryCrashState(history[..|history| - 1], nameOf, i);
    }
  }

  function Restrict(contents: map<BlobId, seq<Bytes>>, m: Manifest): map<BlobId, seq<Bytes>> {
    map id | id in contents && id in m.blobs :: contents[id]
  }

  lemma WithinConsistent(d: Disk, contents: map<BlobId, seq<Bytes>>, nameOf: string -> string, m: Manifest)
    requires Consistent(d, contents, nameOf) && Within(m, d.manifest)
    ensures Consistent(d.(manifest := m), Restrict(contents, m), nameOf)
    ensures Grows(Snapshot(d, contents), Snapshot(d.(manifest := m), Restrict(contents, m)))
  {
    assert Restrict(contents, m).Keys == m.blobs.Keys;
  }

  /** Files past the end of every listed blob may come and go. */
  lemma ChunkFilesConsistent(d: Disk, contents: map<BlobId, seq<Bytes>>, nameOf: string -> string,
      files: map<ChunkPath, SealedChunk>)
    requires Consistent(d, contents, nameOf)
    requires forall p: ChunkPath :: p.blobId in contents && p.index < |contents[p.blobId]| && p in d.chunkFiles ==>
               p in files && files[p] == d.chunkFiles[p]
    ensures Consistent(d.(chunkFiles := files), contents, nameOf)
  {
    forall id | id in d.manifest.blobs ensures Stored(d.manifest.blobs[id], files, id, contents[id]) {
      assert Stored(d.manifest.blobs[id], d.chunkFiles, id, contents[id]);
    }
  }

  /** The manifest entry after one append. */
  lemma AppendStored(b: Blob, files: map<ChunkPath, SealedChunk>, id: BlobId, pieces: seq<Bytes>, data: Bytes, c: Blob)
    requires Stored(b, files, id, pieces)
    requires 0 < |data| <= MAX_APPEND_BYTES && b.totalBytes + |data| <= MAX_BLOB_BYTES && |pieces| <= U32_MAX
    requires ChunkPath(id, |pieces|) in files && files[ChunkPath(id, |pieces|)] == SealedChunk(id, |pieces|, data)
    requires c.chunks == b.chunks + [Chunk(|pieces|, |data|)] && c.totalBytes == b.totalBytes + |data|
    ensures Stored(c, files, id, pieces + [data])
  {
    JoinAppend(pieces, data);
    forall i | 0 <= i < |pieces| ensures c.chunks[i] == b.chunks[i] {}
  }

  function DirFiles(files: map<ChunkPath, SealedChunk>, id: BlobId): set<ChunkPath> {
    set p | p in files && p.blobId == id
  }

  function LiveNames(m: Manifest): set<string> {
    set k | k in m.values :: m.values[k].opaqueId
  }

  lemma LiveNamesAreFiles(d: Disk, contents: map<BlobId, seq<Bytes>>, nameOf: string -> string)
    requires Consistent(d, contents, nameOf)
    ensures LiveNames(d.manifest) <= d.valueFiles.Keys
    ensures forall name :: name in LiveNames(d.manifest) <==> exists k :: k in d.manifest.values && nameOf(k) == name
  {
    forall k | k in d.manifest.values ensures nameOf(k) in LiveNames(d.manifest) {
      assert d.manifest.values[k].opaqueId == nameOf(k);
    }
  }

  /** Chunk files of blobs the manifest does not name. */
  function Orphans(files: map<ChunkPath, SealedChunk>, m: Manifest): set<ChunkPath> {
    set p | p in files && p.blobId !in m.blobs
  }

  /** Files were only deleted. */
  ghost predicate Fewer<K, V>(now: map<K, V>, was: map<K, V>) {
    forall k :: k in now ==> k in was && now[k] == was[k]
  }

  /** Files were only deleted, and none of a value that `m` names. */
  ghost predicate ValuesKept(was: map<string, SealedValue>, now: map<string, SealedValue>, m: Manifest,
                             nameOf: string -> string) {
    Fewer(now, was) && forall k :: k in m.values ==> nameOf(k) in now
  }

  /** Files were only deleted, and none of a blob that `m` names. */
  ghost predicate ChunksKept(was: map<ChunkPath, SealedChunk>, now: map<ChunkPath, SealedChunk>, m: Manifest) {
    Fewer(now, was) && forall p: ChunkPath :: p.blobId in m.blobs && p in was ==> p in now
  }

  lemma KeptTwice(v0: map<string, SealedValue>, v1: map<string, SealedValue>, v2: map<string, SealedValue>,
                  c0: map<ChunkPath, SealedChunk>, c1: map<ChunkPath, SealedChunk>, c2: map<ChunkPath, SealedChunk>,
                  m: Manifest, w: Manifest, nameOf: string -> string)
    requires ValuesKept(v0, v1, m, nameOf) && ChunksKept(c0, c1, m)
    requires ValuesKept(v1, v2, w, nameOf) && ChunksKept(c1, c2, w) && Within(w, m)
    ensures ValuesKept(v0, v2, w, nameOf) && ChunksKept(c0, c2, w)
  {
  }

  lemma WithinTrans(a: Manifest, b: Manifest, c: Manifest)
    requires Within(a, b) && Within(b, c)
    ensures Within(a, c)
  {
  }

  lemma RestrictSelf(contents: map<BlobId, seq<Bytes>>, m: Manifest)
    requires contents.Keys == m.blobs.Keys
    ensures Restrict(contents, m) == contents
  {
  }

  lemma RestrictTwice(contents: map<BlobId, seq<Bytes>>, a: Manifest, b: Manifest)
    requires Within(a, b)
    ensures Restrict(Restrict(contents, b), a) == Restrict(contents, a)
  {
  }

  /** Pruning only drops entries, and what it dropped no longer names a file. */
  lemma EvictedGone(nameOf: string -> string, m: Manifest, w: Manifest, evicted: seq<Candidate>, limit: nat)
    requires LruPrune(m, w, evicted, limit)
    requires forall a, b :: nameOf(a) == nameOf(b) ==> a == b
    requires forall k :: k in m.values ==> m.values[k].opaqueId == nameOf(k)
    ensures Within(w, m)
    ensures forall c :: c in evicted && c.CachedValue? ==> forall k :: k in w.values ==> nameOf(k) != c.opaqueId
    ensures forall c :: c in evicted && c.CachedBlob? ==> c.id !in w.blobs
  {
    forall c | c in evicted && c.CachedValue? ensures forall k :: k in w.values ==> nameOf(k) != c.opaqueId {
      assert c in Elements(evicted) && c in Candidates(m);
      assert c.key in m.values && c == OfValue(c.key, m.values[c.key]);
    }
    forall c | c in evicted && c.CachedBlob? ensures c.id !in w.blobs {
      assert c in Elements(evicted) && c in Candidates(m);
      assert c.id in m.blobs && c == OfBlob(c.id, m.blobs[c.id]);
    }
  }

  /** The manifest half of `prune_cache_locked`. */
  method PruneManifest(nameOf: string -> string, m: Manifest, limit: nat) returns (w: Manifest, evicted: seq<Candidate>)
    requires forall a, b :: nameOf(a) == nameOf(b) ==> a == b
    requires forall k :: k in m.values ==> m.values[k].opaqueId == nameOf(k)
    ensures PrunedTo(m, w, limit) && (evicted == [] ==> w == m)
    ensures Within(w, m)
    ensures forall c :: c in evicted && c.CachedValue? ==> forall k :: k in w.values ==> nameOf(k) != c.opaqueId
    ensures forall c :: c in evicted && c.CachedBlob? ==> c.id !in w.blobs
  {
    w, evicted := Prune(m, limit);
    LruIsPruned(m, w, evicted, limit);
    EvictedGone(nameOf, m, w, evicted, limit);
  }

  /** Entries a clean shutdown keeps. */
  function Kept(m: Manifest): Manifest {
    Manifest(map k | k in m.values && m.values[k].retention != DeleteOnShutdown :: m.values[k],
             map id | id in m.blobs && m.blobs[id].retention != DeleteOnShutdown :: m.blobs[id])
  }

  /** Entries a maintenance sweep keeps. */
  function Swept(m: Manifest, now: U64): Manifest {
    Manifest(
      map k | k in m.values && !IsExpired(m.values[k].expiresAt, now) :: m.values[k],
      map id | id in m.blobs && !IsExpired(m.blobs[id].expiresAt, now)
               && (m.blobs[id].complete || SatSub(now, m.blobs[id].updatedAt) < INCOMPLETE_MAX_AGE) :: m.blobs[id])
  }

  /** What a sweep may drop for its age: an expired entry, or an unfinished upload
      nobody has touched for a day. */
  predicate Outlived(b: Blob, now: U64) {
    IsExpired(b.expiresAt, now) || (!b.complete && b.updatedAt + 86_400 <= now)
  }

  predicate Evictable(b: Blob) {
    b.complete && b.retention == Cache
  }

  /** What a maintenance sweep at `now` leaves of `m`, whatever the cache loses:
      nothing outlived, and everything else that is no finished cache entry. */
  ghost predicate SweptTo(m: Manifest, w: Manifest, now: U64) {
    && Within(w, m)
    && (forall k :: k in w.values ==> !IsExpired(m.values[k].expiresAt, now))
    && (forall id :: id in w.blobs ==> !Outlived(m.blobs[id], now))
    && (forall k :: k in m.values && m.values[k].retention != Cache && !IsExpired(m.values[k].expiresAt, now) ==>
          k in w.values)
    && (forall id :: id in m.blobs && !Evictable(m.blobs[id]) && !Outlived(m.blobs[id], now) ==> id in w.blobs)
  }

  lemma SweepIsSwept(m: Manifest, w: Manifest, now: U64, limit: nat)
    requires PrunedTo(Swept(m, now), w, limit)
    ensures SweptTo(m, w, now)
  {
  }

  lemma KeptWithin(m: Manifest)
    ensures Within(Kept(m), m) && |Kept(m).values| <= |m.values| && |Kept(m).blobs| <= |m.blobs|
  {
    SubmapSize(Kept(m).values, m.values);
    SubmapSize(Kept(m).blobs, m.blobs);
  }

  /** A new blob starts empty. */
  lemma BeginConsistent(d: Disk, contents: map<BlobId, seq<Bytes>>, nameOf: string -> string, id: BlobId, b: Blob)
    requires Consistent(d, contents, nameOf) && id !in d.manifest.blobs && b.totalBytes == 0 && b.chunks == []
    ensures Consistent(d.(manifest := d.manifest.(blobs := d.manifest.blobs[id := b])), contents[id := []], nameOf)
  {
    var n := d.manifest.(blobs := d.manifest.blobs[id := b]);
    forall x | x in n.blobs ensures Stored(n.blobs[x], d.chunkFiles, x, contents[id := []][x]) {
      if x != id { assert Stored(d.manifest.blobs[x], d.chunkFiles, x, contents[x]); }
    }
  }

  /** One blob grew to `pieces`. */
  lemma CommitConsistent(d: Disk, contents: map<BlobId, seq<Bytes>>, nameOf: string -> string, id: BlobId, b: Blob,
      pieces: seq<Bytes>)
    requires Consistent(d, contents, nameOf) && id in d.manifest.blobs && Stored(b, d.chunkFiles, id, pieces)
    ensures Consistent(d.(manifest := d.manifest.(blobs := d.manifest.blobs[id := b])), contents[id := pieces], nameOf)
  {
    var n := d.manifest.(blobs := d.manifest.blobs[id := b]);
    forall x | x in n.blobs ensures Stored(n.blobs[x], d.chunkFiles, x, contents[id := pieces][x]) {
      if x != id { assert Stored(d.manifest.blobs[x], d.chunkFiles, x, contents[x]); }
    }
  }

  /** A listed value whose file holds `bytes` reads back until it expires. */
  lemma KeptValueReads(d: Disk, nameOf: string -> string, key: string, bytes: Bytes)
    requires key in d.manifest.values && nameOf(key) in d.valueFiles
    requires d.manifest.values[key].opaqueId == nameOf(key) && d.manifest.values[key].bytes == |bytes|
    requires d.valueFiles[nameOf(key)] == SealedValue(key, bytes)
    ensures forall later: U64 :: GetOutcome(d, nameOf, key, later) ==
              Ok(if IsExpired(d.manifest.values[key].expiresAt, later) then None else Some(bytes))
  {
  }

  lemma AccessedConsistent(d: Disk, contents: map<BlobId, seq<Bytes>>, nameOf: string -> string, key: string, now: U64)
    requires Consistent(d, contents, nameOf) && key in d.manifest.values
    ensures var v := d.manifest.values[key].(lastAccessedAt := now);
            Consistent(d.(manifest := d.manifest.(values := d.manifest.values[key := v])), contents, nameOf)
  {
    forall id | id in d.manifest.blobs ensures Stored(d.manifest.blobs[id], d.chunkFiles, id, contents[id]) {}
  }

  /** The whole-blob case of a range read. */
  lemma RangeOfStored(b: Blob, files: map<ChunkPath, SealedChunk>, id: BlobId, pieces: seq<Bytes>, offset: nat,
      end: nat)
    requires Stored(b, files, id, pieces) && offset < end <= b.totalBytes
    ensures b.totalBytes == |Join(pieces)|
    ensures RangeFrom(b.chunks, files, id, 0, 0, offset, end) == Ok(Join(pieces)[offset..end])
  {
    assert pieces[..0] == [];
    RangeRefines(b, files, id, pieces, 0, offset, end);
  }

  class Vault {
    const nameOf: string -> string  // keyed hash of a value key
    const cacheLimit: nat
    var manifest: Manifest
    var chunkFiles: map<ChunkPath, SealedChunk>
    var valueFiles: map<string, SealedValue>
    ghost var contents: map<BlobId, seq<Bytes>>
    ghost var history: seq<Snapshot>

    ghost function Now(): Snapshot
      reads this
    {
      Snapshot(Disk(manifest, chunkFiles, valueFiles), contents)
    }

    ghost predicate Valid()
      reads this
    {
      && (forall a, b :: nameOf(a) == nameOf(b) ==> a == b)
      && CrashSafe(history, nameOf)
      && history != [] && history[|history| - 1] == Now()
    }

    /** Open a vault on whatever disk a crash left. */
    constructor (nameOf: string -> string, cacheLimit: nat, ghost found: Snapshot, disk: Disk)
      requires forall a, b :: nameOf(a) == nameOf(b) ==> a == b
      requires found.disk == disk && Consistent(disk, found.contents, nameOf)
      ensures Valid() && Now() == found && history == [found]
      ensures this.nameOf == nameOf && this.cacheLimit == cacheLimit
    {
      this.nameOf, this.cacheLimit := nameOf, cacheLimit;
      manifest, chunkFiles, valueFiles := disk.manifest, disk.chunkFiles, disk.valueFiles;
      contents := found.contents;
      history := [found];
    }

    // ---- single disk steps ----

    ghost method Record()
      requires (forall a, b :: nameOf(a) == nameOf(b) ==> a == b) && CrashSafe(history, nameOf) && history != []
      requires Consistent(Now().disk, contents, nameOf) && Grows(history[|history| - 1], Now())
      modifies this`history
      ensures Valid() && history == old(history) + [Now()]
    {
      assert (history + [Now()])[..|history|] == history;
      history := history + [Now()];
    }

    method SaveManifest(m: Manifest, ghost c: map<BlobId, seq<Bytes>>)
      requires Valid() && Consistent(Disk(m, chunkFiles, valueFiles), c, nameOf)
      requires Grows(Now(), Snapshot(Disk(m, chunkFiles, valueFiles), c))
      modifies this`manifest, this`contents, this`history
      ensures Valid() && manifest == m && contents == c && old(history) <= history
    {
      manifest := m;
      contents := c;
      Record();
    }

    /** Save a manifest with fewer entries. */
    method SaveWithin(m: Manifest)
      requires Valid() && Within(m, manifest)
      modifies this`manifest, this`contents, this`history
      ensures Valid() && manifest == m && contents == Restrict(old(contents), m) && old(history) <= history
    {
      WithinConsistent(Now().disk, contents, nameOf, m);
      SaveManifest(m, Restrict(contents, m));
    }

    /** Never over a listed chunk. */
    method WriteChunk(path: ChunkPath, file: SealedChunk)
      requires Valid() && (path.blobId in contents ==> path.index >= |contents[path.blobId]|)
      modifies this`chunkFiles, this`history
      ensures Valid() && chunkFiles == old(chunkFiles)[path := file] && old(history) <= history
    {
      ChunkFilesConsistent(Now().disk, contents, nameOf, chunkFiles[path := file]);
      chunkFiles := chunkFiles[path := file];
      Record();
    }

    /** Only files of blobs the manifest does not name. */
    method RemoveChunk(path: ChunkPath)
      requires Valid() && path.blobId !in manifest.blobs
      modifies this`chunkFiles, this`history
      ensures Valid() && chunkFiles == old(chunkFiles) - {path} && old(history) <= history
    {
      ChunkFilesConsistent(Now().disk, contents, nameOf, chunkFiles - {path});
      chunkFiles := chunkFiles - {path};
      Record();
    }

    method WriteValueFile(key: string, bytes: Bytes)
      requires Valid()
      modifies this`valueFiles, this`history
      ensures Valid() && valueFiles == old(valueFiles)[nameOf(key) := SealedValue(key, bytes)]
          && old(history) <= history
    {
      valueFiles := valueFiles[nameOf(key) := SealedValue(key, bytes)];
      Record();
    }

    /** Only files no value of the manifest lives in. */
    method RemoveValueFile(name: string)
      requires Valid() && forall k :: k in manifest.values ==> nameOf(k) != name
      modifies this`valueFiles, this`history
      ensures Valid() && valueFiles == old(valueFiles) - {name} && old(history) <= history
    {
      valueFiles := valueFiles - {name};
      Record();
    }

    // ---- blobs ----

    /** `begin_blob`; `id` is the fresh random id. */
    method BeginBlob(id: BlobId, contentType: string, retention: Retention, ttl: Option<U64>, now: U64)
        returns (r: Result<Blob>)
      requires Valid() && id !in manifest.blobs
      modifies this
      ensures Valid() && old(history) <= history
      ensures r.Ok? <==> ValidContentType(contentType) && ExpiryFor(retention, ttl, now).Ok?
      ensures r.Ok? ==> r.value == Blob(Trimmed(contentType), 0, [], false, retention,
                                        ExpiryFor(retention, ttl, now).value, now, now, now)
      ensures chunkFiles == old(chunkFiles) && valueFiles == old(valueFiles)
      ensures r.Ok? ==> contents == old(contents)[id := []]
                        && manifest == old(manifest).(blobs := old(manifest).blobs[id := r.value])
      ensures r.Err? ==> Now() == old(Now())
    {
      if !ValidContentType(contentType) {
        return Err(InvalidContentType);
      }
      var expires := ExpiryFor(retention, ttl, now);
      if expires.Err? {
        return Err(expires.error);
      }
      var entry := Blob(Trimmed(contentType), 0, [], false, retention, expires.value, now, now, now);
      BeginConsistent(Now().disk, contents, nameOf, id, entry);
      SaveManifest(manifest.(blobs := manifest.blobs[id := entry]), contents[id := []]);
      r := Ok(entry);
    }

    /** What `append_blob` requires of the stored blob. */
    predicate AppendAllowed(id: BlobId, size: nat, now: U64)
      reads this
    {
      && ValidBlobId(id) && 0 < size <= MAX_APPEND_BYTES
      && id in manifest.blobs && !manifest.blobs[id].complete && !IsExpired(manifest.blobs[id].expiresAt, now)
      && manifest.blobs[id].totalBytes + size <= MAX_BLOB_BYTES
      && |manifest.blobs[id].chunks| <= U32_MAX
    }

    /** `append_blob`: the chunk file first, the manifest second.  A crash in
        between leaves a file past the end of the blob, which the next append
        overwrites and no read ever opens. */
    method AppendBlob(id: BlobId, data: Bytes, now: U64) returns (r: Result<Blob>)
      requires Valid()
      modifies this
      ensures Valid() && old(history) <= history
      ensures r.Ok? <==> old(AppendAllowed(id, |data|, now))
      ensures r.Ok? ==>
                && contents == old(contents)[id := old(contents)[id] + [data]]
                && manifest == old(manifest).(blobs := old(manifest).blobs[id := r.value])
                && r.value == old(manifest).blobs[id].(
                     totalBytes := old(manifest).blobs[id].totalBytes + |data|, chunks := r.value.chunks,
                     updatedAt := now, lastAccessedAt := now)
                && (var index := |old(contents)[id]|;
                    chunkFiles == old(chunkFiles)[ChunkPath(id, index) := SealedChunk(id, index, data)])
      ensures valueFiles == old(valueFiles)
      ensures r.Err? ==> Now() == old(Now())
    {
      if !ValidBlobId(id) {
        return Err(InvalidBlobId);
      }
      if data == [] || |data| > MAX_APPEND_BYTES {
        return Err(AppendTooLarge(|data|));
      }
      if id !in manifest.blobs {
        return Err(BlobNotFound);
      }
      var entry := manifest.blobs[id];
      if entry.complete {
        return Err(BlobAlreadyComplete);
      }
      if IsExpired(entry.expiresAt, now) {
        return Err(BlobNotFound);
      }
      var newTotal := SatAdd(entry.totalBytes, |data|);
      assert Stored(entry, chunkFiles, id, contents[id]);
      if newTotal > MAX_BLOB_BYTES {
        return Err(BlobTooLarge(newTotal));
      }
      if |entry.chunks| > U32_MAX {
        return Err(BlobTooLarge(newTotal));
      }
      var index := |entry.chunks|;
      WriteChunk(ChunkPath(id, index), SealedChunk(id, index, data));
      assert Stored(entry, chunkFiles, id, contents[id]);
      var grown := entry.(chunks := entry.chunks + [Chunk(index, |data|)], totalBytes := newTotal, updatedAt := now,
          lastAccessedAt := now);
      AppendStored(entry, chunkFiles, id, contents[id], data, grown);
      CommitBlob(id, grown, contents[id] + [data]);
      r := Ok(grown);
    }

    /** Save the manifest with one changed blob entry. */
    method CommitBlob(id: BlobId, b: Blob, ghost pieces: seq<Bytes>)
      requires Valid() && id in manifest.blobs
      requires Stored(b, chunkFiles, id, pieces) && contents[id] <= pieces
      modifies this`manifest, this`contents, this`history
      ensures Valid() && old(history) <= history
      ensures manifest == old(manifest).(blobs := old(manifest).blobs[id := b])
          && contents == old(contents)[id := pieces]
    {
      CommitConsistent(Now().disk, contents, nameOf, id, b, pieces);
      SaveManifest(manifest.(blobs := manifest.blobs[id := b]), contents[id := pieces]);
    }

    /** `finish_blob`: complete, then prune the cache. */
    method FinishBlob(id: BlobId, now: U64) returns (r: Result<Blob>)
      requires Valid()
      modifies this
      ensures Valid() && old(history) <= history
      ensures r.Ok? <==>
          ValidBlobId(id) && id in old(manifest).blobs && !IsExpired(old(manifest).blobs[id].expiresAt, now)
      ensures r.Ok? ==>
                && r.value == old(manifest).blobs[id].(complete := true, updatedAt := now, lastAccessedAt := now)
                && PrunedTo(old(manifest).(blobs := old(manifest).blobs[id := r.value]), manifest, cacheLimit)
                && contents == Restrict(old(contents), manifest)
      ensures ValuesKept(old(valueFiles), valueFiles, manifest, nameOf)
      ensures ChunksKept(old(chunkFiles), chunkFiles, manifest)
      ensures r.Err? ==> Now() == old(Now())
    {
      if !ValidBlobId(id) {
        return Err(InvalidBlobId);
      }
      if id !in manifest.blobs {
        return Err(BlobNotFound);
      }
      var entry := manifest.blobs[id];
      if IsExpired(entry.expiresAt, now) {
        return Err(BlobNotFound);
      }
      var done := entry.(complete := true, updatedAt := now, lastAccessedAt := now);
      assert Stored(entry, chunkFiles, id, contents[id]);
      CommitBlob(id, done, contents[id]);
      assert contents == old(contents);
      var pruned := PruneCacheLocked(manifest);
      r := Ok(done);
    }

    /** `abort_blob` and `delete_blob`: out of the manifest first, then at most
        128 of its files. */
    method AbortBlob(id: BlobId) returns (r: Result<bool>)
      requires Valid()
      modifies this
      ensures Valid() && old(history) <= history
      ensures r == if !ValidBlobId(id) then Err(InvalidBlobId) else Ok(id in old(manifest).blobs)
      ensures r == Ok(true) ==>
                && manifest == old(manifest).(blobs := old(manifest).blobs - {id})
                && contents == old(contents) - {id}
                && |DirFiles(chunkFiles, id)| == SatSub(|DirFiles(old(chunkFiles), id)|, DELETE_BUDGET)
                && Fewer(chunkFiles, old(chunkFiles))
                && (forall p: ChunkPath :: p.blobId != id && p in old(chunkFiles) ==> p in chunkFiles)
      ensures valueFiles == old(valueFiles)
      ensures r != Ok(true) ==> Now() == old(Now())
    {
      if !ValidBlobId(id) {
        return Err(InvalidBlobId);
      }
      if id !in manifest.blobs {
        return Ok(false);
      }
      var m := manifest.(blobs := manifest.blobs - {id});
      SaveWithin(m);
      assert contents == old(contents) - {id};
      var left, removed := RemoveBlobDirBounded(id, DELETE_BUDGET);
      r := Ok(true);
    }

    /** `read_blob_range`.  Every request gets the answer the plain byte string
        would give: the exact slice, or the error its guard names; the corrupt
        branches are never taken. */
    method ReadBlobRange(id: BlobId, offset: U64, length: U64, now: U64) returns (r: Result<Bytes>)
      requires Valid()
      modifies this
      ensures Valid() && old(history) <= history && contents == old(contents)
      ensures chunkFiles == old(chunkFiles) && valueFiles == old(valueFiles)
      ensures r == if !ValidBlobId(id) then Err(InvalidBlobId)
                   else if length > MAX_READ_BYTES then Err(RangeTooLarge(length))
                   else if id !in old(manifest).blobs then Err(BlobNotFound)
                   else if !old(manifest).blobs[id].complete then Err(BlobIncomplete)
                   else if IsExpired(old(manifest).blobs[id].expiresAt, now) then Err(BlobNotFound)
                   else if offset + length > |Join(contents[id])| then Err(InvalidRange)
                   else Ok(Join(contents[id])[offset..offset + length])
      ensures manifest == if id in old(manifest).blobs && r.Ok?
                              && SatSub(now, old(manifest).blobs[id].lastAccessedAt) >= 60
                          then old(manifest).(blobs := old(manifest).blobs[id :=
                                 old(manifest).blobs[id].(lastAccessedAt := now)])
                          else old(manifest)
    {
      if !ValidBlobId(id) {
        return Err(InvalidBlobId);
      }
      if length > MAX_READ_BYTES {
        return Err(RangeTooLarge(length));
      }
      if id !in manifest.blobs {
        return Err(BlobNotFound);
      }
      var entry := manifest.blobs[id];
      if !entry.complete {
        return Err(BlobIncomplete);
      }
      if IsExpired(entry.expiresAt, now) {
        return Err(BlobNotFound);
      }
      r := RangeOf(entry, id, offset, length);
      if r.Ok? && SatSub(now, entry.lastAccessedAt) >= 60 {
        assert Stored(entry, chunkFiles, id, contents[id]);
        CommitBlob(id, entry.(lastAccessedAt := now), contents[id]);
        assert contents == old(contents);
      }
    }

    /** The bounds checks and the loop, without the access-time update. */
    method RangeOf(entry: Blob, id: BlobId, offset: U64, length: U64) returns (r: Result<Bytes>)
      requires Valid() && id in manifest.blobs && manifest.blobs[id] == entry && length <= MAX_READ_BYTES
      ensures r == if offset + length > |Join(contents[id])| then Err(InvalidRange)
                   else Ok(Join(contents[id])[offset..offset + length])
    {
      ghost var pieces := contents[id];
      assert Stored(entry, chunkFiles, id, pieces);
      if offset > entry.totalBytes {
        return Err(InvalidRange);
      }
      if offset + length > U64_MAX {  // `checked_add`
        return Err(InvalidRange);
      }
      var end := offset + length;
      if end > entry.totalBytes {
        return Err(InvalidRange);
      }
      var out: Bytes := [];
      if length > 0 {
        RangeOfStored(entry, chunkFiles, id, pieces, offset, end);
        var collected := CollectRange(entry.chunks, chunkFiles, id, offset, end);
        if collected.Err? {
          return collected;
        }
        out := collected.value;
      }
      if |out| != length {
        return Err(Corrupt);
      }
      r := Ok(out);
    }

    // ---- values ----

    /** `put_value`: the file first, the manifest second, then the cache. */
    method PutValue(key: string, bytes: Bytes, retention: Retention, ttl: Option<U64>, now: U64)
        returns (r: Result<Value>)
      requires Valid()
      modifies this
      ensures Valid() && old(history) <= history
      ensures r.Ok? <==> ValidKey(key) && |bytes| <= MAX_VALUE_BYTES && ExpiryFor(retention, ttl, now).Ok?
      ensures r.Ok? ==>
                && r.value == Value(nameOf(key), |bytes|, retention, ExpiryFor(retention, ttl, now).value,
                                    if key in old(manifest).values then old(manifest).values[key].createdAt else now,
                                    now, now)
                && PrunedTo(old(manifest).(values := old(manifest).values[key := r.value]), manifest, cacheLimit)
                && (key in manifest.values ==> forall later: U64 ::
                      GetOutcome(Now().disk, nameOf, key, later) ==
                      Ok(if IsExpired(r.value.expiresAt, later) then None else Some(bytes)))
                && ValuesKept(old(valueFiles)[nameOf(key) := SealedValue(key, bytes)], valueFiles, manifest, nameOf)
      ensures ChunksKept(old(chunkFiles), chunkFiles, manifest)
      ensures r.Err? ==> Now() == old(Now())
    {
      if !ValidKey(key) {
        return Err(InvalidKey);
      }
      if |bytes| > MAX_VALUE_BYTES {
        return Err(ValueTooLarge(|bytes|));
      }
      var expires := ExpiryFor(retention, ttl, now);
      if expires.Err? {
        return Err(expires.error);
      }
      var created := if key in manifest.values then manifest.values[key].createdAt else now;
      var entry := Value(nameOf(key), |bytes|, retention, expires.value, created, now, now);
      StoreValue(key, bytes, entry);
      r := Ok(entry);
    }

    /** The writes of `put_value`. */
    method StoreValue(key: string, bytes: Bytes, entry: Value)
      requires Valid() && entry.opaqueId == nameOf(key) && entry.bytes == |bytes|
      modifies this
      ensures Valid() && old(history) <= history
      ensures PrunedTo(old(manifest).(values := old(manifest).values[key := entry]), manifest, cacheLimit)
      ensures key in manifest.values ==> forall later: U64 ::
                GetOutcome(Now().disk, nameOf, key, later) ==
                Ok(if IsExpired(entry.expiresAt, later) then None else Some(bytes))
      ensures ValuesKept(old(valueFiles)[nameOf(key) := SealedValue(key, bytes)], valueFiles, manifest, nameOf)
      ensures ChunksKept(old(chunkFiles), chunkFiles, manifest)
    {
      WriteValueFile(key, bytes);
      SaveManifest(manifest.(values := manifest.values[key := entry]), contents);
      var pruned := PruneCacheLocked(manifest);
      if key in manifest.values {
        KeptValueReads(Now().disk, nameOf, key, bytes);
      }
    }

    /** `get_value`: the stored bytes until they expire; a read moves the access time. */
    method GetValue(key: string, now: U64) returns (r: Result<Option<Bytes>>)
      requires Valid()
      modifies this`manifest, this`contents, this`history
      ensures Valid() && old(history) <= history && contents == old(contents)
      ensures r == if ValidKey(key) then GetOutcome(old(Now()).disk, nameOf, key, now) else Err(InvalidKey)
      ensures manifest == if r.Ok? && r.value.Some? && SatSub(now, old(manifest).values[key].lastAccessedAt) >= 60
                          then old(manifest).(values := old(manifest).values[key :=
                                 old(manifest).values[key].(lastAccessedAt := now)])
                          else old(manifest)
    {
      if !ValidKey(key) {
        return Err(InvalidKey);
      }
      if key !in manifest.values {
        return Ok(None);
      }
      var entry := manifest.values[key];
      if IsExpired(entry.expiresAt, now) {
        return Ok(None);
      }
      if entry.opaqueId !in valueFiles {
        return Err(Corrupt);
      }
      var file := valueFiles[entry.opaqueId];
      if file.key != key {
        return Err(Crypto);
      }
      if |file.plain| != entry.bytes {
        return Err(Corrupt);
      }
      r := Ok(Some(file.plain));
      if SatSub(now, entry.lastAccessedAt) >= 60 {
        AccessedConsistent(Now().disk, contents, nameOf, key, now);
        SaveManifest(manifest.(values := manifest.values[key := entry.(lastAccessedAt := now)]), contents);
      }
    }

    /** `delete_value`: inaccessible before physical deletion. */
    method DeleteValue(key: string) returns (r: Result<bool>)
      requires Valid()
      modifies this
      ensures Valid() && old(history) <= history && contents == old(contents)
      ensures r == if !ValidKey(key) then Err(InvalidKey) else Ok(key in old(manifest).values)
      ensures r == Ok(true) ==>
          manifest == old(manifest).(values := old(manifest).values - {key})
          && valueFiles == old(valueFiles) - {nameOf(key)}
      ensures chunkFiles == old(chunkFiles)
      ensures r != Ok(true) ==> Now() == old(Now())
    {
      if !ValidKey(key) {
        return Err(InvalidKey);
      }
      if key !in manifest.values {
        return Ok(false);
      }
      var m := manifest.(values := manifest.values - {key});
      RestrictSelf(contents, m);
      SaveWithin(m);
      RemoveValueFile(nameOf(key));
      r := Ok(true);
    }

    // ---- cache, shutdown and orphans ----

    /** `prune_cache_locked` on a manifest that is saved, or about to be. */
    method PruneCacheLocked(m: Manifest) returns (w: Manifest)
      requires Valid() && Within(m, manifest)
      modifies this
      ensures Valid() && old(history) <= history
      ensures PrunedTo(m, w, cacheLimit)
      ensures Within(w, m) && Within(w, manifest)
      ensures manifest == old(manifest) || manifest == w
      ensures contents == Restrict(old(contents), manifest)
      ensures m == old(manifest) ==> manifest == w
      ensures ValuesKept(old(valueFiles), valueFiles, manifest, nameOf)
      ensures ChunksKept(old(chunkFiles), chunkFiles, manifest)
    {
      var evicted;
      assert forall k :: k in m.values ==> m.values[k].opaqueId == nameOf(k);
      w, evicted := PruneManifest(nameOf, m, cacheLimit);
      WithinTrans(w, m, manifest);
      if evicted == [] {
        RestrictSelf(contents, manifest);
        return;
      }
      CommitPruned(w, evicted);
    }

    /** Invisible first, deleted second. */
    method CommitPruned(w: Manifest, evicted: seq<Candidate>)
      requires Valid() && Within(w, manifest)
      requires forall c :: c in evicted && c.CachedValue? ==> forall k :: k in w.values ==> nameOf(k) != c.opaqueId
      requires forall c :: c in evicted && c.CachedBlob? ==> c.id !in w.blobs
      modifies this
      ensures Valid() && old(history) <= history && manifest == w && contents == Restrict(old(contents), w)
      ensures ValuesKept(old(valueFiles), valueFiles, w, nameOf)
      ensures ChunksKept(old(chunkFiles), chunkFiles, w)
    {
      SaveWithin(w);
      DropEvicted(w, evicted);
    }

    method DropEvicted(w: Manifest, evicted: seq<Candidate>)
      requires Valid() && manifest == w
      requires forall c :: c in evicted && c.CachedValue? ==> forall k :: k in w.values ==> nameOf(k) != c.opaqueId
      requires forall c :: c in evicted && c.CachedBlob? ==> c.id !in w.blobs
      modifies this`chunkFiles, this`valueFiles, this`history
      ensures Valid() && old(history) <= history
      ensures ValuesKept(old(valueFiles), valueFiles, w, nameOf)
      ensures ChunksKept(old(chunkFiles), chunkFiles, w)
    {
      DropValueFiles(w, evicted);
      DropBlobDirs(w, evicted);
    }

    /** Delete the evicted values' files. */
    method DropValueFiles(w: Manifest, evicted: seq<Candidate>)
      requires Valid() && manifest == w
      requires forall c :: c in evicted && c.CachedValue? ==> forall k :: k in w.values ==> nameOf(k) != c.opaqueId
      modifies this`valueFiles, this`history
      ensures Valid() && old(history) <= history
      ensures ValuesKept(old(valueFiles), valueFiles, manifest, nameOf)
    {
      var i := 0;
      while i < |evicted|
        invariant 0 <= i <= |evicted|
        invariant Valid() && old(history) <= history
        invariant ValuesKept(old(valueFiles), valueFiles, manifest, nameOf)
      {
        if evicted[i].CachedValue? {
          RemoveValueFile(evicted[i].opaqueId);
        }
        i := i + 1;
      }
    }

    /** Delete the evicted blobs' files, within one budget for all of them. */
    method DropBlobDirs(w: Manifest, evicted: seq<Candidate>)
      requires Valid() && manifest == w
      requires forall c :: c in evicted && c.CachedBlob? ==> c.id !in w.blobs
      modifies this`chunkFiles, this`history
      ensures Valid() && old(history) <= history
      ensures ChunksKept(old(chunkFiles), chunkFiles, manifest)
    {
      var budget := DELETE_BUDGET;
      var i := 0;
      while i < |evicted| && budget > 0
        invariant 0 <= i <= |evicted|
        invariant Valid() && old(history) <= history
        invariant ChunksKept(old(chunkFiles), chunkFiles, manifest)
      {
        if evicted[i].CachedBlob? {
          ghost var removed;
          budget, removed := RemoveBlobDirBounded(evicted[i].id, budget);
        }
        i := i + 1;
      }
    }

    /** `remove_blob_dir_bounded`: at most `budget` chunk files of one unnamed blob. */
    method RemoveBlobDirBounded(id: BlobId, budget: nat) returns (left: nat, ghost removed: set<ChunkPath>)
      requires Valid() && id !in manifest.blobs
      modifies this`chunkFiles, this`history
      ensures Valid() && old(history) <= history
      ensures removed <= DirFiles(old(chunkFiles), id)
      ensures chunkFiles == old(chunkFiles) - removed
      ensures left + |removed| == budget
      ensures left == 0 || DirFiles(chunkFiles, id) == {}
      ensures |DirFiles(chunkFiles, id)| == SatSub(|DirFiles(old(chunkFiles), id)|, budget)
    {
      left, removed := budget, {};
      var files := DirFiles(chunkFiles, id);
      while files != {} && left > 0
        invariant Valid() && old(history) <= history
        invariant chunkFiles == old(chunkFiles) - removed
        invariant files == DirFiles(chunkFiles, id)
        invariant removed <= DirFiles(old(chunkFiles), id)
        invariant left + |removed| == budget
        invariant |files| + |removed| == |DirFiles(old(chunkFiles), id)|
        decreases files
      {
        var path :| path in files;
        RemoveChunk(path);
        removed := removed + {path};
        assert DirFiles(chunkFiles, id) == files - {path};
        files := files - {path};
        left := left - 1;
      }
    }

    /** `prepare_shutdown` for this vault: one atomic manifest write, no deletion. */
    method PrepareShutdown() returns (removed: nat)
      requires Valid()
      modifies this
      ensures Valid() && old(history) <= history && chunkFiles == old(chunkFiles) && valueFiles == old(valueFiles)
      ensures Within(manifest, old(manifest))
      ensures forall k :: k in old(manifest).values ==>
                (k in manifest.values <==> old(manifest).values[k].retention != DeleteOnShutdown)
      ensures forall id :: id in old(manifest).blobs ==>
                (id in manifest.blobs <==> old(manifest).blobs[id].retention != DeleteOnShutdown)
      ensures contents == Restrict(old(contents), manifest)
      ensures removed == |old(manifest).values| - |manifest.values| + |old(manifest).blobs| - |manifest.blobs|
    {
      var m := Kept(manifest);
      KeptWithin(manifest);
      removed := |manifest.values| - |m.values| + |manifest.blobs| - |m.blobs|;
      if m != manifest {
        SaveWithin(m);
      } else {
        RestrictSelf(contents, manifest);
      }
    }

    /** `cleanup_all` for this vault. */
    method Cleanup(now: U64)
      requires Valid()
      modifies this
      ensures Valid() && old(history) <= history
      ensures SweptTo(old(manifest), manifest, now)
      ensures PrunedTo(Swept(old(manifest), now), manifest, cacheLimit)
      ensures contents == Restrict(old(contents), manifest)
      ensures forall name :: name in valueFiles <==> exists k :: k in manifest.values && nameOf(k) == name
      ensures ValuesKept(old(valueFiles), valueFiles, manifest, nameOf)
      ensures ChunksKept(old(chunkFiles), chunkFiles, manifest)
    {
      var m := Swept(manifest, now);
      var w := PruneCacheLocked(m);
      SweepIsSwept(old(manifest), w, now, cacheLimit);
      ghost var n, values, chunks := manifest, valueFiles, chunkFiles;
      RestrictTwice(old(contents), w, manifest);
      SaveWithin(w);
      RemoveOrphans();
      KeptTwice(old(valueFiles), values, valueFiles, old(chunkFiles), chunks, chunkFiles, n, w, nameOf);
    }

    /** `remove_orphans`: every unnamed value file, and up to 128 chunk files of
        unnamed blobs; nothing the manifest names. */
    method RemoveOrphans()
      requires Valid()
      modifies this`chunkFiles, this`valueFiles, this`history
      ensures Valid() && old(history) <= history
      ensures forall name :: name in valueFiles <==> exists k :: k in manifest.values && nameOf(k) == name
      ensures ValuesKept(old(valueFiles), valueFiles, manifest, nameOf)
      ensures ChunksKept(old(chunkFiles), chunkFiles, manifest)
      ensures |Orphans(chunkFiles, manifest)| == SatSub(|Orphans(old(chunkFiles), manifest)|, DELETE_BUDGET)
    {
      RemoveValueOrphans();
      RemoveBlobOrphans();
    }

    method RemoveValueOrphans()
      requires Valid()
      modifies this`valueFiles, this`history
      ensures Valid() && old(history) <= history
      ensures forall name :: name in valueFiles <==> exists k :: k in manifest.values && nameOf(k) == name
      ensures ValuesKept(old(valueFiles), valueFiles, manifest, nameOf)
    {
      var live := LiveNames(manifest);
      LiveNamesAreFiles(Now().disk, contents, nameOf);
      var rest := valueFiles.Keys - live;
      while rest != {}
        invariant Valid() && old(history) <= history
        invariant live == LiveNames(manifest)
        invariant rest == valueFiles.Keys - live
        invariant Fewer(valueFiles, old(valueFiles))
        decreases rest
      {
        var name :| name in rest;
        RemoveValueFile(name);
        rest := rest - {name};
      }
      LiveNamesAreFiles(Now().disk, contents, nameOf);
      forall name | name in valueFiles.Keys ensures name in live {
        assert name !in valueFiles.Keys - live;
      }
      assert valueFiles.Keys == LiveNames(manifest);
      forall k | k in manifest.values ensures nameOf(k) in valueFiles {
        assert manifest.values[k].opaqueId == nameOf(k);
      }
    }

    method RemoveBlobOrphans()
      requires Valid()
      modifies this`chunkFiles, this`history
      ensures Valid() && old(history) <= history
      ensures ChunksKept(old(chunkFiles), chunkFiles, manifest)
      ensures |Orphans(chunkFiles, manifest)| == SatSub(|Orphans(old(chunkFiles), manifest)|, DELETE_BUDGET)
    {
      var dirs := set p | p in chunkFiles :: p.blobId;
      var budget := DELETE_BUDGET;
      ghost var removed: set<ChunkPath> := {};
      while dirs != {} && budget > 0
        invariant Valid() && old(history) <= history
        invariant Sweeping(old(chunkFiles), chunkFiles, manifest, removed, dirs, budget)
        decreases dirs
      {
        var id :| id in dirs;
        if id !in manifest.blobs {
          ghost var batch;
          ghost var before, had := chunkFiles, budget;
          budget, batch := RemoveBlobDirBounded(id, budget);
          SweepBatch(old(chunkFiles), before, manifest, removed, dirs, had, id, batch);
          removed := removed + batch;
        }
        dirs := dirs - {id};
      }
      SweepEnds(old(chunkFiles), chunkFiles, manifest, removed, dirs, budget);
    }
  }

  /** A sweep over the blob directories has removed `removed` and still has
      `dirs` to visit. */
  ghost predicate Sweeping(files: map<ChunkPath, SealedChunk>, now: map<ChunkPath, SealedChunk>, m: Manifest,
                           removed: set<ChunkPath>, dirs: set<BlobId>, budget: nat) {
    && removed <= Orphans(files, m) && now == files - removed
    && |removed| + budget == DELETE_BUDGET
    && (budget == 0 || forall p :: p in Orphans(now, m) ==> p.blobId in dirs)
  }

  lemma SweepBatch(files: map<ChunkPath, SealedChunk>, now: map<ChunkPath, SealedChunk>, m: Manifest,
                   removed: set<ChunkPath>, dirs: set<BlobId>, budget: nat, id: BlobId, batch: set<ChunkPath>)
    requires Sweeping(files, now, m, removed, dirs, budget) && id !in m.blobs
    requires batch <= DirFiles(now, id) && |batch| <= budget
    requires |batch| < budget ==> DirFiles(now - batch, id) == {}
    ensures Sweeping(files, now - batch, m, removed + batch, dirs - {id}, budget - |batch|)
  {
    assert batch !! removed;
    assert now - batch == files - (removed + batch);
    if |batch| < budget {
      forall p | p in Orphans(now - batch, m) ensures p.blobId in dirs - {id} {
        assert p in Orphans(now, m);
        assert p !in DirFiles(now - batch, id);
      }
    }
  }

  lemma SweepEnds(files: map<ChunkPath, SealedChunk>, now: map<ChunkPath, SealedChunk>, m: Manifest,
                  removed: set<ChunkPath>, dirs: set<BlobId>, budget: nat)
    requires Sweeping(files, now, m, removed, dirs, budget) && (dirs == {} || budget == 0)
    ensures ChunksKept(files, now, m)
    ensures |Orphans(now, m)| == SatSub(|Orphans(files, m)|, DELETE_BUDGET)
  {
    assert Orphans(now, m) == Orphans(files, m) - removed;
    if budget > 0 {
      assert Orphans(now, m) == {};
    }
  }

  // ---- what a crash leaves ----

  /** What a blob held at any moment is a prefix of what it holds at every later
      one, as long as the manifest names it throughout. */
  lemma {:induction false} ContentsGrow(history: seq<Snapshot>, nameOf: string -> string, i: nat, j: nat, id: BlobId)
    requires CrashSafe(history, nameOf) && i <= j < |history|
    requires forall k :: i <= k <= j ==> id in history[k].contents
    ensures history[i].contents[id] <= history[j].contents[id]
    ensures Join(history[i].contents[id]) <= Join(history[j].contents[id])
    decreases j - i
  {
    if i < j {
      ContentsGrow(history, nameOf, i, j - 1, id);
      OneStepGrows(history, nameOf, j, id);
    }
  }

  lemma OneStepGrows(history: seq<Snapshot>, nameOf: string -> string, j: nat, id: BlobId)
    requires CrashSafe(history, nameOf) && 0 < j < |history|
    requires id in history[j - 1].contents && id in history[j].contents
    ensures history[j - 1].contents[id] <= history[j].contents[id]
    ensures Join(history[j - 1].contents[id]) <= Join(history[j].contents[id])
  {
    EveryCrashState(history, nameOf, j);
    var short, long := history[j - 1].contents[id], history[j].contents[id];
    assert long[..|short|] == short;
    JoinPrefix(long, |short|);
  }

  /** Every chunk the manifest of a crash state lists exists with its recorded
      plaintext, and a range read over that disk returns the exact slice,
      whatever leftover files lie beside it. */
  lemma CrashStateReads(history: seq<Snapshot>, nameOf: string -> string, i: nat, id: BlobId, offset: nat, end: nat)
    requires CrashSafe(history, nameOf) && i < |history|
    requires id in history[i].disk.manifest.blobs && id in history[i].contents
    requires offset < end <= history[i].disk.manifest.blobs[id].totalBytes
    ensures var d, pieces := history[i].disk, history[i].contents[id];
            && |d.manifest.blobs[id].chunks| == |pieces|
            && (forall k :: 0 <= k < |pieces| ==>
                  ChunkPath(id, k) in d.chunkFiles && d.chunkFiles[ChunkPath(id, k)] == SealedChunk(id, k, pieces[k]))
            && end <= |Join(pieces)|
            && RangeFrom(d.manifest.blobs[id].chunks, d.chunkFiles, id, 0, 0, offset, end) ==
                Ok(Join(pieces)[offset..end])
  {
    EveryCrashState(history, nameOf, i);
    var d, pieces := history[i].disk, history[i].contents[id];
    assert Stored(d.manifest.blobs[id], d.chunkFiles, id, pieces);
    RangeOfStored(d.manifest.blobs[id], d.chunkFiles, id, pieces, offset, end);
  }
}
