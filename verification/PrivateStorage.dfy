/** The encrypted local vault of one application (private_app_storage.rs).

    The on-disk manifest is the commit point; values and blob chunks are separate
    encrypted files.  A file is modelled by the associated data it was sealed
    under and its plaintext: it opens exactly under that associated data. */
module StorageSpec {
  import opened Basics
  import opened Encoding

  const MAX_VALUE_BYTES: nat := 524_288
  const MAX_APPEND_BYTES: nat := 262_144
  const MAX_READ_BYTES: nat := 524_288
  const MAX_BLOB_BYTES: nat := 8_589_934_592
  const MIN_TTL: nat := 3_600
  const MAX_TTL: nat := 86_400
  const INCOMPLETE_MAX_AGE: nat := 86_400
  const DELETE_BUDGET: nat := 128

  datatype Retention = Persistent | Cache | Temporary | DeleteOnShutdown

  type BlobId = string

  datatype Chunk = Chunk(index: nat, plainBytes: nat)

  datatype Blob = Blob(
    contentType: string, totalBytes: nat, chunks: seq<Chunk>, complete: bool, retention: Retention,
    expiresAt: Option<U64>, createdAt: U64, updatedAt: U64, lastAccessedAt: U64)

  datatype Value = Value(
    opaqueId: string, bytes: nat, retention: Retention, expiresAt: Option<U64>,
    createdAt: U64, updatedAt: U64, lastAccessedAt: U64)

  datatype Manifest = Manifest(values: map<string, Value>, blobs: map<BlobId, Blob>)

  datatype SealedChunk = SealedChunk(blobId: BlobId, index: nat, plain: Bytes)
  datatype SealedValue = SealedValue(key: string, plain: Bytes)

  datatype ChunkPath = ChunkPath(blobId: BlobId, index: nat)

  datatype Disk = Disk(
    manifest: Manifest, chunkFiles: map<ChunkPath, SealedChunk>, valueFiles: map<string, SealedValue>)

  datatype Error =
    | InvalidKey | ValueTooLarge(size: nat) | InvalidContentType | InvalidBlobId | ValueNotFound
    | BlobNotFound | BlobIncomplete | BlobAlreadyComplete | BlobTooLarge(total: nat)
    | AppendTooLarge(size: nat) | RangeTooLarge(length: nat) | InvalidRange | InvalidTtl | Corrupt | Crypto

  datatype Result<+T> = Ok(value: T) | Err(error: Error)

  predicate IsExpired(expiresAt: Option<U64>, now: U64) {
    expiresAt.Some? && expiresAt.value <= now
  }

  function ExpiryFor(retention: Retention, ttl: Option<U64>, now: U64): Result<Option<U64>> {
    match retention
    case Persistent => Ok(None)
    case Cache => Ok(None)
    case Temporary =>
      if ttl.None? || ttl.value < MIN_TTL || ttl.value > MAX_TTL then Err(InvalidTtl)
      else Ok(Some(SatAdd(now, ttl.value)))
    case DeleteOnShutdown =>
      var secs: U64 := if ttl.None? then MAX_TTL else ttl.value;
      if secs < MIN_TTL || secs > MAX_TTL then Err(InvalidTtl) else Ok(Some(SatAdd(now, secs)))
  }

  /** How long an entry lives that does not live for ever. */
  function Lifetime(ttl: Option<U64>): U64 {
    if ttl.None? then 86_400 else ttl.value
  }

  /** Persistent and cache entries never expire; the others need a lifetime between
      an hour and a day, which only `DeleteOnShutdown` may leave open, and expire
      exactly when it is over. */
  lemma ExpiryIff(retention: Retention, ttl: Option<U64>, now: U64, later: U64)
    ensures ExpiryFor(retention, ttl, now).Ok? <==>
            || retention == Persistent || retention == Cache
            || (3_600 <= Lifetime(ttl) <= 86_400 && (ttl.Some? || retention == DeleteOnShutdown))
    ensures ExpiryFor(retention, ttl, now).Ok? ==>
            (IsExpired(ExpiryFor(retention, ttl, now).value, later) <==>
              (retention == Temporary || retention == DeleteOnShutdown) && later >= SatAdd(now, Lifetime(ttl)))
  {
  }

  predicate HexDigit(c: char) {
    '0' <= c <= '9' || 'a' <= c <= 'f' || 'A' <= c <= 'F'
  }

  predicate ValidBlobId(id: BlobId) {
    |id| == 32 && forall i :: 0 <= i < |id| ==> HexDigit(id[i])
  }

  // ---- names and types a caller may give ----

  predicate IsControl(c: char) {
    c as int < 0x20 || 0x7F <= c as int <= 0x9F
  }

  /** The first position from `i` on that holds no white space. */
  function TextStart(s: string, i: nat): (n: nat)
    requires i <= |s|
    ensures i <= n <= |s| && forall k :: i <= k < n ==> IsSpace(s[k])
    ensures n < |s| ==> !IsSpace(s[n])
    decreases |s| - i
  {
    if i < |s| && IsSpace(s[i]) then TextStart(s, i + 1) else i
  }

  /** The end of what precedes the white space before `j`. */
  function TextEnd(s: string, j: nat): (n: nat)
    requires j <= |s|
    ensures n <= j && forall k :: n <= k < j ==> IsSpace(s[k])
    ensures n > 0 ==> !IsSpace(s[n - 1])
  {
    if j > 0 && IsSpace(s[j - 1]) then TextEnd(s, j - 1) else j
  }

  /** `str::trim`. */
  function Trimmed(s: string): (t: string)
    ensures t != "" ==> !IsSpace(t[0]) && !IsSpace(t[|t| - 1])
    ensures t == "" <==> forall k :: 0 <= k < |s| ==> IsSpace(s[k])
    ensures exists a: nat, b: nat :: Surrounded(s, a, b) && t == s[a..b]
  {
    var a, b := TextStart(s, 0), TextEnd(s, |s|);
    if a < b then
      assert Surrounded(s, a, b);
      s[a..b]
    else
      assert Surrounded(s, |s|, |s|);
      ""
  }

  /** `s[a..b]` has only white space around it. */
  predicate Surrounded(s: string, a: nat, b: nat) {
    a <= b <= |s| && (forall k :: 0 <= k < a ==> IsSpace(s[k])) && (forall k :: b <= k < |s| ==> IsSpace(s[k]))
  }

  /** Not empty once trimmed, within `limit` bytes, and free of control characters. */
  predicate Presentable(s: string, limit: nat) {
    var t := Trimmed(s);
    t != "" && |Utf8(t)| <= limit && NoControl(t)
  }

  /** A caller's text is accepted exactly when it is white space around a part that
      fits, starts and ends with something visible and holds no control character. */
  lemma PresentableIff(s: string, limit: nat)
    ensures Presentable(s, limit) <==>
            exists a: nat, b: nat :: Surrounded(s, a, b) && a < b && !IsSpace(s[a]) && !IsSpace(s[b - 1])
                           && |Utf8(s[a..b])| <= limit && NoControl(s[a..b])
  {
    var t := Trimmed(s);
    var a: nat, b: nat :| Surrounded(s, a, b) && t == s[a..b];
    if a < b {
      assert t[0] == s[a] && t[|t| - 1] == s[b - 1];
      forall c: nat, d: nat | Surrounded(s, c, d) && c < d && !IsSpace(s[c]) && !IsSpace(s[d - 1])
        ensures c == a && d == b
      {}
    }
  }

  predicate NoControl(s: string) {
    forall i :: 0 <= i < |s| ==> !IsControl(s[i])
  }

  predicate ValidContentType(s: string) {
    Presentable(s, 256)
  }

  predicate ValidKey(key: string) {
    Presentable(key, 512)
  }

  // ---- a blob as the sequence of its appends ----

  lemma {:induction false} JoinPrefix(pieces: seq<Bytes>, k: nat)
    requires k <= |pieces|
    ensures Join(pieces[..k]) <= Join(pieces)
    decreases |pieces|
  {
    if k < |pieces| {
      var init := pieces[..|pieces| - 1];
      JoinPrefix(init, k);
      assert init[..k] == pieces[..k];
      assert pieces == init + [pieces[|pieces| - 1]];
      JoinAppend(init, pieces[|pieces| - 1]);
    } else {
      assert pieces[..k] == pieces;
    }
  }

  /** Piece `k` sits in the blob right after the pieces before it. */
  lemma PieceInPlace(pieces: seq<Bytes>, k: nat)
    requires k < |pieces|
    ensures var start := |Join(pieces[..k])|;
            && |Join(pieces[..k + 1])| == start + |pieces[k]|
            && start + |pieces[k]| <= |Join(pieces)|
            && Join(pieces)[start..start + |pieces[k]|] == pieces[k]
  {
    assert pieces[..k + 1] == pieces[..k] + [pieces[k]];
    JoinAppend(pieces[..k], pieces[k]);
    JoinPrefix(pieces, k + 1);
    var start, stop := |Join(pieces[..k])|, |Join(pieces[..k + 1])|;
    assert Join(pieces)[..stop] == Join(pieces[..k + 1]);
    assert Join(pieces)[start..stop] == Join(pieces)[..stop][start..stop];
  }

  /** The manifest entry lists exactly the appended pieces, and every listed
      chunk file opens to its piece. */
  ghost predicate Stored(b: Blob, files: map<ChunkPath, SealedChunk>, id: BlobId, pieces: seq<Bytes>) {
    && |b.chunks| == |pieces|
    && b.totalBytes == |Join(pieces)| <= MAX_BLOB_BYTES
    && |pieces| <= U32_MAX + 1
    && (forall i :: 0 <= i < |pieces| ==>
          && 0 < |pieces[i]| <= MAX_APPEND_BYTES
          && b.chunks[i] == Chunk(i, |pieces[i]|)
          && ChunkPath(id, i) in files
          && files[ChunkPath(id, i)] == SealedChunk(id, i, pieces[i]))
  }

  /** Every blob the manifest names is intact, with the appends in `contents`;
      every value it names has its file. */
  ghost predicate Consistent(d: Disk, contents: map<BlobId, seq<Bytes>>, nameOf: string -> string) {
    && contents.Keys == d.manifest.blobs.Keys
    && (forall id :: id in d.manifest.blobs ==> Stored(d.manifest.blobs[id], d.chunkFiles, id, contents[id]))
    && (forall k :: k in d.manifest.values ==>
          && d.manifest.values[k].opaqueId == nameOf(k)
          && nameOf(k) in d.valueFiles && d.valueFiles[nameOf(k)].key == k)
  }

  // ---- reading a range ----

  /** One chunk of the loop: open the file, check its length, take the part of
      it that lies in the range. */
  function Part(chunk: Chunk, files: map<ChunkPath, SealedChunk>, id: BlobId, chunkStart: nat, offset: nat,
      end: nat): Result<Bytes>
    requires chunkStart < end && offset < chunkStart + chunk.plainBytes && offset <= end
  {
    var path := ChunkPath(id, chunk.index);
    if path !in files then Err(Corrupt)
    else if files[path].blobId != id || files[path].index != chunk.index then Err(Crypto)
    else if |files[path].plain| != chunk.plainBytes then Err(Corrupt)
    else Ok(files[path].plain[SatSub(offset, chunkStart)..Min(end, chunkStart + chunk.plainBytes) - chunkStart])
  }

  /** What the loop still appends when it is at chunk `k`. */
  function RangeFrom(chunks: seq<Chunk>, files: map<ChunkPath, SealedChunk>, id: BlobId, k: nat, chunkStart: nat,
      offset: nat, end: nat)
    : Result<Bytes>
    requires k <= |chunks| && offset <= end
    decreases |chunks| - k
  {
    if k == |chunks| then Ok([])
    else
      var chunkEnd := chunkStart + chunks[k].plainBytes;
      if chunkEnd <= offset then RangeFrom(chunks, files, id, k + 1, chunkEnd, offset, end)
      else if chunkStart >= end then Ok([])
      else
        var part := Part(chunks[k], files, id, chunkStart, offset, end);
        if part.Err? then part else Prefixed(part.value, RangeFrom(chunks, files, id, k + 1, chunkEnd, offset, end))
  }

  function Prefixed(head: Bytes, tail: Result<Bytes>): Result<Bytes> {
    if tail.Err? then tail else Ok(head + tail.value)
  }

  /** The loop of `read_blob_range`. */
  method CollectRange(chunks: seq<Chunk>, files: map<ChunkPath, SealedChunk>, id: BlobId, offset: nat, end: nat)
    returns (r: Result<Bytes>)
    requires offset <= end
    ensures r == RangeFrom(chunks, files, id, 0, 0, offset, end)
  {
    var out: Bytes := [];
    var chunkStart: nat, k: nat := 0, 0;
    PrefixedNothing(RangeFrom(chunks, files, id, 0, 0, offset, end));
    while k < |chunks|
      invariant k <= |chunks|
      invariant RangeFrom(chunks, files, id, 0, 0, offset, end) ==
                Prefixed(out, RangeFrom(chunks, files, id, k, chunkStart, offset, end))
    {
      var chunkEnd := chunkStart + chunks[k].plainBytes;
      if chunkEnd <= offset {
        chunkStart, k := chunkEnd, k + 1;
        continue;
      }
      if chunkStart >= end {
        break;
      }
      var part := Part(chunks[k], files, id, chunkStart, offset, end);
      if part.Err? {
        return part;
      }
      PrefixedTwice(out, part.value, RangeFrom(chunks, files, id, k + 1, chunkEnd, offset, end));
      out := out + part.value;
      chunkStart, k := chunkEnd, k + 1;
    }
    assert out + [] == out;
    r := Ok(out);
  }

  lemma PrefixedNothing(r: Result<Bytes>)
    ensures Prefixed([], r) == r
  {
    if r.Ok? { assert [] + r.value == r.value; }
  }

  lemma PrefixedTwice(a: Bytes, b: Bytes, r: Result<Bytes>)
    ensures Prefixed(a, Prefixed(b, r)) == Prefixed(a + b, r)
  {
    if r.Ok? { assert a + (b + r.value) == (a + b) + r.value; }
  }

  /** A range read refines the simple blob: over a stored blob the loop yields
      exactly the requested slice of the concatenated appends, so no listed
      chunk is missing and no index leaves its chunk. */
  lemma {:induction false} RangeRefines(b: Blob, files: map<ChunkPath, SealedChunk>, id: BlobId, pieces: seq<Bytes>,
      k: nat, offset: nat, end: nat)
    requires Stored(b, files, id, pieces) && k <= |pieces| && offset < end <= b.totalBytes
    ensures |Join(pieces[..k])| <= b.totalBytes
    ensures RangeFrom(b.chunks, files, id, k, |Join(pieces[..k])|, offset, end) ==
            Ok(Rest(Join(pieces), |Join(pieces[..k])|, offset, end))
    decreases |pieces| - k
  {
    JoinPrefix(pieces, k);
    if k == |pieces| {
      assert pieces[..k] == pieces;
    } else {
      PieceInPlace(pieces, k);
      PartOfStored(b, files, id, pieces, k);
      RangeRefines(b, files, id, pieces, k + 1, offset, end);
      RangeStep(b.chunks, files, id, k, pieces[k], Join(pieces), |Join(pieces[..k])|, offset, end);
    }
  }

  /** One chunk more in front of a range that is right from the next chunk on. */
  lemma RangeStep(chunks: seq<Chunk>, files: map<ChunkPath, SealedChunk>, id: BlobId, k: nat, piece: Bytes,
                  whole: Bytes, start: nat, offset: nat, end: nat)
    requires k < |chunks| && chunks[k] == Chunk(k, |piece|) && offset < end <= |whole|
    requires ChunkPath(id, k) in files && files[ChunkPath(id, k)] == SealedChunk(id, k, piece)
    requires start + |piece| <= |whole| && whole[start..start + |piece|] == piece
    requires RangeFrom(chunks, files, id, k + 1, start + |piece|, offset, end) ==
        Ok(Rest(whole, start + |piece|, offset, end))
    ensures RangeFrom(chunks, files, id, k, start, offset, end) == Ok(Rest(whole, start, offset, end))
  {
    if start < end && offset < start + |piece| {
      SliceStep(whole, piece, start, offset, end);
    }
  }

  /** The part of the range at or after `start`. */
  function Rest(whole: Bytes, start: nat, offset: nat, end: nat): Bytes
    requires offset <= end <= |whole|
  {
    if start >= end then [] else whole[Max(offset, start)..end]
  }

  lemma PartOfStored(b: Blob, files: map<ChunkPath, SealedChunk>, id: BlobId, pieces: seq<Bytes>, k: nat)
    requires Stored(b, files, id, pieces) && k < |pieces|
    ensures k < |b.chunks| && b.chunks[k] == Chunk(k, |pieces[k]|)
    ensures ChunkPath(id, k) in files && files[ChunkPath(id, k)] == SealedChunk(id, k, pieces[k])
  {
  }

  lemma SliceOfPiece(whole: Bytes, start: nat, stop: nat, piece: Bytes, from: nat, to: nat)
    requires start <= stop <= |whole| && whole[start..stop] == piece
    requires from <= to <= |piece|
    ensures piece[from..to] == whole[start + from..start + to]
  {
    var a, b := piece[from..to], whole[start + from..start + to];
    forall i | 0 <= i < to - from ensures a[i] == b[i] {
      assert a[i] == piece[from + i] == whole[start..stop][from + i];
    }
  }

  lemma SliceStep(whole: Bytes, piece: Bytes, start: nat, offset: nat, end: nat)
    requires offset < end <= |whole| && start + |piece| <= |whole| && whole[start..start + |piece|] == piece
    requires start < end && offset < start + |piece|
    ensures piece[SatSub(offset, start)..Min(end, start + |piece|) - start] + Rest(whole, start + |piece|, offset, end)
            == Rest(whole, start, offset, end)
  {
    var stop := Min(end, start + |piece|);
    SliceOfPiece(whole, start, start + |piece|, piece, SatSub(offset, start), stop - start);
    TwoSlices(whole, Max(offset, start), stop, end);
  }

  lemma TwoSlices(whole: Bytes, a: nat, b: nat, c: nat)
    requires a <= b <= c <= |whole|
    ensures whole[a..b] + whole[b..c] == whole[a..c]
  {
  }

  // ---- reading a value ----

  /** `get_value`, without the access-time update. */
  function GetOutcome(d: Disk, nameOf: string -> string, key: string, now: U64): Result<Option<Bytes>> {
    if key !in d.manifest.values || IsExpired(d.manifest.values[key].expiresAt, now) then Ok(None)
    else
      var entry := d.manifest.values[key];
      if entry.opaqueId !in d.valueFiles then Err(Corrupt)
      else
        var file := d.valueFiles[entry.opaqueId];
        if file.key != key then Err(Crypto)
        else if |file.plain| != entry.bytes then Err(Corrupt)
        else Ok(Some(file.plain))
  }

  /** Values do not have the blobs' crash safety: `put_value` writes the file
      before the manifest.  A crash between the two leaves the key readable, with
      the new bytes, exactly when they are as many as the manifest records. */
  lemma CrashedOverwriteIff(d: Disk, contents: map<BlobId, seq<Bytes>>, nameOf: string -> string, key: string,
      bytes: Bytes, now: U64)
    requires Consistent(d, contents, nameOf)
    requires key in d.manifest.values && !IsExpired(d.manifest.values[key].expiresAt, now)
    ensures var crashed := d.(valueFiles := d.valueFiles[nameOf(key) := SealedValue(key, bytes)]);
            && (GetOutcome(crashed, nameOf, key, now) == Ok(Some(bytes)) <==> |bytes| == d.manifest.values[key].bytes)
            && (GetOutcome(crashed, nameOf, key, now) == Err(Corrupt) <==> |bytes| != d.manifest.values[key].bytes)
  {
  }
}
