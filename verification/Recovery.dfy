/** Network recovery backups (recovery.rs) over the null-value convention of the
    daemon's DHT layer (dht_module/mod.rs).

    An upload writes up to 63 data pages and then a manifest that commits them; a
    wipe overwrites the manifest first.  A download reads the manifest and later,
    in any order and at any times, the pages. */
module RecoverySpec {
  import opened Basics
  import opened Encoding

  const CHUNK_BYTES: nat := 12_288
  const MAX_CHUNKS: nat := 63
  const MAX_RECOVERY_BYTES: nat := 774_144
  const TAG_BYTES: nat := 16
  const VERSION: nat := 1

  /** The marker the DHT layer stores for "no value": the text `0`. */
  const NULL: Bytes := [48]

  datatype Manifest = Manifest(version: nat, nonce: Bytes, chunkCount: nat, length: nat, hash: Bytes)

  /** The record's subkeys: the manifest at subkey 0, data pages from subkey 1. */
  datatype Record = Record(manifest: Option<Manifest>, pages: seq<Option<Bytes>>)

  const BLANK: Record := Record(None, seq(MAX_CHUNKS, _ => None))

  datatype Outcome =
    | Restored(backup: Bytes)
    | NoManifest | UnsupportedLayout | PageMissing(index: nat) | Damaged | Undecryptable

  /** Authenticated encryption: sealing adds a tag, opening undoes sealing. */
  datatype Cipher = Cipher(seal: (Bytes, Bytes, Bytes) -> Bytes, open: (Bytes, Bytes, Bytes) -> Option<Bytes>)

  ghost predicate Sound(c: Cipher, secret: Bytes, nonce: Bytes, backup: Bytes) {
    && |c.seal(secret, nonce, backup)| == |backup| + TAG_BYTES
    && c.open(secret, nonce, c.seal(secret, nonce, backup)) == Some(backup)
  }

  type Hash = Bytes -> Bytes

  /** Nothing else hashes like `x`. */
  ghost predicate NoSecondPreimage(hash: Hash, x: Bytes) {
    forall y :: hash(y) == hash(x) ==> y == x
  }

  // ---- the DHT layer ----

  /** Length of the white-space character `d` starts with, 0 if none (the UTF-8
      encodings of Unicode's White_Space characters). */
  function SpaceLength(d: Bytes): (n: nat)
    ensures n <= |d|
  {
    if |d| >= 1 && (9 <= d[0] <= 13 || d[0] == 32) then 1
    else if |d| >= 2 && d[0] == 0xC2 && (d[1] == 0x85 || d[1] == 0xA0) then 2
    else if |d| >= 3 && d[0] == 0xE1 && d[1] == 0x9A && d[2] == 0x80 then 3
    else if |d| >= 3 && d[0] == 0xE2 && d[1] == 0x80
        && (0x80 <= d[2] <= 0x8A || d[2] == 0xA8 || d[2] == 0xA9 || d[2] == 0xAF) then 3
    else if |d| >= 3 && d[0] == 0xE2 && d[1] == 0x81 && d[2] == 0x9F then 3
    else if |d| >= 3 && d[0] == 0xE3 && d[1] == 0x80 && d[2] == 0x80 then 3
    else 0
  }

  /** The bytes of a character are recognised as white space, all of them, exactly
      when the character is. */
  lemma SpaceLengthIff(c: char, rest: Bytes)
    ensures SpaceLength(Utf8Char(c) + rest) == if IsSpace(c) then |Utf8Char(c)| else 0
  {
    var n, d := c as int, Utf8Char(c) + rest;
    if n >= 0x80 {
      assert d[0] == Utf8Char(c)[0] && d[1] == Utf8Char(c)[1];
      if n >= 0x800 { assert d[2] == Utf8Char(c)[2]; }
    }
  }

  function TrimStart(d: Bytes): Bytes
    decreases |d|
  {
    if SpaceLength(d) == 0 then d else TrimStart(d[SpaceLength(d)..])
  }

  predicate IsLetter(b: byte, lower: byte) {
    lower >= 32 && (b == lower || b == lower - 32)
  }

  /** The bytes are the word "null", in any case, between white space. */
  predicate NullText(d: Bytes) {
    var t := TrimStart(d);
    && |t| >= 4
    && IsLetter(t[0], 110) && IsLetter(t[1], 117) && IsLetter(t[2], 108) && IsLetter(t[3], 108)
    && TrimStart(t[4..]) == []
  }

  /** Nothing but white space. */
  predicate Blank(d: Bytes)
    decreases |d|
  {
    d == [] || (SpaceLength(d) > 0 && Blank(d[SpaceLength(d)..]))
  }

  /** The four letters, each in either case. */
  predicate NullWord(w: Bytes) {
    && |w| == 4 && (w[0] == 78 || w[0] == 110) && (w[1] == 85 || w[1] == 117)
    && (w[2] == 76 || w[2] == 108) && (w[3] == 76 || w[3] == 108)
  }

  /** The word begins at `at`, with white space before and after it. */
  predicate NullAt(d: Bytes, at: nat) {
    at + 4 <= |d| && Blank(d[..at]) && NullWord(d[at..at + 4]) && Blank(d[at + 4..])
  }

  lemma {:induction false} TrimmedIsRest(d: Bytes) returns (at: nat)
    ensures at <= |d| && TrimStart(d) == d[at..] && Blank(d[..at])
    decreases |d|
  {
    at := 0;
    var n := SpaceLength(d);
    if n > 0 {
      at := TrimmedIsRest(d[n..]);
      at := at + n;
      assert d[n..][..at - n] == d[..at][n..];
      assert SpaceLength(d[..at]) == n;
    }
  }

  lemma {:induction false} BlankIsTrimmed(d: Bytes, at: nat)
    requires at <= |d| && Blank(d[..at]) && (at < |d| ==> SpaceLength(d[at..]) == 0)
    ensures TrimStart(d) == d[at..]
    decreases at
  {
    if at > 0 {
      var n := SpaceLength(d[..at]);
      assert SpaceLength(d) == n;
      assert d[n..][..at - n] == d[..at][n..];
      assert d[n..][at - n..] == d[at..];
      BlankIsTrimmed(d[n..], at - n);
    } else {
      assert d[0..] == d;
    }
  }

  lemma BlankIff(d: Bytes)
    ensures Blank(d) <==> TrimStart(d) == []
  {
    var at := TrimmedIsRest(d);
    if Blank(d) {
      assert d[..|d|] == d;
      BlankIsTrimmed(d, |d|);
    }
    if TrimStart(d) == [] {
      assert d[..at] == d;
    }
  }

  /** A value is taken for "no value" exactly when it is the word "null", in any mix
      of cases, with nothing but white space around it. */
  lemma NullTextIff(d: Bytes)
    ensures NullText(d) <==> exists at: nat :: NullAt(d, at)
  {
    if NullText(d) {
      var at := TrimmedIsRest(d);
      BlankIff(TrimStart(d)[4..]);
      assert d[at..][4..] == d[at + 4..];
      assert NullAt(d, at);
    }
    if at: nat :| NullAt(d, at) {
      BlankIsTrimmed(d, at);
      BlankIff(d[at + 4..]);
      assert d[at..][4..] == d[at + 4..];
    }
  }

  /** `normalize_write_bytes`. */
  function NormalizeWrite(d: Bytes): Bytes {
    if d == [] || NullText(d) then NULL else d
  }

  /** `normalize_dht_bytes` over a subkey that may never have been written. */
  function ReadValue(stored: Option<Bytes>): Option<Bytes> {
    if stored.None? || stored.value == NULL then None else stored
  }

  /** The bytes come back from the DHT layer as they were written. */
  predicate Survives(d: Bytes) {
    d != [] && d != NULL && !NullText(d)
  }

  lemma SurvivesIff(d: Bytes)
    ensures Survives(d) <==> ReadValue(Some(NormalizeWrite(d))) == Some(d)
  {
  }

  // ---- chunks ----

  /** `slice::chunks`. */
  function Split(c: Bytes): seq<Bytes>
    decreases |c|
  {
    if c == [] then [] else if |c| <= CHUNK_BYTES then [c] else [c[..CHUNK_BYTES]] + Split(c[CHUNK_BYTES..])
  }

  lemma {:induction false} SplitJoin(c: Bytes)
    ensures Join(Split(c)) == c
    ensures |Split(c)| * CHUNK_BYTES >= |c|
    ensures c != [] ==> (|Split(c)| - 1) * CHUNK_BYTES < |c|
    ensures forall i :: 0 <= i < |Split(c)| ==> 0 < |Split(c)[i]| <= CHUNK_BYTES
    decreases |c|
  {
    if |c| > CHUNK_BYTES {
      SplitJoin(c[CHUNK_BYTES..]);
      assert Split(c)[1..] == Split(c[CHUNK_BYTES..]);
      assert c == c[..CHUNK_BYTES] + c[CHUNK_BYTES..];
    } else if c != [] {
      assert [c][1..] == [];
      assert Join([c]) == c + Join([]);
    }
  }

  /** The size limit leaves room for the tag: every accepted backup needs
      between 1 and 63 chunks, so the later chunk-count guard never fires. */
  lemma ChunkCount(c: Bytes, size: nat)
    requires size <= MAX_RECOVERY_BYTES - 64 && |c| == size + TAG_BYTES
    ensures 1 <= |Split(c)| <= MAX_CHUNKS
  {
    SplitJoin(c);
  }

  // ---- downloading ----

  /** The first page a reader cannot get, if any. */
  function FirstMissing(pages: seq<Option<Bytes>>, from: nat): Option<nat>
    decreases |pages| - from
  {
    if from >= |pages| then None
    else if ReadValue(pages[from]).None? then Some(from)
    else FirstMissing(pages, from + 1)
  }

  function Values(pages: seq<Option<Bytes>>): (r: seq<Bytes>)
    ensures |r| == |pages|
    ensures forall i :: 0 <= i < |r| && ReadValue(pages[i]).Some? ==> r[i] == ReadValue(pages[i]).value
  {
    seq(|pages|, i requires 0 <= i < |pages| => if ReadValue(pages[i]).Some? then ReadValue(pages[i]).value else [])
  }

  /** What a reader answers who saw `manifest` and then these page contents. */
  function Assembled(manifest: Option<Manifest>, pages: seq<Option<Bytes>>, cipher: Cipher, hash: Hash,
      secret: Bytes): Outcome {
    if manifest.None? then NoManifest
    else
      var m := manifest.value;
      if m.version != VERSION || m.chunkCount == 0 || m.chunkCount > MAX_CHUNKS then UnsupportedLayout
      else if FirstMissing(pages, 0).Some? then PageMissing(FirstMissing(pages, 0).value)
      else
        var all := Join(Values(pages));
        var text := if |all| > m.length then all[..m.length] else all;
        if |text| != m.length || hash(text) != m.hash then Damaged
        else
          match cipher.open(secret, m.nonce, text)
          case Some(backup) => Restored(backup)
          case None => Undecryptable
  }

  lemma {:induction false} FirstMissingIs(pages: seq<Option<Bytes>>, from: nat)
    ensures FirstMissing(pages, from).None? <==> forall i :: from <= i < |pages| ==> ReadValue(pages[i]).Some?
    ensures FirstMissing(pages, from).Some? ==>
              var k := FirstMissing(pages, from).value;
              && from <= k < |pages| && ReadValue(pages[k]).None?
              && forall i :: from <= i < k ==> ReadValue(pages[i]).Some?
    decreases |pages| - from
  {
    if from < |pages| && ReadValue(pages[from]).Some? {
      FirstMissingIs(pages, from + 1);
    }
  }

  /** A download succeeds exactly when there is a manifest of this version for one to
      63 pages, every page can be read, the pages hold the promised length with the
      promised hash, and that text opens. */
  lemma RestoredIff(manifest: Option<Manifest>, pages: seq<Option<Bytes>>, cipher: Cipher, hash: Hash, secret: Bytes,
                    backup: Bytes)
    ensures Assembled(manifest, pages, cipher, hash, secret) == Restored(backup) <==>
            && manifest.Some? && manifest.value.version == 1 && 1 <= manifest.value.chunkCount <= 63
            && (forall i :: 0 <= i < |pages| ==> ReadValue(pages[i]).Some?)
            && var all, m := Join(Values(pages)), manifest.value;
               && m.length <= |all| && hash(all[..m.length]) == m.hash
               && cipher.open(secret, m.nonce, all[..m.length]) == Some(backup)
  {
    FirstMissingIs(pages, 0);
    var all := Join(Values(pages));
    assert all[..|all|] == all;
  }

  // ---- what an upload leaves behind ----

  function ManifestOf(cipherText: Bytes, nonce: Bytes, hash: Hash): Manifest {
    Manifest(VERSION, nonce, |Split(cipherText)|, |cipherText|, hash(cipherText))
  }

  /** Page `i` after its write. */
  function StoredPage(cipherText: Bytes, i: nat): Option<Bytes>
    requires i < |Split(cipherText)|
  {
    Some(NormalizeWrite(Split(cipherText)[i]))
  }

  predicate PagesWritten(r: Record, cipherText: Bytes, n: nat) {
    n <= |Split(cipherText)| <= |r.pages| && forall i :: 0 <= i < n ==> r.pages[i] == StoredPage(cipherText, i)
  }

  lemma NextPageWritten(r: Record, cipherText: Bytes, n: nat)
    requires PagesWritten(r, cipherText, n) && n < |Split(cipherText)|
    ensures PagesWritten(r.(pages := r.pages[n := StoredPage(cipherText, n)]), cipherText, n + 1)
  {
  }

  /** A committed upload downloads to the same bytes exactly when each of its
      chunks is a value the DHT layer can hold.  A chunk that is the single byte
      `0`, or spells "null" between white space, reads back as missing. */
  lemma RoundTripIff(r: Record, backup: Bytes, secret: Bytes, nonce: Bytes, cipher: Cipher, hash: Hash)
    requires |backup| <= MAX_RECOVERY_BYTES - 64
    requires Sound(cipher, secret, nonce, backup)
    requires var text := cipher.seal(secret, nonce, backup);
             r.manifest == Some(ManifestOf(text, nonce, hash)) && PagesWritten(r, text, |Split(text)|)
    ensures var text := cipher.seal(secret, nonce, backup);
            Assembled(r.manifest, r.pages[..|Split(text)|], cipher, hash, secret) == Restored(backup) <==>
            forall i :: 0 <= i < |Split(text)| ==> Survives(Split(text)[i])
  {
    var text := cipher.seal(secret, nonce, backup);
    var chunks, pages := Split(text), r.pages[..|Split(text)|];
    ChunkCount(text, |backup|);
    SplitJoin(text);
    FirstMissingIs(pages, 0);
    forall i | 0 <= i < |chunks| ensures Survives(chunks[i]) <==> ReadValue(pages[i]).Some? {
      SurvivesIff(chunks[i]);
    }
    if forall i :: 0 <= i < |chunks| ==> Survives(chunks[i]) {
      forall i | 0 <= i < |chunks| ensures Values(pages)[i] == chunks[i] {
        SurvivesIff(chunks[i]);
      }
      assert Values(pages) == chunks;
    }
  }

  /** Whatever pages a reader got under the committed manifest, at whatever
      moments of an upload or a wipe: the download fails or restores exactly the
      original backup. */
  lemma NeverAnotherBackup(manifest: Option<Manifest>, pages: seq<Option<Bytes>>, backup: Bytes, secret: Bytes,
      nonce: Bytes,
                           cipher: Cipher, hash: Hash)
    requires Sound(cipher, secret, nonce, backup)
    requires NoSecondPreimage(hash, cipher.seal(secret, nonce, backup))
    requires manifest == None || manifest == Some(ManifestOf(cipher.seal(secret, nonce, backup), nonce, hash))
    ensures var o := Assembled(manifest, pages, cipher, hash, secret); o.Restored? ==> o.backup == backup
    ensures Assembled(manifest, pages, cipher, hash, secret) != Undecryptable
  {
    var text := cipher.seal(secret, nonce, backup);
    assert forall y :: hash(y) == hash(text) ==> y == text;
  }

  // ---- a backup that is lost ----

  lemma {:induction false} LastChunk(c: Bytes)
    requires |c| % CHUNK_BYTES == 1
    ensures Split(c) != [] && Split(c)[|Split(c)| - 1] == [c[|c| - 1]]
    decreases |c|
  {
    if |c| > CHUNK_BYTES {
      LastChunk(c[CHUNK_BYTES..]);
    }
  }

  /** Whatever the cipher: a ciphertext one byte longer than a whole number of
      chunks whose last byte is `0` is correctly uploaded and never readable. */
  lemma LostBackup(backup: Bytes, r: Record, secret: Bytes, nonce: Bytes, cipher: Cipher, hash: Hash)
    requires |backup| <= MAX_RECOVERY_BYTES - 64 && Sound(cipher, secret, nonce, backup)
    requires var text := cipher.seal(secret, nonce, backup);
             && |text| % CHUNK_BYTES == 1 && text[|text| - 1] == 48
             && r.manifest == Some(ManifestOf(text, nonce, hash)) && PagesWritten(r, text, |Split(text)|)
    ensures Assembled(r.manifest, r.pages[..|Split(cipher.seal(secret, nonce, backup))|], cipher, hash,
        secret).PageMissing?
  {
    var text := cipher.seal(secret, nonce, backup);
    var pages := r.pages[..|Split(text)|];
    ChunkCount(text, |backup|);
    LastChunk(text);
    SurvivesIff(Split(text)[|Split(text)| - 1]);
    FirstMissingIs(pages, 0);
    assert ReadValue(pages[|pages| - 1]).None?;
  }

  /** A length-preserving cipher with a constant tag: enough to show that sound
      ciphers with such ciphertexts exist. */
  const TOY: Cipher := Cipher(
    (secret: Bytes, nonce: Bytes, m: Bytes) => m + seq(TAG_BYTES, _ => 48),
    (secret: Bytes, nonce: Bytes, c: Bytes) => if |c| < TAG_BYTES then None else Some(c[..|c| - TAG_BYTES]))

  lemma LostBackupsExist(backup: Bytes, secret: Bytes, nonce: Bytes)
    requires |backup| == CHUNK_BYTES + 1 - TAG_BYTES
    ensures Sound(TOY, secret, nonce, backup)
    ensures var text := TOY.seal(secret, nonce, backup); |text| % CHUNK_BYTES == 1 && text[|text| - 1] == 48
  {
    var text := TOY.seal(secret, nonce, backup);
    assert text[..|text| - TAG_BYTES] == backup;
  }
}

module Recovery {
  import opened Basics
  import opened Encoding
  import opened RecoverySpec

  /** One recovery record in the DHT.  `history` holds its contents after every
      single write, so a reader that reads at any moments of any operations sees
      entries of `history`. */
  class RecoveryRecord {
    var manifest: Option<Manifest>
    var pages: seq<Option<Bytes>>
    ghost var history: seq<Record>

    ghost function Now(): Record
      reads this
    {
      Record(manifest, pages)
    }

    ghost predicate Valid()
      reads this
    {
      |pages| == MAX_CHUNKS && history != [] && history[|history| - 1] == Now()
    }

    /** At every moment: no manifest, or the one of `text`. */
    ghost predicate OnlyManifest(m: Manifest)
      reads this
    {
      forall i :: 0 <= i < |history| ==> history[i].manifest == None || history[i].manifest == Some(m)
    }

    constructor ()
      ensures Valid() && history == [BLANK]
    {
      manifest := None;
      pages := seq(MAX_CHUNKS, _ => None);
      history := [BLANK];
    }

    /** A page write takes effect completely or not at all. */
    method WritePage(i: nat, value: Bytes, succeeds: bool)
      requires Valid() && i < MAX_CHUNKS
      modifies this
      ensures Valid() && manifest == old(manifest)
      ensures pages == if succeeds then old(pages)[i := Some(NormalizeWrite(value))] else old(pages)
      ensures history == old(history) + [Now()]
    {
      if succeeds {
        pages := pages[i := Some(NormalizeWrite(value))];
      }
      history := history + [Now()];
    }

    method WriteManifest(m: Option<Manifest>, succeeds: bool)
      requires Valid()
      modifies this
      ensures Valid() && pages == old(pages)
      ensures manifest == if succeeds then m else old(manifest)
      ensures history == old(history) + [Now()]
    {
      if succeeds {
        manifest := m;
      }
      history := history + [Now()];
    }

    ghost predicate NoManifestYet()
      reads this
    {
      manifest == None && forall i :: 0 <= i < |history| ==> history[i].manifest == None
    }

    /** One page of the loop. */
    method UploadPage(text: Bytes, index: nat, ok: bool)
      requires Valid() && NoManifestYet() && index < |Split(text)| <= MAX_CHUNKS && PagesWritten(Now(), text, index)
      modifies this
      ensures Valid() && NoManifestYet()
      ensures ok ==> PagesWritten(Now(), text, index + 1)
    {
      NextPageWritten(Now(), text, index);
      WritePage(index, Split(text)[index], ok);
    }

    /** The page loop of `upload_backup`: subkeys 1, 2, ... until a write fails. */
    method UploadPages(text: Bytes, works: nat -> bool) returns (all: bool)
      requires Valid() && history == [BLANK] && |Split(text)| <= MAX_CHUNKS
      modifies this
      ensures Valid() && NoManifestYet()
      ensures all <==> forall k :: 1 <= k <= |Split(text)| ==> works(k)
      ensures all ==> PagesWritten(Now(), text, |Split(text)|)
    {
      var chunks := Split(text);
      var index := 0;
      while index < |chunks|
        invariant 0 <= index <= |chunks|
        invariant Valid() && NoManifestYet() && PagesWritten(Now(), text, index)
        invariant forall k :: 1 <= k <= index ==> works(k)
      {
        var ok := works(index + 1);
        UploadPage(text, index, ok);
        if !ok {
          return false;
        }
        index := index + 1;
      }
      all := true;
    }

    /** `upload_backup` into a fresh record.  `works(k)` tells whether the DHT
        write of subkey `k` succeeds; the first failure ends the upload. */
    method Upload(backup: Bytes, secret: Bytes, nonce: Bytes, cipher: Cipher, hash: Hash, works: nat -> bool)
      returns (committed: Option<Manifest>)
      requires Valid() && history == [BLANK]
      requires Sound(cipher, secret, nonce, backup)
      modifies this
      ensures Valid()
      ensures |backup| > MAX_RECOVERY_BYTES - 64 ==> committed == None && history == [BLANK]
      ensures |backup| <= MAX_RECOVERY_BYTES - 64 ==>
                Uploaded(cipher.seal(secret, nonce, backup), nonce, hash, works, committed)
    {
      if |backup| > MAX_RECOVERY_BYTES - 64 {
        return None;
      }
      var text := cipher.seal(secret, nonce, backup);
      ChunkCount(text, |backup|);
      var all := UploadPages(text, works);
      if !all {
        return None;
      }
      var m := ManifestOf(text, nonce, hash);
      var ok := works(0);
      ghost var before := history;
      WriteManifest(Some(m), ok);
      assert forall i :: 0 <= i < |before| ==> history[i] == before[i];
      committed := if ok then Some(m) else None;
    }

    /** An upload commits exactly when all its writes succeed, and its manifest
        is never visible before all its pages are. */
    ghost predicate Uploaded(text: Bytes, nonce: Bytes, hash: Hash, works: nat -> bool, committed: Option<Manifest>)
      reads this
    {
      var m := ManifestOf(text, nonce, hash);
      && OnlyManifest(m)
      && committed == (if forall k :: 0 <= k <= |Split(text)| ==> works(k) then Some(m) else None)
      && (committed.Some? ==> manifest == committed && PagesWritten(Now(), text, |Split(text)|))
      && forall i :: 0 <= i < |history| && history[i].manifest.Some? ==> PagesWritten(history[i], text, |Split(text)|)
    }

    /** `wipe_state_record`: the manifest first, then every page, with the null
        marker.  At no moment does a different manifest appear, and once the
        first write succeeds none is readable any more. */
    method Wipe(chunkCount: nat, ghost m: Manifest, works: nat -> bool) returns (done: bool)
      requires Valid() && chunkCount <= MAX_CHUNKS && OnlyManifest(m)
      modifies this
      ensures Valid() && OnlyManifest(m)
      ensures works(0) ==> manifest == None
      ensures !works(0) ==> !done && Now() == old(Now())
      ensures done <==> forall k :: 0 <= k <= chunkCount ==> works(k)
      ensures done ==> forall i :: 0 <= i < chunkCount ==> ReadValue(pages[i]) == None
      ensures old(history) <= history
    {
      var ok := works(0);
      WriteManifest(if ok then None else manifest, ok);
      if !ok {
        return false;
      }
      var location := 1;
      while location <= chunkCount
        invariant 1 <= location <= chunkCount + 1
        invariant Valid() && OnlyManifest(m) && manifest == None && old(history) <= history
        invariant forall i :: 0 <= i < location - 1 ==> ReadValue(pages[i]) == None
        invariant forall k :: 0 <= k < location ==> works(k)
      {
        ok := works(location);
        WritePage(location - 1, NULL, ok);
        if !ok {
          return false;
        }
        location := location + 1;
      }
      done := true;
    }
  }

  /** `download_backup` from what the DHT returned: the manifest subkey and, read
      later, the pages it names. */
  method Download(manifest: Option<Manifest>, pages: seq<Option<Bytes>>, cipher: Cipher, hash: Hash, secret: Bytes)
    returns (o: Outcome)
    ensures o == Assembled(manifest, pages, cipher, hash, secret)
  {
    if manifest.None? {
      return NoManifest;
    }
    var m := manifest.value;
    if m.version != VERSION || m.chunkCount == 0 || m.chunkCount > MAX_CHUNKS {
      return UnsupportedLayout;
    }
    var text := [];
    var i := 0;
    FirstMissingIs(pages, 0);
    while i < |pages|
      invariant 0 <= i <= |pages|
      invariant forall j :: 0 <= j < i ==> ReadValue(pages[j]).Some?
      invariant text == Join(Values(pages)[..i])
    {
      var value := ReadValue(pages[i]);
      if value.None? {
        return PageMissing(i);
      }
      JoinAppend(Values(pages)[..i], value.value);
      assert Values(pages)[..i + 1] == Values(pages)[..i] + [value.value];
      text := text + value.value;
      i := i + 1;
    }
    assert Values(pages)[..i] == Values(pages);
    if |text| > m.length {
      text := text[..m.length];
    }
    if |text| != m.length || hash(text) != m.hash {
      return Damaged;
    }
    match cipher.open(secret, m.nonce, text) {
      case Some(backup) => o := Restored(backup);
      case None => o := Undecryptable;
    }
  }

  /** The pages a reader collects that reads page `i` at moment `when[i]`. */
  function Seen(history: seq<Record>, when: seq<nat>): seq<Option<Bytes>>
    requires forall i :: 0 <= i < |when| ==> when[i] < |history| && i < |history[when[i]].pages|
  {
    seq(|when|, i requires 0 <= i < |when| => history[when[i]].pages[i])
  }

  /** A download whose manifest read and page reads fall at any moments of an
      upload, a wipe, or both: it fails or restores exactly the original. */
  lemma AnyReader(history: seq<Record>, at: nat, when: seq<nat>, backup: Bytes, secret: Bytes, nonce: Bytes,
                  cipher: Cipher, hash: Hash)
    requires Sound(cipher, secret, nonce, backup)
    requires NoSecondPreimage(hash, cipher.seal(secret, nonce, backup))
    requires at < |history|
    requires forall i :: 0 <= i < |history| ==>
               history[i].manifest == None || history[i].manifest ==
                   Some(ManifestOf(cipher.seal(secret, nonce, backup), nonce, hash))
    requires forall i :: 0 <= i < |when| ==> when[i] < |history| && i < |history[when[i]].pages|
    ensures var o := Assembled(history[at].manifest, Seen(history, when), cipher, hash, secret);
            o.Restored? ==> o.backup == backup
  {
    NeverAnotherBackup(history[at].manifest, Seen(history, when), backup, secret, nonce, cipher, hash);
  }
}
