/** Publication of the application directory (app/directory.rs).

    Two DHT registers: the directory record, and a pointer in the main DHT that
    names the record's generation.  A publisher writes the record, then the
    pointer, then advances its memory; a reader reads the pointer, then the
    record, and accepts equal generations. */
module DirectorySpec {
  import opened Basics

  datatype Entry = Entry(root: string, updatedAt: U64)

  datatype Manifest = Manifest(generation: U64, entries: map<string, Entry>, updatedAt: U64)

  /** Everything a publisher and its readers can observe. */
  datatype World = World(
    record: Manifest,            // directory DHT, subkey 0
    pointer: Option<U64>,        // main DHT, subkey 11
    memory: Manifest,            // the publisher's committed manifest
    running: bool,               // a publisher is loaded
    committed: map<U64, Manifest>)  // what was published under each generation (history)

  function NextGeneration(g: U64): U64 {
    SatAdd(g, 1)
  }

  /** A record write of a new manifest that took effect. */
  ghost predicate Propose(w: World, w': World) {
    && w.running
    && w'.record.generation == NextGeneration(w.memory.generation)
    && w' == w.(record := w'.record)
  }

  /** A successful pointer write, after which memory advances. */
  ghost predicate Commit(w: World, w': World) {
    && w.running
    && w.record.generation == NextGeneration(w.memory.generation)
    && w' == w.(pointer := Some(w.record.generation), memory := w.record,
                committed := w.committed[w.record.generation := w.record])
  }

  /** A pointer write reported as failed that took effect: memory stays behind. */
  ghost predicate Ambiguous(w: World, w': World) {
    && w.running
    && w.record.generation == NextGeneration(w.memory.generation)
    && w' == w.(pointer := Some(w.record.generation), committed := w.committed[w.record.generation := w.record])
  }

  ghost predicate Crash(w: World, w': World) {
    w' == w.(running := false)
  }

  /** Loading takes over whatever the record holds and publishes its generation. */
  ghost predicate Load(w: World, w': World) {
    && !w.running
    && w' == w.(pointer := Some(w.record.generation), memory := w.record, running := true,
                committed := w.committed[w.record.generation := w.record])
  }

  /** A load whose pointer write took effect although it was reported as failed. */
  ghost predicate Announce(w: World, w': World) {
    && !w.running
    && w' == w.(pointer := Some(w.record.generation), committed := w.committed[w.record.generation := w.record])
  }

  ghost predicate Step(w: World, w': World) {
    w == w' || Propose(w, w') || Commit(w, w') || Ambiguous(w, w') || Crash(w, w') || Load(w, w') || Announce(w, w')
  }

  /** A freshly created directory: an empty record nobody points to yet. */
  ghost predicate Fresh(w: World) {
    && w.record.generation == 1 && w.pointer == None && !w.running && w.committed == map[]
  }

  ghost predicate StepAt(ws: seq<World>, i: nat)
    requires 0 < i < |ws|
  {
    Step(ws[i - 1], ws[i])
  }

  ghost predicate IsRun(ws: seq<World>) {
    && ws != []
    && Fresh(ws[0])
    && forall i :: 0 < i < |ws| ==> StepAt(ws, i)
  }

  // ---- what keeps readers safe ----

  /** The publisher writes a different record under a generation that the
      pointer already carries. */
  ghost predicate Reuses(w: World, w': World) {
    && Propose(w, w')
    && w.pointer == Some(w'.record.generation)
    && (w'.record.generation in w.committed ==> w'.record != w.committed[w'.record.generation])
  }

  ghost predicate ReusesAt(ws: seq<World>, i: nat)
    requires 0 < i < |ws|
  {
    Reuses(ws[i - 1], ws[i])
  }

  ghost predicate NeverReuses(ws: seq<World>, n: nat)
    requires n < |ws|
  {
    forall i :: 0 < i <= n ==> !ReusesAt(ws, i)
  }

  /** Holds in every run, also of publishers that reuse generations. */
  ghost predicate Shape(w: World) {
    && (w.pointer.Some? ==> w.pointer.value in w.committed && w.record.generation >= w.pointer.value)
    && (forall g :: g in w.committed ==> w.pointer.Some? && g <= w.pointer.value && w.committed[g].generation == g)
    && (w.running ==> w.pointer.Some? && w.memory.generation <= w.pointer.value <= NextGeneration(w.memory.generation))
  }

  /** Holds while no generation was reused. */
  ghost predicate Inv(w: World) {
    && Shape(w)
    && (w.record.generation in w.committed ==> w.committed[w.record.generation] == w.record)
    && (w.running ==> w.memory.generation in w.committed && w.committed[w.memory.generation] == w.memory)
  }

  lemma {:induction false} RunShape(ws: seq<World>, n: nat)
    requires IsRun(ws) && n < |ws|
    ensures Shape(ws[n])
  {
    if n > 0 {
      RunShape(ws, n - 1);
      assert StepAt(ws, n);
    }
  }

  lemma {:induction false} RunInv(ws: seq<World>, n: nat)
    requires IsRun(ws) && n < |ws| && NeverReuses(ws, n)
    ensures Inv(ws[n])
  {
    RunShape(ws, n);
    if n > 0 {
      RunInv(ws, n - 1);
      assert StepAt(ws, n) && !ReusesAt(ws, n);
    }
  }

  /** A committed generation never changes meaning. */
  lemma {:induction false} CommittedStays(ws: seq<World>, i: nat, j: nat, g: U64)
    requires IsRun(ws) && i <= j < |ws| && NeverReuses(ws, j) && g in ws[i].committed
    ensures g in ws[j].committed && ws[j].committed[g] == ws[i].committed[g]
    decreases j - i
  {
    if i < j {
      CommittedStays(ws, i, j - 1, g);
      RunInv(ws, j - 1);
      assert StepAt(ws, j);
    }
  }

  /** A reader that reads the pointer at moment `i` and the record at a later
      moment `j`, and finds equal generations. */
  ghost predicate Accepts(ws: seq<World>, i: nat, j: nat) {
    i <= j < |ws| && ws[i].pointer == Some(ws[j].record.generation)
  }

  /** Readers never mix versions: an accepting reader holds exactly what was
      committed under that generation, through failed, ambiguous, retried and
      interrupted publications, as long as no generation was reused. */
  lemma ReaderGetsCommitted(ws: seq<World>, i: nat, j: nat)
    requires IsRun(ws) && Accepts(ws, i, j) && NeverReuses(ws, j)
    ensures var g := ws[j].record.generation; g in ws[i].committed && ws[j].record == ws[i].committed[g]
  {
    RunInv(ws, i);
    RunInv(ws, j);
    CommittedStays(ws, i, j, ws[j].record.generation);
  }

  /** Two accepting readers of one generation hold different records. */
  ghost predicate Mixed(ws: seq<World>) {
    exists i: nat, j: nat, k: nat, l: nat :: Accepts(ws, i, j) && Accepts(ws, k, l) &&
                         ws[j].record.generation == ws[l].record.generation && ws[j].record != ws[l].record
  }

  /** The last moment at which generation `g` got its committed record: there
      pointer and record agree on it. */
  lemma {:induction false} CommittedWasReadable(ws: seq<World>, n: nat, g: U64) returns (k: nat)
    requires IsRun(ws) && n < |ws| && g in ws[n].committed
    ensures k <= n && Accepts(ws, k, k) && ws[k].record.generation == g && ws[k].record == ws[n].committed[g]
  {
    assert n > 0;
    assert StepAt(ws, n);
    RunShape(ws, n);
    if g in ws[n - 1].committed && ws[n - 1].committed[g] == ws[n].committed[g] {
      k := CommittedWasReadable(ws, n - 1, g);
    } else {
      k := n;
    }
  }

  /** Readers of one generation disagree exactly when the publisher reused it:
      after an ambiguous pointer write, or with a saturated generation counter. */
  lemma MixedIff(ws: seq<World>)
    requires IsRun(ws)
    ensures Mixed(ws) <==> !NeverReuses(ws, |ws| - 1)
  {
    var last := |ws| - 1;
    if NeverReuses(ws, last) {
      forall i: nat, j: nat, k: nat, l: nat |
        Accepts(ws, i, j) && Accepts(ws, k, l) && ws[j].record.generation == ws[l].record.generation
        ensures ws[j].record == ws[l].record
      {
        ReaderGetsCommitted(ws, i, j);
        ReaderGetsCommitted(ws, k, l);
        CommittedStays(ws, i, last, ws[j].record.generation);
        CommittedStays(ws, k, last, ws[j].record.generation);
      }
    } else {
      var n :| 0 < n <= last && ReusesAt(ws, n);
      var g := ws[n].record.generation;
      RunShape(ws, n - 1);
      var k := CommittedWasReadable(ws, n - 1, g);
      assert Accepts(ws, n - 1, n) && Accepts(ws, k, k);
    }
  }

  /** The guard a publisher can check: below the end of the counter, with memory
      level with the pointer, a publication reuses nothing. */
  lemma LevelNeverReuses(w: World, w': World)
    requires Shape(w) && w.running && Propose(w, w')
    requires w.memory.generation < U64_MAX && w.pointer == Some(w.memory.generation)
    ensures !Reuses(w, w')
  {
  }

  /** When memory lags behind the pointer, or the counter is saturated, a
      publication reuses the generation exactly when its record differs from the
      one readers may already hold. */
  lemma ReusesIff(w: World, w': World)
    requires Shape(w) && w.running && Propose(w, w')
    ensures Reuses(w, w') <==>
            && (w.pointer != Some(w.memory.generation) || w.memory.generation == U64_MAX)
            && w'.record != w.committed[w.pointer.value]
  {
  }

  /** A retry after an ambiguous pointer write reuses its generation whenever the
      retried record differs, if only in its time. */
  lemma AmbiguousRetryReuses(w: World, first: Manifest, second: Manifest)
    requires Shape(w) && w.running && w.pointer == Some(w.memory.generation) && w.memory.generation < U64_MAX
    requires first.generation == second.generation == NextGeneration(w.memory.generation)
    ensures var proposed := w.(record := first);
            var pointed := proposed.(pointer := Some(first.generation),
                committed := w.committed[first.generation := first]);
            && Propose(w, proposed) && Ambiguous(proposed, pointed)
            && (Reuses(pointed, pointed.(record := second)) <==> first != second)
  {
  }

  /** The counter has not reached its end, and no failed pointer write took effect. */
  ghost predicate Plain(ws: seq<World>) {
    && (forall i :: 0 <= i < |ws| ==> ws[i].running ==> ws[i].memory.generation < U64_MAX)
    && (forall i :: 0 < i < |ws| ==> !AmbiguousAt(ws, i))
  }

  ghost predicate AmbiguousAt(ws: seq<World>, i: nat)
    requires 0 < i < |ws|
  {
    Ambiguous(ws[i - 1], ws[i])
  }

  /** Runs in which failed pointer writes have no effect and the counter does not
      run out keep every reader safe. */
  lemma {:induction false} PlainIsLevel(ws: seq<World>, n: nat)
    requires IsRun(ws) && Plain(ws) && n < |ws|
    ensures ws[n].running ==> ws[n].pointer == Some(ws[n].memory.generation)
    ensures NeverReuses(ws, n)
  {
    RunShape(ws, n);
    if n > 0 {
      PlainIsLevel(ws, n - 1);
      RunShape(ws, n - 1);
      assert StepAt(ws, n);
      assert ws[n - 1].running ==> ws[n - 1].memory.generation < U64_MAX;
      assert !AmbiguousAt(ws, n);
    }
  }

  /** At rest a reader can resolve exactly when no record write is waiting for
      its pointer: an unfinished publication keeps the directory unreadable. */
  lemma ReadableIff(ws: seq<World>, n: nat)
    requires IsRun(ws) && n < |ws| && ws[n].running && NeverReuses(ws, n)
    requires ws[n].pointer == Some(ws[n].memory.generation)
    ensures ws[n].pointer == Some(ws[n].record.generation) <==> ws[n].record == ws[n].memory
  {
    RunInv(ws, n);
  }

  /** A run from a fresh directory in which readers mix versions: one publication
      whose pointer write is ambiguous, retried at another time. */
  lemma AmbiguousRunMixes(entries: map<string, Entry>, first: U64, second: U64) returns (ws: seq<World>)
    requires first != second
    ensures IsRun(ws) && Mixed(ws)
  {
    var empty := Manifest(1, map[], 0);
    var a, b := Manifest(2, entries, first), Manifest(2, entries, second);
    var w0 := World(empty, None, empty, false, map[]);
    var w1 := World(empty, Some(1), empty, true, map[1 := empty]);
    var w2 := w1.(record := a);
    var w3 := w2.(pointer := Some(2), committed := map[1 := empty, 2 := a]);
    var w4 := w3.(record := b);
    assert Load(w0, w1) && Propose(w1, w2) && Ambiguous(w2, w3) && Propose(w3, w4);
    ws := [w0, w1, w2, w3, w4];
    forall i | 0 < i < |ws| ensures StepAt(ws, i) {
      assert i == 1 || i == 2 || i == 3 || i == 4;
    }
    assert ReusesAt(ws, 4);
    MixedIff(ws);
  }
}

module Directory {
  import opened Basics
  import opened DirectorySpec

  const MAX_ENTRIES: nat := 128
  const MAX_FUTURE_SKEW: nat := 120

  /** How a DHT write ends; `Unknown` is reported as failed but took effect. */
  datatype Write = Done | Failed | Unknown

  datatype Update = Update(root: Option<string>, generation: U64, updatedAt: U64)

  datatype Error = TooManyRoots | TooManyEntries | NotPersisted | RecordWriteFailed | PointerWriteFailed
                 | NoPointer | ImplausiblePointer | GenerationMismatch | ImplausibleRecord

  datatype Result<+T> = Ok(value: T) | Err(error: Error)

  /** The public entries for the active applications: durable roots, with the
      publication time of an unchanged entry kept. */
  function Desired(stored: map<string, string>, active: set<string>, current: map<string, Entry>,
      now: U64): map<string, Entry> {
    map app | app in stored && app in active ::
      Entry(stored[app], if app in current && current[app].root == stored[app] then current[app].updatedAt else now)
  }

  class AppDirectoryManager {
    var stored: map<string, string>
    var manifest: Manifest
    var running: bool
    // the two DHT registers this manager owns
    var record: Manifest
    var pointer: Option<U64>
    ghost var committed: map<U64, Manifest>
    /** The world after every single write. */
    ghost var history: seq<World>

    ghost function Now(): World
      reads this
    {
      World(record, pointer, manifest, running, committed)
    }

    ghost predicate Valid()
      reads this
    {
      IsRun(history) && history[|history| - 1] == Now()
    }

    /** A newly created directory package with the empty manifest in it. */
    constructor (now: U64)
      ensures Valid() && !running && record == Manifest(1, map[], now) && stored == map[]
    {
      stored := map[];
      manifest := Manifest(1, map[], now);
      record := Manifest(1, map[], now);
      running, pointer, committed := false, None, map[];
      history := [World(Manifest(1, map[], now), None, Manifest(1, map[], now), false, map[])];
    }

    /** `load_or_create` on an existing package: adopt the record, keep its roots
        durable, publish its generation. */
    method Load(durable: map<string, string>, pointerWrite: Write) returns (ok: bool)
      requires Valid() && !running
      modifies this
      ensures Valid() && running == ok == (pointerWrite == Done) && old(history) <= history && record == old(record)
      ensures forall app :: app in durable ==> app in stored && stored[app] == durable[app]
      ensures forall app :: app in record.entries && app !in durable ==>
                app in stored && stored[app] == record.entries[app].root
      ensures ok ==> manifest == record
      ensures pointer == if pointerWrite == Failed then old(pointer) else Some(record.generation)
    {
      stored := (map app | app in record.entries :: record.entries[app].root) + durable;
      ok := pointerWrite == Done;
      if pointerWrite != Failed {
        ghost var before := Now();
        pointer := Some(record.generation);
        committed := committed[record.generation := record];
        if ok {
          manifest := record;
          running := true;
        }
        Extend(before);
      }
    }

    /** Enter the state after one write. */
    ghost method Extend(before: World)
      requires IsRun(history) && history[|history| - 1] == before && Step(before, Now())
      modifies this`history
      ensures Valid() && history == old(history) + [Now()]
    {
      ghost var longer := history + [Now()];
      forall i | 0 < i < |longer| ensures StepAt(longer, i) {
        if i < |history| { assert StepAt(history, i); }
      }
      history := longer;
    }

    /** The daemon stops at any moment; only the registers survive. */
    method Stop()
      requires Valid()
      modifies this`running, this`history
      ensures Valid() && !running && old(history) <= history
    {
      ghost var before := Now();
      running := false;
      Extend(before);
    }

    /** Write the record, then the pointer, then advance memory.  A write that is
        reported as failed ends the publication. */
    method Publish(entries: map<string, Entry>, now: U64, recordWrite: Write, pointerWrite: Write)
      returns (error: Option<Error>)
      requires Valid() && running
      modifies this`record, this`pointer, this`manifest, this`committed, this`history
      ensures Valid() && old(history) <= history
      ensures var next := Manifest(NextGeneration(old(manifest).generation), entries, now);
              if |entries| > MAX_ENTRIES then error == Some(TooManyEntries) && Now() == old(Now())
              else if recordWrite == Failed then error == Some(RecordWriteFailed) && Now() == old(Now())
              else
                && record == next
                && error == (if recordWrite == Unknown then Some(RecordWriteFailed)
                             else if pointerWrite != Done then Some(PointerWriteFailed) else None)
                && pointer == (if recordWrite == Unknown || pointerWrite == Failed then old(pointer)
                    else Some(next.generation))
                && manifest == (if error == None then next else old(manifest))
    {
      var next := Manifest(NextGeneration(manifest.generation), entries, now);
      if |entries| > MAX_ENTRIES {
        return Some(TooManyEntries);
      }
      if recordWrite == Failed {
        return Some(RecordWriteFailed);
      }
      ghost var before := Now();
      record := next;
      Extend(before);
      if recordWrite == Unknown {
        return Some(RecordWriteFailed);
      }
      error := PointTo(next, pointerWrite);
    }

    /** The second half of a publication. */
    method PointTo(next: Manifest, pointerWrite: Write) returns (error: Option<Error>)
      requires Valid() && running && record == next && next.generation == NextGeneration(manifest.generation)
      modifies this`pointer, this`manifest, this`committed, this`history
      ensures Valid() && old(history) <= history
      ensures error == if pointerWrite != Done then Some(PointerWriteFailed) else None
      ensures pointer == if pointerWrite == Failed then old(pointer) else Some(next.generation)
      ensures manifest == if pointerWrite == Done then next else old(manifest)
    {
      if pointerWrite == Failed {
        return Some(PointerWriteFailed);
      }
      ghost var before := Now();
      pointer := Some(next.generation);
      committed := committed[next.generation := next];
      if pointerWrite == Unknown {
        Extend(before);
        return Some(PointerWriteFailed);
      }
      manifest := next;
      Extend(before);
      error := None;
    }

    /** After a publication at `now` every reader whose clock is at most two minutes
        behind gets the committed root of `app`, or learns that there is none. */
    ghost predicate Resolvable(app: string, now: U64)
      reads this
    {
      forall clock: U64 :: now <= clock + 120 ==>
        Resolution(app, pointer, now, record, clock) ==
        Ok((if app in manifest.entries then Some(manifest.entries[app].root) else None, manifest.generation))
    }

    /** `sync_public_apps`: whenever it succeeds, the committed directory lists
        exactly the active durable roots; a failed attempt leaves memory behind,
        so the next reconciliation tries again. */
    method SyncPublicApps(active: set<string>, now: U64, recordWrite: Write, pointerWrite: Write)
        returns (r: Result<bool>)
      requires Valid() && running
      modifies this`record, this`pointer, this`manifest, this`committed, this`history
      ensures Valid() && old(history) <= history
      ensures r == Ok(false) ==>
          Now() == old(Now()) && manifest.entries == Desired(stored, active, old(manifest).entries, now)
      ensures r == Ok(true) ==>
                && manifest.entries == Desired(stored, active, old(manifest).entries, now) != old(manifest).entries
                && manifest.generation == NextGeneration(old(manifest).generation)
                && manifest == record && pointer == Some(manifest.generation)
      ensures r.Ok? ==> forall app :: app in manifest.entries <==> app in stored && app in active
      ensures r.Ok? ==> forall app :: app in manifest.entries ==> manifest.entries[app].root == stored[app]
      ensures r.Ok? ==> forall app :: app in manifest.entries ==>
                manifest.entries[app].updatedAt ==
                if app in old(manifest).entries && old(manifest).entries[app].root == stored[app]
                then old(manifest).entries[app].updatedAt else now
      ensures r == Ok(true) ==> forall app :: Resolvable(app, now)
      ensures r.Err? ==> manifest == old(manifest) && (pointerWrite != Unknown ==> pointer == old(pointer))
    {
      var desired := Desired(stored, active, manifest.entries, now);
      if desired == manifest.entries {
        return Ok(false);
      }
      var error := Publish(desired, now, recordWrite, pointerWrite);
      r := if error.Some? then Err(error.value) else Ok(true);
    }

    /** `set_own_app_root`: the durable root first, the publication second. */
    method SetOwnAppRoot(app: string, root: string, now: U64, persisted: bool, recordWrite: Write, pointerWrite: Write)
      returns (r: Result<Update>)
      requires Valid() && running
      modifies this
      ensures Valid() && old(history) <= history
      ensures stored == if |old(stored)| >= MAX_ENTRIES && app !in old(stored) then old(stored)
          else old(stored)[app := root]
      ensures r.Ok? ==>
                && app in manifest.entries && manifest.entries[app].root == root
                && manifest.entries == old(manifest).entries[app := manifest.entries[app]]
                && r.value == Update(Some(root), manifest.generation, manifest.entries[app].updatedAt)
                && (manifest == old(manifest) || pointer == Some(manifest.generation))
      ensures r.Ok? ==> (manifest == old(manifest) <==>
          app in old(manifest).entries && old(manifest).entries[app].root == root)
      ensures r.Ok? && manifest != old(manifest) ==> manifest.entries[app].updatedAt == now && Resolvable(app, now)
      ensures r.Err? ==> manifest == old(manifest) && (pointerWrite != Unknown ==> pointer == old(pointer))
    {
      if |stored| >= MAX_ENTRIES && app !in stored {
        return Err(TooManyRoots);
      }
      stored := stored[app := root];
      if !persisted {
        return Err(NotPersisted);
      }
      if app in manifest.entries {
        if manifest.entries[app].root == root {
          assert manifest.entries == manifest.entries[app := manifest.entries[app]];
          return Ok(Update(Some(root), manifest.generation, manifest.entries[app].updatedAt));
        }
      } else if |manifest.entries| >= MAX_ENTRIES {
        return Err(TooManyEntries);
      }
      var error := Publish(manifest.entries[app := Entry(root, now)], now, recordWrite, pointerWrite);
      if error.Some? {
        return Err(error.value);
      }
      r := Ok(Update(Some(root), manifest.generation, now));
    }

    /** `clear_own_app_root`. */
    method ClearOwnAppRoot(app: string, now: U64, persisted: bool, recordWrite: Write, pointerWrite: Write)
      returns (r: Result<Update>)
      requires Valid() && running
      modifies this
      ensures Valid() && old(history) <= history
      ensures stored == old(stored) - {app}
      ensures r.Ok? ==> app !in manifest.entries && manifest.entries == old(manifest).entries - {app}
      ensures r.Ok? ==> r.value == Update(None, manifest.generation, manifest.updatedAt)
      ensures r.Ok? ==> (manifest == old(manifest) <==> app !in old(manifest).entries)
      ensures r.Ok? && manifest != old(manifest) ==> Resolvable(app, now)
      ensures r.Err? ==> manifest == old(manifest) && (pointerWrite != Unknown ==> pointer == old(pointer))
    {
      var known := app in stored;
      stored := stored - {app};
      if known && !persisted {
        return Err(NotPersisted);
      }
      if app !in manifest.entries {
        assert manifest.entries == manifest.entries - {app};
        return Ok(Update(None, manifest.generation, manifest.updatedAt));
      }
      var error := Publish(manifest.entries - {app}, now, recordWrite, pointerWrite);
      if error.Some? {
        return Err(error.value);
      }
      r := Ok(Update(None, manifest.generation, now));
    }
  }

  /** `resolve_peer_root` after its two reads. */
  function Resolve(app: string, pointer: U64, pointerTime: U64, record: Manifest, now: U64)
    : Result<(Option<string>, U64)>
  {
    if pointerTime > SatAdd(now, MAX_FUTURE_SKEW) then Err(ImplausiblePointer)
    else if record.generation != pointer then Err(GenerationMismatch)
    else if record.updatedAt > SatAdd(now, MAX_FUTURE_SKEW) then Err(ImplausibleRecord)
    else Ok((if app in record.entries then Some(record.entries[app].root) else None, record.generation))
  }

  /** The same over a pointer that may never have been written. */
  function Resolution(app: string, pointer: Option<U64>, pointerTime: U64, record: Manifest, now: U64)
    : Result<(Option<string>, U64)>
  {
    if pointer.None? then Err(NoPointer) else Resolve(app, pointer.value, pointerTime, record, now)
  }

  /** A reader gets an answer exactly when pointer and record agree and neither is
      dated more than two minutes ahead of the reader's clock. */
  lemma ResolvesIff(app: string, pointer: U64, pointerTime: U64, record: Manifest, now: U64)
    ensures Resolve(app, pointer, pointerTime, record, now).Ok? <==>
            pointer == record.generation && pointerTime <= now + 120 && record.updatedAt <= now + 120
  {
  }

  /** A resolved root, or the absence of one, is what the peer committed under
      the generation the answer carries. */
  lemma ResolveGetsCommitted(ws: seq<World>, i: nat, j: nat, app: string, pointerTime: U64, now: U64)
    requires IsRun(ws) && i <= j < |ws| && NeverReuses(ws, j) && ws[i].pointer.Some?
    requires Resolve(app, ws[i].pointer.value, pointerTime, ws[j].record, now).Ok?
    ensures var (root, g) := Resolve(app, ws[i].pointer.value, pointerTime, ws[j].record, now).value;
            && g in ws[i].committed
            && (root == None <==> app !in ws[i].committed[g].entries)
            && (root.Some? ==> root.value == ws[i].committed[g].entries[app].root)
  {
    ReaderGetsCommitted(ws, i, j);
  }
}
