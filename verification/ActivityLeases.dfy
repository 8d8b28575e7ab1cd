/** Activity leases and the walk cooldown (api/local.rs, `AppActivityHub`).

    An application holds at most one lease; a five-second ticker starts one
    bounded walk for all applications that are due.  `View` is the hub's state,
    the functions say what one call does to it, and the class is the code. */
module ActivitySpec {
  import opened Basics

  const MIN_LEASE_SECS: nat := 30
  const MAX_LEASE_SECS: nat := 600

  datatype Level = Inactive | Background | Interactive | Realtime

  function Interval(level: Level): U64 {
    match level
    case Inactive => U64_MAX
    case Background => 120
    case Interactive => 45
    case Realtime => 20
  }

  datatype Lease = Lease(level: Level, expiresAt: U64, nextDueAt: U64)

  datatype View = View(leases: map<string, Lease>, lastStarted: map<string, U64>)

  const EMPTY := View(map[], map[])

  function ClampLease(secs: nat): nat {
    if secs < MIN_LEASE_SECS then MIN_LEASE_SECS else Min(secs, MAX_LEASE_SECS)
  }

  /** `set_lease`: a renewal never pulls the next run earlier than the existing
      schedule or the cooldown of the last walk. */
  function AfterLease(v: View, app: string, level: Level, secs: nat, now: U64): View {
    if level == Inactive then v.(leases := v.leases - {app})
    else
      var cooldown := if app in v.lastStarted then SatAdd(v.lastStarted[app], Interval(level)) else now;
      var previous := if app in v.leases then v.leases[app].nextDueAt else cooldown;
      var due: U64 := if previous >= cooldown then previous else cooldown;
      v.(leases := v.leases[app := Lease(level, SatAdd(now, ClampLease(secs)), due)])
  }

  /** The leases a tick at `now` selects. */
  function DueAt(v: View, now: U64): map<string, Lease> {
    map app | app in v.leases && v.leases[app].expiresAt > now && v.leases[app].nextDueAt <= now :: v.leases[app]
  }

  /** First locked section of a tick: drop expired leases, reschedule due ones. */
  function AfterSelect(v: View, now: U64): View {
    var due := DueAt(v, now);
    v.(leases := map app | app in v.leases && v.leases[app].expiresAt > now ::
                   if app in due then v.leases[app].(nextDueAt := SatAdd(now, Interval(due[app].level)))
                   else v.leases[app])
  }

  /** Second locked section: remember when the selected applications started. */
  function AfterFinish(v: View, due: map<string, Lease>, started: bool, now: U64): View {
    if started then v.(lastStarted := v.lastStarted + map app | app in due :: now) else v
  }

  /** One `set_lease` call. */
  datatype Change = Change(app: string, level: Level, secs: nat, at: U64)

  function AfterChanges(v: View, changes: seq<Change>): View {
    if changes == [] then v
    else
      var last := changes[|changes| - 1];
      AfterLease(AfterChanges(v, changes[..|changes| - 1]), last.app, last.level, last.secs, last.at)
  }

  /** A tick during which `between` lands between its two locked sections. */
  function AfterTick(v: View, started: bool, now: U64, between: seq<Change>): View {
    AfterFinish(AfterChanges(AfterSelect(v, now), between), DueAt(v, now), started, now)
  }

  // ---- the cooldown over every run ----

  /** No scheduled run is earlier than the last start plus the lease's interval. */
  ghost predicate CoolingAt(v: View, app: string) {
    app in v.leases ==>
      && v.leases[app].level != Inactive
      && (app in v.lastStarted ==> v.leases[app].nextDueAt >= SatAdd(v.lastStarted[app], Interval(v.leases[app].level)))
  }

  ghost predicate Cooling(v: View) {
    forall app :: CoolingAt(v, app)
  }

  datatype Op =
    | SetLease(change: Change)
    | Tick(started: bool, now: U64, between: seq<Change>)

  function Step(v: View, op: Op): View {
    match op
    case SetLease(c) => AfterLease(v, c.app, c.level, c.secs, c.at)
    case Tick(started, now, between) => AfterTick(v, started, now, between)
  }

  /** The hub after the first `n` operations. */
  function After(ops: seq<Op>, n: nat): View
    requires n <= |ops|
  {
    if n == 0 then EMPTY else Step(After(ops, n - 1), ops[n - 1])
  }

  /** Operation `n` started a walk for `app` at `at`, under a lease of `level`. */
  ghost predicate Starts(ops: seq<Op>, n: nat, app: string, at: U64, level: Level) {
    && n < |ops|
    && ops[n].Tick? && ops[n].started && ops[n].now == at
    && var due := DueAt(After(ops, n), at);
       app in due && due[app].level == level
  }

  // ---- which changes between a tick's sections keep the cooldown ----

  /** The level `app` holds after the changes; `Inactive` means no lease. */
  function FinalLevel(changes: seq<Change>, app: string, level: Level): Level {
    if changes == [] then level
    else
      var last := changes[|changes| - 1];
      if last.app == app then last.level else FinalLevel(changes[..|changes| - 1], app, level)
  }

  predicate Releases(changes: seq<Change>, i: nat, app: string)
    requires i < |changes|
  {
    changes[i].app == app && changes[i].level == Inactive
  }

  /** The application is never released from change `i` on. */
  predicate HeldSince(changes: seq<Change>, i: nat, app: string) {
    forall k :: i <= k < |changes| ==> !Releases(changes, k, app)
  }

  /** The earliest run a single change allows: its level's interval after the
      last recorded start, or its own time for an application that never ran. */
  function Earliest(v: View, c: Change): U64 {
    if c.app in v.lastStarted then SatAdd(v.lastStarted[c.app], Interval(c.level)) else c.at
  }

  /** Something holds the next run of `app` back until `x`: the schedule set by
      the tick, unless the lease was released since, or a change made after the
      last release. */
  ghost predicate HeldBack(v: View, scheduled: U64, app: string, changes: seq<Change>, x: U64) {
    || (HeldSince(changes, 0, app) && scheduled >= x)
    || exists k :: 0 <= k < |changes| && changes[k].app == app && HeldSince(changes, k, app)
        && Earliest(v, changes[k]) >= x
  }

  /** The cooldown of a walk started by this tick survives the changes: the
      lease ends up released, or its next run is held back for the interval of
      its final level. */
  ghost predicate KeepsCooldown(v: View, now: U64, app: string, changes: seq<Change>)
    requires app in v.leases
  {
    var level := FinalLevel(changes, app, v.leases[app].level);
    || level == Inactive
    || HeldBack(v, SatAdd(now, Interval(v.leases[app].level)), app, changes, SatAdd(now, Interval(level)))
  }

  lemma HeldBackStep(v: View, scheduled: U64, app: string, changes: seq<Change>, c: Change, x: U64)
    ensures c.app != app ==> (HeldBack(v, scheduled, app, changes + [c], x)
        <==> HeldBack(v, scheduled, app, changes, x))
    ensures c.app == app && c.level != Inactive ==>
              (HeldBack(v, scheduled, app, changes + [c], x) <==>
                  HeldBack(v, scheduled, app, changes, x) || Earliest(v, c) >= x)
    ensures c.app == app && c.level == Inactive ==> !HeldBack(v, scheduled, app, changes + [c], x)
  {
    var all := changes + [c];
    forall k | 0 <= k <= |changes|
      ensures HeldSince(all, k, app) <==> HeldSince(changes, k, app) && !(c.app == app && c.level == Inactive)
    {
      assert forall i :: k <= i < |changes| ==> (Releases(all, i, app) <==> Releases(changes, i, app));
      assert Releases(all, |changes|, app) <==> c.app == app && c.level == Inactive;
    }
    assert all[|changes|] == c;
    assert forall k :: 0 <= k < |changes| ==> all[k] == changes[k];
  }

  /** The lease the changes leave behind. */
  lemma {:induction false} LeaseAfterChanges(v: View, w: View, app: string, scheduled: U64, changes: seq<Change>,
      x: U64)
    requires w.lastStarted == v.lastStarted
    requires app in w.leases && w.leases[app].nextDueAt == scheduled && w.leases[app].level != Inactive
    ensures var z, level := AfterChanges(w, changes), FinalLevel(changes, app, w.leases[app].level);
            && z.lastStarted == v.lastStarted
            && (app in z.leases <==> level != Inactive)
            && (app in z.leases ==> z.leases[app].level == level)
            && (app in z.leases ==> (z.leases[app].nextDueAt >= x <==> HeldBack(v, scheduled, app, changes, x)))
            && (app !in z.leases ==> !HeldBack(v, scheduled, app, changes, x))
    decreases |changes|
  {
    if changes != [] {
      var last := |changes| - 1;
      assert changes == changes[..last] + [changes[last]];
      LeaseAfterChanges(v, w, app, scheduled, changes[..last], x);
      HeldBackStep(v, scheduled, app, changes[..last], changes[last], x);
    }
  }

  /** Exactly which lease changes between a tick's two locked sections keep the
      cooldown of an application whose walk that tick starts, for any number of
      changes of any applications. */
  lemma ChangesBetweenSectionsIff(v: View, now: U64, app: string, changes: seq<Change>)
    requires Cooling(v) && app in DueAt(v, now)
    ensures CoolingAt(AfterTick(v, true, now, changes), app) <==> KeepsCooldown(v, now, app, changes)
  {
    assert CoolingAt(v, app);
    var level := v.leases[app].level;
    var w := AfterSelect(v, now);
    LeaseAfterChanges(v, w, app, SatAdd(now, Interval(level)), changes,
        SatAdd(now, Interval(FinalLevel(changes, app, level))));
  }

  /** Applications the tick does not start keep their cooldown anyhow. */
  lemma {:induction false} ChangesKeepCooling(v: View, changes: seq<Change>)
    requires Cooling(v)
    ensures Cooling(AfterChanges(v, changes))
    ensures AfterChanges(v, changes).lastStarted == v.lastStarted
    decreases |changes|
  {
    if changes != [] {
      var last := changes[|changes| - 1];
      var w := AfterChanges(v, changes[..|changes| - 1]);
      ChangesKeepCooling(v, changes[..|changes| - 1]);
      forall app ensures CoolingAt(AfterLease(w, last.app, last.level, last.secs, last.at), app) {
        assert CoolingAt(w, app);
      }
    }
  }

  lemma SelectKeepsCooling(v: View, now: U64)
    requires Cooling(v)
    ensures Cooling(AfterSelect(v, now)) && AfterSelect(v, now).lastStarted == v.lastStarted
  {
    forall app ensures CoolingAt(AfterSelect(v, now), app) {
      assert CoolingAt(v, app);
    }
  }

  /** A whole tick keeps every cooldown exactly when it starts no walk, or its
      changes keep the cooldown of each application it starts. */
  lemma TickCoolingIff(v: View, started: bool, now: U64, changes: seq<Change>)
    requires Cooling(v)
    ensures Cooling(AfterTick(v, started, now, changes)) <==>
            (started ==> forall app :: app in DueAt(v, now) ==> KeepsCooldown(v, now, app, changes))
  {
    SelectKeepsCooling(v, now);
    var w := AfterChanges(AfterSelect(v, now), changes);
    ChangesKeepCooling(AfterSelect(v, now), changes);
    var z := AfterTick(v, started, now, changes);
    forall app ensures CoolingAt(z, app) <==>
                       (started && app in DueAt(v, now) ==> KeepsCooldown(v, now, app, changes)) {
      assert CoolingAt(w, app);
      if started && app in DueAt(v, now) { ChangesBetweenSectionsIff(v, now, app, changes); }
    }
  }

  /** Up to operation `n` no change landed where it defeats a cooldown; in
      particular when nothing ever lands between a tick's sections. */
  ghost predicate Undisturbed(ops: seq<Op>, n: nat)
    requires n <= |ops|
  {
    forall k :: 0 <= k < n && ops[k].Tick? && ops[k].started ==> UndisturbedAt(ops, k)
  }

  ghost predicate UndisturbedAt(ops: seq<Op>, k: nat)
    requires k < |ops| && ops[k].Tick?
  {
    forall app :: app in DueAt(After(ops, k), ops[k].now)
        ==> KeepsCooldown(After(ops, k), ops[k].now, app, ops[k].between)
  }

  lemma StepCoolingIff(ops: seq<Op>, k: nat)
    requires k < |ops| && Cooling(After(ops, k))
    ensures Cooling(After(ops, k + 1)) <==> (ops[k].Tick? && ops[k].started ==> UndisturbedAt(ops, k))
  {
    var v := After(ops, k);
    match ops[k]
    case SetLease(c) =>
      ChangesKeepCooling(v, [c]);
      assert AfterChanges(v, [c][..0]) == v;
    case Tick(started, now, between) =>
      TickCoolingIff(v, started, now, between);
  }

  /** In every run the cooldowns hold throughout exactly when the run is undisturbed. */
  lemma {:induction false} RunCoolingIff(ops: seq<Op>, n: nat)
    requires n <= |ops|
    ensures Undisturbed(ops, n) <==> forall k :: 0 <= k <= n ==> Cooling(After(ops, k))
  {
    if n > 0 {
      RunCoolingIff(ops, n - 1);
      if Undisturbed(ops, n - 1) {
        StepCoolingIff(ops, n - 1);
      }
    }
  }

  lemma UndisturbedCooling(ops: seq<Op>, n: nat)
    requires n <= |ops| && Undisturbed(ops, n)
    ensures Cooling(After(ops, n))
  {
    RunCoolingIff(ops, n);
    assert Cooling(After(ops, n));
  }

  /** Atomic ticks are undisturbed. */
  lemma AtomicTicksUndisturbed(ops: seq<Op>, n: nat)
    requires n <= |ops| && forall k :: 0 <= k < n && ops[k].Tick? ==> ops[k].between == []
    ensures Undisturbed(ops, n)
  {
    forall k | 0 <= k < n && ops[k].Tick? && ops[k].started ensures UndisturbedAt(ops, k) {
      assert HeldSince([], 0, "");
    }
  }

  /** The recorded start time never moves back: it is at or after every start so far. */
  lemma {:induction false} StartIsRecorded(ops: seq<Op>, i: nat, n: nat, app: string, at: U64, level: Level)
    requires i < n <= |ops| && Starts(ops, i, app, at, level) && Undisturbed(ops, n - 1)
    ensures app in After(ops, n).lastStarted && After(ops, n).lastStarted[app] >= at
    decreases n - i
  {
    UndisturbedCooling(ops, n - 1);
    assert CoolingAt(After(ops, n - 1), app);
    RecordedStarts(After(ops, n - 1), ops[n - 1]);
    if i + 1 < n {
      StartIsRecorded(ops, i, n - 1, app, at, level);
    }
  }

  /** One operation records exactly the starts it makes. */
  lemma RecordedStarts(v: View, op: Op)
    requires Cooling(v)
    ensures Step(v, op).lastStarted ==
            if op.Tick? && op.started then v.lastStarted + map app | app in DueAt(v, op.now) :: op.now
                else v.lastStarted
  {
    match op
    case SetLease(c) =>
    case Tick(started, now, between) =>
      SelectKeepsCooling(v, now);
      ChangesKeepCooling(AfterSelect(v, now), between);
  }

  /** Two walks for one application are at least the second lease's interval
      apart, whatever renewals, level changes, deactivations, expiries and clock
      readings come between, in every undisturbed run: 20, 45 or 120 seconds on any
      clock not at the end of its 64 bits. */
  lemma WalksAreSpaced(ops: seq<Op>, i: nat, j: nat, app: string, first: U64, second: U64, level: Level, level': Level)
    requires i < j && Starts(ops, i, app, first, level) && Starts(ops, j, app, second, level')
    requires Undisturbed(ops, j)
    ensures second >= SatAdd(first, Interval(level'))
    ensures first + 120 <= U64_MAX ==>
            second - first >= if level' == Realtime then 20 else if level' == Interactive then 45 else 120
  {
    StartIsRecorded(ops, i, j, app, first, level);
    UndisturbedCooling(ops, j);
    assert CoolingAt(After(ops, j), app);
  }

  // ---- a lease gets its walks ----

  /** Leasing, renewing or changing the level makes an application due exactly while
      the lease lasts, thirty seconds to ten minutes; not before the schedule it
      had; and not before the level's interval since its last walk, or at once if it
      never had one. */
  lemma LeaseDueIff(v: View, app: string, level: Level, secs: nat, at: U64, now: U64)
    requires level != Inactive
    ensures app in DueAt(AfterLease(v, app, level, secs, at), now) <==>
            && now < SatAdd(at, if secs < 30 then 30 else if secs > 600 then 600 else secs)
            && (app in v.leases ==> now >= v.leases[app].nextDueAt)
            && (app !in v.lastStarted ==> now >= at)
            && (app in v.lastStarted ==>
                  now >= SatAdd(v.lastStarted[app],
                                if level == Realtime then 20 else if level == Interactive then 45 else 120))
  {
  }

  /** A tick that selects an application, whether its walk starts or not, selects it
      again exactly from the level's interval on and until the lease ends. */
  lemma SelectedAgainIff(v: View, app: string, started: bool, now: U64, later: U64)
    requires app in DueAt(v, now) && v.leases[app].level != Inactive
    ensures app in DueAt(AfterTick(v, started, now, []), later) <==>
            && later < v.leases[app].expiresAt
            && later >= SatAdd(now, if v.leases[app].level == Realtime then 20
                                    else if v.leases[app].level == Interactive then 45 else 120)
  {
    assert AfterChanges(AfterSelect(v, now), []) == AfterSelect(v, now);
  }

  /** A tick that does not select a lease leaves it alone, or drops it if it ended. */
  lemma UnselectedStay(v: View, app: string, started: bool, now: U64)
    requires app in v.leases && app !in DueAt(v, now)
    ensures var w := AfterTick(v, started, now, []);
            && (app in w.leases <==> now < v.leases[app].expiresAt)
            && (app in w.leases ==> w.leases[app] == v.leases[app])
  {
    assert AfterChanges(AfterSelect(v, now), []) == AfterSelect(v, now);
  }

  /** Operation `k` gives `app` no walk and no other level: a change for another
      application, a renewal, or a tick before `until` within the lease. */
  ghost predicate Waits(ops: seq<Op>, k: nat, app: string, level: Level, until: U64)
    requires k < |ops|
  {
    match ops[k]
    case SetLease(c) => c.app != app || c.level == level
    case Tick(_, now, between) =>
      between == [] && now < until && app in After(ops, k).leases && now < After(ops, k).leases[app].expiresAt
  }

  ghost predicate Scheduled(v: View, app: string, level: Level, due: U64, since: U64) {
    && app in v.leases && v.leases[app].level == level && v.leases[app].nextDueAt == due
    && app in v.lastStarted && v.lastStarted[app] == since
  }

  lemma WaitsScheduled(ops: seq<Op>, k: nat, app: string, level: Level, since: U64)
    requires k < |ops| && level != Inactive
    requires Scheduled(After(ops, k), app, level, SatAdd(since, Interval(level)), since)
    requires Waits(ops, k, app, level, SatAdd(since, Interval(level)))
    ensures Scheduled(After(ops, k + 1), app, level, SatAdd(since, Interval(level)), since)
  {
    var v := After(ops, k);
    if ops[k].Tick? {
      assert app !in DueAt(v, ops[k].now);
      UnselectedStay(v, app, ops[k].started, ops[k].now);
      assert AfterChanges(AfterSelect(v, ops[k].now), []) == AfterSelect(v, ops[k].now);
    }
  }

  lemma StartSchedules(ops: seq<Op>, i: nat, app: string, at: U64, level: Level)
    requires Starts(ops, i, app, at, level) && ops[i].between == []
    ensures Scheduled(After(ops, i + 1), app, level, SatAdd(at, Interval(level)), at)
  {
    var v := After(ops, i);
    assert AfterChanges(AfterSelect(v, at), []) == AfterSelect(v, at);
  }

  lemma {:induction false} StaysScheduled(ops: seq<Op>, i: nat, n: nat, app: string, at: U64, level: Level)
    requires i < n <= |ops| && Starts(ops, i, app, at, level) && ops[i].between == [] && level != Inactive
    requires forall k :: i < k < n ==> Waits(ops, k, app, level, SatAdd(at, Interval(level)))
    ensures Scheduled(After(ops, n), app, level, SatAdd(at, Interval(level)), at)
    decreases n
  {
    if n == i + 1 {
      StartSchedules(ops, i, app, at, level);
    } else {
      StaysScheduled(ops, i, n - 1, app, at, level);
      WaitsScheduled(ops, n - 1, app, level, at);
    }
  }

  /** Walks are not starved either: while the application renews its lease at one
      level, the first tick at or after the interval selects it, however many
      renewals, other applications and earlier ticks come between; the tick starts
      the walk if the walker takes it. */
  lemma NextWalkIff(ops: seq<Op>, i: nat, n: nat, app: string, at: U64, level: Level)
    requires i < n < |ops| && Starts(ops, i, app, at, level) && ops[i].between == [] && level != Inactive
    requires forall k :: i < k < n ==> Waits(ops, k, app, level, SatAdd(at, Interval(level)))
    requires ops[n].Tick? && ops[n].started && at + 120 <= U64_MAX
    requires app in After(ops, n).leases ==> ops[n].now < After(ops, n).leases[app].expiresAt
    ensures Starts(ops, n, app, ops[n].now, level) <==>
            ops[n].now - at >= if level == Realtime then 20 else if level == Interactive then 45 else 120
  {
    StaysScheduled(ops, i, n, app, at, level);
  }

  /** A lease taken at second 60, a tick at that second with a release and a
      retake between its sections, and the next tick five seconds later. */
  function RetakeRun(): seq<Op> {
    [SetLease(Change("app", Realtime, 60, 60)),
     Tick(true, 60, [Change("app", Inactive, 60, 60), Change("app", Realtime, 60, 60)]), Tick(true, 65, [])]
  }

  const TAKEN := View(map["app" := Lease(Realtime, 120, 60)], map[])

  const RETAKEN := View(map["app" := Lease(Realtime, 120, 60)], map["app" := 60])

  lemma Next(ops: seq<Op>, n: nat, v: View)
    requires n < |ops| && After(ops, n) == v
    ensures After(ops, n + 1) == Step(v, ops[n])
  {
  }

  lemma RetakeTick()
    ensures AfterTick(TAKEN, true, 60, [Change("app", Inactive, 60, 60), Change("app", Realtime, 60, 60)]) == RETAKEN
    ensures DueAt(TAKEN, 60) == TAKEN.leases && DueAt(RETAKEN, 65) == RETAKEN.leases
  {
    var release, retake := Change("app", Inactive, 60, 60), Change("app", Realtime, 60, 60);
    var w := AfterSelect(TAKEN, 60);
    assert DueAt(TAKEN, 60) == TAKEN.leases;
    assert w == View(map["app" := Lease(Realtime, 120, 80)], map[]);
    assert [release, retake][..1] == [release] && [release][..0] == [];
    assert AfterChanges(w, []) == w;
    assert AfterChanges(w, [release]) == View(map[], map[]);
    assert AfterChanges(w, [release, retake]) == TAKEN;
  }

  lemma RetakeDisturbs(ops: seq<Op>, n: nat)
    requires n + 1 <= |ops| && After(ops, n + 1) == RETAKEN
    requires forall k :: 0 <= k < n && ops[k].Tick? ==> ops[k].between == []
    ensures Undisturbed(ops, n) && !Undisturbed(ops, n + 1)
  {
    AtomicTicksUndisturbed(ops, n);
    assert !CoolingAt(RETAKEN, "app");
    if Undisturbed(ops, n + 1) {
      UndisturbedCooling(ops, n + 1);
    }
  }

  /** Ticks come every five seconds, and so do these two walks. */
  lemma RetakeDefeatsCooldown()
    ensures Starts(RetakeRun(), 1, "app", 60, Realtime) && Starts(RetakeRun(), 2, "app", 65, Realtime)
    ensures Undisturbed(RetakeRun(), 1) && !Undisturbed(RetakeRun(), 2)
  {
    var ops := RetakeRun();
    Next(ops, 0, EMPTY);
    RetakeTick();
    assert After(ops, 1) == TAKEN;
    Next(ops, 1, TAKEN);
    RetakeDisturbs(ops, 1);
  }
}

module ActivityLeases {
  import opened Basics
  import opened ActivitySpec

  class AppActivityHub {
    var leases: map<string, Lease>
    var lastStarted: map<string, U64>

    constructor ()
      ensures Now() == EMPTY
    {
      leases := map[];
      lastStarted := map[];
    }

    ghost function Now(): View
      reads this
    {
      View(leases, lastStarted)
    }

    /** `set_lease`; answers the lease's expiry, or the current time for a release. */
    method SetLease(app: string, level: Level, secs: nat, now: U64) returns (expiresAt: U64)
      modifies this`leases
      ensures Now() == AfterLease(old(Now()), app, level, secs, now)
      ensures expiresAt == if level == Inactive then now
                           else SatAdd(now, if secs < 30 then 30 else if secs > 600 then 600 else secs)
      ensures if level == Inactive then leases == old(leases) - {app}
              else app in leases && leases[app].expiresAt == expiresAt && leases[app].level == level
                   && leases - {app} == old(leases) - {app}
    {
      if level == Inactive {
        leases := leases - {app};
        return now;
      }
      expiresAt := SatAdd(now, ClampLease(secs));
      var cooldown := now;
      if app in lastStarted {
        cooldown := SatAdd(lastStarted[app], Interval(level));
      }
      var due := cooldown;
      if app in leases && leases[app].nextDueAt > cooldown {
        due := leases[app].nextDueAt;
      }
      leases := leases[app := Lease(level, expiresAt, due)];
    }

    /** First locked section of a tick. */
    method Select(now: U64) returns (due: map<string, Lease>)
      modifies this`leases
      ensures Now() == AfterSelect(old(Now()), now)
      ensures due == DueAt(old(Now()), now)
    {
      leases := map app | app in leases && leases[app].expiresAt > now :: leases[app];
      due := map app | app in leases && leases[app].nextDueAt <= now :: leases[app];
      Reschedule(due, now);
    }

    /** The loop over the due leases. */
    method Reschedule(due: map<string, Lease>, now: U64)
      requires due.Keys <= leases.Keys
      modifies this`leases
      ensures leases == map app | app in old(leases) ::
                          if app in due then old(leases)[app].(nextDueAt := SatAdd(now, Interval(due[app].level)))
                          else old(leases)[app]
    {
      ghost var retained := leases;
      var rest := due.Keys;
      while rest != {}
        invariant rest <= due.Keys && leases.Keys == retained.Keys
        invariant forall app :: app in retained ==>
                    leases[app] == if app in due && app !in rest
                                   then retained[app].(nextDueAt := SatAdd(now, Interval(due[app].level)))
                                   else retained[app]
        decreases rest
      {
        var app :| app in rest;
        leases := leases[app := leases[app].(nextDueAt := SatAdd(now, Interval(due[app].level)))];
        rest := rest - {app};
      }
    }

    /** What follows the first section.  The walk starts only when something is
        due, the walker is free, it has nodes to visit and it accepts the request;
        one walk serves every due application, at the highest level among them. */
    method Finish(due: map<string, Lease>, now: U64, walkerBusy: bool, haveNodes: bool, accepted: bool)
      returns (walk: Option<Level>)
      modifies this`lastStarted
      ensures Now() == AfterFinish(old(Now()), due, walk.Some?, now)
      ensures walk.Some? <==> due != map[] && !walkerBusy && haveNodes && accepted
      ensures walk.Some? ==> forall app :: app in due ==> Rank(due[app].level) <= Rank(walk.value)
      ensures walk.Some? ==> exists app :: app in due && due[app].level == walk.value
    {
      if due == map[] || walkerBusy || !haveNodes || !accepted {
        return None;
      }
      var level := Highest(due);
      var started := map app | app in due :: now;
      lastStarted := lastStarted + started;
      walk := Some(level);
    }

    /** One tick with no lease change between its sections. */
    method Tick(now: U64, walkerBusy: bool, haveNodes: bool, accepted: bool) returns (walk: Option<Level>)
      modifies this
      ensures Now() == AfterTick(old(Now()), walk.Some?, now, [])
      ensures walk.Some? <==> DueAt(old(Now()), now) != map[] && !walkerBusy && haveNodes && accepted
      ensures walk.Some? ==>
                var due := DueAt(old(Now()), now);
                && (forall app :: app in due ==> Rank(due[app].level) <= Rank(walk.value))
                && (exists app :: app in due && due[app].level == walk.value)
    {
      var due := Select(now);
      walk := Finish(due, now, walkerBusy, haveNodes, accepted);
    }
  }

  function Rank(level: Level): nat {
    match level
    case Inactive => 0
    case Background => 1
    case Interactive => 2
    case Realtime => 3
  }

  /** The higher level is the one that walks more often. */
  lemma HigherIsFaster(a: Level, b: Level)
    ensures Rank(a) <= Rank(b) <==> Interval(a) >= Interval(b)
  {
  }

  /** The highest level among the due leases. */
  method Highest(due: map<string, Lease>) returns (level: Level)
    requires due != map[]
    ensures forall app :: app in due ==> Rank(due[app].level) <= Rank(level)
    ensures exists app :: app in due && due[app].level == level
  {
    var first :| first in due;
    level := due[first].level;
    var rest := due.Keys - {first};
    while rest != {}
      invariant rest <= due.Keys
      invariant forall app :: app in due && app !in rest ==> Rank(due[app].level) <= Rank(level)
      invariant exists app :: app in due && due[app].level == level
      decreases rest
    {
      var app :| app in rest;
      if Rank(due[app].level) >= Rank(level) {
        level := due[app].level;
      }
      rest := rest - {app};
    }
  }
}
