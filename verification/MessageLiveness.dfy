/** Delivery while publishing goes on (api/local.rs): every schedule of all the
    steps, publications of every application included, that gives the subscriber
    and the owed broadcasts their turns. */
module MessageLiveness {
  import opened Basics
  import opened HubSpec
  import opened MessageDelivery

  /** The steps the subscriber takes. */
  predicate Subscriber(e: Event) {
    Own(e) && !e.Broadcast?
  }

  ghost predicate Settled(s: State, k: Key) {
    k in s.delivered || k in s.evicted
  }

  ghost predicate Outstanding(s: State, k: Key) {
    k in s.accepted && !Settled(s, k)
  }

  // ---- how far a message is from its subscriber ----

  /** 1: in the snapshot being written.  2: recovery owed.  3: lag not yet noticed.
      4: unread in the channel.  5: not broadcast yet.  6: nobody subscribed yet. */
  datatype Rank = Rank(stage: nat, place: nat, debt: nat)

  function RankOf(s: State, k: Key): Rank {
    if Position(s.todo, k).Some? then Rank(1, Position(s.todo, k).value, if s.awaiting.Some? then 1 else 0)
    else if s.phase == Unsubscribed then Rank(6, 0, 0)
    else if s.recover then Rank(2, 0, Debt(s))
    else if s.lagged then Rank(3, 0, Debt(s))
    else if Position(s.unread, k).Some? then Rank(4, Position(s.unread, k).value, Debt(s))
    else Rank(5, 0, 0)
  }

  predicate Lower(a: Rank, b: Rank) {
    || a.stage < b.stage
    || (a.stage == b.stage && (a.place < b.place || (a.place == b.place && a.debt < b.debt)))
  }

  /** The step that brings the message closer at its present stage. */
  predicate Helpful(s: State, e: Event, k: Key) {
    if RankOf(s, k).stage == 5 then e.Broadcast? && e.i < |s.inflight| && KeyOf(s.inflight[e.i]) == k
    else Subscriber(e)
  }

  /** Settled, or no further away; closer when `strict`. */
  ghost predicate NoFurther(s: State, t: State, k: Key, strict: bool) {
    || Settled(t, k)
    || (Outstanding(t, k) && (Lower(RankOf(t, k), RankOf(s, k)) || (!strict && RankOf(t, k) == RankOf(s, k))))
  }

  // ---- positions ----

  lemma PositionMember(q: seq<Message>, k: Key)
    ensures Position(q, k).Some? <==> k in KeysOf(q)
  {
    if k in KeysOf(q) {
      var m :| m in q && KeyOf(m) == k;
      var i :| 0 <= i < |q| && q[i] == m;
    }
  }

  lemma PositionTail(q: seq<Message>, k: Key)
    requires q != [] && KeyOf(q[0]) != k
    ensures Position(q, k).Some? <==> Position(q[1..], k).Some?
    ensures Position(q, k).Some? ==> Position(q, k).value == Position(q[1..], k).value + 1
  {
  }

  lemma PositionGrown(q: seq<Message>, m: Message, k: Key)
    ensures Position(q, k).Some? ==> Position(q + [m], k) == Position(q, k)
    ensures Position(q, k).None? ==> Position(q + [m], k) == if KeyOf(m) == k then Some(|q|) else None
  {
    var grown := q + [m];
    if Position(q, k).Some? {
      PositionIs(grown, k, Position(q, k).value);
    } else if KeyOf(m) == k {
      PositionIs(grown, k, |q|);
    }
  }

  lemma SnapshotHolds(s: State, k: Key)
    requires Safe(s) && Outstanding(s, k)
    ensures Position(ForApp(s.log, s.app), k).Some? && k.app == s.app
  {
    assert Pending(s, k);
    var m :| m in s.log && m.app == s.app && KeyOf(m) == k;
    ForAppMembers(s.log, s.app);
    PositionMember(ForApp(s.log, s.app), k);
  }

  // ---- one step ----

  lemma OthersStep(s: State, e: Event, k: Key)
    requires Enabled(s, e) && Outstanding(s, k) && (e.Enqueue? || e.AcknowledgeOther?)
    ensures NoFurther(s, Apply(s, e), k, false)
  {
    assert RankOf(Apply(s, e), k) == RankOf(s, k);
  }

  lemma BroadcastStep(s: State, i: nat, k: Key)
    requires i < |s.inflight| && Outstanding(s, k)
    ensures NoFurther(s, Apply(s, Broadcast(i)), k, Helpful(s, Broadcast(i), k) && s.phase != Unsubscribed)
  {
    PositionGrown(s.unread, s.inflight[i], k);
  }

  lemma SnapshotStep(s: State, e: Event, k: Key)
    requires Safe(s) && Enabled(s, e) && Outstanding(s, k) && (e.Subscribe? || e.Recover?)
    ensures NoFurther(s, Apply(s, e), k, true)
  {
    SnapshotHolds(s, k);
  }

  lemma WriteEffect(s: State)
    requires Enabled(s, WriteNext)
    ensures var t := Apply(s, WriteNext);
            && t == s.(todo := s.todo[1..], awaiting := Some(KeyOf(s.todo[0])), written := t.written,
                       delivered := s.delivered + {KeyOf(s.todo[0])})
  {
  }

  lemma WriteStep(s: State, k: Key)
    requires Enabled(s, WriteNext) && Outstanding(s, k)
    ensures NoFurther(s, Apply(s, WriteNext), k, Helpful(s, WriteNext, k))
  {
    WriteEffect(s);
    if KeyOf(s.todo[0]) != k {
      PositionTail(s.todo, k);
    }
  }

  lemma ReceiveStep(s: State, k: Key)
    requires Enabled(s, Receive) && Outstanding(s, k) && k.app == s.app
    ensures NoFurther(s, Apply(s, Receive), k, Helpful(s, Receive, k))
  {
    if KeyOf(s.unread[0]) != k {
      PositionTail(s.unread, k);
    }
  }

  lemma AcknowledgeStep(s: State, k: Key)
    requires Enabled(s, Acknowledge) && Outstanding(s, k) && s.phase != Unsubscribed
    ensures NoFurther(s, Apply(s, Acknowledge), k, Helpful(s, Acknowledge, k))
  {
  }

  lemma ReportStep(s: State, k: Key)
    requires Enabled(s, ReportLag) && Outstanding(s, k)
    ensures NoFurther(s, Apply(s, ReportLag), k, true)
  {
  }

  /** No step of anyone takes an outstanding message further away, and a helpful
      one settles it or brings it closer. */
  lemma StepNoFurther(s: State, e: Event, k: Key)
    requires Safe(s) && Enabled(s, e) && Outstanding(s, k)
    ensures NoFurther(s, Apply(s, e), k, Helpful(s, e, k))
  {
    SnapshotHolds(s, k);
    match e
    case Enqueue(_) => OthersStep(s, e, k);
    case AcknowledgeOther(_) => OthersStep(s, e, k);
    case Broadcast(i) => BroadcastStep(s, i, k);
    case Subscribe => SnapshotStep(s, e, k);
    case Recover => SnapshotStep(s, e, k);
    case WriteNext => WriteStep(s, k);
    case Receive => ReceiveStep(s, k);
    case Acknowledge => AcknowledgeStep(s, k);
    case ReportLag => ReportStep(s, k);
  }

  /** While a message is outstanding, its helpful step can be taken. */
  lemma HelpIsPossible(s: State, k: Key)
    requires Safe(s) && Outstanding(s, k)
    ensures RankOf(s, k).stage == 5 ==> k in KeysOf(s.inflight)
    ensures RankOf(s, k).stage != 5 ==> exists e :: Subscriber(e) && Enabled(s, e)
  {
    SnapshotHolds(s, k);
    PositionMember(s.todo, k);
    PositionMember(s.unread, k);
    if RankOf(s, k).stage == 5 {
      assert Pending(s, k) && Sourced(s);
    } else if s.inflight == [] || s.phase == Unsubscribed {
      assert Subscriber(DrainStep(s)) && Enabled(s, DrainStep(s));
    } else {
      var quiet := s.(inflight := []);
      assert Subscriber(DrainStep(quiet)) && Enabled(s, DrainStep(quiet));
    }
  }

  // ---- fair schedules ----

  /** At step `m` the subscriber moves, or has nothing to do. */
  ghost predicate SubscriberTurn(s: State, f: Schedule, m: nat) {
    || (Subscriber(Chosen(f, m)) && Enabled(At(s, f, m), Chosen(f, m)))
    || forall e :: Subscriber(e) ==> !Enabled(At(s, f, m), e)
  }

  /** At step `m` a message with key `k` is broadcast, or none is owed. */
  ghost predicate BroadcastTurn(s: State, f: Schedule, m: nat, k: Key) {
    var t, e := At(s, f, m), Chosen(f, m);
    (e.Broadcast? && e.i < |t.inflight| && KeyOf(t.inflight[e.i]) == k) || k !in KeysOf(t.inflight)
  }

  ghost predicate SubscriberComes(s: State, f: Schedule, n: nat) {
    exists m: nat :: m >= n && SubscriberTurn(s, f, m)
  }

  ghost predicate BroadcastComes(s: State, f: Schedule, n: nat, k: Key) {
    exists m: nat :: m >= n && BroadcastTurn(s, f, m, k)
  }

  /** Everyone else may do anything, as often as they like. */
  ghost predicate Fair(s: State, f: Schedule, k: Key) {
    && (forall n: nat :: SubscriberComes(s, f, n))
    && (forall n: nat :: BroadcastComes(s, f, n, k))
  }

  lemma {:induction false} AtReaches(s: State, f: Schedule, n: nat) returns (run: seq<Event>)
    ensures Reaches(s, run, At(s, f, n))
  {
    run := [];
    if n > 0 {
      run := AtReaches(s, f, n - 1);
      if Enabled(At(s, f, n - 1), Chosen(f, n - 1)) {
        OneStepReaches(At(s, f, n - 1), Chosen(f, n - 1));
        ReachesTrans(s, run, At(s, f, n - 1), [Chosen(f, n - 1)], At(s, f, n));
        run := run + [Chosen(f, n - 1)];
      }
    }
  }

  lemma AtSafe(s: State, f: Schedule, n: nat)
    requires Safe(s)
    ensures Safe(At(s, f, n))
  {
    var run := AtReaches(s, f, n);
    RunSafe(s, run, At(s, f, n));
  }

  lemma NextNoFurther(s: State, f: Schedule, h: nat, k: Key)
    requires Safe(s) && Outstanding(At(s, f, h), k)
    ensures NoFurther(At(s, f, h), At(s, f, h + 1), k, false)
  {
    AtSafe(s, f, h);
    if Enabled(At(s, f, h), Chosen(f, h)) {
      StepNoFurther(At(s, f, h), Chosen(f, h), k);
    }
  }

  /** Outstanding in both, and as far away. */
  ghost predicate AsFar(s: State, t: State, k: Key) {
    Outstanding(s, k) && Outstanding(t, k) && RankOf(t, k) == RankOf(s, k)
  }

  lemma AsFarThenNoFurther(s: State, t: State, u: State, k: Key)
    requires AsFar(s, t, k) && NoFurther(t, u, k, false)
    ensures AsFar(s, u, k) || NoFurther(s, u, k, true)
  {
  }

  /** From step `n` to step `m` the message gets settled or closer, or is at `m`
      exactly as far as at `n`. */
  lemma {:induction false} Scan(s: State, f: Schedule, n: nat, m: nat, k: Key) returns (h: nat)
    requires Safe(s) && n <= m && Outstanding(At(s, f, n), k)
    ensures n <= h <= m
    ensures NoFurther(At(s, f, n), At(s, f, h), k, true) || (h == m && AsFar(At(s, f, n), At(s, f, m), k))
    decreases m
  {
    h := n;
    if n < m {
      h := Scan(s, f, n, m - 1, k);
      if !NoFurther(At(s, f, n), At(s, f, h), k, true) {
        NextNoFurther(s, f, h, k);
        AsFarThenNoFurther(At(s, f, n), At(s, f, h), At(s, f, h + 1), k);
        h := m;
      }
    }
  }

  /** The step at which fairness helps. */
  lemma HelpComes(s: State, f: Schedule, n: nat, k: Key) returns (m: nat)
    requires Fair(s, f, k)
    ensures m >= n
    ensures if RankOf(At(s, f, n), k).stage == 5 then BroadcastTurn(s, f, m, k) else SubscriberTurn(s, f, m)
  {
    if RankOf(At(s, f, n), k).stage == 5 {
      assert BroadcastComes(s, f, n, k);
      m :| m >= n && BroadcastTurn(s, f, m, k);
    } else {
      assert SubscriberComes(s, f, n);
      m :| m >= n && SubscriberTurn(s, f, m);
    }
  }

  lemma HelpHelps(s: State, f: Schedule, m: nat, k: Key)
    requires Safe(s) && Outstanding(At(s, f, m), k)
    requires if RankOf(At(s, f, m), k).stage == 5 then BroadcastTurn(s, f, m, k) else SubscriberTurn(s, f, m)
    ensures NoFurther(At(s, f, m), At(s, f, m + 1), k, true)
  {
    AtSafe(s, f, m);
    HelpIsPossible(At(s, f, m), k);
    StepNoFurther(At(s, f, m), Chosen(f, m), k);
  }

  /** Up to and including the next helpful turn. */
  lemma OneRound(s: State, f: Schedule, n: nat, k: Key) returns (h: nat)
    requires Safe(s) && Fair(s, f, k) && Outstanding(At(s, f, n), k)
    ensures h >= n && NoFurther(At(s, f, n), At(s, f, h), k, true)
  {
    var turn := HelpComes(s, f, n, k);
    h := Scan(s, f, n, turn, k);
    if !NoFurther(At(s, f, n), At(s, f, h), k, true) {
      HelpHelps(s, f, h, k);
      h := h + 1;
    }
  }

  lemma {:induction false} KeySettles(s: State, f: Schedule, n: nat, k: Key) returns (m: nat)
    requires Safe(s) && Fair(s, f, k) && k in At(s, f, n).accepted
    ensures m >= n && Settled(At(s, f, m), k)
    decreases RankOf(At(s, f, n), k).stage, RankOf(At(s, f, n), k).place, RankOf(At(s, f, n), k).debt
  {
    m := n;
    if !Settled(At(s, f, n), k) {
      m := OneRound(s, f, n, k);
      if !Settled(At(s, f, m), k) {
        m := KeySettles(s, f, m, k);
      }
    }
  }

  lemma AtGenuine(s: State, f: Schedule, n: nat)
    requires Genuine(s)
    ensures Genuine(At(s, f, n))
  {
    var run := AtReaches(s, f, n);
    RunGenuine(s, run, At(s, f, n));
  }

  /** Under continuing traffic: in every fair schedule of all steps, whatever is
      published and however often the channel lags, an accepted message is in the
      end written or evicted by a cap. */
  lemma EventuallySettled(s: State, f: Schedule, n: nat, m: Message) returns (end: nat)
    requires Safe(s) && Genuine(s) && Fair(s, f, KeyOf(m)) && m in At(s, f, n).offered
    ensures end >= n && (WrittenFor(At(s, f, end), m) || KeyOf(m) in At(s, f, end).evicted)
  {
    AtGenuine(s, f, n);
    end := KeySettles(s, f, n, KeyOf(m));
    AtSafe(s, f, end);
    AtGenuine(s, f, end);
    if KeyOf(m) in At(s, f, end).delivered {
      KeyIsWritten(At(s, f, end), m);
    }
  }

  /** Exactly-once delivery: in every fair schedule each message accepted at any
      time is eventually written, or evicted by a cap first; at no time is anything
      else written than accepted messages, or a message twice if the subscription
      snapshot held distinct keys. */
  lemma ExactlyOnce(s: State, f: Schedule, n: nat, m: Message) returns (end: nat)
    requires Init(s) && Fair(s, f, KeyOf(m)) && m in At(s, f, n).offered
    ensures end >= n && (WrittenFor(At(s, f, end), m) || KeyOf(m) in At(s, f, end).evicted)
    ensures forall i: nat, w :: w in At(s, f, i).written ==> w in At(s, f, i).offered && w.app == At(s, f, i).app
    ensures forall i: nat :: DistinctKeys(At(s, f, i).snapshot) ==> DistinctKeys(At(s, f, i).written)
  {
    InitSafe(s);
    InitGenuine(s);
    end := EventuallySettled(s, f, n, m);
    forall i: nat ensures Genuine(At(s, f, i)) { AtGenuine(s, f, i); }
    forall i: nat | DistinctKeys(At(s, f, i).snapshot) ensures DistinctKeys(At(s, f, i).written) {
      var run := AtReaches(s, f, i);
      WrittenOnceIffSnapshotDistinct(s, run, At(s, f, i));
    }
  }
}
