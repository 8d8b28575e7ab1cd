/** Delivery of application messages to one subscriber (api/local.rs).

    A publication is two steps: enqueue under the hub lock, broadcast after the
    lock is released.  A subscriber takes a snapshot and a live channel in one
    locked step, writes the snapshot, then follows the channel; when the channel
    overflows it takes another snapshot.  Every write is acknowledged to the hub
    in a later step.  `Event` lists the steps; any order of them is a run. */
module MessageDelivery {
  import opened Basics
  import opened HubSpec

  const CHANNEL_CAPACITY: nat := 1024

  datatype Phase =
    | Unsubscribed
    | Initial  // writing the subscription snapshot, without consulting `delivered`
    | Live     // following the channel, or writing a recovery snapshot

  datatype State = State(
    app: string,                // the subscriber's application
    log: seq<Message>,          // the hub's pending messages
    seenOrder: seq<Key>,        // the hub's de-duplication window
    inflight: seq<Message>,     // enqueued, not yet broadcast
    phase: Phase,
    unread: seq<Message>,       // broadcast, retained by the channel, not received
    lagged: bool,               // the channel dropped something unread
    recover: bool,              // lag was reported, recovery snapshot not taken yet
    todo: seq<Message>,         // rest of the snapshot being written
    awaiting: Option<Key>,      // written (or skipped), acknowledgement not sent yet
    delivered: set<Key>,
    written: seq<Message>,
    snapshot: seq<Message>,     // the subscription snapshot (history)
    offered: set<Message>,      // messages the hub accepted for `app` (history)
    accepted: set<Key>,         // their keys (history)
    evicted: set<Key>)          // keys a capacity loop dropped since last accepted (history)

  datatype Event =
    | Enqueue(m: Message)
    | Broadcast(i: nat)
    | Subscribe
    | WriteNext
    | Acknowledge
    | Receive
    | ReportLag
    | Recover
    | AcknowledgeOther(key: Key)  // another application's subscriber

  ghost predicate Init(s: State) {
    && s.phase == Unsubscribed && s.inflight == [] && s.unread == [] && !s.lagged && !s.recover
    && s.todo == [] && s.awaiting == None && s.delivered == {} && s.written == [] && s.snapshot == []
    && s.offered == (set m | m in ForApp(s.log, s.app)) && s.accepted == KeysOf(ForApp(s.log, s.app))
    && s.evicted == {}
  }

  predicate Idle(s: State) {
    s.phase != Unsubscribed && s.todo == [] && s.awaiting == None
  }

  predicate Enabled(s: State, e: Event) {
    match e
    case Enqueue(_) => true
    case Broadcast(i) => i < |s.inflight|
    case Subscribe => s.phase == Unsubscribed
    case WriteNext => s.phase != Unsubscribed && s.todo != [] && s.awaiting == None
    case Acknowledge => s.awaiting.Some?
    case Receive => Idle(s) && !s.recover && !s.lagged && s.unread != []
    case ReportLag => Idle(s) && !s.recover && s.lagged
    case Recover => Idle(s) && s.recover
    case AcknowledgeOther(key) => key.app != s.app
  }

  /** Keys of `s.app` that publishing `m` evicts. */
  function EvictedBy(s: State, m: Message): set<Key> {
    match Victim(s.log, m)
    case None => {}
    case Some(i) =>
      var dropped := (s.log + [m])[i];
      if dropped.app == s.app then {KeyOf(dropped)} else {}
  }

  /** That is: the keys of the application of which a copy is dropped. */
  lemma EvictedIff(s: State, m: Message, k: Key)
    ensures k in EvictedBy(s, m) <==> k.app == s.app && Copies(Publish(s.log, m), k) < Copies(s.log + [m], k)
  {
    if Victim(s.log, m).Some? { CopiesRemove(s.log + [m], Victim(s.log, m).value, k); }
  }

  /** Write a message unless it was delivered before, then owe its acknowledgement. */
  function Deliver(s: State, m: Message): State {
    var key := KeyOf(m);
    if key in s.delivered then s.(awaiting := Some(key))
    else s.(written := s.written + [m], delivered := s.delivered + {key}, awaiting := Some(key))
  }

  function Apply(s: State, e: Event): State
    requires Enabled(s, e)
  {
    match e
    case Enqueue(m) =>
      if KeyOf(m) in s.seenOrder then s
      else s.(log := Publish(s.log, m),
              seenOrder := SlideWindow(s.seenOrder, KeyOf(m)),
              inflight := s.inflight + [m],
              offered := if m.app == s.app then s.offered + {m} else s.offered,
              accepted := if m.app == s.app then s.accepted + {KeyOf(m)} else s.accepted,
              evicted := (if m.app == s.app then s.evicted - {KeyOf(m)} else s.evicted) + EvictedBy(s, m))
    case Broadcast(i) =>
      var sent := s.(inflight := RemoveAt(s.inflight, i));
      if s.phase == Unsubscribed then sent
      else
        var grown := s.unread + [s.inflight[i]];
        if |grown| > CHANNEL_CAPACITY then sent.(unread := grown[1..], lagged := true)
        else sent.(unread := grown)
    case Subscribe =>
      var pending := ForApp(s.log, s.app);
      s.(phase := Initial, todo := pending, snapshot := pending)
    case WriteNext =>
      var m, rest := s.todo[0], s.todo[1..];
      if s.phase == Initial then
        s.(todo := rest, written := s.written + [m], delivered := s.delivered + {KeyOf(m)},
           awaiting := Some(KeyOf(m)))
      else Deliver(s.(todo := rest), m)
    case Acknowledge =>
      s.(log := HubSpec.Acknowledge(s.log, s.awaiting.value), awaiting := None)
    case Receive =>
      var m := s.unread[0];
      var received := s.(phase := Live, unread := s.unread[1..]);
      if m.app == s.app then Deliver(received, m) else received
    case ReportLag =>
      s.(phase := Live, lagged := false, recover := true)
    case Recover =>
      s.(recover := false, todo := ForApp(s.log, s.app))
    case AcknowledgeOther(key) =>
      s.(log := HubSpec.Acknowledge(s.log, key))
  }

  /** `s` leads to `t` by the steps `run`. */
  predicate Reaches(s: State, run: seq<Event>, t: State)
    decreases |run|
  {
    if run == [] then s == t
    else Enabled(s, run[0]) && Reaches(Apply(s, run[0]), run[1..], t)
  }

  // ---- nothing is lost ----

  /** Where an undelivered pending message can still come from. */
  ghost function Underway(s: State): set<Key> {
    KeysOf(s.todo) + KeysOf(s.inflight) + KeysOf(s.unread)
  }

  ghost predicate Pending(s: State, k: Key) {
    exists m :: m in s.log && m.app == s.app && KeyOf(m) == k
  }

  /** What is pending is delivered or on its way. */
  ghost predicate Sourced(s: State) {
    forall k :: Pending(s, k) ==> k in s.delivered || k in Underway(s)
  }

  ghost predicate Safe(s: State) {
    && s.delivered == KeysOf(s.written)
    && (s.awaiting.Some? ==> s.awaiting.value in s.delivered && s.awaiting.value.app == s.app)
    && (forall m :: m in s.todo ==> m.app == s.app)
    && (s.phase == Unsubscribed ==> Idle(s.(phase := Live)) && s.unread == [] && !s.lagged && !s.recover)
    // an accepted message is delivered, evicted, or still pending in the hub
    && (forall k :: k in s.accepted ==> k in s.delivered || k in s.evicted || Pending(s, k))
    // a pending message of a subscribed application is delivered or on its way
    && (s.phase != Unsubscribed && !s.lagged && !s.recover ==> Sourced(s))
  }

  /** Nothing left to do: no broadcast outstanding, channel and snapshot drained. */
  predicate Quiescent(s: State) {
    Idle(s) && s.inflight == [] && s.unread == [] && !s.lagged && !s.recover
  }

  lemma InitSafe(s: State)
    requires Init(s)
    ensures Safe(s)
  {
    ForAppMembers(s.log, s.app);
    forall k | k in s.accepted ensures Pending(s, k) {
      var m :| m in ForApp(s.log, s.app) && KeyOf(m) == k;
      assert m in s.log;
    }
  }

  /** Removing one pending message leaves every other key pending. */
  lemma RemoveKeepsOthers(log: seq<Message>, i: nat)
    requires i < |log|
    ensures forall m :: m in RemoveAt(log, i) ==> m in log
    ensures forall m :: m in log && m != log[i] ==> m in RemoveAt(log, i)
  {
    assert log == log[..i] + [log[i]] + log[i + 1..];
  }

  lemma AcknowledgePending(s: State, key: Key)
    ensures var t := s.(log := HubSpec.Acknowledge(s.log, key));
            && (forall k :: Pending(t, k) ==> Pending(s, k))
            && (forall k :: Pending(s, k) && k != key ==> Pending(t, k))
  {
    if Position(s.log, key).Some? {
      RemoveKeepsOthers(s.log, Position(s.log, key).value);
    }
  }

  /** Publishing adds one pending key and loses at most what it evicts. */
  lemma EnqueuePending(s: State, m: Message)
    requires KeyOf(m) !in s.seenOrder
    ensures var t := Apply(s, Enqueue(m));
            && (forall k :: Pending(t, k) ==> Pending(s, k) || (k == KeyOf(m) && m in t.inflight))
            && (forall k :: Pending(s, k) || (k == KeyOf(m) && m.app == s.app) ==> Pending(t, k) || k in t.evicted)
  {
    var t := Apply(s, Enqueue(m));
    var grown := s.log + [m];
    assert forall x :: x in grown <==> x in s.log || x == m;
    if Victim(s.log, m).Some? {
      RemoveKeepsOthers(grown, Victim(s.log, m).value);
    }
    assert m in t.inflight;
    forall k | Pending(s, k) || (k == KeyOf(m) && m.app == s.app) ensures Pending(t, k) || k in t.evicted {
      var x :| x in grown && x.app == s.app && KeyOf(x) == k;
    }
  }

  lemma StepSafeEnqueue(s: State, m: Message)
    requires Safe(s)
    ensures Safe(Apply(s, Enqueue(m)))
  {
    if KeyOf(m) !in s.seenOrder {
      EnqueuePending(s, m);
      var t := Apply(s, Enqueue(m));
      assert forall x :: x in s.inflight ==> x in t.inflight;
      assert KeysOf(s.inflight) <= KeysOf(t.inflight);
    }
  }

  lemma StepSafeBroadcast(s: State, i: nat)
    requires Safe(s) && i < |s.inflight|
    ensures Safe(Apply(s, Broadcast(i)))
  {
    var t := Apply(s, Broadcast(i));
    RemoveKeepsOthers(s.inflight, i);
    forall k ensures Pending(t, k) == Pending(s, k) {}
    if s.phase != Unsubscribed && !t.lagged {
      assert t.unread == s.unread + [s.inflight[i]];
      assert forall x :: x in t.unread <==> x in s.unread || x == s.inflight[i];
      assert Underway(s) <= Underway(t);
    }
  }

  lemma StepSafeSnapshot(s: State, e: Event)
    requires Safe(s) && Enabled(s, e) && (e.Subscribe? || e.ReportLag? || e.Recover?)
    ensures Safe(Apply(s, e))
  {
    var t := Apply(s, e);
    ForAppMembers(s.log, s.app);
    forall k ensures Pending(t, k) == Pending(s, k) {}
    if !e.ReportLag? {
      forall k | Pending(t, k) ensures k in KeysOf(t.todo) {
        var m :| m in s.log && m.app == s.app && KeyOf(m) == k;
        assert m in t.todo;
      }
    }
  }

  lemma DeliverKeys(written: seq<Message>, m: Message)
    ensures KeysOf(written + [m]) == KeysOf(written) + {KeyOf(m)}
  {
    assert forall x :: x in written + [m] <==> x in written || x == m;
  }

  /** Writing the head of the snapshot accounts for it. */
  lemma HeadDelivered(s: State)
    requires s.todo != []
    ensures forall k :: k in KeysOf(s.todo) ==> k in KeysOf(s.todo[1..]) || k == KeyOf(s.todo[0])
    ensures KeysOf(s.written + [s.todo[0]]) == KeysOf(s.written) + {KeyOf(s.todo[0])}
  {
    DeliverKeys(s.written, s.todo[0]);
    assert forall x :: x in s.todo ==> x == s.todo[0] || x in s.todo[1..];
  }

  lemma WriteStaysSourced(s: State)
    requires Sourced(s) && Enabled(s, WriteNext)
    ensures Sourced(Apply(s, WriteNext))
  {
    var t := Apply(s, WriteNext);
    HeadDelivered(s);
    forall k | Pending(t, k) ensures k in t.delivered || k in Underway(t) {
      assert Pending(s, k);
    }
  }

  lemma StepSafeWrite(s: State)
    requires Safe(s) && Enabled(s, WriteNext)
    ensures Safe(Apply(s, WriteNext))
  {
    var t := Apply(s, WriteNext);
    forall k ensures Pending(t, k) == Pending(s, k) {}
    HeadDelivered(s);
    if Sourced(s) { WriteStaysSourced(s); }
  }

  lemma StepSafeReceive(s: State)
    requires Safe(s) && Enabled(s, Receive)
    ensures Safe(Apply(s, Receive))
  {
    var t := Apply(s, Receive);
    forall k ensures Pending(t, k) == Pending(s, k) {}
    DeliverKeys(s.written, s.unread[0]);
    assert forall x :: x in s.unread ==> x == s.unread[0] || x in s.unread[1..];
    assert Underway(s) <= Underway(t) + {KeyOf(s.unread[0])};
    forall k | Pending(s, k) ensures k.app == s.app {}
  }

  lemma StepSafeAcknowledge(s: State, e: Event)
    requires Safe(s) && Enabled(s, e) && (e.Acknowledge? || e.AcknowledgeOther?)
    ensures Safe(Apply(s, e))
  {
    var key := if e.Acknowledge? then s.awaiting.value else e.key;
    AcknowledgePending(s, key);
    var t, u := Apply(s, e), s.(log := HubSpec.Acknowledge(s.log, key));
    forall k ensures Pending(t, k) == Pending(u, k) {}
    forall k | Pending(s, k) ensures k.app == s.app {}
  }

  lemma StepSafe(s: State, e: Event)
    requires Safe(s) && Enabled(s, e)
    ensures Safe(Apply(s, e))
  {
    match e
    case Enqueue(m) => StepSafeEnqueue(s, m);
    case Broadcast(i) => StepSafeBroadcast(s, i);
    case Subscribe => StepSafeSnapshot(s, e);
    case ReportLag => StepSafeSnapshot(s, e);
    case Recover => StepSafeSnapshot(s, e);
    case WriteNext => StepSafeWrite(s);
    case Receive => StepSafeReceive(s);
    case Acknowledge => StepSafeAcknowledge(s, e);
    case AcknowledgeOther(_) => StepSafeAcknowledge(s, e);
  }

  lemma {:induction false} RunSafe(s: State, run: seq<Event>, t: State)
    requires Safe(s) && Reaches(s, run, t)
    ensures Safe(t)
    decreases |run|
  {
    if run != [] {
      StepSafe(s, run[0]);
      RunSafe(Apply(s, run[0]), run[1..], t);
    }
  }

  // ---- what is written ----

  /** Whatever is written, queued or on its way for the application is a message
      the hub accepted for it, payload included. */
  ghost predicate Genuine(s: State) {
    && (forall m :: m in s.offered ==> m.app == s.app)
    && (forall m :: m in s.written || m in s.todo ==> m in s.offered)
    && (forall m :: (m in s.log || m in s.inflight || m in s.unread) && m.app == s.app ==> m in s.offered)
    && s.accepted == set m | m in s.offered :: KeyOf(m)
  }

  lemma InitGenuine(s: State)
    requires Init(s)
    ensures Genuine(s)
  {
    ForAppMembers(s.log, s.app);
  }

  lemma EnqueueGenuine(s: State, m: Message)
    requires Genuine(s)
    ensures Genuine(Apply(s, Enqueue(m)))
  {
    if KeyOf(m) !in s.seenOrder {
      if Victim(s.log, m).Some? {
        RemoveKeepsOthers(s.log + [m], Victim(s.log, m).value);
      }
      var t := Apply(s, Enqueue(m));
      assert forall x :: x in t.log ==> x in s.log || x == m;
      assert t.accepted == set x | x in t.offered :: KeyOf(x);
    }
  }

  lemma AcknowledgeGenuine(s: State, key: Key)
    requires Genuine(s)
    ensures Genuine(s.(log := HubSpec.Acknowledge(s.log, key)))
  {
    if Position(s.log, key).Some? {
      RemoveKeepsOthers(s.log, Position(s.log, key).value);
    }
  }

  lemma WriteGenuine(s: State)
    requires Genuine(s) && Enabled(s, WriteNext)
    ensures Genuine(Apply(s, WriteNext))
  {
    assert s.todo[0] in s.todo;
    assert forall x :: x in s.todo[1..] ==> x in s.todo;
  }

  lemma BroadcastGenuine(s: State, i: nat)
    requires Genuine(s) && i < |s.inflight|
    ensures Genuine(Apply(s, Broadcast(i)))
  {
    RemoveKeepsOthers(s.inflight, i);
    var grown := s.unread + [s.inflight[i]];
    assert forall m :: m in grown ==> m in s.unread || m in s.inflight;
    assert forall m :: m in grown[1..] ==> m in grown;
  }

  lemma ReceiveGenuine(s: State)
    requires Genuine(s) && Enabled(s, Receive)
    ensures Genuine(Apply(s, Receive))
  {
    assert s.unread[0] in s.unread;
    assert forall m :: m in s.unread[1..] ==> m in s.unread;
  }

  lemma SnapshotGenuine(s: State, e: Event)
    requires Genuine(s) && Enabled(s, e) && (e.Subscribe? || e.ReportLag? || e.Recover?)
    ensures Genuine(Apply(s, e))
  {
    ForAppMembers(s.log, s.app);
  }

  lemma StepOffers(s: State, e: Event)
    requires Enabled(s, e)
    ensures Apply(s, e).app == s.app && s.offered <= Apply(s, e).offered
  {
  }

  lemma StepGenuine(s: State, e: Event)
    requires Genuine(s) && Enabled(s, e)
    ensures Genuine(Apply(s, e))
  {
    match e
    case Enqueue(m) => EnqueueGenuine(s, m);
    case Broadcast(i) => BroadcastGenuine(s, i);
    case Receive => ReceiveGenuine(s);
    case Subscribe => SnapshotGenuine(s, e);
    case ReportLag => SnapshotGenuine(s, e);
    case Recover => SnapshotGenuine(s, e);
    case WriteNext => WriteGenuine(s);
    case Acknowledge => AcknowledgeGenuine(s, s.awaiting.value);
    case AcknowledgeOther(key) => AcknowledgeGenuine(s, key);
  }

  lemma {:induction false} RunGenuine(s: State, run: seq<Event>, t: State)
    requires Genuine(s) && Reaches(s, run, t)
    ensures Genuine(t) && t.app == s.app && s.offered <= t.offered
    decreases |run|
  {
    if run != [] {
      StepGenuine(s, run[0]);
      StepOffers(s, run[0]);
      RunGenuine(Apply(s, run[0]), run[1..], t);
    }
  }

  /** Over every run the subscriber is sent nothing but messages the hub accepted
      for its application, each with the payload it was accepted with. */
  lemma WrittenAsAccepted(s: State, run: seq<Event>, t: State)
    requires Init(s) && Reaches(s, run, t)
    ensures forall m :: m in t.written ==> m.app == s.app && m in t.offered
  {
    InitGenuine(s);
    RunGenuine(s, run, t);
  }

  /** No other message was accepted under the key of `m`. */
  ghost predicate OnlyOffer(t: State, m: Message) {
    forall x :: x in t.offered && KeyOf(x) == KeyOf(m) ==> x == m
  }

  /** A message accepted under the key of `m` was written: `m` itself, unless
      another one was accepted under that key. */
  ghost predicate WrittenFor(t: State, m: Message) {
    exists i :: 0 <= i < |t.written| && KeyOf(t.written[i]) == KeyOf(m) && t.written[i] in t.offered
                && (OnlyOffer(t, m) ==> t.written[i] == m)
  }

  lemma KeyIsWritten(t: State, m: Message)
    requires Genuine(t) && KeyOf(m) in KeysOf(t.written)
    ensures WrittenFor(t, m)
  {
    var w :| w in t.written && KeyOf(w) == KeyOf(m);
    var i :| 0 <= i < |t.written| && t.written[i] == w;
  }

  /** Under every interleaving, once everything has been broadcast and drained,
      each message ever accepted for the application was written to its
      subscriber or dropped by a capacity loop. */
  lemma NothingLost(s: State, run: seq<Event>, t: State)
    requires Init(s) && Reaches(s, run, t) && Quiescent(t)
    ensures forall m :: m in t.offered ==> WrittenFor(t, m) || KeyOf(m) in t.evicted
  {
    InitSafe(s);
    RunSafe(s, run, t);
    InitGenuine(s);
    RunGenuine(s, run, t);
    forall m | m in t.offered && KeyOf(m) !in t.evicted ensures WrittenFor(t, m) {
      KeyIsWritten(t, m);
    }
  }

  // ---- nothing is written twice ----

  /** What has been written is the subscription snapshot, in order, followed by
      messages whose keys had not been written before. */
  ghost predicate WrittenOnce(s: State) {
    && s.delivered == KeysOf(s.written)
    && match s.phase
       case Unsubscribed => s.written == [] && s.todo == [] && s.snapshot == [] && s.awaiting == None && !s.lagged
           && !s.recover
       case Initial => s.written + s.todo == s.snapshot && !s.recover
       case Live =>
         && s.snapshot <= s.written
         && forall i, j :: 0 <= i < j < |s.written| && |s.snapshot| <= j ==> KeyOf(s.written[i]) != KeyOf(s.written[j])
  }

  lemma DeliverWrittenOnce(s: State, m: Message)
    requires WrittenOnce(s) && s.phase == Live
    ensures WrittenOnce(Deliver(s, m))
  {
    DeliverKeys(s.written, m);
    forall i | 0 <= i < |s.written| ensures KeyOf(s.written[i]) in s.delivered {
      assert s.written[i] in s.written;
    }
  }

  lemma WriteNextWrittenOnce(s: State)
    requires WrittenOnce(s) && Enabled(s, WriteNext)
    ensures WrittenOnce(Apply(s, WriteNext))
  {
    if s.phase == Initial {
      DeliverKeys(s.written, s.todo[0]);
      assert s.written + s.todo == (s.written + [s.todo[0]]) + s.todo[1..];
    } else {
      DeliverWrittenOnce(s.(todo := s.todo[1..]), s.todo[0]);
    }
  }

  /** Leaving the initial phase: the whole snapshot has been written. */
  lemma TurnsLive(s: State, unread: seq<Message>)
    requires WrittenOnce(s) && Idle(s)
    ensures WrittenOnce(s.(phase := Live, unread := unread))
  {
    if s.phase == Initial { assert s.written + [] == s.written; }
  }

  lemma ReceiveWrittenOnce(s: State)
    requires WrittenOnce(s) && Enabled(s, Receive)
    ensures WrittenOnce(Apply(s, Receive))
  {
    TurnsLive(s, s.unread[1..]);
    DeliverWrittenOnce(s.(phase := Live, unread := s.unread[1..]), s.unread[0]);
  }

  lemma StepWrittenOnce(s: State, e: Event)
    requires WrittenOnce(s) && Enabled(s, e)
    ensures WrittenOnce(Apply(s, e))
  {
    match e
    case Enqueue(_) =>
    case Broadcast(_) =>
    case Subscribe =>
    case WriteNext => WriteNextWrittenOnce(s);
    case Acknowledge =>
    case Receive => ReceiveWrittenOnce(s);
    case ReportLag => TurnsLive(s, s.unread);
    case Recover =>
    case AcknowledgeOther(_) =>
  }

  lemma {:induction false} RunWrittenOnce(s: State, run: seq<Event>, t: State)
    requires WrittenOnce(s) && Reaches(s, run, t)
    ensures WrittenOnce(t)
    decreases |run|
  {
    if run != [] {
      StepWrittenOnce(s, run[0]);
      RunWrittenOnce(Apply(s, run[0]), run[1..], t);
    }
  }

  /** No message is written twice, under any interleaving of broadcasts, lag and
      recovery, exactly when the subscription snapshot held distinct keys: the
      first snapshot is the one place where `delivered` is not consulted. */
  lemma WrittenOnceIffSnapshotDistinct(s: State, run: seq<Event>, t: State)
    requires Init(s) && Reaches(s, run, t)
    ensures DistinctKeys(t.snapshot) ==> DistinctKeys(t.written)
    ensures t.phase != Unsubscribed && t.todo == [] && DistinctKeys(t.written) ==> DistinctKeys(t.snapshot)
  {
    RunWrittenOnce(s, run, t);
    if t.phase == Initial {
      assert forall i :: 0 <= i < |t.written| ==> t.written[i] == t.snapshot[i];
    }
    if t.phase == Live && DistinctKeys(t.snapshot) {
      forall i, j | 0 <= i < j < |t.written| ensures KeyOf(t.written[i]) != KeyOf(t.written[j]) {
        if j < |t.snapshot| {
          assert t.written[i] == t.snapshot[i] && t.written[j] == t.snapshot[j];
        }
      }
    }
    if t.phase != Unsubscribed && t.todo == [] && DistinctKeys(t.written) {
      assert t.snapshot <= t.written;
      assert forall i :: 0 <= i < |t.snapshot| ==> t.snapshot[i] == t.written[i];
    }
  }

  // ---- and everything does get written ----

  /** Own steps change nothing of what was accepted, evicted or written so far. */
  predicate Continues(s: State, t: State) {
    && t.app == s.app && t.offered == s.offered && t.accepted == s.accepted && t.evicted == s.evicted
    && s.written <= t.written
  }

  /** Work left before quiescence, ignoring new publications. */
  ghost predicate Drains(s: State, run: seq<Event>, t: State) {
    && Reaches(s, run, t)
    && Quiescent(t) && Continues(s, t)
  }

  /** The owed broadcasts and the subscriber's own steps. */
  predicate Own(e: Event) {
    !e.Enqueue? && !e.AcknowledgeOther?
  }

  function DrainStep(s: State): Event
    requires !Quiescent(s)
  {
    if s.phase == Unsubscribed then Subscribe
    else if s.inflight != [] then Broadcast(0)
    else if s.awaiting.Some? then Acknowledge
    else if s.todo != [] then WriteNext
    else if s.recover then Recover
    else if s.lagged then ReportLag
    else Receive
  }

  function Lag(s: State): nat {
    (if s.lagged then 2 else 0) + (if s.recover then 1 else 0)
  }

  function Debt(s: State): nat {
    (if s.awaiting.Some? then 1 else 0) + 2 * |s.todo|
  }

  /** `t` has less left to do than `s`, most significant first. */
  predicate OwesLess(t: State, s: State) {
    || (s.phase == Unsubscribed && t.phase != Unsubscribed)
    || ((s.phase == Unsubscribed <==> t.phase == Unsubscribed) &&
        (|| |t.inflight| < |s.inflight|
         || (|t.inflight| == |s.inflight| &&
             (|| Lag(t) < Lag(s)
              || (Lag(t) == Lag(s) &&
                  (|| |t.unread| < |s.unread|
                   || (|t.unread| == |s.unread| && Debt(t) < Debt(s))))))))
  }

  lemma ReceivingOwesLess(s: State, e: Event)
    requires Safe(s) && (e.Receive? || e.ReportLag? || e.Recover? || e.Subscribe?) && Enabled(s, e)
    ensures OwesLess(Apply(s, e), s) && Continues(s, Apply(s, e))
  {
  }

  lemma WritingOwesLess(s: State, e: Event)
    requires Safe(s) && (e.WriteNext? || e.Acknowledge?) && Enabled(s, e)
    ensures OwesLess(Apply(s, e), s) && Continues(s, Apply(s, e))
  {
  }

  /** Whichever own step is taken, less is left to do. */
  lemma OwnStepOwesLess(s: State, e: Event)
    requires Safe(s) && Own(e) && Enabled(s, e)
    ensures var t := Apply(s, e);
            OwesLess(t, s) && Continues(s, t)
  {
    match e
    case Broadcast(i) =>
    case Subscribe => ReceivingOwesLess(s, e);
    case Receive => ReceivingOwesLess(s, e);
    case ReportLag => ReceivingOwesLess(s, e);
    case Recover => ReceivingOwesLess(s, e);
    case WriteNext => WritingOwesLess(s, e);
    case Acknowledge => WritingOwesLess(s, e);
  }

  /** The subscriber is stuck exactly when nothing is left to do. */
  lemma StuckIffQuiescent(s: State)
    requires Safe(s)
    ensures Quiescent(s) <==> forall e :: Own(e) ==> !Enabled(s, e)
  {
    if !Quiescent(s) {
      assert Own(DrainStep(s)) && Enabled(s, DrainStep(s));
    }
  }

  type Schedule = nat -> Event

  function Chosen(f: Schedule, n: nat): Event {
    f(n)
  }

  /** The state after the first `n` steps of a schedule; it waits while the
      chosen step is not possible. */
  function At(s: State, f: Schedule, n: nat): State {
    if n == 0 then s
    else
      var before := At(s, f, n - 1);
      var e := Chosen(f, n - 1);
      if Enabled(before, e) then Apply(before, e) else before
  }

  /** Step `n` of the schedule is one of the subscriber's, and possible. */
  predicate Proceeds(s: State, f: Schedule, n: nat) {
    Own(Chosen(f, n)) && Enabled(At(s, f, n), Chosen(f, n))
  }

  /** A schedule that keeps going until nothing is left. */
  ghost predicate Busy(s: State, f: Schedule) {
    forall n: nat :: Quiescent(At(s, f, n)) || Proceeds(s, f, n)
  }

  lemma ScheduleStep(s: State, f: Schedule, n: nat)
    requires Safe(At(s, f, n)) && Proceeds(s, f, n)
    ensures Safe(At(s, f, n + 1)) && OwesLess(At(s, f, n + 1), At(s, f, n))
    ensures Continues(At(s, f, n), At(s, f, n + 1))
  {
    StepSafe(At(s, f, n), Chosen(f, n));
    OwnStepOwesLess(At(s, f, n), Chosen(f, n));
  }

  /** No schedule of own steps runs for ever: each stops at some step `m`. */
  lemma {:induction false} EveryScheduleStops(s: State, f: Schedule, n: nat) returns (m: nat)
    requires Safe(At(s, f, n))
    ensures m >= n && !Proceeds(s, f, m) && forall k :: n <= k < m ==> Proceeds(s, f, k)
    decreases At(s, f, n).phase == Unsubscribed, |At(s, f, n).inflight|, Lag(At(s, f, n)), |At(s, f, n).unread|,
      Debt(At(s, f, n))
  {
    m := n;
    if Proceeds(s, f, n) {
      ScheduleStep(s, f, n);
      m := EveryScheduleStops(s, f, n + 1);
    }
  }

  lemma {:induction false} ScheduleSafe(s: State, f: Schedule, n: nat)
    requires Safe(s) && forall k :: 0 <= k < n ==> Proceeds(s, f, k)
    ensures Safe(At(s, f, n))
  {
    if n > 0 {
      var before := n - 1;
      ScheduleSafe(s, f, before);
      assert Proceeds(s, f, before);
      ScheduleStep(s, f, before);
    }
  }

  lemma ContinuesTrans(s: State, t: State, u: State)
    requires Continues(s, t) && Continues(t, u)
    ensures Continues(s, u)
  {
  }

  lemma {:induction false} ScheduleContinues(s: State, f: Schedule, n: nat)
    requires Safe(s) && forall k :: 0 <= k < n ==> Proceeds(s, f, k)
    ensures Continues(s, At(s, f, n))
  {
    if n > 0 {
      var before := n - 1;
      ScheduleContinues(s, f, before);
      ScheduleSafe(s, f, before);
      assert Proceeds(s, f, before);
      ScheduleStep(s, f, before);
      ContinuesTrans(s, At(s, f, before), At(s, f, n));
    }
  }

  lemma OneStepReaches(s: State, e: Event)
    requires Enabled(s, e)
    ensures Reaches(s, [e], Apply(s, e))
  {
    assert [e][1..] == [] && Reaches(Apply(s, e), [], Apply(s, e));
  }

  /** The steps a schedule takes while it proceeds form a run. */
  lemma {:induction false} ScheduleReaches(s: State, f: Schedule, n: nat) returns (run: seq<Event>)
    requires forall k :: 0 <= k < n ==> Proceeds(s, f, k)
    ensures Reaches(s, run, At(s, f, n))
  {
    run := [];
    if n > 0 {
      run := ScheduleReaches(s, f, n - 1);
      assert Proceeds(s, f, n - 1);
      OneStepReaches(At(s, f, n - 1), Chosen(f, n - 1));
      ReachesTrans(s, run, At(s, f, n - 1), [Chosen(f, n - 1)], At(s, f, n));
      run := run + [Chosen(f, n - 1)];
    }
  }

  /** From every safe state every busy schedule drains: the owed broadcasts and
      the subscriber's own steps, in whatever order, lead to quiescence. */
  lemma EveryScheduleDrains(s: State, f: Schedule) returns (n: nat, run: seq<Event>)
    requires Safe(s) && Busy(s, f)
    ensures Drains(s, run, At(s, f, n))
  {
    n := EveryScheduleStops(s, f, 0);
    run := ScheduleReaches(s, f, n);
    ScheduleContinues(s, f, n);
  }

  /** One such drain, from any safe state. */
  lemma {:induction false} DrainEnds(s: State) returns (run: seq<Event>, t: State)
    requires Safe(s)
    ensures Drains(s, run, t)
    decreases s.phase == Unsubscribed, |s.inflight|, Lag(s), |s.unread|, Debt(s)
  {
    if Quiescent(s) {
      return [], s;
    }
    var e := DrainStep(s);
    OwnStepOwesLess(s, e);
    StepSafe(s, e);
    var rest;
    rest, t := DrainEnds(Apply(s, e));
    run := [e] + rest;
    assert run[1..] == rest;
  }

  /** Once publishing pauses: after any run, however the owed broadcasts and the
      subscriber's steps are then scheduled, each message accepted so far and not
      evicted since gets written, and written at one position only if the
      subscription snapshot had distinct keys. */
  lemma DeliveredWhenQuiet(s: State, before: seq<Event>, mid: State, f: Schedule) returns (n: nat, after: seq<Event>)
    requires Init(s) && Reaches(s, before, mid) && Busy(mid, f)
    ensures Drains(mid, after, At(mid, f, n))
    ensures forall m :: m in mid.offered && KeyOf(m) !in mid.evicted ==> WrittenFor(At(mid, f, n), m)
    ensures DistinctKeys(At(mid, f, n).snapshot) ==> DistinctKeys(At(mid, f, n).written)
  {
    InitSafe(s);
    RunSafe(s, before, mid);
    n, after := EveryScheduleDrains(mid, f);
    var t := At(mid, f, n);
    RunSafe(mid, after, t);
    ReachesTrans(s, before, mid, after, t);
    WrittenOnceIffSnapshotDistinct(s, before + after, t);
    InitGenuine(s);
    RunGenuine(s, before + after, t);
    forall m | m in mid.offered && KeyOf(m) !in mid.evicted ensures WrittenFor(t, m) {
      KeyIsWritten(t, m);
    }
  }

  lemma {:induction false} ReachesTrans(s: State, a: seq<Event>, t: State, b: seq<Event>, u: State)
    requires Reaches(s, a, t) && Reaches(t, b, u)
    ensures Reaches(s, a + b, u)
    decreases |a|
  {
    if a == [] {
      assert a + b == b;
    } else {
      ReachesTrans(Apply(s, a[0]), a[1..], t, b, u);
      assert (a + b)[1..] == a[1..] + b;
    }
  }
}

/** When can a key be pending twice?  Only when it left the de-duplication
    window while its message was still queued. */
module PendingTwice {
  import opened Basics
  import opened HubSpec
  import opened MessageDelivery

  /** The older messages that survive a publication. */
  function Survivors(log: seq<Message>, m: Message): seq<Message> {
    match Victim(log, m)
    case None => log
    case Some(i) => if i < |log| then RemoveAt(log, i) else log
  }

  lemma PublishIsSurvivorsAndNew(log: seq<Message>, m: Message)
    requires WithinCaps(log)
    ensures Publish(log, m) == Survivors(log, m) + [m]
  {
    PublishKeepsCaps(log, m);
    PublishTakesOne(log, m);
  }

  lemma RemoveDistinct(log: seq<Message>, i: nat)
    requires DistinctKeys(log) && i < |log|
    ensures DistinctKeys(RemoveAt(log, i))
  {
    var rest := RemoveAt(log, i);
    forall a, b | 0 <= a < b < |rest| ensures KeyOf(rest[a]) != KeyOf(rest[b]) {
      assert rest[a] == log[if a < i then a else a + 1];
      assert rest[b] == log[if b < i then b else b + 1];
    }
  }

  lemma SurvivorsDistinct(log: seq<Message>, m: Message)
    requires DistinctKeys(log)
    ensures DistinctKeys(Survivors(log, m))
    ensures forall x :: x in Survivors(log, m) ==> x in log
  {
    if Victim(log, m).Some? && Victim(log, m).value < |log| {
      RemoveDistinct(log, Victim(log, m).value);
      RemoveKeepsOthers(log, Victim(log, m).value);
    }
  }

  lemma AppendDistinctIff(front: seq<Message>, m: Message)
    requires DistinctKeys(front)
    ensures DistinctKeys(front + [m]) <==> KeyOf(m) !in KeysOf(front)
  {
    if KeyOf(m) in KeysOf(front) {
      var x :| x in front && KeyOf(x) == KeyOf(m);
      var j :| 0 <= j < |front| && front[j] == x;
      assert (front + [m])[j] == x && (front + [m])[|front|] == m;
    } else {
      forall j | 0 <= j < |front| ensures KeyOf(front[j]) != KeyOf(m) {
        assert front[j] in front;
      }
    }
  }

  /** A publication leaves the pending keys distinct exactly when its key is not
      among the messages that survive it. */
  lemma PublishDistinctIff(log: seq<Message>, m: Message)
    requires DistinctKeys(log)
    requires WithinCaps(log)
    ensures var after := Publish(log, m);
            && after != []
            && (DistinctKeys(after) <==> KeyOf(m) !in KeysOf(after[..|after| - 1]))
  {
    PublishIsSurvivorsAndNew(log, m);
    SurvivorsDistinct(log, m);
    AppendDistinctIff(Survivors(log, m), m);
    assert (Survivors(log, m) + [m])[..|Survivors(log, m)|] == Survivors(log, m);
  }

  /** While every pending key is inside the window, publishing keeps the pending
      keys distinct; and they all stay inside it exactly when the key that slides
      out of a full window is not pending. */
  lemma WindowKeepsDistinct(log: seq<Message>, seenOrder: seq<Key>, m: Message)
    requires DistinctKeys(log) && WithinCaps(log) && KeyOf(m) !in seenOrder
    requires forall i, j :: 0 <= i < j < |seenOrder| ==> seenOrder[i] != seenOrder[j]
    requires |seenOrder| <= MAX_SEEN
    requires forall x :: x in log ==> KeyOf(x) in seenOrder
    ensures DistinctKeys(Publish(log, m))
    ensures (forall x :: x in Publish(log, m) ==> KeyOf(x) in SlideWindow(seenOrder, KeyOf(m))) <==>
            (|seenOrder| < MAX_SEEN || forall x :: x in Publish(log, m) ==> KeyOf(x) != seenOrder[0])
  {
    PublishIsSurvivorsAndNew(log, m);
    SurvivorsDistinct(log, m);
    AppendDistinctIff(Survivors(log, m), m);
    var after := Publish(log, m);
    assert forall x :: x in after <==> x in Survivors(log, m) || x == m;
    SlidingOut(seenOrder, KeyOf(m));
  }

  lemma SlidingOut(seenOrder: seq<Key>, key: Key)
    requires forall i, j :: 0 <= i < j < |seenOrder| ==> seenOrder[i] != seenOrder[j]
    requires key !in seenOrder && |seenOrder| <= MAX_SEEN
    ensures forall k :: k in SlideWindow(seenOrder, key) <==>
                        (k in seenOrder || k == key) && (|seenOrder| < MAX_SEEN || k != seenOrder[0])
  {
    var grown := seenOrder + [key];
    assert forall k :: k in grown ==> k == grown[0] || k in grown[1..];
  }

  // ---- whole runs ----

  /** The window covers the queue: pending keys are distinct and all inside it. */
  ghost predicate Covered(s: State) {
    && DistinctKeys(s.log) && WithinCaps(s.log) && |s.seenOrder| <= MAX_SEEN
    && (forall i, j :: 0 <= i < j < |s.seenOrder| ==> s.seenOrder[i] != s.seenOrder[j])
    && (forall x :: x in s.log ==> KeyOf(x) in s.seenOrder)
  }

  /** Unless `e` pushes the key of a pending message out of a full window. */
  ghost predicate SlidesFree(s: State, e: Event) {
    e.Enqueue? && KeyOf(e.m) !in s.seenOrder && |s.seenOrder| == MAX_SEEN ==>
      forall x :: x in Publish(s.log, e.m) ==> KeyOf(x) != s.seenOrder[0]
  }

  lemma AcknowledgeCovered(s: State, key: Key)
    requires Covered(s)
    ensures Covered(s.(log := HubSpec.Acknowledge(s.log, key)))
  {
    AcknowledgeKeepsCaps(s.log, key);
    if Position(s.log, key).Some? {
      RemoveDistinct(s.log, Position(s.log, key).value);
      RemoveKeepsOthers(s.log, Position(s.log, key).value);
    }
  }

  lemma StepCoveredIff(s: State, e: Event)
    requires Covered(s) && Enabled(s, e)
    ensures Covered(Apply(s, e)) <==> SlidesFree(s, e)
  {
    match e
    case Enqueue(m) =>
      if KeyOf(m) !in s.seenOrder {
        WindowKeepsDistinct(s.log, s.seenOrder, m);
        PublishKeepsCaps(s.log, m);
        SlidingKeepsDistinct(s.seenOrder, KeyOf(m));
      }
    case Acknowledge => AcknowledgeCovered(s, s.awaiting.value);
    case AcknowledgeOther(key) => AcknowledgeCovered(s, key);
    case Broadcast(_) =>
    case Subscribe =>
    case WriteNext =>
    case Receive =>
    case ReportLag =>
    case Recover =>
  }

  lemma SlidingKeepsDistinct(seenOrder: seq<Key>, key: Key)
    requires forall i, j :: 0 <= i < j < |seenOrder| ==> seenOrder[i] != seenOrder[j]
    requires key !in seenOrder && |seenOrder| <= MAX_SEEN
    ensures var slid := SlideWindow(seenOrder, key);
            |slid| <= MAX_SEEN && forall i, j :: 0 <= i < j < |slid| ==> slid[i] != slid[j]
  {
  }

  ghost predicate CoveredThroughout(s: State, run: seq<Event>)
    decreases |run|
  {
    Covered(s) && (run != [] ==> Enabled(s, run[0]) && CoveredThroughout(Apply(s, run[0]), run[1..]))
  }

  ghost predicate SlidesFreeThroughout(s: State, run: seq<Event>)
    decreases |run|
  {
    run != [] ==> Enabled(s, run[0]) && SlidesFree(s, run[0]) && SlidesFreeThroughout(Apply(s, run[0]), run[1..])
  }

  /** Over a whole run the window keeps covering the queue, and pending keys stay
      distinct, exactly when no publication pushes out a pending key. */
  lemma {:induction false} CoveredThroughoutIff(s: State, run: seq<Event>, t: State)
    requires Covered(s) && Reaches(s, run, t)
    ensures CoveredThroughout(s, run) <==> SlidesFreeThroughout(s, run)
    ensures SlidesFreeThroughout(s, run) ==> Covered(t)
    decreases |run|
  {
    if run != [] {
      StepCoveredIff(s, run[0]);
      if Covered(Apply(s, run[0])) {
        CoveredThroughoutIff(Apply(s, run[0]), run[1..], t);
      }
    }
  }

  lemma PrependDistinct(m: Message, q: seq<Message>)
    requires DistinctKeys(q) && forall x :: x in q ==> KeyOf(x) != KeyOf(m)
    ensures DistinctKeys([m] + q)
  {
  }

  lemma TailDistinct(log: seq<Message>)
    requires DistinctKeys(log) && log != []
    ensures DistinctKeys(log[1..]) && forall x :: x in log[1..] ==> KeyOf(x) != KeyOf(log[0])
  {
    assert forall i :: 0 <= i < |log| - 1 ==> log[1..][i] == log[i + 1];
  }

  lemma {:induction false} ForAppDistinct(log: seq<Message>, app: string)
    requires DistinctKeys(log)
    ensures DistinctKeys(ForApp(log, app))
  {
    if log != [] {
      TailDistinct(log);
      ForAppDistinct(log[1..], app);
      ForAppMembers(log[1..], app);
      PrependDistinct(log[0], ForApp(log[1..], app));
      assert [] + ForApp(log[1..], app) == ForApp(log[1..], app);
    }
  }

  lemma {:induction false} SnapshotStaysDistinct(s: State, run: seq<Event>, t: State)
    requires Covered(s) && Reaches(s, run, t) && SlidesFreeThroughout(s, run)
    requires DistinctKeys(s.snapshot)
    ensures DistinctKeys(t.snapshot)
    decreases |run|
  {
    if run != [] {
      StepCoveredIff(s, run[0]);
      ForAppDistinct(s.log, s.app);
      SnapshotStaysDistinct(Apply(s, run[0]), run[1..], t);
    }
  }

  /** No message is written twice in any run that never pushes a pending key out
      of a full window. */
  lemma FreeSlidesWriteOnce(s: State, run: seq<Event>, t: State)
    requires Init(s) && Covered(s) && Reaches(s, run, t) && SlidesFreeThroughout(s, run)
    ensures DistinctKeys(t.log) && DistinctKeys(t.written)
  {
    CoveredThroughoutIff(s, run, t);
    SnapshotStaysDistinct(s, run, t);
    WrittenOnceIffSnapshotDistinct(s, run, t);
  }
}
