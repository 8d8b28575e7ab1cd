/** Every written message leaves the hub (api/local.rs): a drained subscriber has
    emptied its application's queue, copies of one key included. */
module MessageAcknowledged {
  import opened Basics
  import opened HubSpec
  import opened MessageDelivery

  function Awaited(s: State, k: Key): nat {
    if s.awaiting == Some(k) then 1 else 0
  }

  /** Acknowledgements of `k` that are certain to come. */
  function Coming(s: State, k: Key): nat {
    Copies(s.todo, k) + Copies(s.inflight, k) + Copies(s.unread, k) + Awaited(s, k)
  }

  /** Every pending copy will be acknowledged. */
  ghost predicate Owing(s: State) {
    forall k: Key :: k.app == s.app ==> Copies(s.log, k) <= Coming(s, k)
  }

  ghost predicate Accounted(s: State) {
    s.phase != Unsubscribed && !s.lagged && !s.recover ==> Owing(s)
  }

  lemma {:induction false} QueueCopies(log: seq<Message>, k: Key)
    ensures Copies(ForApp(log, k.app), k) == Copies(log, k)
  {
    if log != [] {
      QueueCopies(log[1..], k);
      OnlyConcat(if log[0].app == k.app then [log[0]] else [], ForApp(log[1..], k.app), k, true);
      OnlyOne(log[0], k, true);
    }
  }

  lemma TailCopies(q: seq<Message>, k: Key)
    requires q != []
    ensures Copies(q[1..], k) == Copies(q, k) - if KeyOf(q[0]) == k then 1 else 0
  {
    assert RemoveAt(q, 0) == q[1..];
    CopiesRemove(q, 0, k);
  }

  /** A publication adds at most its own copy. */
  lemma PublishCopies(log: seq<Message>, m: Message, k: Key)
    ensures Copies(Publish(log, m), k) <= Copies(log, k) + if KeyOf(m) == k then 1 else 0
  {
    CopiesAppend(log, m, k);
    if Victim(log, m).Some? { CopiesRemove(log + [m], Victim(log, m).value, k); }
  }

  lemma EnqueueOwing(s: State, m: Message)
    requires Owing(s)
    ensures Owing(Apply(s, Enqueue(m)))
  {
    if KeyOf(m) !in s.seenOrder {
      forall k: Key | k.app == s.app ensures Copies(Publish(s.log, m), k) <= Coming(Apply(s, Enqueue(m)), k) {
        PublishCopies(s.log, m, k);
        CopiesAppend(s.inflight, m, k);
      }
    }
  }

  lemma BroadcastOwing(s: State, i: nat)
    requires Owing(s) && i < |s.inflight| && s.phase != Unsubscribed && !Apply(s, Broadcast(i)).lagged
    ensures Owing(Apply(s, Broadcast(i)))
  {
    var t := Apply(s, Broadcast(i));
    assert t == s.(inflight := RemoveAt(s.inflight, i), unread := s.unread + [s.inflight[i]]);
    forall k: Key | k.app == s.app ensures Coming(t, k) == Coming(s, k) {
      CopiesRemove(s.inflight, i, k);
      CopiesAppend(s.unread, s.inflight[i], k);
    }
  }

  lemma SnapshotOwing(s: State, t: State)
    requires t.app == s.app && t.log == s.log && t.todo == ForApp(s.log, s.app)
    ensures Owing(t)
  {
    forall k: Key | k.app == s.app ensures Copies(t.log, k) <= Coming(t, k) {
      QueueCopies(s.log, k);
    }
  }

  lemma WriteMoves(s: State)
    requires Enabled(s, WriteNext)
    ensures var t := Apply(s, WriteNext);
            && t.app == s.app && t.log == s.log && t.todo == s.todo[1..] && t.inflight == s.inflight
            && t.unread == s.unread && t.awaiting == Some(KeyOf(s.todo[0]))
  {
  }

  lemma WriteOwing(s: State)
    requires Owing(s) && Enabled(s, WriteNext)
    ensures Owing(Apply(s, WriteNext))
  {
    var t := Apply(s, WriteNext);
    WriteMoves(s);
    forall k: Key | k.app == s.app ensures Coming(t, k) == Coming(s, k) {
      TailCopies(s.todo, k);
    }
  }

  lemma ReceiveOwing(s: State)
    requires Owing(s) && Enabled(s, Receive)
    ensures Owing(Apply(s, Receive))
  {
    var t := Apply(s, Receive);
    forall k: Key | k.app == s.app ensures Coming(t, k) == Coming(s, k) {
      TailCopies(s.unread, k);
    }
  }

  lemma AcknowledgeOwing(s: State, e: Event)
    requires Owing(s) && Enabled(s, e) && (e.Acknowledge? || e.AcknowledgeOther?)
    ensures Owing(Apply(s, e))
  {
    AcknowledgedQueues(s.log, if e.Acknowledge? then s.awaiting.value else e.key);
  }

  lemma StepAccounted(s: State, e: Event)
    requires Accounted(s) && Enabled(s, e)
    ensures Accounted(Apply(s, e))
  {
    var t := Apply(s, e);
    if t.phase != Unsubscribed && !t.lagged && !t.recover {
      match e
      case Enqueue(m) => EnqueueOwing(s, m);
      case Broadcast(i) => BroadcastOwing(s, i);
      case Subscribe => SnapshotOwing(s, t);
      case Recover => SnapshotOwing(s, t);
      case ReportLag =>
      case WriteNext => WriteOwing(s);
      case Receive => ReceiveOwing(s);
      case Acknowledge => AcknowledgeOwing(s, e);
      case AcknowledgeOther(_) => AcknowledgeOwing(s, e);
    }
  }

  lemma {:induction false} RunAccounted(s: State, run: seq<Event>, t: State)
    requires Accounted(s) && Reaches(s, run, t)
    ensures Accounted(t) && t.app == s.app
    decreases |run|
  {
    if run != [] {
      StepAccounted(s, run[0]);
      RunAccounted(Apply(s, run[0]), run[1..], t);
    }
  }

  /** Conservation: at the end of every run that ends drained, under any
      interleaving with publications, lag and recovery, each pending copy has been
      acknowledged: the application's queue is empty. */
  lemma DrainedQueueIsEmpty(s: State, run: seq<Event>, t: State)
    requires Init(s) && Reaches(s, run, t) && Quiescent(t)
    ensures ForApp(t.log, t.app) == []
  {
    RunAccounted(s, run, t);
    ForAppMembers(t.log, t.app);
    forall m | m in t.log ensures m.app != t.app {
      OnlyNone(t.log, KeyOf(m));
      assert KeyOf(m) in KeysOf(t.log) && Copies(t.log, KeyOf(m)) > Coming(t, KeyOf(m));
    }
  }
}
