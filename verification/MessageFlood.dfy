/** The de-duplication window can be outrun (api/local.rs): any queued message is
    accepted a second time, and written twice, after 32,768 other messages. */
module MessageFlood {
  import opened Basics
  import opened Encoding
  import opened HubSpec
  import opened MessageDelivery
  import opened PendingTwice

  /** A full window's worth of messages of other applications, each with its own key. */
  ghost predicate Traffic(lost: Message, chats: seq<Message>) {
    && |chats| == MAX_SEEN && DistinctKeys(chats)
    && forall i :: 0 <= i < |chats| ==> chats[i].app != lost.app
  }

  function Start(app: string): State {
    State(app, [], [], [], Unsubscribed, [], false, false, [], None, {}, [], [], {}, {}, {})
  }

  function Round(m: Message): seq<Event> {
    [Enqueue(m), Broadcast(0), AcknowledgeOther(KeyOf(m))]
  }

  /** Publish a message nobody fetches, then `n` others, each broadcast and
      acknowledged by its own application at once. */
  function Flood(lost: Message, chats: seq<Message>, n: nat): seq<Event>
    requires n <= |chats|
  {
    if n == 0 then [Enqueue(lost), Broadcast(0)] else Flood(lost, chats, n - 1) + Round(chats[n - 1])
  }

  function Keys(chats: seq<Message>, n: nat): (r: seq<Key>)
    requires n <= |chats|
    ensures |r| == n
    ensures forall i :: 0 <= i < n ==> r[i] == KeyOf(chats[i])
  {
    seq(n, i requires 0 <= i < n => KeyOf(chats[i]))
  }

  function WindowAfter(lost: Message, chats: seq<Message>, n: nat): seq<Key>
    requires n <= |chats| <= MAX_SEEN
  {
    if n == MAX_SEEN then Keys(chats, n) else [KeyOf(lost)] + Keys(chats, n)
  }

  lemma ShortListsStay(log: seq<Message>, m: Message)
    requires |log| < MAX_PENDING_PER_APP
    ensures Publish(log, m) == log + [m] && Victim(log, m) == None
  {
    ForAppMembers(log + [m], m.app);
  }

  ghost predicate Flooded(t: State, lost: Message, chats: seq<Message>, n: nat)
    requires n <= |chats| <= MAX_SEEN
  {
    && t.app == lost.app && t.log == [lost] && t.seenOrder == WindowAfter(lost, chats, n)
    && t.phase == Unsubscribed && t.inflight == [] && t.todo == [] && t.awaiting == None && t.written == []
    && t.delivered == {}
  }

  lemma ChatIsNew(lost: Message, chats: seq<Message>, n: nat)
    requires Traffic(lost, chats) && n < MAX_SEEN
    ensures KeyOf(chats[n]) !in WindowAfter(lost, chats, n)
  {
    forall k | k in WindowAfter(lost, chats, n) ensures k != KeyOf(chats[n]) {
      if k != KeyOf(lost) {
        var i :| 0 <= i < n && k == Keys(chats, n)[i];
      }
    }
  }

  /** One message of another application, published and broadcast to nobody. */
  lemma ChatPublished(p: State, lost: Message, chats: seq<Message>, n: nat) returns (q: State, sent: State)
    requires Traffic(lost, chats) && n < MAX_SEEN && Flooded(p, lost, chats, n)
    ensures q == Apply(p, Enqueue(chats[n])) && q.inflight == [chats[n]] && sent == Apply(q, Broadcast(0))
    ensures sent == p.(log := [lost, chats[n]], seenOrder := WindowAfter(lost, chats, n + 1),
                       offered := sent.offered, accepted := sent.accepted, evicted := sent.evicted)
  {
    var m := chats[n];
    ChatIsNew(lost, chats, n);
    ShortListsStay(p.log, m);
    q := Apply(p, Enqueue(m));
    assert q.log == [lost, m] && q.inflight == [m];
    assert p.seenOrder + [KeyOf(m)] == [KeyOf(lost)] + Keys(chats, n + 1);
    sent := Apply(q, Broadcast(0));
  }

  lemma ChatRound(p: State, lost: Message, chats: seq<Message>, n: nat) returns (t: State)
    requires Traffic(lost, chats) && n < MAX_SEEN && Flooded(p, lost, chats, n)
    ensures Flooded(t, lost, chats, n + 1)
    ensures Reaches(p, Round(chats[n]), t)
  {
    var q, sent := ChatPublished(p, lost, chats, n);
    PositionIs(sent.log, KeyOf(chats[n]), 1);
    t := Apply(sent, AcknowledgeOther(KeyOf(chats[n])));
    assert RemoveAt(sent.log, 1) == [lost];
    RoundReaches(p, chats[n], q, sent, t);
  }

  lemma RoundReaches(p: State, m: Message, q: State, sent: State, t: State)
    requires q == Apply(p, Enqueue(m))
    requires q.inflight != [] && sent == Apply(q, Broadcast(0))
    requires m.app != p.app && sent.app == p.app && t == Apply(sent, AcknowledgeOther(KeyOf(m)))
    ensures Reaches(p, Round(m), t)
  {
    var run := Round(m);
    assert run[1..][1..] == run[2..] && run[2..][1..] == [];
    assert Reaches(t, [], t);
    assert Reaches(sent, run[2..], t);
    assert Reaches(q, run[1..], t);
  }

  lemma FloodStarts(lost: Message, chats: seq<Message>) returns (t: State)
    requires Traffic(lost, chats)
    ensures Reaches(Start(lost.app), Flood(lost, chats, 0), t) && Flooded(t, lost, chats, 0)
  {
    ShortListsStay([], lost);
    var q := Apply(Start(lost.app), Enqueue(lost));
    assert q.inflight == [lost];
    t := Apply(q, Broadcast(0));
    assert Flood(lost, chats, 0)[1..] == [Broadcast(0)] && [Broadcast(0)][1..] == [];
    assert Reaches(q, [Broadcast(0)], t);
    assert WindowAfter(lost, chats, 0) == [KeyOf(lost)];
  }

  lemma {:induction false} FloodOutruns(lost: Message, chats: seq<Message>, n: nat) returns (t: State)
    requires Traffic(lost, chats) && n <= MAX_SEEN
    ensures Reaches(Start(lost.app), Flood(lost, chats, n), t) && Flooded(t, lost, chats, n)
  {
    if n == 0 {
      t := FloodStarts(lost, chats);
    } else {
      var p := FloodOutruns(lost, chats, n - 1);
      t := ChatRound(p, lost, chats, n - 1);
      ReachesTrans(Start(lost.app), Flood(lost, chats, n - 1), p, Round(chats[n - 1]), t);
    }
  }

  lemma ForAppPair(m: Message)
    ensures ForApp([m, m], m.app) == [m, m]
  {
    ForAppAppend([], m, m.app);
    ForAppAppend([m], m, m.app);
    assert [] + [m] == [m] && [m] + [m] == [m, m];
  }

  /** The message is accepted a second time, and broadcast to nobody. */
  lemma AcceptedAgain(s: State, lost: Message) returns (s0: State, s1: State)
    requires s.app == lost.app && s.log == [lost] && KeyOf(lost) !in s.seenOrder
    requires s.phase == Unsubscribed && s.inflight == []
    ensures s0 == Apply(s, Enqueue(lost)) && s0.inflight == [lost] && s1 == Apply(s0, Broadcast(0))
    ensures s1 == s0.(inflight := []) && s1.log == [lost, lost]
    ensures s1 == s.(log := s1.log, seenOrder := s1.seenOrder, offered := s1.offered, accepted := s1.accepted,
                     evicted := s1.evicted)
  {
    ShortListsStay(s.log, lost);
    s0 := Apply(s, Enqueue(lost));
    assert s0.inflight == [lost] && s0.log == [lost, lost];
    s1 := Apply(s0, Broadcast(0));
  }

  /** The publication that follows, and the subscriber's first two writes. */
  lemma SecondCopy(s: State, lost: Message) returns (tail: seq<Event>, t: State)
    requires s.app == lost.app && s.log == [lost] && KeyOf(lost) !in s.seenOrder
    requires s.phase == Unsubscribed && s.inflight == [] && s.todo == [] && s.awaiting == None && s.written == []
    ensures Reaches(s, tail, t) && t.written == [lost, lost]
  {
    ForAppPair(lost);
    var s0, s1 := AcceptedAgain(s, lost);
    var s2 := Apply(s1, Subscribe);
    var s3 := Apply(s2, WriteNext);
    assert s2.todo[1..] == [lost];
    var s4 := Apply(s3, Acknowledge);
    t := Apply(s4, WriteNext);
    tail := [Enqueue(lost), Broadcast(0), Subscribe, WriteNext, Acknowledge, WriteNext];
    TailReaches(s0, tail[1..], s1, s2, s3, s4, t);
    assert Reaches(s, tail, t);
  }

  /** Any queued message whose key has left the window, behind any 32,768 messages
      of other applications, is accepted again, is then pending twice, and its
      subscriber gets it twice. */
  lemma DeliveredTwice(lost: Message, chats: seq<Message>) returns (run: seq<Event>, t: State)
    requires Traffic(lost, chats)
    ensures Init(Start(lost.app)) && Reaches(Start(lost.app), run, t)
    ensures Flood(lost, chats, MAX_SEEN) <= run && t.written == [lost, lost]
  {
    var s := FloodOutruns(lost, chats, MAX_SEEN);
    forall k | k in s.seenOrder ensures k != KeyOf(lost) {
      var i :| 0 <= i < MAX_SEEN && k == Keys(chats, MAX_SEEN)[i];
    }
    var tail;
    tail, t := SecondCopy(s, lost);
    ReachesTrans(Start(lost.app), Flood(lost, chats, MAX_SEEN), s, tail, t);
    run := Flood(lost, chats, MAX_SEEN) + tail;
  }

  // ---- such traffic exists ----

  function HexDigit(n: nat): char
    requires n < 16
  {
    "0123456789abcdef"[n]
  }

  /** `hex::encode`. */
  function Hex(bytes: Bytes): (s: string)
    ensures |s| == 2 * |bytes|
  {
    if bytes == [] then "" else [HexDigit(bytes[0] as nat / 16), HexDigit(bytes[0] as nat % 16)] + Hex(bytes[1..])
  }

  lemma HexDigitInjective(a: nat, b: nat)
    requires a < 16 && b < 16 && HexDigit(a) == HexDigit(b)
    ensures a == b
  {
  }

  lemma {:induction false} HexInjective(a: Bytes, b: Bytes)
    requires Hex(a) == Hex(b)
    ensures a == b
  {
    assert |a| == |b|;
    if a != [] {
      assert Hex(a)[0] == Hex(b)[0] && Hex(a)[1] == Hex(b)[1];
      HexDigitInjective(a[0] as nat / 16, b[0] as nat / 16);
      HexDigitInjective(a[0] as nat % 16, b[0] as nat % 16);
      assert Hex(a)[2..] == Hex(a[1..]) && Hex(b)[2..] == Hex(b[1..]);
      HexInjective(a[1..], b[1..]);
      assert a == [a[0]] + a[1..] && b == [b[0]] + b[1..];
    }
  }

  /** Message ids are the hexadecimal form of 32 bytes. */
  function Chat(app: string, n: nat): Message {
    Message(app, "peer", Hex(LittleEndian(n, 8) + seq(24, _ => 0)), "")
  }

  lemma TrafficExists(lost: Message, app: string)
    requires app != lost.app
    ensures Traffic(lost, seq(MAX_SEEN, n requires 0 <= n < MAX_SEEN => Chat(app, n)))
  {
    var chats := seq(MAX_SEEN, n requires 0 <= n < MAX_SEEN => Chat(app, n));
    forall i, j | 0 <= i < j < |chats| ensures KeyOf(chats[i]) != KeyOf(chats[j]) {
      if KeyOf(chats[i]) == KeyOf(chats[j]) {
        ChatIdsDiffer(app, i, j);
      }
    }
  }

  lemma ChatIdsDiffer(app: string, i: nat, j: nat)
    requires i <= U64_MAX && j <= U64_MAX && Chat(app, i).id == Chat(app, j).id
    ensures i == j
  {
    var pad: Bytes := seq(24, _ => 0);
    HexInjective(LittleEndian(i, 8) + pad, LittleEndian(j, 8) + pad);
    SplitAt(LittleEndian(i, 8), pad, LittleEndian(j, 8), pad);
    Fixed8(i, j);
  }

  lemma TailReaches(s: State, tail: seq<Event>, s1: State, s2: State, s3: State, s4: State, t: State)
    requires |tail| == 5
    requires Enabled(s, tail[0]) && s1 == Apply(s, tail[0])
    requires Enabled(s1, tail[1]) && s2 == Apply(s1, tail[1])
    requires Enabled(s2, tail[2]) && s3 == Apply(s2, tail[2])
    requires Enabled(s3, tail[3]) && s4 == Apply(s3, tail[3])
    requires Enabled(s4, tail[4]) && t == Apply(s4, tail[4])
    ensures Reaches(s, tail, t)
  {
    assert tail[4..][1..] == [] && tail[3..][1..] == tail[4..] && tail[2..][1..] == tail[3..]
           && tail[1..][1..] == tail[2..];
    assert Reaches(t, [], t);
    assert Reaches(s4, tail[4..], t);
    assert Reaches(s3, tail[3..], t);
    assert Reaches(s2, tail[2..], t);
    assert Reaches(s1, tail[1..], t);
  }
}
