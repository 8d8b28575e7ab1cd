/** The daemon's application message hub (api/local.rs).

    The hub keeps one FIFO queue per application, one global arrival order, a
    sliding de-duplication window and a running count.  All four are different
    views of one list: the pending messages, oldest first.  `HubSpec` is that
    list; `AppMessageHub` is the code's structure, proved to mirror it. */
module HubSpec {
  import opened Basics

  const MAX_PENDING: nat := 16_384
  const MAX_PENDING_PER_APP: nat := 4_096
  const MAX_SEEN: nat := 32_768

  datatype Message = Message(app: string, sender: string, id: string, payload: string)

  /** The de-duplication key: application, sender and message id. */
  datatype Key = Key(app: string, sender: string, id: string)

  /** The text the daemon stores for a key. */
  function Joined(k: Key): string {
    k.app + ['\0'] + (k.sender + ['\0'] + k.id)
  }

  function KeyOf(m: Message): Key {
    Key(m.app, m.sender, m.id)
  }

  /** Two messages are stored under one text exactly when they agree in application,
      sender and id: the first two are a network name and a record key, neither of
      which contains the separator. */
  lemma JoinedInjective(a: Message, b: Message)
    requires '\0' !in a.app && '\0' !in a.sender && '\0' !in b.app && '\0' !in b.sender
    ensures Joined(KeyOf(a)) == Joined(KeyOf(b)) <==> a.app == b.app && a.sender == b.sender && a.id == b.id
  {
    if Joined(KeyOf(a)) == Joined(KeyOf(b)) {
      SplitAtMark('\0', a.app, a.sender + ['\0'] + a.id, b.app, b.sender + ['\0'] + b.id);
      SplitAtMark('\0', a.sender, a.id, b.sender, b.id);
    }
  }

  function KeysOf(s: seq<Message>): set<Key> {
    set m | m in s :: KeyOf(m)
  }

  predicate DistinctKeys(s: seq<Message>) {
    forall i, j :: 0 <= i < j < |s| ==> KeyOf(s[i]) != KeyOf(s[j])
  }

  /** The queue of one application: its pending messages, oldest first. */
  function ForApp(log: seq<Message>, app: string): seq<Message> {
    if log == [] then []
    else (if log[0].app == app then [log[0]] else []) + ForApp(log[1..], app)
  }

  function Markers(log: seq<Message>): (r: seq<(string, Key)>)
    ensures |r| == |log|
    ensures forall i :: 0 <= i < |r| ==> r[i] == (log[i].app, KeyOf(log[i]))
  {
    seq(|log|, i requires 0 <= i < |log| => (log[i].app, KeyOf(log[i])))
  }

  ghost predicate WithinCaps(log: seq<Message>) {
    && |log| <= MAX_PENDING
    && forall app :: |ForApp(log, app)| <= MAX_PENDING_PER_APP
  }

  // ---- first occurrences ----

  /** Position of the first message of `q` carrying `key`. */
  function Position(q: seq<Message>, key: Key): (r: Option<nat>)
    ensures r.Some? ==> r.value < |q| && KeyOf(q[r.value]) == key
    ensures r.Some? ==> forall j :: 0 <= j < r.value ==> KeyOf(q[j]) != key
    ensures r.None? ==> forall j :: 0 <= j < |q| ==> KeyOf(q[j]) != key
  {
    if q == [] then None
    else if KeyOf(q[0]) == key then Some(0)
    else
      var rest := Position(q[1..], key);
      if rest.None? then None else Some(rest.value + 1)
  }

  /** Position of the first pending message of `app`. */
  function OldestOf(log: seq<Message>, app: string): (r: Option<nat>)
    ensures r.Some? ==> r.value < |log| && log[r.value].app == app
    ensures r.Some? ==> forall j :: 0 <= j < r.value ==> log[j].app != app
    ensures r.None? ==> forall j :: 0 <= j < |log| ==> log[j].app != app
  {
    if log == [] then None
    else if log[0].app == app then Some(0)
    else
      var rest := OldestOf(log[1..], app);
      if rest.None? then None else Some(rest.value + 1)
  }

  // ---- the specification: what publishing and acknowledging do to the list ----

  /** The message a publication of `m` pushes out: the oldest of the same
      application when that application is full, otherwise the oldest of all
      when the hub is full. */
  function Victim(log: seq<Message>, m: Message): (r: Option<nat>)
    ensures r.Some? ==> r.value < |log| + 1
  {
    var grown := log + [m];
    if |ForApp(grown, m.app)| > MAX_PENDING_PER_APP then OldestOf(grown, m.app)
    else if |grown| > MAX_PENDING then Some(0)
    else None
  }

  function Publish(log: seq<Message>, m: Message): seq<Message> {
    var grown := log + [m];
    match Victim(log, m)
    case None => grown
    case Some(i) => RemoveAt(grown, i)
  }

  function SlideWindow(seenOrder: seq<Key>, key: Key): seq<Key> {
    var grown := seenOrder + [key];
    if |grown| > MAX_SEEN then grown[1..] else grown
  }

  function Acknowledge(log: seq<Message>, key: Key): seq<Message> {
    match Position(log, key)
    case None => log
    case Some(i) => RemoveAt(log, i)
  }

  // ---- projections of the list ----

  lemma {:induction false} ForAppConcat(a: seq<Message>, b: seq<Message>, app: string)
    ensures ForApp(a + b, app) == ForApp(a, app) + ForApp(b, app)
  {
    if a == [] {
      assert a + b == b;
    } else {
      ForAppConcat(a[1..], b, app);
      assert (a + b)[1..] == a[1..] + b;
      Associative(if a[0].app == app then [a[0]] else [], ForApp(a[1..], app), ForApp(b, app));
    }
  }

  lemma {:induction false} ForAppMembers(log: seq<Message>, app: string)
    ensures forall m :: m in ForApp(log, app) <==> m in log && m.app == app
    ensures forall k :: 0 <= k < |ForApp(log, app)| ==> ForApp(log, app)[k] in log && ForApp(log, app)[k].app == app
    ensures ForApp(log, app) == [] <==> forall j :: 0 <= j < |log| ==> log[j].app != app
    ensures |ForApp(log, app)| <= |log|
  {
    if log != [] {
      ForAppMembers(log[1..], app);
      assert log == [log[0]] + log[1..];
    }
  }

  lemma ForAppAppend(log: seq<Message>, m: Message, app: string)
    ensures ForApp(log + [m], app) == if m.app == app then ForApp(log, app) + [m] else ForApp(log, app)
  {
    ForAppConcat(log, [m], app);
    assert [m][1..] == [];
  }

  /** Removing one entry of the list removes at most one entry of one queue. */
  lemma ForAppRemove(log: seq<Message>, i: nat, app: string)
    requires i < |log|
    ensures log[i].app != app ==> ForApp(RemoveAt(log, i), app) == ForApp(log, app)
    ensures log[i].app == app ==>
              var k := |ForApp(log[..i], app)|;
              && k < |ForApp(log, app)|
              && ForApp(log, app)[..k] == ForApp(log[..i], app)
              && ForApp(log, app)[k] == log[i]
              && ForApp(RemoveAt(log, i), app) == RemoveAt(ForApp(log, app), k)
  {
    var front, back := log[..i], log[i + 1..];
    assert log == (front + [log[i]]) + back;
    ForAppConcat(front + [log[i]], back, app);
    ForAppAppend(front, log[i], app);
    ForAppConcat(front, back, app);
  }

  lemma PositionIs(q: seq<Message>, key: Key, k: nat)
    requires k < |q| && KeyOf(q[k]) == key
    requires forall j :: 0 <= j < k ==> KeyOf(q[j]) != key
    ensures Position(q, key) == Some(k)
  {
    var p := Position(q, key);
    assert p.Some?;
    if p.value < k { assert false; }
    if k < p.value { assert false; }
  }

  /** The first entry with a key is at the same place in the list and in the
      queue of its application. */
  lemma PositionInQueue(log: seq<Message>, key: Key)
    ensures Position(log, key).None? <==> Position(ForApp(log, key.app), key).None?
    ensures Position(log, key).Some? ==>
              Position(ForApp(log, key.app), key) == Some(|ForApp(log[..Position(log, key).value], key.app)|)
  {
    var q := ForApp(log, key.app);
    ForAppMembers(log, key.app);
    match Position(log, key)
    case None =>
    case Some(i) => PositionFoundInQueue(log, key, i);
  }

  lemma PositionFoundInQueue(log: seq<Message>, key: Key, i: nat)
    requires Position(log, key) == Some(i)
    ensures Position(ForApp(log, key.app), key) == Some(|ForApp(log[..i], key.app)|)
  {
    var q, before := ForApp(log, key.app), ForApp(log[..i], key.app);
    assert log[i].app == key.app;
    ForAppRemove(log, i, key.app);
    forall j | 0 <= j < |before| ensures KeyOf(q[j]) != key {
      ForAppMembers(log[..i], key.app);
      assert q[j] == before[j];
      assert before[j] in log[..i];
    }
    PositionIs(q, key, |before|);
  }

  /** The oldest message of an application is the head of its queue. */
  lemma OldestIsHead(log: seq<Message>, app: string)
    ensures OldestOf(log, app).None? <==> ForApp(log, app) == []
    ensures OldestOf(log, app).Some? ==> HeadOfQueue(log, app, OldestOf(log, app).value)
  {
    ForAppMembers(log, app);
    match OldestOf(log, app)
    case None =>
    case Some(i) => OldestFoundIsHead(log, app, i);
  }

  ghost predicate HeadOfQueue(log: seq<Message>, app: string, i: nat) {
    && i < |log|
    && log[i].app == app
    && ForApp(log, app) != []
    && ForApp(log, app)[0] == log[i]
    && ForApp(RemoveAt(log, i), app) == ForApp(log, app)[1..]
    && Position(log, KeyOf(log[i])) == Some(i)
  }

  lemma OldestFoundIsHead(log: seq<Message>, app: string, i: nat)
    requires OldestOf(log, app) == Some(i)
    ensures HeadOfQueue(log, app, i)
  {
    ForAppRemove(log, i, app);
    ForAppMembers(log[..i], app);
    PositionIs(log, KeyOf(log[i]), i);
  }

  // ---- what the specification promises ----

  /** Publishing keeps both caps, always keeps the new message, and loses at
      most one older message, the oldest its cap allows. */
  lemma PublishKeepsCaps(log: seq<Message>, m: Message)
    requires WithinCaps(log)
    ensures WithinCaps(Publish(log, m))
    ensures Publish(log, m) != [] && Publish(log, m)[|Publish(log, m)| - 1] == m
    ensures Victim(log, m).Some? ==> Victim(log, m).value < |log|
    ensures Victim(log, m).None? <==> |ForApp(log, m.app)| < MAX_PENDING_PER_APP && |log| < MAX_PENDING
  {
    var grown := log + [m];
    ForAppAppend(log, m, m.app);
    OldestIsHead(grown, m.app);
    OldestIsHead(log, m.app);
    forall app ensures |ForApp(Publish(log, m), app)| <= MAX_PENDING_PER_APP {
      ForAppAppend(log, m, app);
      if Victim(log, m).Some? {
        ForAppRemove(grown, Victim(log, m).value, app);
      }
    }
    ForAppMembers(log, m.app);
  }

  /** Whatever leaves a full hub is older than everything that competes with it:
      no pending message of that application arrived earlier, and when the
      global cap forces the eviction nothing at all did. */
  lemma VictimIsOldest(log: seq<Message>, m: Message)
    requires WithinCaps(log) && Victim(log, m).Some?
    ensures var i := Victim(log, m).value;
            && i < |log|
            && (forall j :: 0 <= j < i ==> log[j].app != log[i].app)
            && (|ForApp(log, m.app)| < MAX_PENDING_PER_APP ==> i == 0)
            && (|ForApp(log, m.app)| == MAX_PENDING_PER_APP ==> log[i].app == m.app)
  {
    PublishKeepsCaps(log, m);
    ForAppAppend(log, m, m.app);
    OldestIsHead(log + [m], m.app);
    var i := Victim(log, m).value;
    forall j | 0 <= j < i ensures log[j].app != log[i].app {
      assert (log + [m])[j] == log[j];
    }
  }

  /** A publication appends the new message and takes out the victim, if any;
      everyone else keeps their order. */
  lemma PublishTakesOne(log: seq<Message>, m: Message)
    requires WithinCaps(log)
    ensures Publish(log, m) == match Victim(log, m)
                               case None => log + [m]
                               case Some(i) => if i < |log| then log[..i] + log[i + 1..] + [m] else log
  {
    PublishKeepsCaps(log, m);
    if Victim(log, m).Some? {
      var i := Victim(log, m).value;
      assert (log + [m])[..i] == log[..i];
      assert (log + [m])[i + 1..] == log[i + 1..] + [m];
    }
  }

  // ---- acknowledging ----

  /** The messages of `q` with the key, or without it, in order. */
  function Only(q: seq<Message>, key: Key, with: bool): seq<Message> {
    if q == [] then []
    else (if (KeyOf(q[0]) == key) == with then [q[0]] else []) + Only(q[1..], key, with)
  }

  /** How often a key is pending. */
  function Copies(q: seq<Message>, key: Key): nat {
    |Only(q, key, true)|
  }

  lemma {:induction false} OnlyConcat(a: seq<Message>, b: seq<Message>, key: Key, with: bool)
    ensures Only(a + b, key, with) == Only(a, key, with) + Only(b, key, with)
  {
    if a == [] {
      assert a + b == b;
    } else {
      OnlyConcat(a[1..], b, key, with);
      assert (a + b)[1..] == a[1..] + b;
      var head := if (KeyOf(a[0]) == key) == with then [a[0]] else [];
      Associative(head, Only(a[1..], key, with), Only(b, key, with));
    }
  }

  lemma {:induction false} OnlyNone(q: seq<Message>, key: Key)
    ensures Only(q, key, true) == [] <==> key !in KeysOf(q)
  {
    if q != [] {
      OnlyNone(q[1..], key);
      assert q == [q[0]] + q[1..];
    }
  }

  lemma OnlyOne(m: Message, key: Key, with: bool)
    ensures Only([m], key, with) == if (KeyOf(m) == key) == with then [m] else []
  {
    assert [m][1..] == [];
  }

  lemma OnlyRemove(q: seq<Message>, i: nat, key: Key, with: bool)
    requires i < |q|
    ensures Only(q, key, with) == Only(q[..i], key, with) + (Only([q[i]], key, with) + Only(q[i + 1..], key, with))
    ensures Only(RemoveAt(q, i), key, with) == Only(q[..i], key, with) + Only(q[i + 1..], key, with)
  {
    assert q == q[..i] + ([q[i]] + q[i + 1..]);
    OnlyConcat(q[..i], [q[i]] + q[i + 1..], key, with);
    OnlyConcat([q[i]], q[i + 1..], key, with);
    OnlyConcat(q[..i], q[i + 1..], key, with);
  }

  /** One copy of a key less, the others as often as before. */
  lemma CopiesRemove(q: seq<Message>, i: nat, key: Key)
    requires i < |q|
    ensures Copies(RemoveAt(q, i), key) == Copies(q, key) - if KeyOf(q[i]) == key then 1 else 0
  {
    OnlyRemove(q, i, key, true);
    OnlyOne(q[i], key, true);
  }

  lemma CopiesAppend(q: seq<Message>, m: Message, key: Key)
    ensures Copies(q + [m], key) == Copies(q, key) + if KeyOf(m) == key then 1 else 0
  {
    OnlyConcat(q, [m], key, true);
    OnlyOne(m, key, true);
  }

  /** Acknowledging takes out the oldest message with the key and leaves every
      other message in its order. */
  lemma AcknowledgeTakesOne(log: seq<Message>, key: Key)
    ensures Only(log, key, true) != [] ==>
        Only(Acknowledge(log, key), key, true) == Only(log, key, true)[1..]
    ensures Only(log, key, true) == [] ==> Acknowledge(log, key) == log
    ensures Only(Acknowledge(log, key), key, false) == Only(log, key, false)
  {
    OnlyNone(log, key);
    match Position(log, key)
    case None =>
      assert Only(log, key, true) == [];
    case Some(i) =>
      forall k | k in KeysOf(log[..i]) ensures k != key {}
      OnlyNone(log[..i], key);
      forall with: bool ensures Only([log[i]], key, with) == if with then [log[i]] else [] {
        OnlyOne(log[i], key, with);
      }
      OnlyRemove(log, i, key, true);
      OnlyRemove(log, i, key, false);
      assert [] + Only(log[i + 1..], key, false) == Only(log[i + 1..], key, false);
  }

  /** The same for the queues: the key's queue loses one copy, or is as before;
      the other queues do not change. */
  lemma AcknowledgedQueues(log: seq<Message>, key: Key)
    ensures var left := Acknowledge(log, key);
            && (forall k :: Copies(left, k) == if k == key then SatSub(Copies(log, k), 1) else Copies(log, k))
            && (forall app :: app != key.app ==> ForApp(left, app) == ForApp(log, app))
            && (DistinctKeys(log) ==> key !in KeysOf(left))
  {
    var left := Acknowledge(log, key);
    AcknowledgeTakesOne(log, key);
    if Position(log, key).Some? {
      var i := Position(log, key).value;
      forall k ensures Copies(left, k) == if k == key then SatSub(Copies(log, k), 1) else Copies(log, k) {
        CopiesRemove(log, i, k);
        OnlyNone(log, key);
      }
      forall app | app != key.app ensures ForApp(left, app) == ForApp(log, app) {
        ForAppRemove(log, i, app);
      }
    } else {
      OnlyNone(log, key);
    }
  }

  lemma AcknowledgeKeepsCaps(log: seq<Message>, key: Key)
    requires WithinCaps(log)
    ensures WithinCaps(Acknowledge(log, key))
  {
    if Position(log, key).Some? {
      forall app ensures |ForApp(Acknowledge(log, key), app)| <= MAX_PENDING_PER_APP {
        ForAppRemove(log, Position(log, key).value, app);
      }
    }
  }
}

/** The structure the daemon actually keeps. */
module MessageHub {
  import opened Basics
  import opened HubSpec

  /** Index of the first arrival marker of `app` carrying `key`. */
  function MarkerPosition(order: seq<(string, Key)>, app: string, key: Key): (r: Option<nat>)
    ensures r.Some? ==> r.value < |order| && order[r.value] == (app, key)
    ensures r.Some? ==> forall j :: 0 <= j < r.value ==> order[j] != (app, key)
    ensures r.None? ==> forall j :: 0 <= j < |order| ==> order[j] != (app, key)
  {
    if order == [] then None
    else if order[0] == (app, key) then Some(0)
    else
      var rest := MarkerPosition(order[1..], app, key);
      if rest.None? then None else Some(rest.value + 1)
  }

  function RemoveArrivalMarker(order: seq<(string, Key)>, app: string, key: Key): seq<(string, Key)> {
    match MarkerPosition(order, app, key)
    case None => order
    case Some(i) => RemoveAt(order, i)
  }

  lemma MarkerIs(order: seq<(string, Key)>, app: string, key: Key, i: nat)
    requires i < |order| && order[i] == (app, key)
    requires forall j :: 0 <= j < i ==> order[j] != (app, key)
    ensures MarkerPosition(order, app, key) == Some(i)
  {
    var p := MarkerPosition(order, app, key);
    assert p.Some?;
    assert !(p.value < i) && !(i < p.value);
  }

  lemma MarkersRemove(log: seq<Message>, i: nat)
    requires i < |log|
    ensures RemoveAt(Markers(log), i) == Markers(RemoveAt(log, i))
  {
    var a, b := RemoveAt(Markers(log), i), Markers(RemoveAt(log, i));
    forall j | 0 <= j < |a| ensures a[j] == b[j] {
      assert RemoveAt(log, i)[j] == log[if j < i then j else j + 1];
    }
  }

  /** Removing the marker of the first message with a key removes that
      message's own marker, even when the key is pending twice. */
  lemma MarkerOfPosition(log: seq<Message>, key: Key, i: nat)
    requires Position(log, key) == Some(i)
    ensures RemoveArrivalMarker(Markers(log), key.app, key) == Markers(RemoveAt(log, i))
  {
    forall j | 0 <= j < i ensures Markers(log)[j] != (key.app, key) {
      assert KeyOf(log[j]) != key;
    }
    MarkerIs(Markers(log), key.app, key, i);
    MarkersRemove(log, i);
  }

  /** Queues, arrival order and count are three views of `log`.  An application
      is in `queues` exactly while it has pending messages. */
  ghost predicate MirrorOf(queues: map<string, seq<Message>>, order: seq<(string, Key)>, count: nat,
      log: seq<Message>) {
    && (forall app :: app in queues <==> ForApp(log, app) != [])
    && (forall app :: app in queues ==> queues[app] == ForApp(log, app))
    && order == Markers(log)
    && count == |log|
  }

  ghost function QueueTotal(queues: map<string, seq<Message>>): nat {
    if queues == map[] then 0
    else
      var app :| app in queues;
      |queues[app]| + QueueTotal(queues - {app})
  }

  /** The pending messages of every other application. */
  function Others(log: seq<Message>, app: string): seq<Message> {
    if log == [] then []
    else (if log[0].app == app then [] else [log[0]]) + Others(log[1..], app)
  }

  lemma {:induction false} OthersIs(log: seq<Message>, app: string)
    ensures |log| == |ForApp(log, app)| + |Others(log, app)|
    ensures forall b :: ForApp(Others(log, app), b) == if b == app then [] else ForApp(log, b)
  {
    if log != [] {
      OthersIs(log[1..], app);
      var kept := if log[0].app == app then [] else [log[0]];
      assert kept + Others(log[1..], app) == Others(log, app);
      if kept != [] {
        assert Others(log, app)[1..] == Others(log[1..], app) && Others(log, app)[0] == log[0];
      } else {
        assert [] + Others(log[1..], app) == Others(log[1..], app);
      }
    }
  }

  /** The running count is the sum of the queue lengths. */
  lemma {:induction false} CountIsSum(queues: map<string, seq<Message>>, order: seq<(string, Key)>, count: nat,
      log: seq<Message>)
    requires MirrorOf(queues, order, count, log)
    ensures count == QueueTotal(queues)
    decreases |queues|
  {
    if queues == map[] {
      if log != [] {
        ForAppMembers(log, log[0].app);
      }
    } else {
      var app :| app in queues && QueueTotal(queues) == |queues[app]| + QueueTotal(queues - {app});
      OthersIs(log, app);
      var rest := Others(log, app);
      CountIsSum(queues - {app}, Markers(rest), |rest|, rest);
    }
  }

  /** Take entry `k` out of one queue; an emptied queue is dropped. */
  function DropFromQueue(queues: map<string, seq<Message>>, app: string, k: nat): map<string, seq<Message>>
    requires app in queues && k < |queues[app]|
  {
    var rest := RemoveAt(queues[app], k);
    if rest == [] then queues - {app} else queues[app := rest]
  }

  /** Removing the first message with a key from all three views at the places
      where each of them finds it keeps them in step. */
  lemma MirrorDrop(queues: map<string, seq<Message>>, order: seq<(string, Key)>, count: nat, log: seq<Message>,
                   key: Key, i: nat)
    requires MirrorOf(queues, order, count, log)
    requires Position(log, key) == Some(i)
    ensures key.app in queues && Position(queues[key.app], key).Some? && count > 0
    ensures MirrorOf(DropFromQueue(queues, key.app, Position(queues[key.app], key).value),
                     RemoveArrivalMarker(order, key.app, key), count - 1, RemoveAt(log, i))
  {
    var app, rest := key.app, RemoveAt(log, i);
    PositionFoundInQueue(log, key, i);
    ForAppRemove(log, i, app);
    var k := Position(queues[app], key).value;
    assert ForApp(rest, app) == RemoveAt(queues[app], k);
    var dropped := DropFromQueue(queues, app, k);
    forall other ensures (other in dropped <==> ForApp(rest, other) != []) &&
                         (other in dropped ==> dropped[other] == ForApp(rest, other)) {
      if other != app {
        ForAppRemove(log, i, other);
        assert other in dropped <==> other in queues;
      }
    }
    MarkerOfPosition(log, key, i);
  }

  lemma MirrorAppend(queues: map<string, seq<Message>>, order: seq<(string, Key)>, count: nat, log: seq<Message>,
                     m: Message)
    requires MirrorOf(queues, order, count, log)
    ensures MirrorOf(queues[m.app := (if m.app in queues then queues[m.app] else []) + [m]],
                     order + [(m.app, KeyOf(m))], count + 1, log + [m])
  {
    var was := if m.app in queues then queues[m.app] else [];
    assert was == ForApp(log, m.app);
    var grown := queues[m.app := was + [m]];
    forall app ensures (app in grown <==> ForApp(log + [m], app) != []) &&
                       (app in grown ==> grown[app] == ForApp(log + [m], app)) {
      ForAppAppend(log, m, app);
      if app == m.app {
        assert grown[app] == was + [m];
      }
    }
    MarkersAppend(log, m);
  }

  lemma MarkersAppend(log: seq<Message>, m: Message)
    ensures Markers(log + [m]) == Markers(log) + [(m.app, KeyOf(m))]
  {
  }

  class AppMessageHub {
    var queues: map<string, seq<Message>>
    var arrivalOrder: seq<(string, Key)>
    var seen: set<Key>
    var seenOrder: seq<Key>
    var pendingCount: nat
    /** Every pending message, oldest first. */
    ghost var log: seq<Message>

    ghost predicate Mirror()
      reads this
    {
      MirrorOf(queues, arrivalOrder, pendingCount, log)
    }

    ghost predicate Window()
      reads this
    {
      && (forall k :: k in seen <==> k in seenOrder)
      && (forall i, j :: 0 <= i < j < |seenOrder| ==> seenOrder[i] != seenOrder[j])
    }

    ghost predicate Valid()
      reads this
    {
      Mirror() && Window() && WithinCaps(log) && |seenOrder| <= MAX_SEEN
    }

    constructor ()
      ensures Valid() && log == [] && seenOrder == []
    {
      queues := map[];
      arrivalOrder := [];
      seen := {};
      seenOrder := [];
      pendingCount := 0;
      log := [];
    }

    /** Enter a key in the de-duplication window. */
    method Remember(key: Key)
      requires Window() && |seenOrder| <= MAX_SEEN && key !in seen
      modifies this`seen, this`seenOrder
      ensures Window() && |seenOrder| <= MAX_SEEN
      ensures seenOrder == SlideWindow(old(seenOrder), key)
    {
      seen := seen + {key};
      seenOrder := seenOrder + [key];
      ghost var grown := seenOrder;
      while |seenOrder| > MAX_SEEN
        invariant |seenOrder| <= MAX_SEEN + 1
        invariant seenOrder == if |seenOrder| == |grown| then grown else grown[1..]
        invariant |seenOrder| < |grown| ==> |grown| > MAX_SEEN
        invariant Window()
      {
        var expired := seenOrder[0];
        seenOrder := seenOrder[1..];
        seen := seen - {expired};
      }
    }

    /** Drop the head of one application's queue until it fits its cap. */
    method TrimApp(app: string)
      requires Mirror() && |ForApp(log, app)| <= MAX_PENDING_PER_APP + 1
      modifies this`queues, this`arrivalOrder, this`pendingCount, this`log
      ensures Mirror()
      ensures |ForApp(old(log), app)| <= MAX_PENDING_PER_APP ==> log == old(log)
      ensures |ForApp(old(log), app)| > MAX_PENDING_PER_APP ==>
                OldestOf(old(log), app).Some? && log == RemoveAt(old(log), OldestOf(old(log), app).value)
    {
      ghost var before := log;
      OldestIsHead(before, app);
      while app in queues && |queues[app]| > MAX_PENDING_PER_APP
        invariant Mirror()
        invariant |ForApp(log, app)| <= MAX_PENDING_PER_APP + 1
        invariant log == before ||
                  (|ForApp(before, app)| > MAX_PENDING_PER_APP
                   && log == RemoveAt(before, OldestOf(before, app).value)
                   && |ForApp(log, app)| <= MAX_PENDING_PER_APP)
        decreases |ForApp(log, app)|
      {
        DropHead(app);
      }
    }

    /** One round of the per-application eviction loop. */
    method DropHead(app: string)
      requires Mirror() && app in queues && |queues[app]| > 1
      modifies this`queues, this`arrivalOrder, this`pendingCount, this`log
      ensures Mirror()
      ensures OldestOf(old(log), app).Some? && log == RemoveAt(old(log), OldestOf(old(log), app).value)
      ensures |ForApp(log, app)| == |ForApp(old(log), app)| - 1
    {
      OldestIsHead(log, app);
      ghost var i := OldestOf(log, app).value;
      MirrorDrop(queues, arrivalOrder, pendingCount, log, KeyOf(log[i]), i);
      var removed := queues[app][0];
      PositionIs(queues[app], KeyOf(removed), 0);
      queues, pendingCount, arrivalOrder, log :=
        queues[app := queues[app][1..]], pendingCount - 1, RemoveArrivalMarker(arrivalOrder, app, KeyOf(removed)),
        RemoveAt(log, i);
    }

    /** Evict the globally oldest message until the hub fits its cap. */
    method TrimGlobal()
      requires Mirror() && |log| <= MAX_PENDING + 1
      modifies this`queues, this`arrivalOrder, this`pendingCount, this`log
      ensures Mirror()
      ensures log == if |old(log)| > MAX_PENDING then old(log)[1..] else old(log)
    {
      while pendingCount > MAX_PENDING
        invariant Mirror()
        invariant log == old(log) || (|old(log)| > MAX_PENDING && log == old(log)[1..])
        invariant |log| <= MAX_PENDING + 1
        decreases |log|
      {
        if arrivalOrder == [] {
          // the fallback for a count without markers: never reached
          assert false;
          break;
        }
        EvictOldest();
      }
    }

    /** One round of the global eviction loop. */
    method EvictOldest()
      requires Mirror() && arrivalOrder != []
      modifies this`queues, this`arrivalOrder, this`pendingCount, this`log
      ensures Mirror()
      ensures log == old(log)[1..]
    {
      var (oldApp, oldKey) := arrivalOrder[0];
      PositionIs(log, oldKey, 0);
      MirrorDrop(queues, arrivalOrder, pendingCount, log, oldKey, 0);
      assert RemoveAt(log, 0) == log[1..];
      assert RemoveArrivalMarker(arrivalOrder, oldApp, oldKey) == arrivalOrder[1..];
      arrivalOrder := arrivalOrder[1..];
      if oldApp in queues {
        var position := Position(queues[oldApp], oldKey);
        if position.Some? {
          queues := queues[oldApp := RemoveAt(queues[oldApp], position.value)];
          pendingCount := pendingCount - 1;
        }
      }
      if oldApp in queues && queues[oldApp] == [] {
        queues := queues - {oldApp};
      }
      log := log[1..];
    }

    /** Append to the queue, the arrival order and the count. */
    method Append(message: Message)
      requires Mirror()
      modifies this`queues, this`arrivalOrder, this`pendingCount, this`log
      ensures Mirror() && log == old(log) + [message]
    {
      MirrorAppend(queues, arrivalOrder, pendingCount, log, message);
      var queue := if message.app in queues then queues[message.app] else [];
      queues := queues[message.app := queue + [message]];
      arrivalOrder := arrivalOrder + [(message.app, KeyOf(message))];
      pendingCount := pendingCount + 1;
      log := log + [message];
    }

    /** The locked half of `publish`: returns whether the message was new. */
    method Enqueue(message: Message) returns (accepted: bool)
      requires Valid()
      modifies this
      ensures Valid()
      ensures accepted == (KeyOf(message) !in old(seenOrder))
      ensures !accepted ==> log == old(log) && seenOrder == old(seenOrder)
      ensures accepted ==> log == Publish(old(log), message)
      ensures accepted ==> seenOrder == SlideWindow(old(seenOrder), KeyOf(message))
    {
      if KeyOf(message) in seen {
        return false;
      }
      accepted := true;
      Remember(KeyOf(message));
      PublishKeepsCaps(log, message);
      Admit(message);
    }

    /** Append, then run both capacity loops. */
    method Admit(message: Message)
      requires Mirror() && WithinCaps(log)
      modifies this`queues, this`arrivalOrder, this`pendingCount, this`log
      ensures Mirror() && log == Publish(old(log), message)
    {
      ForAppAppend(log, message, message.app);
      Append(message);
      TrimApp(message.app);
      TrimGlobal();
    }

    /** `acknowledge`: forget one delivered message. */
    method Acknowledge(app: string, key: Key)
      requires Valid() && key.app == app
      modifies this`queues, this`arrivalOrder, this`pendingCount, this`log
      ensures Valid()
      ensures log == HubSpec.Acknowledge(old(log), key)
      ensures Copies(log, key) == SatSub(Copies(old(log), key), 1)
      ensures Only(log, key, false) == Only(old(log), key, false)
    {
      PositionInQueue(log, key);
      AcknowledgeKeepsCaps(log, key);
      AcknowledgeTakesOne(log, key);
      if app in queues {
        var position := Position(queues[app], key);
        if position.Some? {
          TakeOut(app, key, position.value);
        }
      }
    }

    /** Remove one queue entry, its marker and its count. */
    method TakeOut(app: string, key: Key, position: nat)
      requires Mirror() && key.app == app && app in queues && Position(queues[app], key) == Some(position)
      requires Position(log, key).Some?
      modifies this`queues, this`arrivalOrder, this`pendingCount, this`log
      ensures Mirror() && log == RemoveAt(old(log), Position(old(log), key).value)
    {
      ghost var was, found := queues, Position(log, key).value;
      MirrorDrop(was, arrivalOrder, pendingCount, log, key, found);
      DropEntry(app, position);
      arrivalOrder, pendingCount, log :=
        RemoveArrivalMarker(arrivalOrder, app, key), pendingCount - 1, RemoveAt(log, found);
    }

    method DropEntry(app: string, position: nat)
      requires app in queues && position < |queues[app]|
      modifies this`queues
      ensures queues == DropFromQueue(old(queues), app, position)
    {
      queues := queues[app := RemoveAt(queues[app], position)];
      if queues[app] == [] {
        queues := queues - {app};
      }
    }

    /** The snapshot half of `subscribe_and_snapshot`. */
    method Snapshot(app: string) returns (pending: seq<Message>)
      requires Valid()
      ensures pending == ForApp(log, app)
      ensures forall m :: m in pending <==> m in log && m.app == app
    {
      ForAppMembers(log, app);
      pending := if app in queues then queues[app] else [];
    }
  }
}
