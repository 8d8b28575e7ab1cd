/** Challenge/response authentication of local applications (app/identity.rs). */
module ProofInput {
  import opened Basics
  import opened Encoding

  /** In the order of the enumeration, which is the order of the capability set. */
  datatype Capability =
    | SendMessages | ReceiveMessages | ManageOwnStorage | ReadOwnStorage | ReadPublicProfiles
    | SubscribeNetworkStatus | SubmitReputation | RequestAppScopedRestriction
    | InspectOwnReputationSubmissions | SignAppData
    | InspectNodes | InspectReputation | ModifyBans | RetractAppReputation | InspectDht
    | ControlWalker | ManageApplications

  const ALL: seq<Capability> := [
    SendMessages, ReceiveMessages, ManageOwnStorage, ReadOwnStorage, ReadPublicProfiles,
    SubscribeNetworkStatus, SubmitReputation, RequestAppScopedRestriction,
    InspectOwnReputationSubmissions, SignAppData,
    InspectNodes, InspectReputation, ModifyBans, RetractAppReputation, InspectDht,
    ControlWalker, ManageApplications]

  datatype Challenge = Challenge(
    appId: Bytes, id: U64, nonce: Bytes, issuedAt: U64, expiresAt: U64, generation: U64,
    capabilities: set<Capability>)

  ghost predicate WellFormed(c: Challenge) {
    |c.appId| <= U32_MAX && |c.nonce| == 32
  }

  /** The bytes of an ASCII text; other characters do not occur. */
  function Ascii(s: string): (r: Bytes)
    ensures |r| == |s| && 0 !in r
  {
    seq(|s|, i requires 0 <= i < |s| => if 0 < s[i] as int < 128 then s[i] as int as byte else 63)
  }

  /** The capability's name as its debug format prints it. */
  function Text(c: Capability): string {
    match c
    case SendMessages => "SendMessages"
    case ReceiveMessages => "ReceiveMessages"
    case ManageOwnStorage => "ManageOwnStorage"
    case ReadOwnStorage => "ReadOwnStorage"
    case ReadPublicProfiles => "ReadPublicProfiles"
    case SubscribeNetworkStatus => "SubscribeNetworkStatus"
    case SubmitReputation => "SubmitReputation"
    case RequestAppScopedRestriction => "RequestAppScopedRestriction"
    case InspectOwnReputationSubmissions => "InspectOwnReputationSubmissions"
    case SignAppData => "SignAppData"
    case InspectNodes => "InspectNodes"
    case InspectReputation => "InspectReputation"
    case ModifyBans => "ModifyBans"
    case RetractAppReputation => "RetractAppReputation"
    case InspectDht => "InspectDht"
    case ControlWalker => "ControlWalker"
    case ManageApplications => "ManageApplications"
  }

  function Name(c: Capability): (r: Bytes)
    ensures 0 !in r && |r| == |Text(c)|
  {
    Ascii(Text(c))
  }

  /** The capability whose name has this length and first letter. */
  function Named(length: nat, first: char): Capability {
    match length
    case 12 => if first == 'S' then SendMessages else InspectNodes
    case 15 => ReceiveMessages
    case 16 => if first == 'M' then ManageOwnStorage else SubmitReputation
    case 14 => ReadOwnStorage
    case 18 => if first == 'R' then ReadPublicProfiles else ManageApplications
    case 22 => SubscribeNetworkStatus
    case 27 => RequestAppScopedRestriction
    case 31 => InspectOwnReputationSubmissions
    case 11 => SignAppData
    case 17 => InspectReputation
    case 10 => if first == 'M' then ModifyBans else InspectDht
    case 20 => RetractAppReputation
    case _ => ControlWalker
  }

  lemma TextNames(c: Capability)
    ensures Text(c) != [] && Named(|Text(c)|, Text(c)[0]) == c
    ensures 0 < Text(c)[0] as int < 128
  {
  }

  lemma NameDetermines(c: Capability, name: Bytes)
    requires name == Name(c)
    ensures name != [] && Named(|name|, name[0] as int as char) == c
  {
    TextNames(c);
    assert name[0] as int as char == Text(c)[0];
  }

  lemma NamesDiffer(a: Capability, b: Capability)
    requires Name(a) == Name(b)
    ensures a == b
  {
    var name := Name(a);
    NameDetermines(a, name);
    NameDetermines(b, name);
  }

  /** The members of a capability set, in set order. */
  function InOrder(all: seq<Capability>, caps: set<Capability>): seq<Capability> {
    if all == [] then []
    else (if all[0] in caps then [all[0]] else []) + InOrder(all[1..], caps)
  }

  lemma {:induction false} InOrderMembers(all: seq<Capability>, caps: set<Capability>)
    ensures forall c :: c in InOrder(all, caps) <==> c in all && c in caps
  {
    if all != [] {
      InOrderMembers(all[1..], caps);
      assert all == [all[0]] + all[1..];
    }
  }

  lemma AllAreListed(c: Capability)
    ensures c in ALL
  {
    match c
    case SendMessages => assert ALL[0] == c;
    case ReceiveMessages => assert ALL[1] == c;
    case ManageOwnStorage => assert ALL[2] == c;
    case ReadOwnStorage => assert ALL[3] == c;
    case ReadPublicProfiles => assert ALL[4] == c;
    case SubscribeNetworkStatus => assert ALL[5] == c;
    case SubmitReputation => assert ALL[6] == c;
    case RequestAppScopedRestriction => assert ALL[7] == c;
    case InspectOwnReputationSubmissions => assert ALL[8] == c;
    case SignAppData => assert ALL[9] == c;
    case InspectNodes => assert ALL[10] == c;
    case InspectReputation => assert ALL[11] == c;
    case ModifyBans => assert ALL[12] == c;
    case RetractAppReputation => assert ALL[13] == c;
    case InspectDht => assert ALL[14] == c;
    case ControlWalker => assert ALL[15] == c;
    case ManageApplications => assert ALL[16] == c;
  }

  function Names(caps: seq<Capability>): (r: seq<Bytes>)
    ensures |r| == |caps|
    ensures forall i :: 0 <= i < |r| ==> r[i] == Name(caps[i])
  {
    seq(|caps|, i requires 0 <= i < |caps| => Name(caps[i]))
  }

  /** Everything after the application id: fixed-width fields, then the names. */
  function Fixed(c: Challenge): Bytes {
    LittleEndian(c.id, 8) + (c.nonce + (LittleEndian(c.issuedAt, 8) + (LittleEndian(c.expiresAt, 8)
    + (LittleEndian(c.generation, 8) + CapabilityField(c.capabilities)))))
  }

  function CapabilityField(caps: set<Capability>): Bytes {
    var listed := InOrder(ALL, caps);
    LittleEndian(|listed|, 4) + Terminated(Names(listed))
  }

  const DOMAIN: Bytes := Ascii("veilknit/app-auth/v2")

  /** The bytes whose keyed hash is the proof. */
  function Encode(c: Challenge): Bytes {
    DOMAIN + (LittleEndian(|c.appId|, 4) + (c.appId + Fixed(c)))
  }

  lemma CapabilityFieldInjective(a: set<Capability>, b: set<Capability>)
    requires CapabilityField(a) == CapabilityField(b)
    ensures a == b
  {
    var la, lb := InOrder(ALL, a), InOrder(ALL, b);
    SplitAt(LittleEndian(|la|, 4), Terminated(Names(la)), LittleEndian(|lb|, 4), Terminated(Names(lb)));
    TerminatedInjective(Names(la), Names(lb));
    forall i | 0 <= i < |la| ensures la[i] == lb[i] {
      assert Names(la)[i] == Names(lb)[i];
      NamesDiffer(la[i], lb[i]);
    }
    assert |la| == |Names(la)| == |Names(lb)| == |lb|;
    assert la == lb;
    InOrderMembers(ALL, a);
    InOrderMembers(ALL, b);
    forall c ensures c in a <==> c in b {
      AllAreListed(c);
    }
  }

  lemma FixedInjective(a: Challenge, b: Challenge)
    requires |a.nonce| == |b.nonce| && Fixed(a) == Fixed(b)
    ensures a.id == b.id && a.nonce == b.nonce && a.issuedAt == b.issuedAt && a.expiresAt == b.expiresAt
    ensures a.generation == b.generation && a.capabilities == b.capabilities
  {
    var ca, cb := CapabilityField(a.capabilities), CapabilityField(b.capabilities);
    var ga, gb := LittleEndian(a.generation, 8) + ca, LittleEndian(b.generation, 8) + cb;
    var ea, eb := LittleEndian(a.expiresAt, 8) + ga, LittleEndian(b.expiresAt, 8) + gb;
    var ia, ib := LittleEndian(a.issuedAt, 8) + ea, LittleEndian(b.issuedAt, 8) + eb;
    SplitAt(LittleEndian(a.id, 8), a.nonce + ia, LittleEndian(b.id, 8), b.nonce + ib);
    SplitAt(a.nonce, ia, b.nonce, ib);
    SplitAt(LittleEndian(a.issuedAt, 8), ea, LittleEndian(b.issuedAt, 8), eb);
    SplitAt(LittleEndian(a.expiresAt, 8), ga, LittleEndian(b.expiresAt, 8), gb);
    SplitAt(LittleEndian(a.generation, 8), ca, LittleEndian(b.generation, 8), cb);
    Fixed8(a.id, b.id);
    Fixed8(a.issuedAt, b.issuedAt);
    Fixed8(a.expiresAt, b.expiresAt);
    Fixed8(a.generation, b.generation);
    CapabilityFieldInjective(a.capabilities, b.capabilities);
  }

  /** Distinct challenges are never hashed as the same bytes. */
  lemma EncodeInjective(a: Challenge, b: Challenge)
    requires WellFormed(a) && WellFormed(b)
    requires Encode(a) == Encode(b)
    ensures a == b
  {
    SplitAt(DOMAIN, LittleEndian(|a.appId|, 4) + (a.appId + Fixed(a)),
            DOMAIN, LittleEndian(|b.appId|, 4) + (b.appId + Fixed(b)));
    SplitPrefixed(a.appId, Fixed(a), b.appId, Fixed(b));
    FixedInjective(a, b);
  }

  lemma Regroup(d: Bytes, l: Bytes, a: Bytes, i: Bytes, n: Bytes, s: Bytes, e: Bytes, g: Bytes, c: Bytes, t: Bytes)
    ensures d + l + a + i + n + s + e + g + c + t == d + (l + (a + (i + (n + (s + (e + (g + (c + t))))))))
  {
    assert d + l + a + i + n + s + e + g + c + t == d + l + a + i + n + s + e + g + (c + t);
    var gt := g + (c + t);
    assert d + l + a + i + n + s + e + g + (c + t) == d + l + a + i + n + s + e + gt;
    var et := e + gt;
    assert d + l + a + i + n + s + e + gt == d + l + a + i + n + s + et;
    var st := s + et;
    assert d + l + a + i + n + s + et == d + l + a + i + n + st;
    var nt := n + st;
    assert d + l + a + i + n + st == d + l + a + i + nt;
    var it := i + nt;
    assert d + l + a + i + nt == d + l + a + it;
    assert d + l + a + it == d + (l + (a + it));
  }

  lemma NamesAppend(listed: seq<Capability>, c: Capability)
    ensures Names(listed + [c]) == Names(listed) + [Name(c)]
  {
  }

  lemma NamesStep(listed: seq<Capability>, k: nat)
    requires k < |listed|
    ensures Terminated(Names(listed[..k + 1])) == Terminated(Names(listed[..k])) + (Name(listed[k]) + [0])
  {
    NamesAppend(listed[..k], listed[k]);
    assert listed[..k + 1] == listed[..k] + [listed[k]];
    TerminatedAppend(Names(listed[..k]), Name(listed[k]));
  }

  /** The capability loop of `compute_app_proof`. */
  method AppendNames(head: Bytes, listed: seq<Capability>) returns (input: Bytes)
    ensures input == head + Terminated(Names(listed))
  {
    input := head;
    var k := 0;
    while k < |listed|
      invariant 0 <= k <= |listed|
      invariant input == head + Terminated(Names(listed[..k]))
    {
      var name := Name(listed[k]);
      NamesStep(listed, k);
      ghost var done := Terminated(Names(listed[..k]));
      Associative(head + done, name, [0]);
      Associative(head, done, name + [0]);
      input := input + name;
      input := input + [0];
      k := k + 1;
    }
    assert listed[..k] == listed;
  }

  /** `compute_app_proof` up to the keyed hash: the input is built by appending. */
  method BuildInput(c: Challenge) returns (input: Bytes)
    ensures input == Encode(c)
  {
    input := DOMAIN;
    input := input + LittleEndian(|c.appId|, 4);
    input := input + c.appId;
    input := input + LittleEndian(c.id, 8);
    input := input + c.nonce;
    input := input + LittleEndian(c.issuedAt, 8);
    input := input + LittleEndian(c.expiresAt, 8);
    input := input + LittleEndian(c.generation, 8);
    var listed := InOrder(ALL, c.capabilities);
    input := input + LittleEndian(|listed|, 4);
    input := AppendNames(input, listed);
    Regroup(DOMAIN, LittleEndian(|c.appId|, 4), c.appId, LittleEndian(c.id, 8), c.nonce, LittleEndian(c.issuedAt, 8),
            LittleEndian(c.expiresAt, 8), LittleEndian(c.generation, 8), LittleEndian(|listed|, 4),
                Terminated(Names(listed)));
  }
}

/** The message an application signs (app/services.rs). */
module SignatureMessage {
  import opened Encoding
  import opened ProofInput

  const PREFIX: Bytes := Ascii("veilknit/app-signature/v1") + [0]
  const MAX_DOMAIN: nat := 128
  const MAX_PAYLOAD: nat := 131_072

  datatype Check = Accepted | InvalidDomain | PayloadTooLarge(size: nat)

  function Validate(domain: Bytes, payload: Bytes): Check {
    if domain == [] || |domain| > MAX_DOMAIN then InvalidDomain
    else if |payload| > MAX_PAYLOAD then PayloadTooLarge(|payload|)
    else Accepted
  }

  function Message(domain: Bytes, payload: Bytes): Bytes {
    PREFIX + (LittleEndian(|domain|, 4) + (domain + (LittleEndian(|payload|, 8) + payload)))
  }

  /** Every pair the validation accepts has its own message. */
  lemma MessageInjective(d: Bytes, p: Bytes, d': Bytes, p': Bytes)
    requires Validate(d, p) == Accepted && Validate(d', p') == Accepted
    requires Message(d, p) == Message(d', p')
    ensures d == d' && p == p'
  {
    var rest, rest' := LittleEndian(|p|, 8) + p, LittleEndian(|p'|, 8) + p';
    SplitAt(PREFIX, LittleEndian(|d|, 4) + (d + rest), PREFIX, LittleEndian(|d'|, 4) + (d' + rest'));
    SplitPrefixed(d, rest, d', rest');
    SplitAt(LittleEndian(|p|, 8), p, LittleEndian(|p'|, 8), p');
  }

  /** `signature_message`. */
  method Build(domain: Bytes, payload: Bytes) returns (message: Bytes)
    ensures message == Message(domain, payload)
  {
    message := PREFIX;
    message := message + LittleEndian(|domain|, 4);
    message := message + domain;
    message := message + LittleEndian(|payload|, 8);
    message := message + payload;
  }
}
