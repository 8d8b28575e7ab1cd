/** Registrations, pending challenges and active sessions (app/identity.rs).

    `View` is the manager's state; `issued`, `ticket` and `redeemed` are history:
    every challenge gets its own ticket, also after the 64-bit challenge counter
    has saturated and two challenges carry the same id. */
module SessionSpec {
  import opened Basics
  import opened Encoding
  import opened ProofInput

  const MAX_PENDING_CHALLENGES: nat := 4096
  const MAX_ACTIVE_SESSIONS: nat := 4096
  const CHALLENGE_TTL: nat := 30
  const SESSION_TTL: nat := 43_200

  datatype Registration = Registration(
    enabled: bool, generation: U64, granted: set<Capability>, lastUsedAt: U64, secret: Bytes)

  datatype Session = Session(
    appId: Bytes, sessionId: Bytes, authenticatedAt: U64, expiresAt: U64, generation: U64,
    capabilities: set<Capability>)

  datatype Response = Response(appId: Bytes, challengeId: U64, proof: Bytes)

  datatype Error =
    | AlreadyRegistered | NotRegistered | Disabled | TooManyChallenges | TooManySessions
    | ChallengeNotFound | ChallengeExpired | ChallengeAppMismatch | GenerationMismatch | InvalidProof
    | SessionNotFound | SessionExpired | CapabilityDenied(capability: Capability) | Persistence

  datatype Result<+T> = Ok(value: T) | Err(error: Error)

  /** `compute_app_proof`: the keyed hash of the encoded challenge. */
  type Prover = (Bytes, Challenge) -> Bytes

  function Proof(prove: Prover, secret: Bytes, c: Challenge): Bytes {
    prove(secret, c)
  }

  datatype View = View(
    apps: map<Bytes, Registration>,
    nextChallengeId: U64,
    pending: map<U64, Challenge>,
    sessions: map<Bytes, Session>,
    issued: nat, ticket: map<U64, nat>, redeemed: set<nat>)

  /** What the daemon keeps on disk. */
  datatype Store = Store(apps: map<Bytes, Registration>, nextChallengeId: U64)

  /** A manager just started on a saved store: nothing is pending, nobody is in. */
  function Loaded(saved: Store): View {
    View(saved.apps, saved.nextChallengeId, map[], map[], 0, map[], {})
  }

  // ---- what each operation does to the state ----

  /** `cleanup_expired`. */
  function Live(v: View, now: U64): View {
    var pending := map id | id in v.pending && v.pending[id].expiresAt > now :: v.pending[id];
    v.(pending := pending,
       ticket := map id | id in v.ticket && id in pending :: v.ticket[id],
       sessions := map t | t in v.sessions && v.sessions[t].expiresAt > now :: v.sessions[t])
  }

  /** Forget every challenge and session of one application. */
  function WithoutApp(v: View, app: Bytes): View {
    var pending := map id | id in v.pending && v.pending[id].appId != app :: v.pending[id];
    v.(pending := pending,
       ticket := map id | id in v.ticket && id in pending :: v.ticket[id],
       sessions := map t | t in v.sessions && v.sessions[t].appId != app :: v.sessions[t])
  }

  function AfterRegister(v: View, app: Bytes, granted: set<Capability>, secret: Bytes): View {
    if app in v.apps then v
    else v.(apps := v.apps[app := Registration(true, 1, granted, 0, secret)])
  }

  function AfterRotate(v: View, app: Bytes, secret: Bytes): View {
    if app !in v.apps then v
    else
      var was := v.apps[app];
      WithoutApp(v.(apps := v.apps[app := was.(secret := secret, generation := SatAdd(was.generation, 1))]), app)
  }

  function AfterSetEnabled(v: View, app: Bytes, enabled: bool): View {
    if app !in v.apps then v
    else
      var w := v.(apps := v.apps[app := v.apps[app].(enabled := enabled)]);
      if enabled then w else WithoutApp(w, app)
  }

  function AfterSetCapabilities(v: View, app: Bytes, granted: set<Capability>): View {
    if app !in v.apps then v
    else WithoutApp(v.(apps := v.apps[app := v.apps[app].(granted := granted)]), app)
  }

  /** The error of `begin`, if any, on a state without expired entries. */
  predicate BeginAllowed(v: View, app: Bytes, requested: set<Capability>) {
    && |v.pending| < MAX_PENDING_CHALLENGES
    && app in v.apps && v.apps[app].enabled && requested <= v.apps[app].granted
  }

  function Issue(v: View, app: Bytes, requested: set<Capability>, nonce: Bytes, now: U64): Challenge
    requires app in v.apps
  {
    Challenge(app, v.nextChallengeId, nonce, now, SatAdd(now, CHALLENGE_TTL), v.apps[app].generation, requested)
  }

  /** Enter a new pending challenge. */
  function Enter(v: View, c: Challenge): View {
    v.(nextChallengeId := SatAdd(v.nextChallengeId, 1),
       pending := v.pending[v.nextChallengeId := c],
       ticket := v.ticket[v.nextChallengeId := v.issued],
       issued := v.issued + 1)
  }

  function AfterBegin(v0: View, app: Bytes, requested: set<Capability>, nonce: Bytes, now: U64): View {
    var v := Live(v0, now);
    if BeginAllowed(v, app, requested) then Enter(v, Issue(v, app, requested, nonce, now)) else v
  }

  /** Remove a challenge before looking at its answer. */
  function Consume(v: View, id: U64): View {
    v.(pending := v.pending - {id}, ticket := v.ticket - {id})
  }

  function Touch(v: View, app: Bytes, now: U64): View
    requires app in v.apps
  {
    v.(apps := v.apps[app := v.apps[app].(lastUsedAt := now)])
  }

  function Open(v: View, token: Bytes, session: Session, number: nat): View {
    v.(sessions := v.sessions[token := session], redeemed := v.redeemed + {number})
  }

  /** What `finish` answers.  Only these errors are possible in a reachable
      state; the checks for an expired challenge, a disabled or unknown
      application and a rotated credential are not needed. */
  function FinishOutcome(prove: Prover, v: View, r: Response, sessionId: Bytes, persisted: bool,
      now: U64): Result<Session> {
    if r.challengeId !in v.pending then Err(ChallengeNotFound)
    else
      var c := v.pending[r.challengeId];
      if c.appId != r.appId then Err(ChallengeAppMismatch)
      else if r.appId !in v.apps then Err(NotRegistered)
      else if r.proof != Proof(prove, v.apps[r.appId].secret, c) then Err(InvalidProof)
      else if !persisted then Err(Persistence)
      else if |v.sessions| >= MAX_ACTIVE_SESSIONS then Err(TooManySessions)
      else Ok(Session(r.appId, sessionId, now, SatAdd(now, SESSION_TTL), c.generation, c.capabilities))
  }

  /** The effect of an answer on a state without expired entries. */
  function Answered(prove: Prover, v: View, r: Response, token: Bytes, sessionId: Bytes, persisted: bool,
      now: U64): View {
    match FinishOutcome(prove, v, r, sessionId, persisted, now)
    case Ok(session) =>
      Open(Touch(Consume(v, r.challengeId), r.appId, now), token, session,
           if r.challengeId in v.ticket then v.ticket[r.challengeId] else v.issued)
    case Err(e) =>
      if e == ChallengeNotFound then v
      else if e == Persistence || e == TooManySessions then Touch(Consume(v, r.challengeId), r.appId, now)
      else Consume(v, r.challengeId)
  }

  function AfterFinish(prove: Prover, v: View, r: Response, token: Bytes, sessionId: Bytes, persisted: bool,
      now: U64): View {
    Answered(prove, Live(v, now), r, token, sessionId, persisted, now)
  }

  // ---- runs ----

  datatype Op =
    | Register(app: Bytes, granted: set<Capability>, secret: Bytes)
    | Rotate(app: Bytes, secret: Bytes)
    | SetEnabled(app: Bytes, enabled: bool)
    | SetCapabilities(app: Bytes, granted: set<Capability>)
    | Begin(app: Bytes, requested: set<Capability>, nonce: Bytes, now: U64)
    | Finish(response: Response, token: Bytes, sessionId: Bytes, persisted: bool, now: U64)
    | Authenticate(token: Bytes, now: U64)
    | Revoke(token: Bytes)
    | RevokeAll(app: Bytes)

  function Step(prove: Prover, v: View, op: Op): View {
    match op
    case Register(app, granted, secret) => AfterRegister(v, app, granted, secret)
    case Rotate(app, secret) => AfterRotate(v, app, secret)
    case SetEnabled(app, enabled) => AfterSetEnabled(v, app, enabled)
    case SetCapabilities(app, granted) => AfterSetCapabilities(v, app, granted)
    case Begin(app, requested, nonce, now) => AfterBegin(v, app, requested, nonce, now)
    case Finish(r, token, sessionId, persisted, now) => AfterFinish(prove, v, r, token, sessionId, persisted, now)
    case Authenticate(_, now) => Live(v, now)
    case Revoke(token) => v.(sessions := v.sessions - {token})
    case RevokeAll(app) => v.(sessions := map t | t in v.sessions && v.sessions[t].appId != app :: v.sessions[t])
  }

  /** The state before operation `n`. */
  function After(prove: Prover, saved: Store, ops: seq<Op>, n: nat): View
    requires n <= |ops|
  {
    if n == 0 then Loaded(saved) else Step(prove, After(prove, saved, ops, n - 1), ops[n - 1])
  }

  // ---- invariants ----

  /** A grant made to `app` under `generation` is still covered by its registration. */
  ghost predicate Covered(v: View, app: Bytes, generation: U64, capabilities: set<Capability>) {
    && app in v.apps && v.apps[app].enabled
    && v.apps[app].generation == generation
    && capabilities <= v.apps[app].granted
  }

  ghost predicate Grants(v: View) {
    && (forall id :: id in v.pending ==>
          && v.pending[id].id == id
          && Covered(v, v.pending[id].appId, v.pending[id].generation, v.pending[id].capabilities))
    && (forall t :: t in v.sessions ==>
          Covered(v, v.sessions[t].appId, v.sessions[t].generation, v.sessions[t].capabilities))
  }

  ghost predicate Tickets(v: View) {
    && v.ticket.Keys == v.pending.Keys
    && (forall id :: id in v.ticket ==> v.ticket[id] < v.issued && v.ticket[id] !in v.redeemed)
    && (forall i, j :: i in v.ticket && j in v.ticket && i != j ==> v.ticket[i] != v.ticket[j])
    && (forall t :: t in v.redeemed ==> t < v.issued)
  }

  ghost predicate Bounded(v: View) {
    |v.pending| <= MAX_PENDING_CHALLENGES && |v.sessions| <= MAX_ACTIVE_SESSIONS
  }

  ghost predicate Inv(v: View) {
    Grants(v) && Tickets(v) && Bounded(v)
  }

  lemma LiveInv(v: View, now: U64)
    requires Inv(v)
    ensures Inv(Live(v, now))
  {
    SubmapSize(Live(v, now).pending, v.pending);
    SubmapSize(Live(v, now).sessions, v.sessions);
  }

  lemma WithoutAppInv(v: View, app: Bytes, w: View)
    requires Inv(v)
    requires w == v.(apps := w.apps) && forall a :: a in v.apps && a != app ==> a in w.apps && w.apps[a] == v.apps[a]
    ensures Inv(WithoutApp(w, app))
  {
    SubmapSize(WithoutApp(w, app).pending, v.pending);
    SubmapSize(WithoutApp(w, app).sessions, v.sessions);
  }

  lemma RegisterInv(v: View, app: Bytes, granted: set<Capability>, secret: Bytes)
    requires Inv(v)
    ensures Inv(AfterRegister(v, app, granted, secret))
  {
  }

  lemma RotateInv(v: View, app: Bytes, secret: Bytes)
    requires Inv(v)
    ensures Inv(AfterRotate(v, app, secret))
  {
    if app in v.apps {
      var was := v.apps[app];
      WithoutAppInv(v, app, v.(apps := v.apps[app := was.(secret := secret, generation := SatAdd(was.generation, 1))]));
    }
  }

  lemma SetEnabledInv(v: View, app: Bytes, enabled: bool)
    requires Inv(v)
    ensures Inv(AfterSetEnabled(v, app, enabled))
  {
    if app in v.apps && !enabled {
      WithoutAppInv(v, app, v.(apps := v.apps[app := v.apps[app].(enabled := false)]));
    }
  }

  lemma SetCapabilitiesInv(v: View, app: Bytes, granted: set<Capability>)
    requires Inv(v)
    ensures Inv(AfterSetCapabilities(v, app, granted))
  {
    if app in v.apps {
      WithoutAppInv(v, app, v.(apps := v.apps[app := v.apps[app].(granted := granted)]));
    }
  }

  lemma InsertSize<K, V>(m: map<K, V>, k: K, x: V)
    ensures |m[k := x]| <= |m| + 1
  {
    assert m[k := x].Keys == m.Keys + {k};
    assert |m[k := x]| == |m[k := x].Keys|;
    if k in m { assert m.Keys + {k} == m.Keys; }
  }

  lemma EnterInv(v: View, app: Bytes, requested: set<Capability>, nonce: Bytes, now: U64)
    requires Inv(v) && BeginAllowed(v, app, requested)
    ensures Inv(Enter(v, Issue(v, app, requested, nonce, now)))
  {
    InsertSize(v.pending, v.nextChallengeId, Issue(v, app, requested, nonce, now));
  }

  lemma BeginInv(v: View, app: Bytes, requested: set<Capability>, nonce: Bytes, now: U64)
    requires Inv(v)
    ensures Inv(AfterBegin(v, app, requested, nonce, now))
  {
    LiveInv(v, now);
    if BeginAllowed(Live(v, now), app, requested) {
      EnterInv(Live(v, now), app, requested, nonce, now);
    }
  }

  lemma ConsumeInv(v: View, id: U64)
    requires Inv(v)
    ensures Inv(Consume(v, id))
    ensures id in v.ticket ==> Spent(Consume(v, id), v.ticket[id]) && v.ticket[id] !in v.redeemed
  {
    SubmapSize(Consume(v, id).pending, v.pending);
  }

  lemma TouchInv(v: View, app: Bytes, now: U64)
    requires Inv(v) && app in v.apps
    ensures Inv(Touch(v, app, now))
  {
  }

  lemma OpenInv(v: View, token: Bytes, session: Session, number: nat)
    requires Inv(v) && Covered(v, session.appId, session.generation, session.capabilities)
    requires |v.sessions| < MAX_ACTIVE_SESSIONS && Spent(v, number)
    ensures Inv(Open(v, token, session, number))
  {
    InsertSize(v.sessions, token, session);
  }

  lemma PendingIsLive(v: View, id: U64, now: U64)
    requires Inv(v)
    ensures id in Live(v, now).pending ==>
              var c := Live(v, now).pending[id];
              c.expiresAt > now && Covered(Live(v, now), c.appId, c.generation, c.capabilities)
                  && id in Live(v, now).ticket
  {
    LiveInv(v, now);
  }

  /** The state in which a correct answer opens its session. */
  lemma OpeningInv(v: View, id: U64, now: U64) returns (touched: View)
    requires Inv(v) && id in v.pending
    ensures v.pending[id].appId in v.apps && touched == Touch(Consume(v, id), v.pending[id].appId, now)
    ensures Inv(touched) && id in v.ticket && Spent(touched, v.ticket[id])
    ensures Covered(touched, v.pending[id].appId, v.pending[id].generation, v.pending[id].capabilities)
  {
    var c := v.pending[id];
    assert Covered(v, c.appId, c.generation, c.capabilities);
    ConsumeInv(v, id);
    var used := Consume(v, id);
    TouchInv(used, c.appId, now);
    touched := Touch(used, c.appId, now);
  }

  lemma AnsweredInv(prove: Prover, v: View, r: Response, token: Bytes, sessionId: Bytes, persisted: bool, now: U64)
    requires Inv(v)
    ensures Inv(Answered(prove, v, r, token, sessionId, persisted, now))
  {
    var w := Answered(prove, v, r, token, sessionId, persisted, now);
    var outcome := FinishOutcome(prove, v, r, sessionId, persisted, now);
    if outcome.Ok? {
      var touched := OpeningInv(v, r.challengeId, now);
      OpenInv(touched, token, outcome.value, v.ticket[r.challengeId]);
      assert w == Open(touched, token, outcome.value, v.ticket[r.challengeId]);
    } else if outcome.error == Persistence || outcome.error == TooManySessions {
      var touched := OpeningInv(v, r.challengeId, now);
      assert w == touched;
    } else if outcome.error != ChallengeNotFound {
      ConsumeInv(v, r.challengeId);
      assert w == Consume(v, r.challengeId);
    }
  }

  lemma FinishInv(prove: Prover, v: View, r: Response, token: Bytes, sessionId: Bytes, persisted: bool, now: U64)
    requires Inv(v)
    ensures Inv(AfterFinish(prove, v, r, token, sessionId, persisted, now))
  {
    LiveInv(v, now);
    AnsweredInv(prove, Live(v, now), r, token, sessionId, persisted, now);
  }

  lemma FewerSessionsInv(v: View, sessions: map<Bytes, Session>)
    requires Inv(v)
    requires forall t :: t in sessions ==> t in v.sessions && sessions[t] == v.sessions[t]
    ensures Inv(v.(sessions := sessions))
  {
    SubmapSize(sessions, v.sessions);
  }

  lemma AccountInv(prove: Prover, v: View, op: Op)
    requires Inv(v) && (op.Register? || op.Rotate? || op.SetEnabled? || op.SetCapabilities?)
    ensures Inv(Step(prove, v, op))
  {
    match op
    case Register(app, granted, secret) => RegisterInv(v, app, granted, secret);
    case Rotate(app, secret) => RotateInv(v, app, secret);
    case SetEnabled(app, enabled) => SetEnabledInv(v, app, enabled);
    case SetCapabilities(app, granted) => SetCapabilitiesInv(v, app, granted);
  }

  lemma RevokeInv(prove: Prover, v: View, op: Op)
    requires Inv(v) && (op.Revoke? || op.RevokeAll?)
    ensures Inv(Step(prove, v, op))
  {
    FewerSessionsInv(v, Step(prove, v, op).sessions);
  }

  lemma StepInv(prove: Prover, v: View, op: Op)
    requires Inv(v)
    ensures Inv(Step(prove, v, op))
  {
    match op
    case Begin(app, requested, nonce, now) => BeginInv(v, app, requested, nonce, now);
    case Finish(r, token, sessionId, persisted, now) => FinishInv(prove, v, r, token, sessionId, persisted, now);
    case Authenticate(_, now) => LiveInv(v, now);
    case Revoke(_) => RevokeInv(prove, v, op);
    case RevokeAll(_) => RevokeInv(prove, v, op);
    case Register(_, _, _) => AccountInv(prove, v, op);
    case Rotate(_, _) => AccountInv(prove, v, op);
    case SetEnabled(_, _) => AccountInv(prove, v, op);
    case SetCapabilities(_, _) => AccountInv(prove, v, op);
  }

  /** In every reachable state each pending challenge and each session belongs to
      an enabled, registered application, carries its current credential
      generation and stays within its granted capabilities. */
  lemma {:induction false} RunInv(prove: Prover, saved: Store, ops: seq<Op>, n: nat)
    requires n <= |ops|
    ensures Inv(After(prove, saved, ops, n))
  {
    if n > 0 {
      RunInv(prove, saved, ops, n - 1);
      StepInv(prove, After(prove, saved, ops, n - 1), ops[n - 1]);
    }
  }

  // ---- one challenge, at most one session ----

  /** Operation `n` answers the challenge holding `ticket`. */
  ghost predicate Answers(prove: Prover, saved: Store, ops: seq<Op>, n: nat, ticket: nat) {
    && n < |ops| && ops[n].Finish?
    && var v := Live(After(prove, saved, ops, n), ops[n].now);
       ops[n].response.challengeId in v.ticket && v.ticket[ops[n].response.challengeId] == ticket
  }

  /** Tickets that can no longer be answered. */
  ghost predicate Spent(v: View, ticket: nat) {
    ticket < v.issued && forall id :: id in v.ticket ==> v.ticket[id] != ticket
  }

  /** Every ticket outstanding in `w` was outstanding in `v` or is new. */
  ghost predicate NoOldTickets(v: View, w: View) {
    && v.issued <= w.issued
    && forall id :: id in w.ticket ==> (id in v.ticket && w.ticket[id] == v.ticket[id]) || w.ticket[id] >= v.issued
  }

  lemma FinishTickets(prove: Prover, v: View, r: Response, token: Bytes, sessionId: Bytes, persisted: bool, now: U64)
    ensures NoOldTickets(v, AfterFinish(prove, v, r, token, sessionId, persisted, now))
  {
    AnsweredTickets(prove, Live(v, now), r, token, sessionId, persisted, now);
  }

  lemma BeginTickets(v: View, app: Bytes, requested: set<Capability>, nonce: Bytes, now: U64)
    ensures NoOldTickets(v, AfterBegin(v, app, requested, nonce, now))
  {
  }

  lemma StepTickets(prove: Prover, v: View, op: Op)
    ensures NoOldTickets(v, Step(prove, v, op))
  {
    match op
    case Register(_, _, _) =>
    case Rotate(_, _) =>
    case SetEnabled(_, _) =>
    case SetCapabilities(_, _) =>
    case Begin(app, requested, nonce, now) => BeginTickets(v, app, requested, nonce, now);
    case Finish(r, token, sessionId, persisted, now) => FinishTickets(prove, v, r, token, sessionId, persisted, now);
    case Authenticate(_, now) =>
    case Revoke(_) =>
    case RevokeAll(_) =>
  }

  lemma {:induction false} StaysSpent(prove: Prover, saved: Store, ops: seq<Op>, m: nat, n: nat, ticket: nat)
    requires m <= n <= |ops| && Spent(After(prove, saved, ops, m), ticket)
    ensures Spent(After(prove, saved, ops, n), ticket)
    decreases n - m
  {
    if m < n {
      StaysSpent(prove, saved, ops, m, n - 1, ticket);
      StepTickets(prove, After(prove, saved, ops, n - 1), ops[n - 1]);
    }
  }

  /** An answer takes its challenge's ticket away, whatever the outcome. */
  lemma AnsweredTickets(prove: Prover, v: View, r: Response, token: Bytes, sessionId: Bytes, persisted: bool, now: U64)
    ensures var w := Answered(prove, v, r, token, sessionId, persisted, now);
            && w.issued == v.issued
            && (w.ticket == v.ticket || w.ticket == v.ticket - {r.challengeId})
            && (r.challengeId in v.pending ==> w.ticket == v.ticket - {r.challengeId})
  {
  }

  lemma AnswerSpends(prove: Prover, v: View, f: Op)
    requires Inv(v) && f.Finish? && f.response.challengeId in Live(v, f.now).ticket  // so it is pending
    ensures Spent(Step(prove, v, f), Live(v, f.now).ticket[f.response.challengeId])
  {
    var live := Live(v, f.now);
    LiveInv(v, f.now);
    ConsumeInv(live, f.response.challengeId);
    AnsweredTickets(prove, live, f.response, f.token, f.sessionId, f.persisted, f.now);
  }

  /** A challenge is used up by its first answer, right or wrong: no second
      operation of the run can answer it, so it yields at most one session. */
  lemma AnsweredOnce(prove: Prover, saved: Store, ops: seq<Op>, i: nat, j: nat, ticket: nat)
    requires i < j && Answers(prove, saved, ops, i, ticket)
    ensures !Answers(prove, saved, ops, j, ticket)
  {
    RunInv(prove, saved, ops, i);
    AnswerSpends(prove, After(prove, saved, ops, i), ops[i]);
    if j < |ops| {
      StaysSpent(prove, saved, ops, i + 1, j, ticket);
    }
  }

  /** A keyed hash without collisions for one secret ties a proof to the single
      challenge it was computed for. */
  lemma ProofBindsChallenge(mac: (Bytes, Bytes) -> Bytes, prove: Prover, secret: Bytes, a: Challenge, b: Challenge)
    requires forall k, c :: prove(k, c) == mac(k, Encode(c))
    requires forall x, y :: mac(secret, x) == mac(secret, y) ==> x == y
    requires WellFormed(a) && WellFormed(b)
    requires Proof(prove, secret, a) == Proof(prove, secret, b)
    ensures a == b
  {
    EncodeInjective(a, b);
  }
}

module IdentitySessions {
  import opened Basics
  import opened Encoding
  import opened ProofInput
  import opened SessionSpec

  class IdentityManager {
    const prove: Prover
    var apps: map<Bytes, Registration>
    var nextChallengeId: U64
    var pendingChallenges: map<U64, Challenge>
    var activeSessions: map<Bytes, Session>
    ghost var issued: nat
    ghost var ticket: map<U64, nat>
    ghost var redeemed: set<nat>

    ghost function Now(): View
      reads this
    {
      View(apps, nextChallengeId, pendingChallenges, activeSessions, issued, ticket, redeemed)
    }

    ghost predicate Valid()
      reads this
    {
      Inv(Now())
    }

    constructor (prove: Prover, saved: Store)
      ensures Valid() && Now() == Loaded(saved) && this.prove == prove
    {
      this.prove := prove;
      apps, nextChallengeId, pendingChallenges, activeSessions := saved.apps, saved.nextChallengeId, map[], map[];
      issued, ticket, redeemed := 0, map[], {};
    }

    method RegisterApp(app: Bytes, granted: set<Capability>, secret: Bytes, persisted: bool) returns (r: Result<U64>)
      requires Valid()
      modifies this
      ensures Valid() && Now() == AfterRegister(old(Now()), app, granted, secret)
      ensures app !in old(apps) ==> app in apps && apps[app] == Registration(true, 1, granted, 0, secret)
      ensures r == if app in old(apps) then Err(AlreadyRegistered) else if persisted then Ok(1) else Err(Persistence)
    {
      RegisterInv(Now(), app, granted, secret);
      if app in apps {
        return Err(AlreadyRegistered);
      }
      apps := apps[app := Registration(true, 1, granted, 0, secret)];
      r := if persisted then Ok(1) else Err(Persistence);
    }

    /** Drop the challenges and sessions of one application. */
    method Forget(app: Bytes)
      modifies this`pendingChallenges, this`activeSessions, this`ticket
      ensures Now() == WithoutApp(old(Now()), app)
    {
      pendingChallenges := map id | id in pendingChallenges
          && pendingChallenges[id].appId != app :: pendingChallenges[id];
      ticket := map id | id in ticket && id in pendingChallenges :: ticket[id];
      activeSessions := map t | t in activeSessions && activeSessions[t].appId != app :: activeSessions[t];
    }

    method RotateAppCredential(app: Bytes, secret: Bytes, persisted: bool) returns (r: Result<U64>)
      requires Valid()
      modifies this
      ensures Valid() && Now() == AfterRotate(old(Now()), app, secret)
      ensures app in old(apps) ==> app in apps && apps[app].secret == secret
      ensures r == if app !in old(apps) then Err(NotRegistered)
                   else if persisted then Ok(SatAdd(old(apps)[app].generation, 1)) else Err(Persistence)
    {
      RotateInv(Now(), app, secret);
      if app !in apps {
        return Err(NotRegistered);
      }
      var generation: U64 := SatAdd(apps[app].generation, 1);
      apps := apps[app := apps[app].(secret := secret, generation := generation)];
      Forget(app);
      r := if persisted then Ok(generation) else Err(Persistence);
    }

    method SetAppEnabled(app: Bytes, enabled: bool, persisted: bool) returns (r: Result<()>)
      requires Valid()
      modifies this
      ensures Valid() && Now() == AfterSetEnabled(old(Now()), app, enabled)
      ensures app in old(apps) ==> app in apps && apps[app].enabled == enabled
      ensures r == if app !in old(apps) then Err(NotRegistered) else if persisted then Ok(()) else Err(Persistence)
    {
      SetEnabledInv(Now(), app, enabled);
      if app !in apps {
        return Err(NotRegistered);
      }
      apps := apps[app := apps[app].(enabled := enabled)];
      if !enabled {
        Forget(app);
      }
      r := if persisted then Ok(()) else Err(Persistence);
    }

    method SetAppCapabilities(app: Bytes, granted: set<Capability>, persisted: bool) returns (r: Result<()>)
      requires Valid()
      modifies this
      ensures Valid() && Now() == AfterSetCapabilities(old(Now()), app, granted)
      ensures app in old(apps) ==> app in apps && apps[app].granted == granted
      ensures r == if app !in old(apps) then Err(NotRegistered) else if persisted then Ok(()) else Err(Persistence)
    {
      SetCapabilitiesInv(Now(), app, granted);
      if app !in apps {
        return Err(NotRegistered);
      }
      apps := apps[app := apps[app].(granted := granted)];
      Forget(app);
      r := if persisted then Ok(()) else Err(Persistence);
    }

    method CleanupExpired(now: U64)
      modifies this`pendingChallenges, this`activeSessions, this`ticket
      ensures Now() == Live(old(Now()), now)
    {
      pendingChallenges := map id | id in pendingChallenges
          && pendingChallenges[id].expiresAt > now :: pendingChallenges[id];
      ticket := map id | id in ticket && id in pendingChallenges :: ticket[id];
      activeSessions := map t | t in activeSessions && activeSessions[t].expiresAt > now :: activeSessions[t];
    }

    /** The checks of `begin_app_auth_with_capabilities` once expired entries are gone. */
    method IssueChallenge(app: Bytes, requested: set<Capability>, nonce: Bytes, persisted: bool, now: U64)
      returns (r: Result<Challenge>)
      modifies this`pendingChallenges, this`ticket, this`issued, this`nextChallengeId
      ensures var v := old(Now());
              && Now() == (if BeginAllowed(v, app, requested) then Enter(v, Issue(v, app, requested, nonce, now))
                  else v)
              && (r.Ok? <==> persisted && BeginAllowed(v, app, requested))
              && (r.Ok? ==> r.value == Issue(v, app, requested, nonce, now))
              && (r.Err? && r.error.CapabilityDenied? ==>
                    app in apps && r.error.capability in requested && r.error.capability !in apps[app].granted)
    {
      if |pendingChallenges| >= MAX_PENDING_CHALLENGES {
        return Err(TooManyChallenges);
      }
      if app !in apps {
        return Err(NotRegistered);
      }
      if !apps[app].enabled {
        return Err(Disabled);
      }
      if !(requested <= apps[app].granted) {
        var denied :| denied in requested && denied !in apps[app].granted;
        return Err(CapabilityDenied(denied));
      }
      var challenge := Challenge(app, nextChallengeId, nonce, now, SatAdd(now, CHALLENGE_TTL), apps[app].generation,
          requested);
      pendingChallenges := pendingChallenges[nextChallengeId := challenge];
      ticket := ticket[nextChallengeId := issued];
      issued := issued + 1;
      nextChallengeId := SatAdd(nextChallengeId, 1);
      r := if persisted then Ok(challenge) else Err(Persistence);
    }

    /** `begin_app_auth_with_capabilities`. */
    method BeginAppAuth(app: Bytes, requested: set<Capability>, nonce: Bytes, persisted: bool, now: U64)
      returns (r: Result<Challenge>)
      requires Valid()
      modifies this
      ensures Valid() && Now() == AfterBegin(old(Now()), app, requested, nonce, now)
      ensures r.Ok? <==> persisted && BeginAllowed(Live(old(Now()), now), app, requested)
      ensures r.Ok? ==> r.value == Issue(Live(old(Now()), now), app, requested, nonce, now)
      ensures r.Err? && r.error.CapabilityDenied? ==>
                app in apps && r.error.capability in requested && r.error.capability !in apps[app].granted
    {
      BeginInv(Now(), app, requested, nonce, now);
      CleanupExpired(now);
      r := IssueChallenge(app, requested, nonce, persisted, now);
    }

    /** The checks of `finish_app_auth` between taking the challenge and opening
        the session, all of them, in the code's order. */
    method CheckAnswer(challenge: Challenge, response: Response, now: U64) returns (error: Option<Error>)
      requires challenge.expiresAt > now
      requires Covered(Now(), challenge.appId, challenge.generation, challenge.capabilities)
      ensures error == if challenge.appId != response.appId then Some(ChallengeAppMismatch)
                       else if response.proof != Proof(prove, apps[response.appId].secret, challenge)
                           then Some(InvalidProof)
                       else None
    {
      if challenge.expiresAt <= now {
        return Some(ChallengeExpired);
      }
      if challenge.appId != response.appId {
        return Some(ChallengeAppMismatch);
      }
      if response.appId !in apps {
        return Some(NotRegistered);
      }
      if !apps[response.appId].enabled {
        return Some(Disabled);
      }
      if apps[response.appId].generation != challenge.generation {
        return Some(GenerationMismatch);
      }
      var expected := Proof(prove, apps[response.appId].secret, challenge);
      error := if response.proof != expected then Some(InvalidProof) else None;
    }

    /** The body of `finish_app_auth` once expired entries are gone. */
    method Answer(response: Response, token: Bytes, sessionId: Bytes, persisted: bool, now: U64)
      returns (r: Result<Session>)
      requires response.challengeId in pendingChallenges && response.challengeId in ticket
      requires pendingChallenges[response.challengeId].expiresAt > now
      requires var c := pendingChallenges[response.challengeId]; Covered(Now(), c.appId, c.generation, c.capabilities)
      modifies this`apps, this`pendingChallenges, this`ticket, this`activeSessions, this`redeemed
      ensures Now() == Answered(prove, old(Now()), response, token, sessionId, persisted, now)
      ensures r == FinishOutcome(prove, old(Now()), response, sessionId, persisted, now)
    {
      var challenge := pendingChallenges[response.challengeId];
      ghost var spent := ticket[response.challengeId];
      var error := CheckAnswer(challenge, response, now);
      pendingChallenges := pendingChallenges - {response.challengeId};
      ticket := ticket - {response.challengeId};
      if error.Some? {
        return Err(error.value);
      }
      r := OpenSession(challenge, spent, token, sessionId, persisted, now);
    }

    /** Record the use and open the session of a correctly answered challenge. */
    method OpenSession(challenge: Challenge, ghost number: nat, token: Bytes, sessionId: Bytes, persisted: bool,
        now: U64)
      returns (r: Result<Session>)
      requires challenge.appId in apps
      modifies this`apps, this`activeSessions, this`redeemed
      ensures r == if !persisted then Err(Persistence)
                   else if |old(activeSessions)| >= MAX_ACTIVE_SESSIONS then Err(TooManySessions)
                   else Ok(Session(challenge.appId, sessionId, now, SatAdd(now, SESSION_TTL), challenge.generation,
                                   challenge.capabilities))
      ensures r.Err? ==> Now() == Touch(old(Now()), challenge.appId, now)
      ensures r.Ok? ==> Now() == Open(Touch(old(Now()), challenge.appId, now), token, r.value, number)
    {
      apps := apps[challenge.appId := apps[challenge.appId].(lastUsedAt := now)];
      if !persisted {
        return Err(Persistence);
      }
      if |activeSessions| >= MAX_ACTIVE_SESSIONS {
        return Err(TooManySessions);
      }
      var session := Session(challenge.appId, sessionId, now, SatAdd(now, SESSION_TTL), challenge.generation,
          challenge.capabilities);
      activeSessions := activeSessions[token := session];
      redeemed := redeemed + {number};
      r := Ok(session);
    }

    /** `finish_app_auth`.  `token` is the drawn token; the code draws one that no
        unexpired session holds. */
    method FinishAppAuth(response: Response, token: Bytes, sessionId: Bytes, persisted: bool, now: U64)
      returns (r: Result<Session>)
      requires Valid()
      modifies this
      ensures Valid() && Now() == AfterFinish(prove, old(Now()), response, token, sessionId, persisted, now)
      ensures r == FinishOutcome(prove, Live(old(Now()), now), response, sessionId, persisted, now)
      ensures r.Err? ==> r.error !in {ChallengeExpired, NotRegistered, Disabled, GenerationMismatch}
    {
      FinishInv(prove, Now(), response, token, sessionId, persisted, now);
      PendingIsLive(Now(), response.challengeId, now);
      CleanupExpired(now);
      if response.challengeId !in pendingChallenges {
        return Err(ChallengeNotFound);
      }
      r := Answer(response, token, sessionId, persisted, now);
    }

    /** `authenticate_session`: the later expiry check never fires, and what is
        returned is still covered by the application's registration. */
    method AuthenticateSession(token: Bytes, now: U64) returns (r: Result<Session>)
      requires Valid()
      modifies this`pendingChallenges, this`activeSessions, this`ticket
      ensures Valid() && Now() == Live(old(Now()), now)
      ensures r == if token in old(activeSessions) && old(activeSessions)[token].expiresAt > now
                   then Ok(old(activeSessions)[token]) else Err(SessionNotFound)
      ensures r.Ok? ==> Covered(Now(), r.value.appId, r.value.generation, r.value.capabilities)
    {
      LiveInv(Now(), now);
      CleanupExpired(now);
      if token !in activeSessions {
        return Err(SessionNotFound);
      }
      if activeSessions[token].expiresAt <= now {
        return Err(SessionExpired);
      }
      r := Ok(activeSessions[token]);
    }

    method RevokeSession(token: Bytes) returns (removed: bool)
      requires Valid()
      modifies this`activeSessions
      ensures Valid() && activeSessions == old(activeSessions) - {token}
      ensures removed <==> token in old(activeSessions)
    {
      StepInv(prove, Now(), Revoke(token));
      ghost var before := Now();
      removed := token in activeSessions;
      activeSessions := activeSessions - {token};
      assert Now() == Step(prove, before, Revoke(token));
    }

    method RevokeAllAppSessions(app: Bytes)
      requires Valid()
      modifies this`activeSessions
      ensures Valid()
      ensures activeSessions == map t | t in old(activeSessions)
          && old(activeSessions)[t].appId != app :: old(activeSessions)[t]
    {
      StepInv(prove, Now(), RevokeAll(app));
      ghost var before := Now();
      activeSessions := map t | t in activeSessions && activeSessions[t].appId != app :: activeSessions[t];
      assert Now() == Step(prove, before, RevokeAll(app));
    }
  }
}
