/** Which credential lets an application in (app/identity.rs): the account in force
    is what the registrations, rotations and settings so far amount to, and it
    alone decides who may begin and whose proof opens a session. */
module IdentityAccounts {
  import opened Basics
  import opened Encoding
  import opened ProofInput
  import opened SessionSpec

  datatype Account = Account(secret: Bytes, enabled: bool, granted: set<Capability>, generation: U64)

  function Stored(saved: map<Bytes, Registration>, app: Bytes): Option<Account> {
    if app in saved
    then Some(Account(saved[app].secret, saved[app].enabled, saved[app].granted, saved[app].generation))
    else None
  }

  /** What one operation makes of an account. */
  function Amended(was: Option<Account>, op: Op, app: Bytes): Option<Account> {
    match op
    case Register(a, granted, secret) =>
      if a == app && was.None? then Some(Account(secret, true, granted, 1)) else was
    case Rotate(a, secret) =>
      if a == app && was.Some?
      then Some(Account(secret, was.value.enabled, was.value.granted, SatAdd(was.value.generation, 1))) else was
    case SetEnabled(a, enabled) =>
      if a == app && was.Some? then Some(was.value.(enabled := enabled)) else was
    case SetCapabilities(a, granted) =>
      if a == app && was.Some? then Some(was.value.(granted := granted)) else was
    case Begin(_, _, _, _) => was
    case Finish(_, _, _, _, _) => was
    case Authenticate(_, _) => was
    case Revoke(_) => was
    case RevokeAll(_) => was
  }

  /** The account after the first `n` operations, read off the operations alone. */
  function InForce(saved: Store, ops: seq<Op>, n: nat, app: Bytes): Option<Account>
    requires n <= |ops|
  {
    if n == 0 then Stored(saved.apps, app) else Amended(InForce(saved, ops, n - 1, app), ops[n - 1], app)
  }

  /** The answer names the application of a pending challenge and proves its secret. */
  predicate RightProof(prove: Prover, v: View, r: Response) {
    && r.challengeId in v.pending && v.pending[r.challengeId].appId == r.appId
    && r.appId in v.apps && r.proof == prove(v.apps[r.appId].secret, v.pending[r.challengeId])
  }

  lemma AnsweredApps(prove: Prover, v: View, r: Response, token: Bytes, sessionId: Bytes, persisted: bool, now: U64)
    ensures Answered(prove, v, r, token, sessionId, persisted, now).apps ==
            if RightProof(prove, v, r) then v.apps[r.appId := v.apps[r.appId].(lastUsedAt := now)] else v.apps
  {
  }

  lemma FinishKeepsAccounts(prove: Prover, v: View, r: Response, token: Bytes, sessionId: Bytes, persisted: bool,
                            now: U64, app: Bytes)
    ensures Stored(AfterFinish(prove, v, r, token, sessionId, persisted, now).apps, app) == Stored(v.apps, app)
  {
    AnsweredApps(prove, Live(v, now), r, token, sessionId, persisted, now);
  }

  lemma BeginKeepsAccounts(v: View, app: Bytes, requested: set<Capability>, nonce: Bytes, now: U64)
    ensures AfterBegin(v, app, requested, nonce, now).apps == v.apps
  {
  }

  lemma StepAmends(prove: Prover, v: View, op: Op, app: Bytes)
    ensures Stored(Step(prove, v, op).apps, app) == Amended(Stored(v.apps, app), op, app)
  {
    match op
    case Finish(r, token, sessionId, persisted, now) =>
      FinishKeepsAccounts(prove, v, r, token, sessionId, persisted, now, app);
    case Begin(a, requested, nonce, now) => BeginKeepsAccounts(v, a, requested, nonce, now);
    case Register(_, _, _) =>
    case Rotate(_, _) =>
    case SetEnabled(_, _) =>
    case SetCapabilities(_, _) =>
    case Authenticate(_, _) =>
    case Revoke(_) =>
    case RevokeAll(_) =>
  }

  /** In every reachable state each registration is the account in force. */
  lemma {:induction false} AccountsInForce(prove: Prover, saved: Store, ops: seq<Op>, n: nat, app: Bytes)
    requires n <= |ops|
    ensures Stored(After(prove, saved, ops, n).apps, app) == InForce(saved, ops, n, app)
  {
    if n > 0 {
      AccountsInForce(prove, saved, ops, n - 1, app);
      StepAmends(prove, After(prove, saved, ops, n - 1), ops[n - 1], app);
    }
  }

  /** No rotation of `app` from operation `i` on. */
  ghost predicate Unrotated(ops: seq<Op>, i: nat, n: nat, app: Bytes)
    requires n <= |ops|
  {
    forall k :: i <= k < n ==> !(ops[k].Rotate? && ops[k].app == app)
  }

  /** A rotated secret stays in force until the next rotation. */
  lemma {:induction false} RotatedSecret(saved: Store, ops: seq<Op>, i: nat, n: nat)
    requires i < n <= |ops| && ops[i].Rotate? && InForce(saved, ops, i, ops[i].app).Some?
    requires Unrotated(ops, i + 1, n, ops[i].app)
    ensures InForce(saved, ops, n, ops[i].app).Some?
    ensures InForce(saved, ops, n, ops[i].app).value.secret == ops[i].secret
    decreases n
  {
    if i + 1 < n { RotatedSecret(saved, ops, i, n - 1); }
  }

  // ---- beginning ----

  /** Whether a challenge is issued depends on the account in force: enabled, and
      granting what is asked for; and on room among the unexpired challenges. */
  lemma BeginIff(prove: Prover, saved: Store, ops: seq<Op>, n: nat, app: Bytes, requested: set<Capability>, now: U64)
    requires n <= |ops|
    ensures var v := Live(After(prove, saved, ops, n), now);
            BeginAllowed(v, app, requested) <==>
              && |v.pending| < 4_096
              && InForce(saved, ops, n, app).Some?
              && InForce(saved, ops, n, app).value.enabled
              && requested <= InForce(saved, ops, n, app).value.granted
  {
    AccountsInForce(prove, saved, ops, n, app);
  }

  /** An issued challenge can be answered for exactly thirty seconds. */
  lemma ChallengeLastsIff(v: View, app: Bytes, requested: set<Capability>, nonce: Bytes, now: U64, later: U64)
    requires BeginAllowed(Live(v, now), app, requested)
    ensures var c, w := Issue(Live(v, now), app, requested, nonce, now),
                        Live(AfterBegin(v, app, requested, nonce, now), later);
            && c.appId == app && c.capabilities == requested && c.nonce == nonce && c.issuedAt == now
            && (c.id in w.pending <==> later < SatAdd(now, 30))
            && (c.id in w.pending ==> w.pending[c.id] == c)
  {
  }

  /** Challenge ids are handed out in order, up to the end of the counter. */
  ghost predicate IdsBelow(v: View) {
    v.nextChallengeId < U64_MAX ==> forall id :: id in v.pending ==> id < v.nextChallengeId
  }

  lemma StepIdsBelow(prove: Prover, v: View, op: Op)
    requires IdsBelow(v)
    ensures IdsBelow(Step(prove, v, op))
  {
    match op
    case Finish(r, token, sessionId, persisted, now) =>
      AnsweredPending(prove, Live(v, now), r, token, sessionId, persisted, now);
    case Begin(_, _, _, _) =>
    case Register(_, _, _) =>
    case Rotate(_, _) =>
    case SetEnabled(_, _) =>
    case SetCapabilities(_, _) =>
    case Authenticate(_, _) =>
    case Revoke(_) =>
    case RevokeAll(_) =>
  }

  lemma AnsweredPending(prove: Prover, v: View, r: Response, token: Bytes, sessionId: Bytes, persisted: bool, now: U64)
    ensures var w := Answered(prove, v, r, token, sessionId, persisted, now);
            w.pending == v.pending - {r.challengeId} && w.nextChallengeId == v.nextChallengeId
  {
  }

  lemma {:induction false} RunIdsBelow(prove: Prover, saved: Store, ops: seq<Op>, n: nat)
    requires n <= |ops|
    ensures IdsBelow(After(prove, saved, ops, n))
  {
    if n > 0 {
      RunIdsBelow(prove, saved, ops, n - 1);
      StepIdsBelow(prove, After(prove, saved, ops, n - 1), ops[n - 1]);
    }
  }

  /** In every run, until the 64-bit counter is used up, issuing a challenge leaves
      every unexpired one answerable. */
  lemma IssueDisplacesNone(prove: Prover, saved: Store, ops: seq<Op>, n: nat, app: Bytes, requested: set<Capability>,
                           nonce: Bytes, now: U64)
    requires n <= |ops|
    ensures var v := After(prove, saved, ops, n);
            v.nextChallengeId < U64_MAX ==>
              forall id :: id in Live(v, now).pending ==>
                && id in AfterBegin(v, app, requested, nonce, now).pending
                && AfterBegin(v, app, requested, nonce, now).pending[id] == v.pending[id]
  {
    RunIdsBelow(prove, saved, ops, n);
  }

  // ---- finishing ----

  /** An answer to a pending challenge opens a session exactly when it names the
      challenge's application, proves its secret in force, the store can be written
      and there is room; what it gets otherwise. */
  lemma AnswerIff(prove: Prover, saved: Store, ops: seq<Op>, n: nat, r: Response, sessionId: Bytes, persisted: bool,
                  now: U64)
    requires n <= |ops| && r.challengeId in Live(After(prove, saved, ops, n), now).pending
    ensures var v := Live(After(prove, saved, ops, n), now);
            var c, outcome := v.pending[r.challengeId], FinishOutcome(prove, v, r, sessionId, persisted, now);
            && InForce(saved, ops, n, c.appId).Some?
            && var right := r.proof == prove(InForce(saved, ops, n, c.appId).value.secret, c);
               && (outcome.Ok? <==> r.appId == c.appId && right && persisted && |v.sessions| < 4_096)
               && (outcome.Ok? ==>
                     && outcome.value.appId == c.appId && outcome.value.capabilities == c.capabilities
                     && outcome.value.sessionId == sessionId && outcome.value.authenticatedAt == now)
               && (outcome == Err(ChallengeAppMismatch) <==> r.appId != c.appId)
               && (outcome == Err(InvalidProof) <==> r.appId == c.appId && !right)
               && (outcome == Err(Persistence) <==> r.appId == c.appId && right && !persisted)
  {
    RunInv(prove, saved, ops, n);
    PendingIsLive(After(prove, saved, ops, n), r.challengeId, now);
    AccountsInForce(prove, saved, ops, n, Live(After(prove, saved, ops, n), now).pending[r.challengeId].appId);
  }

  /** A rotation takes effect: from then on, until the next one, a pending
      challenge of the application is answered with the new secret and with no
      other that proves it differently, the replaced one included. */
  lemma RotationTakesEffect(prove: Prover, saved: Store, ops: seq<Op>, i: nat, n: nat, r: Response, other: Bytes,
                            sessionId: Bytes, now: U64)
    requires i < n <= |ops| && ops[i].Rotate? && InForce(saved, ops, i, ops[i].app).Some?
    requires Unrotated(ops, i + 1, n, ops[i].app)
    requires var v := Live(After(prove, saved, ops, n), now);
             && r.challengeId in v.pending && |v.sessions| < 4_096
             && r.appId == v.pending[r.challengeId].appId == ops[i].app
             && prove(other, v.pending[r.challengeId]) != prove(ops[i].secret, v.pending[r.challengeId])
    ensures var v := Live(After(prove, saved, ops, n), now);
            var c := v.pending[r.challengeId];
            && (r.proof == prove(ops[i].secret, c) ==> FinishOutcome(prove, v, r, sessionId, true, now).Ok?)
            && (r.proof == prove(other, c) ==> FinishOutcome(prove, v, r, sessionId, true, now) == Err(InvalidProof))
  {
    AnswerIff(prove, saved, ops, n, r, sessionId, true, now);
    RotatedSecret(saved, ops, i, n);
  }

  lemma RotatedBegins(v: View, app: Bytes, secret: Bytes, requested: set<Capability>, nonce: Bytes, now: U64)
    requires app in v.apps && v.apps[app].enabled && requested <= v.apps[app].granted
    requires |Live(v, now).pending| < 4_096
    ensures var rotated := AfterRotate(v, app, secret);
            && BeginAllowed(Live(rotated, now), app, requested)
            && AfterBegin(rotated, app, requested, nonce, now).apps == rotated.apps
            && AfterBegin(rotated, app, requested, nonce, now).sessions.Keys <= v.sessions.Keys
            && rotated.apps[app].secret == secret
  {
    SubmapSize(Live(AfterRotate(v, app, secret), now).pending, Live(v, now).pending);
  }

  /** The answer to one pending challenge, by the secret that proves it. */
  lemma ProvenBy(prove: Prover, v: View, c: Challenge, secret: Bytes, sessionId: Bytes, now: U64)
    requires c.id in v.pending && v.pending[c.id] == c && c.appId in v.apps && |v.sessions| < 4_096
    ensures FinishOutcome(prove, v, Response(c.appId, c.id, prove(secret, c)), sessionId, true, now).Ok? <==>
            prove(secret, c) == prove(v.apps[c.appId].secret, c)
    ensures prove(secret, c) != prove(v.apps[c.appId].secret, c) ==>
            FinishOutcome(prove, v, Response(c.appId, c.id, prove(secret, c)), sessionId, true, now) ==
            Err(InvalidProof)
  {
  }

  /** Rotating, beginning and finishing in a row: the new secret opens a session,
      any secret that proves the challenge differently does not. */
  lemma RotateBeginFinish(prove: Prover, v: View, app: Bytes, secret: Bytes, former: Bytes, requested: set<Capability>,
                          nonce: Bytes, sessionId: Bytes, first: U64, later: U64)
    requires app in v.apps && v.apps[app].enabled && requested <= v.apps[app].granted
    requires |Live(v, first).pending| < 4_096 && |v.sessions| < 4_096 && later < SatAdd(first, 30)
    ensures var begun := Live(AfterRotate(v, app, secret), first);
            && BeginAllowed(begun, app, requested)
            && var c := Issue(begun, app, requested, nonce, first);
               var w := Live(AfterBegin(AfterRotate(v, app, secret), app, requested, nonce, first), later);
               && FinishOutcome(prove, w, Response(app, c.id, prove(secret, c)), sessionId, true, later).Ok?
               && (prove(former, c) != prove(secret, c) ==>
                     FinishOutcome(prove, w, Response(app, c.id, prove(former, c)), sessionId, true, later) ==
                     Err(InvalidProof))
  {
    var rotated := AfterRotate(v, app, secret);
    RotatedBegins(v, app, secret, requested, nonce, first);
    ChallengeLastsIff(rotated, app, requested, nonce, first, later);
    var c := Issue(Live(rotated, first), app, requested, nonce, first);
    var w := Live(AfterBegin(rotated, app, requested, nonce, first), later);
    SubmapSize(w.sessions, v.sessions);
    ProvenBy(prove, w, c, secret, sessionId, later);
    ProvenBy(prove, w, c, former, sessionId, later);
  }

  // ---- sessions ----

  /** A session is good for exactly twelve hours, if nothing ends it before. */
  lemma SessionLastsIff(prove: Prover, v: View, r: Response, token: Bytes, sessionId: Bytes, persisted: bool, now: U64,
                        later: U64)
    requires FinishOutcome(prove, Live(v, now), r, sessionId, persisted, now).Ok?
    ensures var session := FinishOutcome(prove, Live(v, now), r, sessionId, persisted, now).value;
            var w := Live(AfterFinish(prove, v, r, token, sessionId, persisted, now), later);
            && (token in w.sessions <==> later < SatAdd(now, 12 * 60 * 60))
            && (token in w.sessions ==> w.sessions[token] == session)
  {
  }

  /** Rotating, disabling or regranting a registered application. */
  predicate SignsOut(op: Op, app: Bytes) {
    || (op.Rotate? && op.app == app)
    || (op.SetEnabled? && op.app == app && !op.enabled)
    || (op.SetCapabilities? && op.app == app)
  }

  /** Such an operation ends everything of that application that was begun or open,
      and nothing of any other. */
  lemma SignsOutExactly(prove: Prover, v: View, op: Op, app: Bytes)
    requires SignsOut(op, app) && app in v.apps
    ensures var w := Step(prove, v, op);
            && (forall id :: id in w.pending <==> id in v.pending && v.pending[id].appId != app)
            && (forall t :: t in w.sessions <==> t in v.sessions && v.sessions[t].appId != app)
            && (forall id :: id in w.pending ==> w.pending[id] == v.pending[id])
            && (forall t :: t in w.sessions ==> w.sessions[t] == v.sessions[t])
  {
  }

  /** The time of an application's last use moves exactly when its pending
      challenge is answered with the right proof, also if no session comes of it. */
  lemma UseRecordedIff(prove: Prover, v: View, r: Response, token: Bytes, sessionId: Bytes, persisted: bool, now: U64,
                       app: Bytes)
    requires app in v.apps && v.apps[app].lastUsedAt != now
    ensures var live, w := Live(v, now), AfterFinish(prove, v, r, token, sessionId, persisted, now);
            && app in w.apps
            && (w.apps[app].lastUsedAt == now || w.apps[app].lastUsedAt == v.apps[app].lastUsedAt)
            && (w.apps[app].lastUsedAt == now <==>
                  && r.challengeId in live.pending && r.appId == app
                  && live.pending[r.challengeId].appId == app
                  && r.proof == prove(v.apps[app].secret, live.pending[r.challengeId]))
  {
    AnsweredApps(prove, Live(v, now), r, token, sessionId, persisted, now);
  }
}
