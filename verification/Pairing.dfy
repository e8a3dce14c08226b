/**
 * The QR proof-pairing protocol of src/services/proof-pairing.ts as a transition
 * system. Every SQL statement is one step on the session table; everything a
 * call does between two statements runs on the values it read, so any number of
 * `createSession` and `submitProof` calls, expiry sweeps and clock ticks
 * interleave freely.
 */
module Pairing {
  import opened JsText
  import opened LoginChecks
  import opened Tenancy

  const SESSION_TTL_MS := 5 * 60 * 1000
  const MAX_PENDING_SESSIONS_PER_TENANT := 50
  const MAX_FAILURES_BEFORE_LOCK := 3
  const SMALLINT_MAX := 32767

  datatype SessionState = Issued | Consumed | Failed | Expired

  datatype Row = Row(
    tenant: string, env: Environment, nonceHex: string, bindHash: string, state: SessionState,
    failureCount: nat, consumedUser: Option<string>, expiresAt: int)

  datatype Request = Request(
    session: string, tenant: string, env: Environment, did: string, proof: string,
    signals: seq<string>, bindToken: Option<string>)

  /** Where a submit is, with what it has read so far, when it passed the gate, and when it claimed the session. */
  datatype Phase =
    | Started
    | Loaded(row: Row)
    | Admitted(row: Row, gate: int)
    | Authorised(row: Row, gate: int)
    | Proving(row: Row, user: User, gate: int)
    | Claiming(row: Row, user: User, gate: int)
    | Failing(code: ErrorCode)
    | Won(row: Row, user: User, gate: int, at: int)
    | Refused(code: ErrorCode, counted: bool)

  datatype Submit = Submit(req: Request, phase: Phase)

  /** Checks 5 to 7 on a nonce, the public signals and the stored user. */
  type Checks = (string, seq<string>, User) -> CheckResult

  /** What the protocol calls but does not contain: SHA-256 in hex, checks 5 to 7, the Groth16 verifier. */
  datatype World = World(sha256: string -> string, checks: Checks, verify: (string, seq<string>) -> bool)

  /** The world of the source: the checks are those of `submitProof`. */
  function SourceWorld(sha256: string -> string, poseidon2: Poseidon2,
                       verify: (string, seq<string>) -> bool): (w: World) {
    World(sha256, (nonceHex, signals, user) => SignalChecks(poseidon2, nonceHex, signals, user), verify)
  }

  datatype DidKey = DidKey(tenant: string, env: Environment, did: string)
  datatype Create = Create(tenant: string, env: Environment)

  datatype State = State(
    rows: map<string, Row>, users: map<DidKey, User>, now: int,
    creates: map<nat, Create>, submits: map<nat, Submit>)

  datatype Action =
    | CountOpen(c: nat, tenant: string, env: Environment)
    | InsertSession(c: nat, id: string, nonceHex: string, bindHash: string)
    | Begin(c: nat, req: Request)
    | Load(c: nat)
    | Gate(c: nat)
    | Policy(c: nat, ok: bool)
    | Lookup(c: nat)
    | Verify(c: nat, available: bool)
    | Claim(c: nat)
    | CountFailure(c: nat, dbOk: bool)
    | Sweep
    | Tick(ms: nat)
    | ChangeUsers(users: map<DidKey, User>)

  // ---- statements on the table ---------------------------------------------

  predicate IsLive(row: Row, now: int) { row.state == Issued && row.expiresAt > now }

  /** What the cap of `createSession` counts. */
  function LiveIn(rows: map<string, Row>, tenant: string, env: Environment, now: int): (ids: set<string>) {
    set id | id in rows && rows[id].tenant == tenant && rows[id].env == env && IsLive(rows[id], now)
  }

  function LiveSessions(s: State, tenant: string, env: Environment): (ids: set<string>) {
    LiveIn(s.rows, tenant, env, s.now)
  }

  predicate NonceTaken(rows: map<string, Row>, tenant: string, nonceHex: string) {
    exists id :: id in rows && rows[id].tenant == tenant && rows[id].nonceHex == nonceHex
  }

  /** `incrementFailureCount`; None when the statement matches no row or overflows the column. */
  function Incremented(rows: map<string, Row>, id: string): (r: Option<Row>) {
    if id in rows && rows[id].state in {Issued, Failed} && rows[id].failureCount < SMALLINT_MAX then
      var row := rows[id];
      Some(row.(failureCount := row.failureCount + 1,
                state := if row.failureCount + 1 >= MAX_FAILURES_BEFORE_LOCK then Failed else row.state))
    else None
  }

  /** `expireOverdueSessions`. */
  function Swept(rows: map<string, Row>, now: int): (r: map<string, Row>)
    ensures r.Keys == rows.Keys
  {
    map id | id in rows :: if rows[id].state == Issued && rows[id].expiresAt < now then rows[id].(state := Expired)
                           else rows[id]
  }

  // ---- what a submit decides between statements ----------------------------

  function GateResult(row: Row, now: int): (p: Phase) {
    if row.state == Consumed then Refused(SessionAlreadyBound, false)
    else if row.state == Failed || row.failureCount >= MAX_FAILURES_BEFORE_LOCK then Refused(SessionLocked, false)
    else if row.expiresAt <= now then Refused(SessionExpired, false)
    else Admitted(row, now)
  }

  predicate BindMatches(world: World, row: Row, req: Request) {
    req.bindToken.Some? && req.bindToken.value != "" && world.sha256(req.bindToken.value) == row.bindHash
  }

  function LookupResult(world: World, s: State, req: Request, row: Row, gate: int): (p: Phase) {
    var key := DidKey(req.tenant, req.env, req.did);
    if key !in s.users then Failing(DidUnknown)
    else
      match world.checks(row.nonceHex, req.signals, s.users[key])
      case Passed => Proving(row, s.users[key], gate)
      case Rejected(code) => if code == InternalError then Refused(InternalError, false) else Failing(code)
  }

  // ---- steps ---------------------------------------------------------------

  function At(s: State, c: nat, p: Phase): (s': State)
    requires c in s.submits
  {
    s.(submits := s.submits[c := s.submits[c].(phase := p)])
  }

  function CreateStep(s: State, a: Action): (s': State)
    requires a.CountOpen? || a.InsertSession?
  {
    match a
    case CountOpen(c, tenant, env) =>
      if c in s.creates || |LiveSessions(s, tenant, env)| >= MAX_PENDING_SESSIONS_PER_TENANT then s
      else s.(creates := s.creates[c := Create(tenant, env)])
    case InsertSession(c, id, nonceHex, bindHash) =>
      if c !in s.creates || !IsStoredNonce(nonceHex) then s
      else
        var call := s.creates[c];
        var ended := s.(creates := s.creates - {c});
        if id in s.rows || NonceTaken(s.rows, call.tenant, nonceHex) then ended
        else ended.(rows := s.rows[id := Row(call.tenant, call.env, nonceHex, bindHash, Issued, 0, None,
                                             s.now + SESSION_TTL_MS)])
  }

  function SubmitStep(world: World, s: State, a: Action): (s': State)
    requires a.Load? || a.Gate? || a.Policy? || a.Lookup? || a.Verify?
    requires a.c in s.submits
  {
    var req, phase := s.submits[a.c].req, s.submits[a.c].phase;
    match a
    case Load(c) =>
      if !phase.Started? then s
      else if req.session in s.rows && s.rows[req.session].tenant == req.tenant && s.rows[req.session].env == req.env
      then At(s, c, Loaded(s.rows[req.session]))
      else At(s, c, Refused(SessionNotFound, false))
    case Gate(c) =>
      if !phase.Loaded? then s else At(s, c, GateResult(phase.row, s.now))
    case Policy(c, ok) =>
      if !phase.Admitted? then s
      else if !ok then At(s, c, Failing(IntegrityRejected))
      else if !BindMatches(world, phase.row, req) then At(s, c, Failing(BindMismatch))
      else At(s, c, Authorised(phase.row, phase.gate))
    case Lookup(c) =>
      if !phase.Authorised? then s else At(s, c, LookupResult(world, s, req, phase.row, phase.gate))
    case Verify(c, available) =>
      if !phase.Proving? then s
      else if !available then At(s, c, Refused(VerifierUnavailable, false))
      else if !world.verify(req.proof, req.signals) then At(s, c, Failing(ProofInvalid))
      else At(s, c, Claiming(phase.row, phase.user, phase.gate))
  }

  /** `UPDATE … SET state = 'consumed' … WHERE id = $1 AND state = 'issued' RETURNING *`. */
  function ClaimStep(s: State, c: nat): (s': State)
    requires c in s.submits && s.submits[c].phase.Claiming?
  {
    var id, phase := s.submits[c].req.session, s.submits[c].phase;
    if id in s.rows && s.rows[id].state == Issued then
      At(s, c, Won(phase.row, phase.user, phase.gate, s.now)).(
        rows := s.rows[id := s.rows[id].(state := Consumed, consumedUser := Some(phase.user.id))])
    else At(s, c, Refused(SessionAlreadyBound, false))
  }

  function CountStep(s: State, c: nat, dbOk: bool): (s': State)
    requires c in s.submits && s.submits[c].phase.Failing?
  {
    var id, code := s.submits[c].req.session, s.submits[c].phase.code;
    var row := if dbOk then Incremented(s.rows, id) else None;
    if row.Some? then At(s, c, Refused(code, true)).(rows := s.rows[id := row.value])
    else At(s, c, Refused(code, false))
  }

  /** One step of the system; a step that is not enabled changes nothing. */
  function Next(world: World, s: State, a: Action): (s': State) {
    match a
    case CountOpen(_, _, _) => CreateStep(s, a)
    case InsertSession(_, _, _, _) => CreateStep(s, a)
    case Begin(c, req) => if c in s.submits then s else s.(submits := s.submits[c := Submit(req, Started)])
    case Claim(c) => if c in s.submits && s.submits[c].phase.Claiming? then ClaimStep(s, c) else s
    case CountFailure(c, dbOk) => if c in s.submits && s.submits[c].phase.Failing? then CountStep(s, c, dbOk) else s
    case Sweep => s.(rows := Swept(s.rows, s.now))
    case Tick(ms) => s.(now := s.now + ms)
    case ChangeUsers(users) => s.(users := users)
    case _ => if a.c in s.submits then SubmitStep(world, s, a) else s
  }

  function Run(world: World, s: State, acts: seq<Action>): (s': State)
    decreases |acts|
  {
    if acts == [] then s else Next(world, Run(world, s, acts[..|acts| - 1]), acts[|acts| - 1])
  }

  lemma {:induction false} RunOneMore(world: World, s: State, acts: seq<Action>, a: Action)
    ensures Run(world, s, acts + [a]) == Next(world, Run(world, s, acts), a)
  {
    assert (acts + [a])[..|acts|] == acts;
  }

  /** A run is its beginning and what follows from there. */
  lemma {:induction false} RunSplits(world: World, s: State, acts: seq<Action>, n: nat)
    requires n <= |acts|
    ensures Run(world, s, acts) == Run(world, Run(world, s, acts[..n]), acts[n..])
    decreases |acts|
  {
    if n < |acts| {
      var before, last := acts[..|acts| - 1], acts[|acts| - 1];
      assert acts == before + [last] && acts[n..] == before[n..] + [last] && acts[..n] == before[..n];
      RunSplits(world, s, before, n);
      RunOneMore(world, s, before, last);
      RunOneMore(world, Run(world, s, acts[..n]), before[n..], last);
    } else {
      assert acts[..n] == acts && acts[n..] == [];
    }
  }

  predicate Initial(s: State) { s.rows == map[] && s.creates == map[] && s.submits == map[] }

  // ---- the invariant -------------------------------------------------------

  predicate RowOk(row: Row, now: int) {
    && IsStoredNonce(row.nonceHex)
    && (row.failureCount >= MAX_FAILURES_BEFORE_LOCK <==> row.state == Failed)
    && (row.consumedUser.Some? <==> row.state == Consumed)
    && (row.state == Expired ==> row.expiresAt < now)
  }

  predicate SameIdentity(r: Row, q: Row) {
    r.tenant == q.tenant && r.env == q.env && r.nonceHex == q.nonceHex && r.bindHash == q.bindHash
    && r.expiresAt == q.expiresAt
  }

  /** A row read earlier for this request: the same session, in a state it really had. */
  predicate Snapshot(s: State, req: Request, row: Row) {
    && req.session in s.rows && SameIdentity(row, s.rows[req.session])
    && row.tenant == req.tenant && row.env == req.env
    && RowOk(row, s.now)
  }

  /** The gate was passed before the session ran out. */
  predicate Gated(row: Row, gate: int, now: int) { row.state == Issued && gate < row.expiresAt && gate <= now }

  /** What a submit has established when it is in a given phase. */
  predicate PhaseOk(world: World, s: State, sub: Submit) {
    var req := sub.req;
    match sub.phase
    case Loaded(row) => Snapshot(s, req, row)
    case Admitted(row, gate) => Snapshot(s, req, row) && Gated(row, gate, s.now)
    case Authorised(row, gate) => Snapshot(s, req, row) && Gated(row, gate, s.now) && BindMatches(world, row, req)
    case Proving(row, user, gate) =>
      Snapshot(s, req, row) && Gated(row, gate, s.now) && ChecksPassed(world, req, row, user)
    case Claiming(row, user, gate) =>
      Snapshot(s, req, row) && Gated(row, gate, s.now) && Proven(world, req, row, user)
    case Won(row, user, gate, at) =>
      && Snapshot(s, req, row) && Gated(row, gate, at) && at <= s.now && Proven(world, req, row, user)
      && s.rows[req.session].state == Consumed && s.rows[req.session].consumedUser == Some(user.id)
    case Refused(_, counted) => counted ==> req.session in s.rows
    case _ => true
  }

  predicate ChecksPassed(world: World, req: Request, row: Row, user: User) {
    BindMatches(world, row, req) && world.checks(row.nonceHex, req.signals, user).Passed?
  }

  predicate Proven(world: World, req: Request, row: Row, user: User) {
    ChecksPassed(world, req, row, user) && world.verify(req.proof, req.signals)
  }

  predicate IsWinner(s: State, c: nat, id: string) {
    c in s.submits && s.submits[c].phase.Won? && s.submits[c].req.session == id
  }

  predicate IsCounted(s: State, c: nat, id: string) {
    c in s.submits && s.submits[c].req.session == id && s.submits[c].phase.Refused? && s.submits[c].phase.counted
  }

  /** The submits of a session whose failure was counted. */
  function CountedCalls(s: State, id: string): (calls: set<nat>) {
    set c | c in s.submits && IsCounted(s, c, id)
  }

  ghost predicate Inv(world: World, s: State) {
    && (forall id :: id in s.rows ==> RowOk(s.rows[id], s.now))
    && UniqueNonces(s.rows)
    && (forall c :: c in s.submits ==> PhaseOk(world, s, s.submits[c]))
    && WinnersMatch(s)
    && (forall id :: id in s.rows ==> s.rows[id].failureCount == |CountedCalls(s, id)|)
  }

  predicate UniqueNonces(rows: map<string, Row>) {
    forall i, j :: i in rows && j in rows && i != j && rows[i].tenant == rows[j].tenant ==>
      rows[i].nonceHex != rows[j].nonceHex
  }

  /** A session is consumed exactly when one submit, and only one, won it. */
  ghost predicate WinnersMatch(s: State) {
    && (forall id :: id in s.rows && s.rows[id].state == Consumed ==> exists c :: IsWinner(s, c, id))
    && (forall c, d, id {:trigger IsWinner(s, c, id), IsWinner(s, d, id)} ::
          IsWinner(s, c, id) && IsWinner(s, d, id) ==> c == d)
  }

  // ---- rows only move forward ----------------------------------------------

  /** Nothing disappears, identities never change, terminal states and the bound user are final. */
  predicate Evolves(s: State, s': State) {
    && s.now <= s'.now
    && (forall id :: id in s.rows ==>
          && id in s'.rows
          && SameIdentity(s.rows[id], s'.rows[id])
          && s.rows[id].failureCount <= s'.rows[id].failureCount
          && (s.rows[id].state != Issued ==>
                s'.rows[id].state == s.rows[id].state && s'.rows[id].consumedUser == s.rows[id].consumedUser))
  }

  /** The four kinds of step that write to the table. */
  predicate WritesRows(a: Action) { a.InsertSession? || a.Claim? || a.CountFailure? || a.Sweep? }

  /** The submit an action belongs to. */
  predicate ActsFor(a: Action, c: nat) {
    match a
    case Begin(d, _) => c == d
    case Load(d) => c == d
    case Gate(d) => c == d
    case Policy(d, _) => c == d
    case Lookup(d) => c == d
    case Verify(d, _) => c == d
    case Claim(d) => c == d
    case CountFailure(d, _) => c == d
    case _ => false
  }

  lemma StepFrame(world: World, s: State, a: Action)
    ensures !WritesRows(a) ==> Next(world, s, a).rows == s.rows
    ensures s.now <= Next(world, s, a).now
    ensures s.submits.Keys <= Next(world, s, a).submits.Keys
    ensures forall c :: c in Next(world, s, a).submits && !ActsFor(a, c) ==>
              c in s.submits && Next(world, s, a).submits[c] == s.submits[c]
  {
    SubmitsFrame(world, s, a);
  }

  lemma SubmitsFrame(world: World, s: State, a: Action)
    ensures s.submits.Keys <= Next(world, s, a).submits.Keys
    ensures forall c :: c in Next(world, s, a).submits && !ActsFor(a, c) ==>
              c in s.submits && Next(world, s, a).submits[c] == s.submits[c]
  {
    match a
    case CountOpen(_, _, _) => CreateKeepsSubmits(s, a);
    case InsertSession(_, _, _, _) => CreateKeepsSubmits(s, a);
    case Begin(_, _) =>
    case Claim(_) =>
    case CountFailure(_, _) =>
    case Sweep =>
    case Tick(_) =>
    case ChangeUsers(_) =>
    case _ =>
      if a.c in s.submits {
        OwnStepKeepsOthers(world, s, a);
      }
  }

  lemma CreateKeepsSubmits(s: State, a: Action)
    requires a.CountOpen? || a.InsertSession?
    ensures CreateStep(s, a).submits == s.submits
  {
  }

  lemma OwnStepKeepsOthers(world: World, s: State, a: Action)
    requires a.Load? || a.Gate? || a.Policy? || a.Lookup? || a.Verify?
    requires a.c in s.submits
    ensures exists p :: SubmitStep(world, s, a) == At(s, a.c, p)
  {
    assert At(s, a.c, s.submits[a.c].phase) == s by {
      assert s.submits[a.c := s.submits[a.c]] == s.submits;
    }
    assert SubmitStep(world, s, a) == At(s, a.c, SubmitStep(world, s, a).submits[a.c].phase);
  }

  lemma RowWrites(world: World, s: State, a: Action, id: string)
    requires id in s.rows && RowOk(s.rows[id], s.now) && WritesRows(a)
    ensures var s' := Next(world, s, a);
            && id in s'.rows && RowOk(s'.rows[id], s'.now)
            && SameIdentity(s.rows[id], s'.rows[id])
            && s.rows[id].failureCount <= s'.rows[id].failureCount
            && (s.rows[id].state != Issued ==>
                  s'.rows[id].state == s.rows[id].state && s'.rows[id].consumedUser == s.rows[id].consumedUser)
  {
    var s' := Next(world, s, a);
    match a
    case InsertSession(c, _, _, _) =>
    case Claim(c) =>
      var claimed := c in s.submits && s.submits[c].phase.Claiming? && s.rows[id].state == Issued;
      assert s'.rows[id] == s.rows[id] || claimed;
    case CountFailure(c, dbOk) =>
      assert s'.rows[id] == s.rows[id] || Incremented(s.rows, id) == Some(s'.rows[id]);
    case Sweep =>
  }

  lemma StepEvolves(world: World, s: State, a: Action)
    requires Inv(world, s)
    ensures Evolves(s, Next(world, s, a))
  {
    StepFrame(world, s, a);
    forall id | id in s.rows && WritesRows(a)
      ensures id in Next(world, s, a).rows
      ensures SameIdentity(s.rows[id], Next(world, s, a).rows[id])
      ensures s.rows[id].failureCount <= Next(world, s, a).rows[id].failureCount
      ensures s.rows[id].state != Issued ==>
                Next(world, s, a).rows[id].state == s.rows[id].state
                && Next(world, s, a).rows[id].consumedUser == s.rows[id].consumedUser
    {
      RowWrites(world, s, a, id);
    }
  }

  lemma PhaseStays(world: World, s: State, s': State, sub: Submit)
    requires PhaseOk(world, s, sub) && Evolves(s, s')
    ensures PhaseOk(world, s', sub)
  {
  }

  // ---- every step keeps the invariant ---------------------------------------

  lemma StepRowsOk(world: World, s: State, a: Action)
    requires Inv(world, s)
    ensures forall id :: id in Next(world, s, a).rows ==> RowOk(Next(world, s, a).rows[id], Next(world, s, a).now)
  {
    var s' := Next(world, s, a);
    StepFrame(world, s, a);
    forall id | id in s'.rows ensures RowOk(s'.rows[id], s'.now) {
      if id in s.rows && WritesRows(a) {
        RowWrites(world, s, a, id);
      } else if id !in s.rows {
        NewRow(world, s, a, id);
      }
    }
  }

  /** A row that was not there is the one a createSession inserted. */
  lemma NewRow(world: World, s: State, a: Action, id: string)
    requires id in Next(world, s, a).rows && id !in s.rows
    ensures a.InsertSession? && a.id == id && a.c in s.creates && IsStoredNonce(a.nonceHex)
    ensures !NonceTaken(s.rows, s.creates[a.c].tenant, a.nonceHex)
    ensures Next(world, s, a).rows == s.rows[id := Row(s.creates[a.c].tenant, s.creates[a.c].env, a.nonceHex,
                                               a.bindHash, Issued, 0, None, s.now + SESSION_TTL_MS)]
    ensures Next(world, s, a).submits == s.submits && Next(world, s, a).now == s.now
  {
    StepFrame(world, s, a);
    assert a.InsertSession?;
  }

  lemma StepNonces(world: World, s: State, a: Action)
    requires Inv(world, s)
    ensures UniqueNonces(Next(world, s, a).rows)
  {
    var s' := Next(world, s, a);
    StepEvolves(world, s, a);
    if id :| id in s'.rows && id !in s.rows {
      NewRow(world, s, a, id);
    } else {
      forall i, j | i in s'.rows && j in s'.rows && i != j && s'.rows[i].tenant == s'.rows[j].tenant
        ensures s'.rows[i].nonceHex != s'.rows[j].nonceHex
      {
        assert SameIdentity(s.rows[i], s'.rows[i]) && SameIdentity(s.rows[j], s'.rows[j]);
      }
    }
  }

  lemma BeginHolds(world: World, s: State, a: Action)
    requires Inv(world, s) && a.Begin? && a.c in s.submits
    ensures PhaseOk(world, s, Next(world, s, a).submits[a.c])
  {
    assert PhaseOk(world, s, s.submits[a.c]);
  }

  lemma LoadHolds(world: World, s: State, a: Action)
    requires Inv(world, s) && a.Load? && a.c in s.submits
    ensures PhaseOk(world, s, Next(world, s, a).submits[a.c])
  {
    assert PhaseOk(world, s, s.submits[a.c]);
    if s.submits[a.c].req.session in s.rows {
      assert RowOk(s.rows[s.submits[a.c].req.session], s.now);
    }
  }

  lemma GateHolds(world: World, s: State, a: Action)
    requires Inv(world, s) && a.Gate? && a.c in s.submits
    ensures PhaseOk(world, s, Next(world, s, a).submits[a.c])
  {
    assert PhaseOk(world, s, s.submits[a.c]);
  }

  lemma PolicyHolds(world: World, s: State, a: Action)
    requires Inv(world, s) && a.Policy? && a.c in s.submits
    ensures PhaseOk(world, s, Next(world, s, a).submits[a.c])
  {
    assert PhaseOk(world, s, s.submits[a.c]);
  }

  lemma LookupHolds(world: World, s: State, a: Action)
    requires Inv(world, s) && a.Lookup? && a.c in s.submits
    ensures PhaseOk(world, s, Next(world, s, a).submits[a.c])
  {
    assert PhaseOk(world, s, s.submits[a.c]);
  }

  lemma VerifyHolds(world: World, s: State, a: Action)
    requires Inv(world, s) && a.Verify? && a.c in s.submits
    ensures PhaseOk(world, s, Next(world, s, a).submits[a.c])
  {
    assert PhaseOk(world, s, s.submits[a.c]);
  }

  /** The phase a submit moves to holds what it claims. */
  lemma OwnStep(world: World, s: State, a: Action, c: nat)
    requires Inv(world, s) && c in s.submits && ActsFor(a, c) && !WritesRows(a)
    requires c in Next(world, s, a).submits
    ensures PhaseOk(world, s, Next(world, s, a).submits[c])
  {
    match a {
      case Begin(_, _) => BeginHolds(world, s, a);
      case Load(_) => LoadHolds(world, s, a);
      case Gate(_) => GateHolds(world, s, a);
      case Policy(_, _) => PolicyHolds(world, s, a);
      case Lookup(_) => LookupHolds(world, s, a);
      case Verify(_, _) => VerifyHolds(world, s, a);
    }
  }

  lemma OwnWrite(world: World, s: State, a: Action, c: nat)
    requires Inv(world, s) && c in s.submits && ActsFor(a, c) && (a.Claim? || a.CountFailure?)
    ensures PhaseOk(world, Next(world, s, a), Next(world, s, a).submits[c])
  {
    assert PhaseOk(world, s, s.submits[c]);
    if a.Claim? && s.submits[c].phase.Claiming? {
      ClaimPhaseOk(world, s, c);
    } else if a.CountFailure? && s.submits[c].phase.Failing? {
      CountPhaseOk(world, s, c, a.dbOk);
    }
  }

  lemma ClaimPhaseOk(world: World, s: State, c: nat)
    requires c in s.submits && s.submits[c].phase.Claiming? && PhaseOk(world, s, s.submits[c])
    ensures PhaseOk(world, ClaimStep(s, c), ClaimStep(s, c).submits[c])
  {
  }

  lemma CountPhaseOk(world: World, s: State, c: nat, dbOk: bool)
    requires c in s.submits && s.submits[c].phase.Failing?
    ensures PhaseOk(world, CountStep(s, c, dbOk), CountStep(s, c, dbOk).submits[c])
  {
  }

  lemma StepPhasesOk(world: World, s: State, a: Action, c: nat)
    requires Inv(world, s) && c in Next(world, s, a).submits
    ensures PhaseOk(world, Next(world, s, a), Next(world, s, a).submits[c])
  {
    var s' := Next(world, s, a);
    StepEvolves(world, s, a);
    StepFrame(world, s, a);
    if !ActsFor(a, c) {
      PhaseStays(world, s, s', s.submits[c]);
    } else if c in s.submits {
      if a.Claim? || a.CountFailure? {
        OwnWrite(world, s, a, c);
      } else {
        OwnStep(world, s, a, c);
        PhaseStays(world, s, s', s'.submits[c]);
      }
    }
  }

  /** Winning happens in a successful claim and nowhere else. */
  lemma WinnerStep(world: World, s: State, a: Action, c: nat, id: string)
    ensures IsWinner(s, c, id) ==> IsWinner(Next(world, s, a), c, id)
    ensures IsWinner(Next(world, s, a), c, id) && !IsWinner(s, c, id) ==>
              a == Claim(c) && id in s.rows && s.rows[id].state == Issued
  {
    StepFrame(world, s, a);
  }

  /** A row becomes consumed in a successful claim of its session and nowhere else. */
  lemma ConsumedStep(world: World, s: State, a: Action, id: string)
    requires Inv(world, s)
    requires id in Next(world, s, a).rows && Next(world, s, a).rows[id].state == Consumed
    requires !(id in s.rows && s.rows[id].state == Consumed)
    ensures a.Claim? && IsWinner(Next(world, s, a), a.c, id)
  {
    StepFrame(world, s, a);
    if id !in s.rows {
      NewRow(world, s, a, id);
    }
    match a
    case Claim(c) => ClaimConsumes(s, c, id);
    case CountFailure(c, dbOk) => CountConsumesNothing(s, c, dbOk, id);
    case Sweep => SweepConsumesNothing(s, id);
    case _ =>
  }

  lemma ClaimConsumes(s: State, c: nat, id: string)
    requires c in s.submits && s.submits[c].phase.Claiming? && id in s.rows && s.rows[id].state != Consumed
    ensures ClaimStep(s, c).rows[id].state == Consumed ==> IsWinner(ClaimStep(s, c), c, id)
  {
  }

  lemma SweepConsumesNothing(s: State, id: string)
    requires id in s.rows && s.rows[id].state != Consumed
    ensures Swept(s.rows, s.now)[id].state != Consumed
  {
  }

  lemma CountConsumesNothing(s: State, c: nat, dbOk: bool, id: string)
    requires c in s.submits && s.submits[c].phase.Failing?
    ensures CountStep(s, c, dbOk).rows.Keys == s.rows.Keys
    ensures id in s.rows && CountStep(s, c, dbOk).rows[id].state == Consumed ==> s.rows[id].state == Consumed
  {
  }

  lemma StepWinners(world: World, s: State, a: Action)
    requires Inv(world, s)
    ensures WinnersMatch(Next(world, s, a))
  {
    var s' := Next(world, s, a);
    forall id | id in s'.rows && s'.rows[id].state == Consumed ensures exists c :: IsWinner(s', c, id) {
      if id in s.rows && s.rows[id].state == Consumed {
        var c :| IsWinner(s, c, id);
        WinnerStep(world, s, a, c, id);
      } else {
        ConsumedStep(world, s, a, id);
      }
    }
    forall c, d, id | IsWinner(s', c, id) && IsWinner(s', d, id) ensures c == d {
      WinnerStep(world, s, a, c, id);
      WinnerStep(world, s, a, d, id);
      assert IsWinner(s, c, id) ==> PhaseOk(world, s, s.submits[c]);
      assert IsWinner(s, d, id) ==> PhaseOk(world, s, s.submits[d]);
    }
  }

  lemma CountFrame(world: World, s: State, a: Action, id: string)
    requires id in s.rows && !a.CountFailure?
    ensures Next(world, s, a).rows[id].failureCount == s.rows[id].failureCount
    ensures CountedCalls(Next(world, s, a), id) == CountedCalls(s, id)
  {
    var s' := Next(world, s, a);
    StepFrame(world, s, a);
    forall c ensures IsCounted(s', c, id) <==> IsCounted(s, c, id) {
      if c in s'.submits {
        NotCounted(world, s, a, c);
      }
    }
  }

  /** No step but the counting one makes a refusal a counted one, or changes a counted one. */
  lemma NotCounted(world: World, s: State, a: Action, c: nat)
    requires !a.CountFailure? && c in Next(world, s, a).submits
    ensures KeepsCounted(s, Next(world, s, a), c)
  {
    StepFrame(world, s, a);
    if ActsFor(a, c) && c in s.submits {
      if a.Claim? {
        ClaimNotCounted(world, s, c);
      } else if !a.Begin? {
        SubmitStepNotCounted(world, s, a);
      }
    }
  }

  predicate KeepsCounted(s: State, s': State, c: nat)
    requires c in s'.submits
  {
    var t := s'.submits[c];
    && (t.phase.Refused? && t.phase.counted ==> c in s.submits && s.submits[c] == t)
    && (c in s.submits && s.submits[c].phase.Refused? ==> t == s.submits[c])
    && (c in s.submits ==> t.req == s.submits[c].req)
  }

  lemma ClaimNotCounted(world: World, s: State, c: nat)
    requires c in s.submits
    ensures KeepsCounted(s, Next(world, s, Claim(c)), c)
  {
  }

  lemma SubmitStepNotCounted(world: World, s: State, a: Action)
    requires a.Load? || a.Gate? || a.Policy? || a.Lookup? || a.Verify?
    requires a.c in s.submits
    ensures KeepsCounted(s, SubmitStep(world, s, a), a.c)
  {
  }

  lemma CountStepCounts(world: World, s: State, c: nat, dbOk: bool, id: string)
    requires id in s.rows && c in s.submits && s.submits[c].phase.Failing?
    ensures var s' := CountStep(s, c, dbOk);
            && id in s'.rows
            && s'.rows[id].failureCount - s.rows[id].failureCount
               == |CountedCalls(s', id)| - |CountedCalls(s, id)|
  {
    var s' := CountStep(s, c, dbOk);
    if s'.rows[id] != s.rows[id] {
      assert CountedCalls(s', id) == CountedCalls(s, id) + {c};
    } else {
      assert CountedCalls(s', id) == CountedCalls(s, id);
    }
  }

  lemma StepCounts(world: World, s: State, a: Action, id: string)
    requires Inv(world, s) && id in Next(world, s, a).rows
    ensures Next(world, s, a).rows[id].failureCount == |CountedCalls(Next(world, s, a), id)|
  {
    var s' := Next(world, s, a);
    if id !in s.rows {
      NewRow(world, s, a, id);
      forall c | c in s.submits ensures !IsCounted(s, c, id) {
        assert PhaseOk(world, s, s.submits[c]);
      }
      assert CountedCalls(s', id) == {};
    } else if a.CountFailure? {
      if a.c in s.submits && s.submits[a.c].phase.Failing? {
        CountStepCounts(world, s, a.c, a.dbOk, id);
      }
    } else {
      CountFrame(world, s, a, id);
    }
  }

  lemma StepKeepsInv(world: World, s: State, a: Action)
    requires Inv(world, s)
    ensures Inv(world, Next(world, s, a))
  {
    var s' := Next(world, s, a);
    StepRowsOk(world, s, a);
    StepNonces(world, s, a);
    StepWinners(world, s, a);
    forall c | c in s'.submits ensures PhaseOk(world, s', s'.submits[c]) {
      StepPhasesOk(world, s, a, c);
    }
    forall id | id in s'.rows ensures s'.rows[id].failureCount == |CountedCalls(s', id)| {
      StepCounts(world, s, a, id);
    }
  }

  lemma {:induction false} RunKeepsInv(world: World, s: State, acts: seq<Action>)
    requires Inv(world, s)
    ensures Inv(world, Run(world, s, acts)) && Evolves(s, Run(world, s, acts))
    decreases |acts|
  {
    if acts != [] {
      var before := Run(world, s, acts[..|acts| - 1]);
      RunKeepsInv(world, s, acts[..|acts| - 1]);
      StepKeepsInv(world, before, acts[|acts| - 1]);
      StepEvolves(world, before, acts[|acts| - 1]);
    }
  }

  lemma {:induction false} ReachableInv(world: World, s: State, acts: seq<Action>)
    requires Initial(s)
    ensures Inv(world, Run(world, s, acts))
  {
    RunKeepsInv(world, s, acts);
  }
}
