/**
 * The calls of src/services/proof-pairing.ts one at a time: what `createSession`,
 * `submitProof`, `incrementFailureCount` and `expireOverdueSessions` do to the
 * session table when nothing interleaves, and that this is what the steps of
 * Pairing.dfy do when they run without interruption.
 */
module PairingCalls {
  import opened JsText
  import opened LoginChecks
  import opened Tenancy
  import opened Pairing

  type Rows = map<string, Row>

  datatype Answer = Accepted(userId: string) | Denied(code: ErrorCode)

  /**
   * What one submit finds outside the table: the policy verdict, whether the
   * verifier answers, whether a count succeeds.
   */
  datatype Surroundings = Surroundings(policyOk: bool, verifierUp: bool, dbOk: bool)

  // ---- what a submit must satisfy -------------------------------------------

  /** The session is there for this tenant and environment, open, below three failures and not over. */
  predicate LetIn(rows: Rows, now: int, req: Request) {
    && req.session in rows && rows[req.session].tenant == req.tenant && rows[req.session].env == req.env
    && rows[req.session].state != Consumed && rows[req.session].state != Failed
    && rows[req.session].failureCount < 3 && now < rows[req.session].expiresAt
  }

  /** The browser's token is the one whose hash the session holds. */
  predicate OwnToken(world: World, rows: Rows, req: Request)
    requires req.session in rows
  {
    match req.bindToken
    case None => false
    case Some(token) => token != "" && world.sha256(token) == rows[req.session].bindHash
  }

  /** Everything a submit needs to be accepted. */
  predicate Acceptable(world: World, rows: Rows, users: map<DidKey, User>, now: int, req: Request,
                       around: Surroundings) {
    && LetIn(rows, now, req)
    && around.policyOk && OwnToken(world, rows, req)
    && DidKey(req.tenant, req.env, req.did) in users
    && world.checks(rows[req.session].nonceHex, req.signals, users[DidKey(req.tenant, req.env, req.did)]).Passed?
    && around.verifierUp && world.verify(req.proof, req.signals)
    && rows[req.session].state == Issued
  }

  /** What the answer is when something is missing: the first thing missing decides. */
  predicate Answers(world: World, rows: Rows, users: map<DidKey, User>, now: int, req: Request,
                    around: Surroundings, answer: Answer) {
    var id, key := req.session, DidKey(req.tenant, req.env, req.did);
    if id !in rows || rows[id].tenant != req.tenant || rows[id].env != req.env then answer == Denied(SessionNotFound)
    else if rows[id].state == Consumed then answer == Denied(SessionAlreadyBound)
    else if rows[id].state == Failed || rows[id].failureCount >= 3 then answer == Denied(SessionLocked)
    else if rows[id].expiresAt <= now then answer == Denied(SessionExpired)
    else if !around.policyOk then answer == Denied(IntegrityRejected)
    else if !OwnToken(world, rows, req) then answer == Denied(BindMismatch)
    else if key !in users then answer == Denied(DidUnknown)
    else
      match world.checks(rows[id].nonceHex, req.signals, users[key])
      case Rejected(code) => answer == Denied(code)
      case Passed =>
        if !around.verifierUp then answer == Denied(VerifierUnavailable)
        else if !world.verify(req.proof, req.signals) then answer == Denied(ProofInvalid)
        else if rows[id].state != Issued then answer == Denied(SessionAlreadyBound)
        else answer == Accepted(users[key].id)
  }

  /**
   * What a denial does to the table: a failed check of the submit itself counts
   * against an issued session if the statement succeeds, and the third one locks
   * it; every other denial changes nothing.
   */
  predicate Charged(rows: Rows, rows': Rows, id: string, code: ErrorCode, dbOk: bool) {
    if code in {IntegrityRejected, BindMismatch, DidUnknown, NonceMismatch, ProofInvalid}
       && dbOk && id in rows && rows[id].state == Issued
    then
      var n := rows[id].failureCount + 1;
      rows' == rows[id := rows[id].(failureCount := n, state := if n >= 3 then Failed else Issued)]
    else rows' == rows
  }

  /** The failures that count against the session. */
  predicate CountsAgainst(code: ErrorCode) {
    code in {IntegrityRejected, BindMismatch, DidUnknown, NonceMismatch, ProofInvalid}
  }

  /** A counted failure's effect on the table. */
  function AfterFailure(rows: Rows, id: string, dbOk: bool): (r: Rows) {
    if dbOk && Incremented(rows, id).Some? then rows[id := Incremented(rows, id).value] else rows
  }

  /** Where checks 3 to 8 leave a submit whose session was let through the gate. */
  function Examined(world: World, s: State, row: Row, req: Request, around: Surroundings): (p: Phase) {
    if !around.policyOk then Failing(IntegrityRejected)
    else if !BindMatches(world, row, req) then Failing(BindMismatch)
    else
      var looked := LookupResult(world, s, req, row, s.now);
      if !looked.Proving? then looked
      else if !around.verifierUp then Refused(VerifierUnavailable, false)
      else if !world.verify(req.proof, req.signals) then Failing(ProofInvalid)
      else Claiming(row, looked.user, s.now)
  }

  /** Where the steps up to the verifier leave a submit that nothing interrupts. */
  function Decided(world: World, s: State, req: Request, around: Surroundings): (p: Phase) {
    if req.session !in s.rows || s.rows[req.session].tenant != req.tenant || s.rows[req.session].env != req.env then
      Refused(SessionNotFound, false)
    else
      var row, gate := s.rows[req.session], GateResult(s.rows[req.session], s.now);
      if !gate.Admitted? then gate else Examined(world, s, row, req, around)
  }

  /** The error a phase ends in, if it ends in one. */
  function CodeOf(p: Phase): (code: Option<ErrorCode>) {
    match p case Failing(code) => Some(code) case Refused(code, _) => Some(code) case _ => None
  }

  /** The answer once the claim, too, has been tried. */
  function AnswerTo(p: Phase, rows: Rows, req: Request): (a: Answer) {
    if CodeOf(p).Some? then Denied(CodeOf(p).value)
    else if p.Claiming? && req.session in rows && rows[req.session].state == Issued then Accepted(p.user.id)
    else Denied(SessionAlreadyBound)
  }

  /** A state with nothing in flight. */
  function Quiet(rows: Rows, users: map<DidKey, User>, now: int): (s: State) { State(rows, users, now, map[], map[]) }

  datatype Creation = Opened | TooManyPending | ConstraintViolated

  lemma OneMoreLive(rows: Rows, id: string, row: Row, now: int)
    requires id !in rows && IsLive(row, now)
    ensures |LiveIn(rows[id := row], row.tenant, row.env, now)| == |LiveIn(rows, row.tenant, row.env, now)| + 1
  {
    assert LiveIn(rows[id := row], row.tenant, row.env, now) == LiveIn(rows, row.tenant, row.env, now) + {id};
  }

  class SessionTable {
    const world: World
    var rows: Rows

    constructor (world: World)
      ensures this.world == world && rows == map[]
    {
      this.world := world;
      rows := map[];
    }

    /** `createSession` alone; the ids and the nonce come from the random supply. */
    method CreateSession(tenant: string, env: Environment, id: string, nonceHex: string, bindHash: string, now: int)
      returns (r: Creation)
      modifies this`rows
      ensures r == TooManyPending <==>
              |set i | i in old(rows) && old(rows)[i].tenant == tenant && old(rows)[i].env == env
                       && old(rows)[i].state == Issued && now < old(rows)[i].expiresAt| >= 50
      ensures r == ConstraintViolated <==>
              && r != TooManyPending
              && (id in old(rows)
                  || exists i :: i in old(rows) && old(rows)[i].tenant == tenant && old(rows)[i].nonceHex == nonceHex)
      ensures r == Opened ==>
                && rows == old(rows)[id := Row(tenant, env, nonceHex, bindHash, Issued, 0, None, now + 300_000)]
                && |LiveIn(rows, tenant, env, now)| == |LiveIn(old(rows), tenant, env, now)| + 1 <= 50
      ensures r != Opened ==> rows == old(rows)
    {
      assert LiveIn(rows, tenant, env, now)
          == set i | i in rows && rows[i].tenant == tenant && rows[i].env == env && rows[i].state == Issued
                     && now < rows[i].expiresAt;
      if |LiveIn(rows, tenant, env, now)| >= MAX_PENDING_SESSIONS_PER_TENANT {
        return TooManyPending;
      }
      if id in rows || NonceTaken(rows, tenant, nonceHex) {
        return ConstraintViolated;
      }
      var row := Row(tenant, env, nonceHex, bindHash, Issued, 0, None, now + SESSION_TTL_MS);
      OneMoreLive(rows, id, row, now);
      rows := rows[id := row];
      return Opened;
    }

    /** 0 when no row matches; -1 for the caller when the statement fails because the column would overflow. */
    method IncrementFailureCount(id: string) returns (count: int)
      modifies this`rows
      ensures rows == AfterFailure(old(rows), id, true)
      ensures count == 0 <==> id !in old(rows) || old(rows)[id].state == Consumed || old(rows)[id].state == Expired
      ensures count == -1 <==> count != 0 && old(rows)[id].failureCount >= 32767
      ensures count <= 0 ==> rows == old(rows) && -1 <= count
      ensures count > 0 ==>
                && count == old(rows)[id].failureCount + 1
                && rows == old(rows)[id := old(rows)[id].(failureCount := count,
                                                          state := if count >= 3 then Failed else old(rows)[id].state)]
    {
      if !(id in rows && rows[id].state in {Issued, Failed}) {
        return 0;
      }
      if rows[id].failureCount >= SMALLINT_MAX {
        return -1;
      }
      var row := rows[id];
      count := row.failureCount + 1;
      rows := rows[id := row.(failureCount := row.failureCount + 1,
                              state := if count >= MAX_FAILURES_BEFORE_LOCK then Failed else row.state)];
    }

    method ExpireOverdueSessions(now: int)
      modifies this`rows
      ensures rows.Keys == old(rows).Keys && rows == Swept(old(rows), now)
      ensures forall id :: id in rows ==> rows[id] == old(rows)[id].(state := rows[id].state)
      ensures forall id :: id in rows && rows[id].state != old(rows)[id].state ==> rows[id].state == Expired
      ensures forall id :: id in rows && old(rows)[id].state == Issued ==>
                (rows[id].state == Expired <==> old(rows)[id].expiresAt < now)
      ensures forall tenant, env :: LiveIn(rows, tenant, env, now) == LiveIn(old(rows), tenant, env, now)
    {
      rows := map id | id in rows ::
                if rows[id].state == Issued && rows[id].expiresAt < now then rows[id].(state := Expired) else rows[id];
    }

    /** One `submitProof` that nothing interrupts. */
    method SubmitProof(req: Request, users: map<DidKey, User>, now: int, around: Surroundings) returns (answer: Answer)
      modifies this`rows
      ensures answer.Accepted? <==> Acceptable(world, old(rows), users, now, req, around)
      ensures Answers(world, old(rows), users, now, req, around, answer)
      ensures answer.Accepted? ==>
                rows == old(rows)[req.session := old(rows)[req.session].(state := Consumed,
                                                                         consumedUser := Some(answer.userId))]
                && answer.userId == users[DidKey(req.tenant, req.env, req.did)].id
      ensures answer == AnswerTo(Decided(world, Quiet(old(rows), users, now), req, around), old(rows), req)
      ensures answer.Denied? ==> Charged(old(rows), rows, req.session, answer.code, around.dbOk)
    {
      if req.session !in rows || rows[req.session].tenant != req.tenant || rows[req.session].env != req.env {
        return Denied(SessionNotFound);
      }
      var row := rows[req.session];
      if row.state == Consumed {
        return Denied(SessionAlreadyBound);
      }
      if row.state == Failed || row.failureCount >= MAX_FAILURES_BEFORE_LOCK {
        return Denied(SessionLocked);
      }
      if row.expiresAt <= now {
        return Denied(SessionExpired);
      }
      var failure := FirstFailure(row, req, users, around, Quiet(rows, users, now));
      if failure.Some? {
        if CountsAgainst(failure.value) && around.dbOk {
          var _ := IncrementFailureCount(req.session);
        }
        return Denied(failure.value);
      }
      var user := users[DidKey(req.tenant, req.env, req.did)];
      if rows[req.session].state != Issued {
        return Denied(SessionAlreadyBound);
      }
      rows := rows[req.session := row.(state := Consumed, consumedUser := Some(user.id))];
      return Accepted(user.id);
    }

    /** Checks 3 to 8 on the row as it was read. */
    method FirstFailure(row: Row, req: Request, users: map<DidKey, User>, around: Surroundings, ghost s: State)
      returns (code: Option<ErrorCode>)
      requires s.users == users
      ensures code.None? <==>
                && around.policyOk && req.bindToken.Some? && req.bindToken.value != ""
                && world.sha256(req.bindToken.value) == row.bindHash
                && DidKey(req.tenant, req.env, req.did) in users
                && world.checks(row.nonceHex, req.signals, users[DidKey(req.tenant, req.env, req.did)]).Passed?
                && around.verifierUp && world.verify(req.proof, req.signals)
      ensures code == CodeOf(Examined(world, s, row, req, around))
    {
      if !around.policyOk {
        return Some(IntegrityRejected);
      }
      if !BindMatches(world, row, req) {
        return Some(BindMismatch);
      }
      var key := DidKey(req.tenant, req.env, req.did);
      if key !in users {
        return Some(DidUnknown);
      }
      var checked := world.checks(row.nonceHex, req.signals, users[key]);
      if checked.Rejected? {
        return Some(checked.code);
      }
      if !around.verifierUp {
        return Some(VerifierUnavailable);
      }
      if !world.verify(req.proof, req.signals) {
        return Some(ProofInvalid);
      }
      return None;
    }
  }

  // ---- the same, as steps of the protocol -------------------------------------

  /** The session table and one submit in the given phase. */
  function With(s: State, c: nat, req: Request, phase: Phase): (s': State) {
    s.(submits := s.submits[c := Submit(req, phase)])
  }

  function Checked(world: World, s: State, c: nat, req: Request, around: Surroundings): (t: State) {
    var loaded := Next(world, Next(world, s, Begin(c, req)), Load(c));
    var authorised := Next(world, Next(world, loaded, Gate(c)), Policy(c, around.policyOk));
    Next(world, Next(world, authorised, Lookup(c)), Verify(c, around.verifierUp))
  }

  predicate FoundBy(s: State, req: Request) {
    req.session in s.rows && s.rows[req.session].tenant == req.tenant && s.rows[req.session].env == req.env
  }

  lemma LoadAlone(world: World, s: State, c: nat, req: Request)
    requires c !in s.submits
    ensures var found := FoundBy(s, req);
            Next(world, Next(world, s, Begin(c, req)), Load(c))
            == With(s, c, req, if found then Loaded(s.rows[req.session]) else Refused(SessionNotFound, false))
  {
  }

  /** One step of the submit's own on the table as it was. */
  lemma StepAlone(world: World, s: State, c: nat, req: Request, phase: Phase, a: Action)
    requires a == Gate(c) || (a.Policy? && a.c == c) || a == Lookup(c) || (a.Verify? && a.c == c)
    ensures Next(world, With(s, c, req, phase), a)
            == With(s, c, req,
                    match a
                    case Gate(_) => if phase.Loaded? then GateResult(phase.row, s.now) else phase
                    case Policy(_, ok) =>
                      if !phase.Admitted? then phase
                      else if !ok then Failing(IntegrityRejected)
                      else if !BindMatches(world, phase.row, req) then Failing(BindMismatch)
                          else Authorised(phase.row, phase.gate)
                    case Lookup(_) => if phase.Authorised? then LookupResult(world, s, req, phase.row, phase.gate)
                        else phase
                    case Verify(_, up) =>
                      if !phase.Proving? then phase
                      else if !up then Refused(VerifierUnavailable, false)
                      else if !world.verify(req.proof, req.signals) then Failing(ProofInvalid)
                      else Claiming(phase.row, phase.user, phase.gate))
  {
    assert With(s, c, req, phase).submits[c := Submit(req, phase)] == With(s, c, req, phase).submits;
  }

  lemma ChecksAlone(world: World, s: State, c: nat, req: Request, around: Surroundings)
    requires c !in s.submits
    ensures Checked(world, s, c, req, around) == With(s, c, req, Decided(world, s, req, around))
  {
    LoadAlone(world, s, c, req);
    var found := FoundBy(s, req);
    var p1 := if found then Loaded(s.rows[req.session]) else Refused(SessionNotFound, false);
    StepAlone(world, s, c, req, p1, Gate(c));
    var p2 := if p1.Loaded? then GateResult(p1.row, s.now) else p1;
    StepAlone(world, s, c, req, p2, Policy(c, around.policyOk));
    var p3 := if !p2.Admitted? then p2
              else if !around.policyOk then Failing(IntegrityRejected)
              else if !BindMatches(world, p2.row, req) then Failing(BindMismatch) else Authorised(p2.row, p2.gate);
    StepAlone(world, s, c, req, p3, Lookup(c));
    var p4 := if p3.Authorised? then LookupResult(world, s, req, p3.row, p3.gate) else p3;
    StepAlone(world, s, c, req, p4, Verify(c, around.verifierUp));
  }

  /** A claim that may be followed by the counting of a failure. */
  function Settled(world: World, s: State, c: nat, req: Request, around: Surroundings): (t: State) {
    Next(world, Next(world, Checked(world, s, c, req, around), Claim(c)), CountFailure(c, around.dbOk))
  }

  lemma SettleAlone(world: World, s: State, c: nat, req: Request, phase: Phase, dbOk: bool)
    requires phase.Claiming? || phase.Failing? || phase.Refused?
    requires phase.Claiming? ==> req.session in s.rows
    ensures var u := Next(world, Next(world, With(s, c, req, phase), Claim(c)), CountFailure(c, dbOk));
            && c in u.submits
            && (phase.Claiming? && s.rows[req.session].state == Issued ==>
                  && u.submits[c].phase == Won(phase.row, phase.user, phase.gate, s.now)
                  && u.rows == s.rows[req.session := s.rows[req.session].(state := Consumed,
                                                                          consumedUser := Some(phase.user.id))])
            && (phase.Claiming? && s.rows[req.session].state != Issued ==>
                  u.submits[c].phase == Refused(SessionAlreadyBound, false) && u.rows == s.rows)
            && (phase.Failing? ==>
                  && u.rows == AfterFailure(s.rows, req.session, dbOk)
                  && u.submits[c].phase == Refused(phase.code, dbOk && Incremented(s.rows, req.session).Some?))
            && (phase.Refused? ==> u.submits[c].phase == phase && u.rows == s.rows)
  {
  }

  /** The errors checks 5 to 7 can end in. */
  ghost predicate ChecksOk(checks: Checks) {
    forall nonceHex, signals, user {:trigger checks(nonceHex, signals, user)} ::
      checks(nonceHex, signals, user).Rejected? ==>
        checks(nonceHex, signals, user).code in {ProofInvalid, DidUnknown, NonceMismatch, InternalError}
  }

  lemma SourceChecksOk(sha256: string -> string, poseidon2: Poseidon2, verify: (string, seq<string>) -> bool)
    ensures ChecksOk(SourceWorld(sha256, poseidon2, verify).checks)
  {
  }

  lemma LookupShape(world: World, s: State, req: Request, row: Row, gate: int)
    requires ChecksOk(world.checks)
    ensures var p, key := LookupResult(world, s, req, row, gate), DidKey(req.tenant, req.env, req.did);
            && (p.Proving? || p.Failing? || p.Refused?)
            && (p.Failing? ==> CountsAgainst(p.code)) && (p.Refused? ==> p == Refused(InternalError, false))
            && (p.Proving? <==> key in s.users && world.checks(row.nonceHex, req.signals, s.users[key]).Passed?)
            && (p.Proving? ==> p == Proving(row, s.users[key], gate))
  {
  }

  lemma DecidedShape(world: World, s: State, req: Request, around: Surroundings)
    requires ChecksOk(world.checks)
    ensures var p := Decided(world, s, req, around);
            && (p.Claiming? || p.Failing? || p.Refused?)
            && (p.Failing? ==> CountsAgainst(p.code)) && (p.Refused? ==> !p.counted && !CountsAgainst(p.code))
            && (p.Claiming? ==> req.session in s.rows && p.row == s.rows[req.session]
                                && DidKey(req.tenant, req.env, req.did) in s.users
                                && p.user == s.users[DidKey(req.tenant, req.env, req.did)])
            && (p.Claiming? && s.rows[req.session].state == Issued <==>
                Acceptable(world, s.rows, s.users, s.now, req, around))
  {
    if req.session in s.rows {
      LookupShape(world, s, req, s.rows[req.session], s.now);
    }
  }

  lemma DecidedAnswers(world: World, s: State, req: Request, around: Surroundings)
    ensures Answers(world, s.rows, s.users, s.now, req, around,
                    AnswerTo(Decided(world, s, req, around), s.rows, req))
  {
  }

  /** How a finished submit answers. */
  function Final(p: Phase): (a: Answer)
    requires p.Won? || p.Refused?
  {
    if p.Won? then Accepted(p.user.id) else Denied(p.code)
  }

  /**
   * A submit that nothing interrupts is accepted exactly when it is acceptable: its
   * steps consume the session for its user, and otherwise they answer what the first
   * failing check says and change nothing but the failure count, for the failures
   * that count.
   */
  lemma AcceptedWhenAcceptable(world: World, s: State, c: nat, req: Request, around: Surroundings)
    requires c !in s.submits && ChecksOk(world.checks)
    ensures var u := Settled(world, s, c, req, around);
            && c in u.submits && (u.submits[c].phase.Won? || u.submits[c].phase.Refused?)
            && Answers(world, s.rows, s.users, s.now, req, around, Final(u.submits[c].phase))
            && (u.submits[c].phase.Won? <==> Acceptable(world, s.rows, s.users, s.now, req, around))
            && (u.submits[c].phase.Won? ==>
                  u.rows == s.rows[req.session := s.rows[req.session].(
                                     state := Consumed,
                                     consumedUser := Some(s.users[DidKey(req.tenant, req.env, req.did)].id))])
            && (u.submits[c].phase.Refused? ==>
                  Charged(s.rows, u.rows, req.session, u.submits[c].phase.code, around.dbOk))
  {
    ChecksAlone(world, s, c, req, around);
    DecidedShape(world, s, req, around);
    DecidedAnswers(world, s, req, around);
    SettleAlone(world, s, c, req, Decided(world, s, req, around), around.dbOk);
    CountingCharges(world, s, req, around);
  }

  lemma CountingCharges(world: World, s: State, req: Request, around: Surroundings)
    requires ChecksOk(world.checks)
    ensures var p := Decided(world, s, req, around);
            && (p.Failing? ==>
                  Charged(s.rows, AfterFailure(s.rows, req.session, around.dbOk), req.session, p.code, around.dbOk))
            && (p.Refused? ==> Charged(s.rows, s.rows, req.session, p.code, around.dbOk))
  {
    if req.session in s.rows {
      LookupShape(world, s, req, s.rows[req.session], s.now);
    }
  }

  /** The same in the source's own world, whatever its hash functions and verifier. */
  lemma AcceptedIffAcceptable(sha256: string -> string, poseidon2: Poseidon2, verify: (string, seq<string>) -> bool,
                              s: State, c: nat, req: Request, around: Surroundings)
    requires c !in s.submits
    ensures var world := SourceWorld(sha256, poseidon2, verify);
            var u, user := Settled(world, s, c, req, around), DidKey(req.tenant, req.env, req.did);
            && c in u.submits && (u.submits[c].phase.Won? || u.submits[c].phase.Refused?)
            && Answers(world, s.rows, s.users, s.now, req, around, Final(u.submits[c].phase))
            && (u.submits[c].phase.Won? <==> Acceptable(world, s.rows, s.users, s.now, req, around))
            && (u.submits[c].phase.Won? ==>
                  u.rows == s.rows[req.session := s.rows[req.session].(
                                     state := Consumed, consumedUser := Some(s.users[user].id))])
            && (u.submits[c].phase.Refused? ==>
                  Charged(s.rows, u.rows, req.session, u.submits[c].phase.code, around.dbOk))
  {
    SourceChecksOk(sha256, poseidon2, verify);
    AcceptedWhenAcceptable(SourceWorld(sha256, poseidon2, verify), s, c, req, around);
  }
}
