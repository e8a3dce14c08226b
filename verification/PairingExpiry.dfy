/**
 * When the expiry of a pairing session is enforced. The gate of `submitProof`
 * compares the clock with the expiry once; the statement that consumes the
 * session (src/services/proof-pairing.ts:645-652) looks at the state alone, so
 * what happens in between decides.
 */
module PairingExpiry {
  import opened JsText
  import opened LoginChecks
  import opened Pairing
  import opened PairingSafety
  import opened PairingCalls

  // ---- the gate --------------------------------------------------------------

  /** Over every run, whoever consumed a session had passed the gate before the session ran out. */
  lemma {:induction false} WinnersGatedInTime(world: World, s: State, acts: seq<Action>, c: nat, id: string)
    requires Initial(s) && IsWinner(Run(world, s, acts), c, id)
    ensures var t := Run(world, s, acts);
            && id in t.rows && t.submits[c].phase.gate < t.rows[id].expiresAt
            && t.submits[c].phase.gate <= t.submits[c].phase.at <= t.now
  {
    ReachableInv(world, s, acts);
    var t := Run(world, s, acts);
    assert PhaseOk(world, t, t.submits[c]);
  }

  /**
   * Over every run, a session appears only by the insert of a call that counted,
   * for that call's tenant and environment, with an id and a nonce the tenant's
   * sessions do not have yet; and it then has five minutes.
   */
  lemma {:induction false} OpenedForFiveMinutes(world: World, s: State, acts: seq<Action>, a: Action, id: string)
    requires Initial(s)
    requires id !in Run(world, s, acts).rows && id in Run(world, s, acts + [a]).rows
    ensures var t, u := Run(world, s, acts), Run(world, s, acts + [a]);
            && a.InsertSession? && a.id == id && a.c in t.creates && a.c !in u.creates
            && u.rows == t.rows[id := Row(t.creates[a.c].tenant, t.creates[a.c].env, a.nonceHex, a.bindHash, Issued, 0,
                                          None, t.now + 300_000)]
            && forall other :: other in t.rows && t.rows[other].tenant == t.creates[a.c].tenant ==>
                 t.rows[other].nonceHex != a.nonceHex
  {
    RunOneMore(world, s, acts, a);
    NewRow(world, Run(world, s, acts), a, id);
  }

  /** A submit that is not past the gate of a session that has run out, and never will be. */
  predicate TooLate(s: State, c: nat, id: string, expiresAt: int) {
    && c in s.submits && s.submits[c].req.session == id
    && id in s.rows && s.rows[id].expiresAt == expiresAt <= s.now
    && BeforeGate(s.submits[c].phase, expiresAt)
  }

  predicate BeforeGate(phase: Phase, expiresAt: int) {
    || phase.Started?
    || (phase.Loaded? && phase.row.expiresAt == expiresAt)
    || (phase.Refused? && !phase.counted
        && phase.code in {SessionNotFound, SessionAlreadyBound, SessionLocked, SessionExpired})
  }

  lemma OwnStepTooLate(world: World, s: State, a: Action, c: nat, id: string, expiresAt: int)
    requires TooLate(s, c, id, expiresAt) && ActsFor(a, c)
    ensures var s' := Next(world, s, a);
            && c in s'.submits && s'.submits[c].req == s.submits[c].req && BeforeGate(s'.submits[c].phase, expiresAt)
  {
    match a
    case Gate(_) =>
      var phase := s.submits[c].phase;
      if phase.Loaded? {
        GateShuts(phase.row, s.now);
      }
    case _ =>
  }

  lemma GateShuts(row: Row, now: int)
    requires row.expiresAt <= now
    ensures BeforeGate(GateResult(row, now), row.expiresAt)
  {
  }

  lemma StepTooLate(world: World, s: State, a: Action, c: nat, id: string, expiresAt: int)
    requires Inv(world, s) && TooLate(s, c, id, expiresAt)
    ensures TooLate(Next(world, s, a), c, id, expiresAt)
  {
    StepEvolves(world, s, a);
    StepFrame(world, s, a);
    if ActsFor(a, c) {
      OwnStepTooLate(world, s, a, c, id, expiresAt);
    }
  }

  lemma {:induction false} RunTooLate(world: World, s: State, acts: seq<Action>, c: nat, id: string, expiresAt: int)
    requires Inv(world, s) && TooLate(s, c, id, expiresAt)
    ensures TooLate(Run(world, s, acts), c, id, expiresAt)
    decreases |acts|
  {
    if acts != [] {
      RunTooLate(world, s, acts[..|acts| - 1], c, id, expiresAt);
      RunKeepsInv(world, s, acts[..|acts| - 1]);
      StepTooLate(world, Run(world, s, acts[..|acts| - 1]), acts[|acts| - 1], c, id, expiresAt);
    }
  }

  /**
   * A submit that is not past the gate once the clock has reached the expiry
   * never reaches the verifier in any continuation, swept or not: it waits, or
   * is refused as not found, bound, locked or expired, and counts nothing.
   */
  lemma {:induction false} OverdueNeverVerified(world: World, s: State, before: seq<Action>, after: seq<Action>, c: nat)
    requires Initial(s)
    requires var t := Run(world, s, before);
             && c in t.submits && (t.submits[c].phase.Started? || t.submits[c].phase.Loaded?)
             && t.submits[c].req.session in t.rows && t.rows[t.submits[c].req.session].expiresAt <= t.now
    ensures var t := Run(world, s, before);
            var u := Run(world, t, after);
            c in u.submits && BeforeGate(u.submits[c].phase, t.rows[t.submits[c].req.session].expiresAt)
  {
    var t := Run(world, s, before);
    var id := t.submits[c].req.session;
    ReachableInv(world, s, before);
    assert PhaseOk(world, t, t.submits[c]);
    RunTooLate(world, t, after, c, id, t.rows[id].expiresAt);
  }

  // ---- the sweep -------------------------------------------------------------

  /** Some sweep of the run found the session overdue. */
  ghost predicate SweptLate(world: World, s: State, acts: seq<Action>, id: string) {
    exists n: nat :: SweptAt(world, s, acts, id, n)
  }

  predicate SweptAt(world: World, s: State, acts: seq<Action>, id: string, n: nat) {
    && n < |acts| && acts[n].Sweep?
    && var t := Run(world, s, acts[..n]);
       id in t.rows && t.rows[id].expiresAt < t.now
  }

  /** Only an overdue sweep makes a session expired. */
  lemma ExpiredBySweep(world: World, s: State, a: Action, id: string)
    requires Inv(world, s)
    requires id in Next(world, s, a).rows && Next(world, s, a).rows[id].state == Expired
    requires !(id in s.rows && s.rows[id].state == Expired)
    ensures a.Sweep? && id in s.rows && s.rows[id].expiresAt < s.now
  {
    StepFrame(world, s, a);
    if id !in s.rows {
      NewRow(world, s, a, id);
    }
    match a
    case Claim(c) => ClaimExpiresNothing(s, c, id);
    case CountFailure(c, dbOk) => CountExpiresNothing(s, c, dbOk, id);
    case InsertSession(_, _, _, _) => InsertExpiresNothing(s, a, id);
    case _ =>
  }

  lemma InsertExpiresNothing(s: State, a: Action, id: string)
    requires a.InsertSession? && id in s.rows
    ensures id in CreateStep(s, a).rows && CreateStep(s, a).rows[id] == s.rows[id]
  {
  }

  lemma ClaimExpiresNothing(s: State, c: nat, id: string)
    requires id in s.rows
    ensures c in s.submits && s.submits[c].phase.Claiming? && ClaimStep(s, c).rows[id].state == Expired ==>
              s.rows[id].state == Expired
  {
  }

  lemma CountExpiresNothing(s: State, c: nat, dbOk: bool, id: string)
    requires id in s.rows
    ensures c in s.submits && s.submits[c].phase.Failing? && CountStep(s, c, dbOk).rows[id].state == Expired ==>
              s.rows[id].state == Expired
  {
  }

  lemma {:induction false} ExpiredWasSwept(world: World, s: State, acts: seq<Action>, id: string)
    requires Initial(s) && id in Run(world, s, acts).rows && Run(world, s, acts).rows[id].state == Expired
    ensures SweptLate(world, s, acts, id)
    decreases |acts|
  {
    assert acts != [];
    var before, a := acts[..|acts| - 1], acts[|acts| - 1];
    assert acts == before + [a];
    var t := Run(world, s, before);
    ReachableInv(world, s, before);
    if id in t.rows && t.rows[id].state == Expired {
      ExpiredWasSwept(world, s, before, id);
      SweptBefore(world, s, before, a, id);
    } else {
      RunOneMore(world, s, before, a);
      ExpiredBySweep(world, t, a, id);
      SweptNow(world, s, before, id);
    }
  }

  lemma SweptBefore(world: World, s: State, acts: seq<Action>, a: Action, id: string)
    requires SweptLate(world, s, acts, id)
    ensures SweptLate(world, s, acts + [a], id)
  {
    var n: nat :| SweptAt(world, s, acts, id, n);
    assert (acts + [a])[..n] == acts[..n];
    assert SweptAt(world, s, acts + [a], id, n);
  }

  lemma {:induction false} SweptNow(world: World, s: State, acts: seq<Action>, id: string)
    requires id in Run(world, s, acts).rows && Run(world, s, acts).rows[id].expiresAt < Run(world, s, acts).now
    ensures SweptLate(world, s, acts + [Sweep], id)
  {
    assert (acts + [Sweep])[..|acts|] == acts;
    assert SweptAt(world, s, acts + [Sweep], id, |acts|);
  }

  /** After an overdue sweep the session is never issued again. */
  lemma {:induction false} SweptIsNotIssued(world: World, s: State, acts: seq<Action>, id: string, n: nat)
    requires Initial(s) && SweptAt(world, s, acts, id, n)
    ensures id in Run(world, s, acts).rows && Run(world, s, acts).rows[id].state != Issued
  {
    var t, swept := Run(world, s, acts[..n]), Run(world, s, acts[..n + 1]);
    assert acts[..n + 1] == acts[..n] + [acts[n]];
    RunOneMore(world, s, acts[..n], acts[n]);
    assert swept.rows == Swept(t.rows, t.now);
    ReachableInv(world, s, acts[..n + 1]);
    RunSplits(world, s, acts, n + 1);
    RunKeepsInv(world, swept, acts[n + 1..]);
  }

  /**
   * Over every run, a session is still issued exactly when it has no winner, fewer
   * than three failures and no overdue sweep.
   */
  lemma {:induction false} IssuedIff(world: World, s: State, acts: seq<Action>, id: string)
    requires Initial(s) && id in Run(world, s, acts).rows
    ensures var t := Run(world, s, acts);
            t.rows[id].state == Issued <==>
            && (forall d :: !IsWinner(t, d, id)) && |CountedCalls(t, id)| < 3 && !SweptLate(world, s, acts, id)
  {
    var t := Run(world, s, acts);
    SingleUse(world, s, acts, id);
    FailedAtThree(world, s, acts, id);
    if t.rows[id].state == Expired {
      ExpiredWasSwept(world, s, acts, id);
    }
    if SweptLate(world, s, acts, id) {
      var n: nat :| SweptAt(world, s, acts, id, n);
      SweptIsNotIssued(world, s, acts, id, n);
    }
  }

  // ---- consumption after expiry ------------------------------------------------

  /**
   * A submit at its claim, at or after the session's expiry: the claim consumes
   * the session if and only if no sweep came between the expiry and the claim
   * and the session was neither won by another submit nor locked by a third
   * failure. The gate was passed before the expiry either way.
   */
  lemma {:induction false} LateConsumptionIff(world: World, s: State, acts: seq<Action>, c: nat)
    requires Initial(s)
    requires var t := Run(world, s, acts); c in t.submits && t.submits[c].phase.Claiming?
    ensures var t := Run(world, s, acts);
            var id, u := t.submits[c].req.session, Next(world, t, Claim(c));
            && id in t.rows && t.submits[c].phase.gate < t.rows[id].expiresAt
            && (IsWinner(u, c, id) && u.submits[c].phase.at >= t.rows[id].expiresAt <==>
                  && t.now >= t.rows[id].expiresAt && !SweptLate(world, s, acts, id)
                  && (forall d :: !IsWinner(t, d, id)) && |CountedCalls(t, id)| < 3)
  {
    var t := Run(world, s, acts);
    ReachableInv(world, s, acts);
    assert PhaseOk(world, t, t.submits[c]);
    IssuedIff(world, s, acts, t.submits[c].req.session);
    ClaimWins(world, t, c);
  }

  lemma ClaimWins(world: World, t: State, c: nat)
    requires c in t.submits && t.submits[c].phase.Claiming? && t.submits[c].req.session in t.rows
    ensures var id, u := t.submits[c].req.session, Next(world, t, Claim(c));
            && (IsWinner(u, c, id) <==> t.rows[id].state == Issued)
            && (IsWinner(u, c, id) ==> u.submits[c].phase.at == t.now && u.rows[id].expiresAt == t.rows[id].expiresAt)
  {
  }

  /** A table with one live session and nothing in flight. */
  function OneSession(s: State, req: Request, nonceHex: string, bindHash: string): (t: State) {
    s.(rows := map[req.session := Row(req.tenant, req.env, nonceHex, bindHash, Issued, 0, None,
                                      s.now + SESSION_TTL_MS)])
  }

  lemma SessionOpened(world: World, s: State, req: Request, nonceHex: string, bindHash: string)
    requires Initial(s) && IsStoredNonce(nonceHex)
    ensures var counted := Next(world, s, CountOpen(0, req.tenant, req.env));
            Next(world, counted, InsertSession(0, req.session, nonceHex, bindHash))
                == OneSession(s, req, nonceHex, bindHash)
  {
    assert LiveSessions(s, req.tenant, req.env) == {};
    assert map[0 := Create(req.tenant, req.env)] - {0} == s.creates;
  }

  /** A request whose checks pass against the one session. */
  predicate WouldPass(world: World, s: State, req: Request, nonceHex: string, bindHash: string) {
    && req.bindToken.Some? && req.bindToken.value != "" && world.sha256(req.bindToken.value) == bindHash
    && DidKey(req.tenant, req.env, req.did) in s.users
    && world.checks(nonceHex, req.signals, s.users[DidKey(req.tenant, req.env, req.did)]).Passed?
    && world.verify(req.proof, req.signals)
  }

  lemma DecidedClaiming(world: World, s: State, req: Request, nonceHex: string, bindHash: string)
    requires WouldPass(world, s, req, nonceHex, bindHash)
    ensures var t := OneSession(s, req, nonceHex, bindHash);
            Decided(world, t, req, Surroundings(true, true, true))
            == Claiming(t.rows[req.session], s.users[DidKey(req.tenant, req.env, req.did)], s.now)
  {
  }

  lemma ClaimsLater(world: World, s: State, req: Request, phase: Phase, ms: nat)
    requires phase.Claiming? && req.session in s.rows && s.rows[req.session].state == Issued
    ensures var u := Next(world, Next(world, With(s, 0, req, phase), Tick(ms)), Claim(0));
            && IsWinner(u, 0, req.session) && req.session in u.rows && u.rows[req.session].state == Consumed
            && u.rows[req.session].expiresAt == s.rows[req.session].expiresAt && u.submits[0].phase.at == s.now + ms
  {
  }

  /**
   * It happens: from any start, for a request whose checks pass and however long
   * the verifier takes, this run consumes the session that much after it was
   * opened.
   */
  lemma LateConsumptionHappens(world: World, s: State, req: Request, nonceHex: string, bindHash: string, ms: nat)
    returns (acts: seq<Action>)
    requires Initial(s) && IsStoredNonce(nonceHex) && WouldPass(world, s, req, nonceHex, bindHash)
    ensures var t := Run(world, s, acts);
            && IsWinner(t, 0, req.session) && req.session in t.rows && t.rows[req.session].state == Consumed
            && t.submits[0].phase.at == t.rows[req.session].expiresAt - SESSION_TTL_MS + ms
  {
    var around, t := Surroundings(true, true, true), s;
    acts := [];
    t, acts := Step(world, s, acts, t, CountOpen(0, req.tenant, req.env));
    t, acts := Step(world, s, acts, t, InsertSession(0, req.session, nonceHex, bindHash));
    SessionOpened(world, s, req, nonceHex, bindHash);
    var session := t;
    t, acts := CheckingRun(world, s, acts, t, req, around);
    ChecksAlone(world, session, 0, req, around);
    DecidedClaiming(world, s, req, nonceHex, bindHash);
    var claiming := Decided(world, session, req, around);
    t, acts := Step(world, s, acts, t, Tick(ms));
    t, acts := Step(world, s, acts, t, Claim(0));
    ClaimsLater(world, session, req, claiming, ms);
  }

  lemma CheckingRun(world: World, s: State, acts: seq<Action>, t: State, req: Request, around: Surroundings)
    returns (t': State, acts': seq<Action>)
    requires t == Run(world, s, acts)
    ensures t' == Checked(world, t, 0, req, around) == Run(world, s, acts')
  {
    t', acts' := Step(world, s, acts, t, Begin(0, req));
    t', acts' := Step(world, s, acts', t', Load(0));
    t', acts' := Step(world, s, acts', t', Gate(0));
    t', acts' := Step(world, s, acts', t', Policy(0, around.policyOk));
    t', acts' := Step(world, s, acts', t', Lookup(0));
    t', acts' := Step(world, s, acts', t', Verify(0, around.verifierUp));
  }

  lemma Step(world: World, s: State, acts: seq<Action>, t: State, a: Action) returns (t': State, acts': seq<Action>)
    requires t == Run(world, s, acts)
    ensures acts' == acts + [a] && t' == Next(world, t, a) == Run(world, s, acts')
  {
    acts' := acts + [a];
    t' := Next(world, t, a);
    RunOneMore(world, s, acts, a);
  }
}
