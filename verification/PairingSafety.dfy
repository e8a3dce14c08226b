/**
 * What the proof-pairing protocol guarantees over every schedule of calls,
 * sweeps and clock ticks, and how far the cap on open sessions holds.
 */
module PairingSafety {
  import opened JsText
  import opened LoginChecks
  import opened Tenancy
  import opened Pairing

  // ---- whose user a submit is checked against --------------------------------

  /** Past checks 3 to 7: waiting for the verifier, claiming, or successful. */
  predicate PassedNonceCheck(phase: Phase) { phase.Proving? || phase.Claiming? || phase.Won? }

  function KeyOf(req: Request): (key: DidKey) { DidKey(req.tenant, req.env, req.did) }

  /**
   * Step n of the run was the lookup of this submit, with the row and the gate it
   * still has; the user stored at that moment under the submit's own tenant,
   * environment and DID is the one it was checked against. The lookup came after
   * the gate and, if the submit won, before the claim.
   */
  predicate LookedUpAt(world: World, s: State, acts: seq<Action>, c: nat, n: nat) {
    && n < |acts| && acts[n] == Lookup(c)
    && var t, u := Run(world, s, acts[..n]), Run(world, s, acts);
       && c in t.submits && c in u.submits && t.submits[c].req == u.submits[c].req
       && PassedNonceCheck(u.submits[c].phase)
       && var phase := u.submits[c].phase;
          && t.submits[c].phase == Authorised(phase.row, phase.gate)
          && KeyOf(u.submits[c].req) in t.users && t.users[KeyOf(u.submits[c].req)] == phase.user
          && phase.gate <= t.now <= u.now && (phase.Won? ==> t.now <= phase.at)
  }

  ghost predicate UserOnFile(world: World, s: State, acts: seq<Action>, c: nat) {
    exists n: nat :: LookedUpAt(world, s, acts, c, n)
  }

  /** The same submit, still past its checks with the same row, user and gate; a fresh win is dated now. */
  predicate SameFindings(s: State, s': State, c: nat) {
    && c in s.submits && c in s'.submits && s'.submits[c].req == s.submits[c].req
    && PassedNonceCheck(s.submits[c].phase) && PassedNonceCheck(s'.submits[c].phase)
    && var p, q := s.submits[c].phase, s'.submits[c].phase;
       && q.row == p.row && q.user == p.user && q.gate == p.gate
       && (q.Won? ==> if p.Won? then q.at == p.at else q.at == s.now)
  }

  /** This very step was the lookup, and found the user. */
  predicate JustFound(s: State, a: Action, s': State, c: nat) {
    && a == Lookup(c) && c in s.submits && c in s'.submits && s'.submits[c].req == s.submits[c].req
    && s'.submits[c].phase.Proving?
    && var q := s'.submits[c].phase;
       && s.submits[c].phase == Authorised(q.row, q.gate)
       && KeyOf(s.submits[c].req) in s.users && s.users[KeyOf(s.submits[c].req)] == q.user
  }

  lemma LookupFinds(world: World, s: State, c: nat)
    requires c in s.submits && s.submits[c].phase.Authorised?
    ensures var s' := SubmitStep(world, s, Lookup(c));
            PassedNonceCheck(s'.submits[c].phase) ==> JustFound(s, Lookup(c), s', c)
  {
  }

  lemma VerifyKeepsFindings(world: World, s: State, a: Action)
    requires a.Verify? && a.c in s.submits
    ensures var s' := SubmitStep(world, s, a);
            PassedNonceCheck(s'.submits[a.c].phase) ==> SameFindings(s, s', a.c)
  {
  }

  lemma ClaimKeepsFindings(s: State, c: nat)
    requires c in s.submits && s.submits[c].phase.Claiming?
    ensures PassedNonceCheck(ClaimStep(s, c).submits[c].phase) ==> SameFindings(s, ClaimStep(s, c), c)
  {
  }

  /** Before the lookup nothing is found. */
  lemma EarlyStepFindsNothing(world: World, s: State, a: Action)
    requires a.Load? || a.Gate? || a.Policy?
    requires a.c in s.submits
    ensures var s' := SubmitStep(world, s, a);
            PassedNonceCheck(s'.submits[a.c].phase) ==> s'.submits[a.c] == s.submits[a.c]
  {
  }

  /** A submit gets past its checks in its lookup and keeps what it found from then on. */
  lemma OwnStepFindings(world: World, s: State, a: Action, c: nat)
    requires ActsFor(a, c) && c in s.submits && c in Next(world, s, a).submits
    requires PassedNonceCheck(Next(world, s, a).submits[c].phase)
    ensures SameFindings(s, Next(world, s, a), c) || JustFound(s, a, Next(world, s, a), c)
  {
    match a
    case Lookup(_) =>
      if s.submits[c].phase.Authorised? {
        LookupFinds(world, s, c);
      }
    case Verify(_, _) => VerifyKeepsFindings(world, s, a);
    case Claim(_) =>
      if s.submits[c].phase.Claiming? {
        ClaimKeepsFindings(s, c);
      }
    case Begin(_, _) =>
    case CountFailure(_, dbOk) =>
    case _ => EarlyStepFindsNothing(world, s, a);
  }

  lemma StepFindings(world: World, s: State, a: Action, c: nat)
    requires c in Next(world, s, a).submits && PassedNonceCheck(Next(world, s, a).submits[c].phase)
    ensures SameFindings(s, Next(world, s, a), c) || JustFound(s, a, Next(world, s, a), c)
  {
    StepFrame(world, s, a);
    if ActsFor(a, c) && c in s.submits {
      OwnStepFindings(world, s, a, c);
    }
  }

  /** What was looked up at step n of a run is still so when the run goes on. */
  lemma {:induction false} LookedUpBefore(world: World, s: State, acts: seq<Action>, c: nat, n: nat)
    requires acts != [] && LookedUpAt(world, s, acts[..|acts| - 1], c, n)
    requires Run(world, s, acts[..|acts| - 1]).now <= Run(world, s, acts).now
    requires SameFindings(Run(world, s, acts[..|acts| - 1]), Run(world, s, acts), c)
    ensures LookedUpAt(world, s, acts, c, n)
  {
    assert acts[..|acts| - 1][..n] == acts[..n];
  }

  lemma {:induction false} LookedUpNow(world: World, s: State, acts: seq<Action>, c: nat)
    requires acts != []
    requires var mid := Run(world, s, acts[..|acts| - 1]);
             Inv(world, mid) && JustFound(mid, acts[|acts| - 1], Run(world, s, acts), c)
             && mid.now <= Run(world, s, acts).now
    ensures LookedUpAt(world, s, acts, c, |acts| - 1)
  {
    var mid := Run(world, s, acts[..|acts| - 1]);
    assert PhaseOk(world, mid, mid.submits[c]);
  }

  /**
   * Over every run, users changing at any point included: whoever is past the
   * checks was checked against the user on file under its DID when it looked.
   */
  lemma {:induction false} CheckedAgainstOwnUser(world: World, s: State, acts: seq<Action>, c: nat) returns (n: nat)
    requires Initial(s)
    requires c in Run(world, s, acts).submits && PassedNonceCheck(Run(world, s, acts).submits[c].phase)
    ensures LookedUpAt(world, s, acts, c, n)
    decreases |acts|
  {
    var before, a := acts[..|acts| - 1], acts[|acts| - 1];
    var mid := Run(world, s, before);
    ReachableInv(world, s, before);
    StepFindings(world, mid, a, c);
    StepFrame(world, mid, a);
    if JustFound(mid, a, Run(world, s, acts), c) {
      n := |acts| - 1;
      LookedUpNow(world, s, acts, c);
    } else {
      n := CheckedAgainstOwnUser(world, s, before, c);
      LookedUpBefore(world, s, acts, c, n);
    }
  }

  // ---- single use ----------------------------------------------------------

  /**
   * A session is consumed if and only if some submit won it, at most one submit
   * ever wins it, and the row names the user that was on file under that
   * submit's DID.
   */
  lemma {:induction false} SingleUse(world: World, s: State, acts: seq<Action>, id: string)
    requires Initial(s)
    ensures var t := Run(world, s, acts);
            && (id in t.rows && t.rows[id].state == Consumed <==> exists c :: IsWinner(t, c, id))
            && (forall c, d :: IsWinner(t, c, id) && IsWinner(t, d, id) ==> c == d)
            && (forall c :: IsWinner(t, c, id) ==>
                  t.rows[id].consumedUser == Some(t.submits[c].phase.user.id) && UserOnFile(world, s, acts, c))
  {
    ReachableInv(world, s, acts);
    var t := Run(world, s, acts);
    forall c | IsWinner(t, c, id)
      ensures id in t.rows && t.rows[id].state == Consumed
      ensures t.rows[id].consumedUser == Some(t.submits[c].phase.user.id) && UserOnFile(world, s, acts, c)
    {
      assert PhaseOk(world, t, t.submits[c]);
      var n := CheckedAgainstOwnUser(world, s, acts, c);
    }
  }

  /**
   * Whoever consumed a session passed the bind, commitment, nonce and verifier
   * checks against that very row and against the user on file under its own DID.
   */
  lemma {:induction false} ConsumedWasChecked(world: World, s: State, acts: seq<Action>, id: string)
    requires Initial(s)
    requires id in Run(world, s, acts).rows && Run(world, s, acts).rows[id].state == Consumed
    ensures var t := Run(world, s, acts);
            exists c :: IsWinner(t, c, id) && PassedAgainst(world, t.submits[c], t.rows[id])
                        && UserOnFile(world, s, acts, c)
  {
    ReachableInv(world, s, acts);
    var t := Run(world, s, acts);
    var c :| IsWinner(t, c, id);
    WinnerPassed(world, t, c, id);
    var n := CheckedAgainstOwnUser(world, s, acts, c);
    assert UserOnFile(world, s, acts, c);
  }

  lemma WinnerPassed(world: World, t: State, c: nat, id: string)
    requires Inv(world, t) && IsWinner(t, c, id)
    ensures id in t.rows && PassedAgainst(world, t.submits[c], t.rows[id])
  {
    assert PhaseOk(world, t, t.submits[c]);
  }

  predicate PassedAgainst(world: World, sub: Submit, row: Row)
    requires sub.phase.Won?
  {
    && sub.req.tenant == row.tenant && sub.req.env == row.env
    && sub.req.bindToken.Some? && sub.req.bindToken.value != "" && world.sha256(sub.req.bindToken.value) == row.bindHash
    && world.checks(row.nonceHex, sub.req.signals, sub.phase.user).Passed?
    && world.verify(sub.req.proof, sub.req.signals)
    && row.consumedUser == Some(sub.phase.user.id)
  }

  /** Consumed, failed and expired are final, and so are the bound user and everything that identifies the session. */
  lemma {:induction false} TerminalIsFinal(world: World, s: State, before: seq<Action>, after: seq<Action>, id: string)
    requires Initial(s) && id in Run(world, s, before).rows
    ensures var t := Run(world, s, before);
            var u := Run(world, t, after);
            && id in u.rows && SameIdentity(t.rows[id], u.rows[id])
            && (t.rows[id].state != Issued ==>
                  u.rows[id].state == t.rows[id].state && u.rows[id].consumedUser == t.rows[id].consumedUser)
  {
    ReachableInv(world, s, before);
    RunKeepsInv(world, Run(world, s, before), after);
  }

  // ---- lock-out ------------------------------------------------------------

  /**
   * A session's failure count is the number of submits whose failure was
   * counted against it, and the session is failed exactly from the third on.
   */
  lemma {:induction false} FailedAtThree(world: World, s: State, acts: seq<Action>, id: string)
    requires Initial(s) && id in Run(world, s, acts).rows
    ensures var t := Run(world, s, acts);
            && t.rows[id].failureCount == |CountedCalls(t, id)|
            && (t.rows[id].state == Failed <==> |CountedCalls(t, id)| >= 3)
  {
    ReachableInv(world, s, acts);
    assert RowOk(Run(world, s, acts).rows[id], Run(world, s, acts).now);
  }

  function RefusalFor(state: SessionState): (code: ErrorCode)
    requires state != Issued
  {
    match state
    case Consumed => SessionAlreadyBound
    case Failed => SessionLocked
    case Expired => SessionExpired
  }

  /** The submit has not got past the state gate and never will. */
  predicate ShutOut(s: State, c: nat, id: string, state: SessionState)
    requires state != Issued
  {
    && c in s.submits && s.submits[c].req.session == id
    && id in s.rows && s.rows[id].state == state
    && var phase := s.submits[c].phase;
       || phase.Started?
       || (phase.Loaded? && phase.row.state == state)
       || phase == Refused(RefusalFor(state), false)
       || phase == Refused(SessionNotFound, false)
  }

  lemma StepKeepsShutOut(world: World, s: State, a: Action, c: nat, id: string, state: SessionState)
    requires Inv(world, s) && state != Issued && ShutOut(s, c, id, state)
    ensures ShutOut(Next(world, s, a), c, id, state)
  {
    StepEvolves(world, s, a);
    StepFrame(world, s, a);
    if ActsFor(a, c) {
      OwnStepShutOut(world, s, a, c, id, state);
    }
  }

  lemma OwnStepShutOut(world: World, s: State, a: Action, c: nat, id: string, state: SessionState)
    requires Inv(world, s) && state != Issued && ShutOut(s, c, id, state) && ActsFor(a, c)
    requires c in Next(world, s, a).submits
    ensures Next(world, s, a).submits[c].req == s.submits[c].req
    ensures var phase := Next(world, s, a).submits[c].phase;
            || phase.Started?
            || (phase.Loaded? && phase.row.state == state)
            || phase == Refused(RefusalFor(state), false)
            || phase == Refused(SessionNotFound, false)
  {
    assert PhaseOk(world, s, s.submits[c]);
    match a
    case Gate(_) =>
      if s.submits[c].phase.Loaded? {
        GateRefuses(s.submits[c].phase.row, s.now, state);
      }
    case _ =>
  }

  lemma GateRefuses(row: Row, now: int, state: SessionState)
    requires RowOk(row, now) && row.state == state && state != Issued
    ensures GateResult(row, now) == Refused(RefusalFor(state), false)
  {
  }

  lemma {:induction false} RunKeepsShutOut(world: World, s: State, acts: seq<Action>, c: nat, id: string,
                                           state: SessionState)
    requires Inv(world, s) && state != Issued && ShutOut(s, c, id, state)
    ensures ShutOut(Run(world, s, acts), c, id, state)
    decreases |acts|
  {
    if acts != [] {
      RunKeepsShutOut(world, s, acts[..|acts| - 1], c, id, state);
      RunKeepsInv(world, s, acts[..|acts| - 1]);
      StepKeepsShutOut(world, Run(world, s, acts[..|acts| - 1]), acts[|acts| - 1], c, id, state);
    }
  }

  /**
   * Lock-out: a submit that has not yet loaded its session when the session is
   * failed (or consumed, or expired) is refused before its proof is looked at,
   * whatever happens afterwards; if it is answered at all, it is with the code
   * for that state or with "not found".
   */
  lemma {:induction false} LateSubmitNeverVerified(world: World, s: State, before: seq<Action>, after: seq<Action>,
                                                   c: nat)
    requires Initial(s)
    requires var t := Run(world, s, before);
             c in t.submits && t.submits[c].phase.Started?
             && t.submits[c].req.session in t.rows && t.rows[t.submits[c].req.session].state != Issued
    ensures var t := Run(world, s, before);
            var u := Run(world, t, after);
            && c in u.submits
            && var phase := u.submits[c].phase;
               || phase.Started? || phase.Loaded?
               || phase == Refused(RefusalFor(t.rows[t.submits[c].req.session].state), false)
               || phase == Refused(SessionNotFound, false)
  {
    var t := Run(world, s, before);
    ReachableInv(world, s, before);
    RunKeepsShutOut(world, t, after, c, t.submits[c].req.session, t.rows[t.submits[c].req.session].state);
  }

  // ---- replay exclusion ----------------------------------------------------

  /**
   * Over every interleaving, one value of public signal 1 never passes the nonce
   * checks of two different sessions of one tenant, in either environment and at
   * whatever two moments of the run, even if one of the submits fails later.
   */
  lemma {:induction false} ReplayExclusion(sha256: string -> string, poseidon2: Poseidon2,
                                           verify: (string, seq<string>) -> bool, s: State, acts: seq<Action>, n: nat,
                                           m: nat, c: nat, d: nat)
    requires Initial(s) && BindsNonce(poseidon2) && n <= |acts| && m <= |acts|
    requires var world := SourceWorld(sha256, poseidon2, verify);
             var t, u := Run(world, s, acts[..n]), Run(world, s, acts[..m]);
             && c in t.submits && PassedNonceCheck(t.submits[c].phase)
             && d in u.submits && PassedNonceCheck(u.submits[d].phase)
             && t.submits[c].req.tenant == u.submits[d].req.tenant
             && t.submits[c].req.session != u.submits[d].req.session
    ensures var world := SourceWorld(sha256, poseidon2, verify);
            var x, y := Run(world, s, acts[..n]).submits[c].req.signals,
                Run(world, s, acts[..m]).submits[d].req.signals;
            |x| == |y| == 3 && ParseSignal(x[1]) != ParseSignal(y[1])
  {
    if n <= m {
      assert acts[..m][..n] == acts[..n];
      EarlierAndLater(sha256, poseidon2, verify, s, acts[..m], n, c, d);
    } else {
      assert acts[..n][..m] == acts[..m];
      EarlierAndLater(sha256, poseidon2, verify, s, acts[..n], m, d, c);
    }
  }

  lemma {:induction false} EarlierAndLater(sha256: string -> string, poseidon2: Poseidon2,
                                           verify: (string, seq<string>) -> bool, s: State, acts: seq<Action>, n: nat,
                                           c: nat, d: nat)
    requires Initial(s) && BindsNonce(poseidon2) && n <= |acts|
    requires var world := SourceWorld(sha256, poseidon2, verify);
             var t, u := Run(world, s, acts[..n]), Run(world, s, acts);
             && c in t.submits && PassedNonceCheck(t.submits[c].phase)
             && d in u.submits && PassedNonceCheck(u.submits[d].phase)
             && t.submits[c].req.tenant == u.submits[d].req.tenant
             && t.submits[c].req.session != u.submits[d].req.session
    ensures var world := SourceWorld(sha256, poseidon2, verify);
            var x, y := Run(world, s, acts[..n]).submits[c].req.signals, Run(world, s, acts).submits[d].req.signals;
            |x| == |y| == 3 && ParseSignal(x[1]) != ParseSignal(y[1])
  {
    var world := SourceWorld(sha256, poseidon2, verify);
    var t, u := Run(world, s, acts[..n]), Run(world, s, acts);
    ReachableInv(world, s, acts[..n]);
    ReachableInv(world, s, acts);
    RunSplits(world, s, acts, n);
    RunKeepsInv(world, t, acts[n..]);
    var x, y := t.submits[c], u.submits[d];
    PassedFacts(sha256, poseidon2, verify, t, c);
    PassedFacts(sha256, poseidon2, verify, u, d);
    if ParseSignal(x.req.signals[1]) == ParseSignal(y.req.signals[1]) {
      SignalFixesNonce(poseidon2, t.rows[x.req.session].nonceHex, x.phase.user, x.req.signals,
                       u.rows[y.req.session].nonceHex, y.phase.user, y.req.signals);
      NoncesDiffer(world, u, x.req.session, y.req.session);
    }
  }

  /** A submit past the nonce check passed it against its own session's nonce. */
  lemma PassedFacts(sha256: string -> string, poseidon2: Poseidon2, verify: (string, seq<string>) -> bool, t: State,
                    c: nat)
    requires Inv(SourceWorld(sha256, poseidon2, verify), t) && c in t.submits && PassedNonceCheck(t.submits[c].phase)
    ensures var x := t.submits[c];
            && x.req.session in t.rows && t.rows[x.req.session].tenant == x.req.tenant
            && IsStoredNonce(t.rows[x.req.session].nonceHex) && |x.req.signals| == 3
            && SignalChecks(poseidon2, t.rows[x.req.session].nonceHex, x.req.signals, x.phase.user).Passed?
  {
    var x := t.submits[c];
    assert PhaseOk(SourceWorld(sha256, poseidon2, verify), t, x);
    PassedMeans(poseidon2, x.phase.row.nonceHex, x.req.signals, x.phase.user);
  }

  lemma NoncesDiffer(world: World, t: State, i: string, j: string)
    requires Inv(world, t) && i in t.rows && j in t.rows && i != j && t.rows[i].tenant == t.rows[j].tenant
    ensures t.rows[i].nonceHex != t.rows[j].nonceHex
  {
  }

  // ---- the cap on open sessions --------------------------------------------

  /** `createSession` calls between their count and their insert. */
  function InFlight(s: State, tenant: string, env: Environment): (calls: set<nat>) {
    CallsOf(s.creates, tenant, env)
  }

  function CallsOf(creates: map<nat, Create>, tenant: string, env: Environment): (calls: set<nat>) {
    set c | c in creates && creates[c] == Create(tenant, env)
  }

  /** At no point of the run are more than k such calls in flight. */
  ghost predicate AtMostInFlight(world: World, s: State, acts: seq<Action>, tenant: string, env: Environment, k: nat) {
    forall n :: 0 <= n <= |acts| ==> |InFlight(Run(world, s, acts[..n]), tenant, env)| <= k
  }

  lemma SubsetCardinality<T>(a: set<T>, b: set<T>)
    requires a <= b
    ensures |a| <= |b|
  {
    assert b == a + (b - a);
  }

  /** Live sessions never appear except by the insert of a call that was in flight. */
  lemma LiveOnlyByInsert(world: World, s: State, a: Action, tenant: string, env: Environment)
    requires Inv(world, s) && !a.InsertSession?
    ensures LiveSessions(Next(world, s, a), tenant, env) <= LiveSessions(s, tenant, env)
  {
    StepEvolves(world, s, a);
    StepFrame(world, s, a);
    var s' := Next(world, s, a);
    forall id | id in LiveSessions(s', tenant, env) ensures id in LiveSessions(s, tenant, env) {
      if id !in s.rows {
        NewRow(world, s, a, id);
      }
    }
  }

  lemma CreatesFrame(world: World, s: State, a: Action)
    requires !a.InsertSession? && !a.CountOpen?
    ensures Next(world, s, a).creates == s.creates
  {
  }

  lemma CountOpenKeepsCap(world: World, s: State, a: Action, tenant: string, env: Environment, k: nat)
    requires a.CountOpen? && |LiveSessions(s, tenant, env)| + |InFlight(s, tenant, env)| <= 49 + k
    requires |InFlight(CreateStep(s, a), tenant, env)| <= k
    ensures |LiveSessions(s, tenant, env)| + |InFlight(CreateStep(s, a), tenant, env)| <= 49 + k
  {
    var s' := CreateStep(s, a);
    if s' != s {
      if a.tenant == tenant && a.env == env {
        assert |LiveSessions(s, tenant, env)| < MAX_PENDING_SESSIONS_PER_TENANT;
      } else {
        assert InFlight(s', tenant, env) == InFlight(s, tenant, env);
      }
    }
  }

  lemma CountStepKeepsCap(world: World, s: State, a: Action, tenant: string, env: Environment, k: nat)
    requires Inv(world, s) && !a.InsertSession?
    requires |LiveSessions(s, tenant, env)| + |InFlight(s, tenant, env)| <= 49 + k
    requires |InFlight(Next(world, s, a), tenant, env)| <= k
    ensures |LiveSessions(Next(world, s, a), tenant, env)| + |InFlight(Next(world, s, a), tenant, env)| <= 49 + k
  {
    var s' := Next(world, s, a);
    LiveOnlyByInsert(world, s, a, tenant, env);
    SubsetCardinality(LiveSessions(s', tenant, env), LiveSessions(s, tenant, env));
    if a.CountOpen? {
      CountOpenKeepsCap(world, s, a, tenant, env, k);
    } else {
      CreatesFrame(world, s, a);
      assert InFlight(s', tenant, env) == InFlight(s, tenant, env);
    }
  }

  /** What an insert does to the live sessions and to the calls in flight of one tenant. */
  lemma InsertEffect(s: State, a: Action, tenant: string, env: Environment)
    requires a.InsertSession? && a.c in s.creates && IsStoredNonce(a.nonceHex)
    ensures var s', own := CreateStep(s, a), s.creates[a.c] == Create(tenant, env);
            && InFlight(s', tenant, env) == InFlight(s, tenant, env) - (if own then {a.c} else {})
            && LiveSessions(s', tenant, env) <= LiveSessions(s, tenant, env) + (if own then {a.id} else {})
            && (own && a.id !in s.rows && !NonceTaken(s.rows, tenant, a.nonceHex) ==>
                  LiveSessions(s', tenant, env) == LiveSessions(s, tenant, env) + {a.id})
  {
  }

  lemma InsertStepKeepsCap(s: State, a: Action, tenant: string, env: Environment, k: nat)
    requires a.InsertSession?
    requires |LiveSessions(s, tenant, env)| + |InFlight(s, tenant, env)| <= 49 + k
    ensures |LiveSessions(CreateStep(s, a), tenant, env)| + |InFlight(CreateStep(s, a), tenant, env)| <= 49 + k
  {
    if a.c in s.creates && IsStoredNonce(a.nonceHex) {
      var own := s.creates[a.c] == Create(tenant, env);
      InsertEffect(s, a, tenant, env);
      SubsetCardinality(LiveSessions(CreateStep(s, a), tenant, env),
                        LiveSessions(s, tenant, env) + (if own then {a.id} else {}));
      assert own ==> a.c in InFlight(s, tenant, env);
    }
  }

  lemma {:induction false} CapInvariant(world: World, s: State, acts: seq<Action>, tenant: string, env: Environment,
                                        k: nat)
    requires Initial(s) && AtMostInFlight(world, s, acts, tenant, env, k)
    ensures |LiveSessions(Run(world, s, acts), tenant, env)| + |InFlight(Run(world, s, acts), tenant, env)| <= 49 + k
    decreases |acts|
  {
    if acts == [] {
      assert LiveSessions(s, tenant, env) == {} && InFlight(s, tenant, env) == {};
    } else {
      var before := acts[..|acts| - 1];
      forall n | 0 <= n <= |before| ensures |InFlight(Run(world, s, before[..n]), tenant, env)| <= k {
        assert before[..n] == acts[..n];
      }
      CapInvariant(world, s, before, tenant, env, k);
      ReachableInv(world, s, before);
      assert acts[..|acts|] == acts;
      var a := acts[|acts| - 1];
      if a.InsertSession? {
        InsertStepKeepsCap(Run(world, s, before), a, tenant, env, k);
      } else {
        CountStepKeepsCap(world, Run(world, s, before), a, tenant, env, k);
      }
    }
  }

  /**
   * With at most k `createSession` calls in flight for a (tenant, environment),
   * never more than 49 + k of its sessions are live: 50 when the calls are made
   * one after another.
   */
  lemma {:induction false} OpenSessionCap(world: World, s: State, acts: seq<Action>, tenant: string,
                                          env: Environment, k: nat)
    requires Initial(s) && AtMostInFlight(world, s, acts, tenant, env, k)
    ensures |Open(Run(world, s, acts), tenant, env)| <= 49 + k
  {
    CapInvariant(world, s, acts, tenant, env, k);
    assert Open(Run(world, s, acts), tenant, env) == LiveSessions(Run(world, s, acts), tenant, env);
  }

  /** The sessions of one (tenant, environment) that can still be claimed in time. */
  function Open(s: State, tenant: string, env: Environment): (ids: set<string>) {
    set id | id in s.rows && s.rows[id].tenant == tenant && s.rows[id].env == env && s.rows[id].state == Issued
             && s.now < s.rows[id].expiresAt
  }

  lemma CountOpenEffect(s: State, c: nat, tenant: string, env: Environment)
    requires |LiveSessions(s, tenant, env)| < 50 && c !in s.creates
    ensures var s' := CreateStep(s, CountOpen(c, tenant, env));
            s' == s.(creates := s.creates[c := Create(tenant, env)])
            && LiveSessions(s', tenant, env) == LiveSessions(s, tenant, env)
  {
  }

  /** Ids and nonces a random supply may give: all different. */
  predicate Supply(ids: seq<string>, nonces: seq<string>) {
    && |ids| == |nonces| && (forall i :: 0 <= i < |nonces| ==> IsStoredNonce(nonces[i]))
    && (forall i, j :: 0 <= i < j < |ids| ==> ids[i] != ids[j] && nonces[i] != nonces[j])
  }

  /** `done` calls have inserted their sessions, calls `done` up to `open` are between count and insert. */
  function Opening(s: State, tenant: string, env: Environment, ids: seq<string>, nonces: seq<string>, bind: string,
                   done: nat, open: nat): (t: State)
    requires |ids| == |nonces| && done <= |ids|
  {
    s.(rows := Inserted(s.now, tenant, env, ids, nonces, bind, done),
       creates := CallsFrom(done, open, tenant, env))
  }

  function CallsFrom(done: nat, open: nat, tenant: string, env: Environment): (calls: map<nat, Create>) {
    if open <= done then map[] else CallsFrom(done, open - 1, tenant, env)[open - 1 := Create(tenant, env)]
  }

  lemma {:induction false} CallsBetween(done: nat, open: nat, tenant: string, env: Environment)
    requires done <= open
    ensures var calls := CallsFrom(done, open, tenant, env);
            && (forall c: nat :: c in calls <==> done <= c < open)
            && (forall c :: c in calls ==> calls[c] == Create(tenant, env))
            && |CallsOf(calls, tenant, env)| == open - done
    decreases open
  {
    var calls := CallsFrom(done, open, tenant, env);
    var all := CallsOf(calls, tenant, env);
    if done == open {
      assert all == {};
    } else {
      CallsBetween(done, open - 1, tenant, env);
      var fewer := CallsFrom(done, open - 1, tenant, env);
      var others := CallsOf(fewer, tenant, env);
      assert all == others + {open - 1} && others !! {open - 1};
    }
  }

  lemma OpeningInFlight(s: State, tenant: string, env: Environment, ids: seq<string>, nonces: seq<string>, bind: string,
                        done: nat, open: nat)
    requires |ids| == |nonces| && done <= |ids| && done <= open
    ensures |InFlight(Opening(s, tenant, env, ids, nonces, bind, done, open), tenant, env)| == open - done
  {
    CallsBetween(done, open, tenant, env);
  }

  function Inserted(now: int, tenant: string, env: Environment, ids: seq<string>, nonces: seq<string>, bind: string,
                    done: nat): (rows: map<string, Row>)
    requires |ids| == |nonces| && done <= |ids|
  {
    if done == 0 then map[]
    else
      Inserted(now, tenant, env, ids, nonces, bind, done - 1)
        [ids[done - 1] := Row(tenant, env, nonces[done - 1], bind, Issued, 0, None, now + SESSION_TTL_MS)]
  }

  lemma {:induction false} InsertedRows(now: int, tenant: string, env: Environment, ids: seq<string>,
                                        nonces: seq<string>,
                                        bind: string, done: nat)
    requires Supply(ids, nonces) && done <= |ids|
    ensures var rows := Inserted(now, tenant, env, ids, nonces, bind, done);
            && (forall i :: done <= i < |ids| ==> ids[i] !in rows && !NonceTaken(rows, tenant, nonces[i]))
            && |LiveIn(rows, tenant, env, now)| == done
  {
    if done > 0 {
      InsertedRows(now, tenant, env, ids, nonces, bind, done - 1);
      var before, rows := Inserted(now, tenant, env, ids, nonces, bind, done - 1),
                          Inserted(now, tenant, env, ids, nonces, bind, done);
      assert LiveIn(rows, tenant, env, now) == LiveIn(before, tenant, env, now) + {ids[done - 1]};
      forall i | done <= i < |ids| ensures !NonceTaken(rows, tenant, nonces[i]) {
        assert nonces[done - 1] != nonces[i];
      }
    }
  }

  lemma CountNext(world: World, s: State, tenant: string, env: Environment, ids: seq<string>, nonces: seq<string>,
                  bind: string, done: nat, open: nat)
    requires Supply(ids, nonces) && done < MAX_PENDING_SESSIONS_PER_TENANT && done <= open && done <= |ids|
    ensures Next(world, Opening(s, tenant, env, ids, nonces, bind, done, open), CountOpen(open, tenant, env))
         == Opening(s, tenant, env, ids, nonces, bind, done, open + 1)
  {
    InsertedRows(s.now, tenant, env, ids, nonces, bind, done);
    CallsBetween(done, open, tenant, env);
    CountOpenEffect(Opening(s, tenant, env, ids, nonces, bind, done, open), open, tenant, env);
  }

  lemma InsertNext(world: World, s: State, tenant: string, env: Environment, ids: seq<string>, nonces: seq<string>,
                   bind: string, done: nat, open: nat)
    requires Supply(ids, nonces) && done < open && done < |ids|
    ensures Next(world, Opening(s, tenant, env, ids, nonces, bind, done, open),
                 InsertSession(done, ids[done], nonces[done], bind))
         == Opening(s, tenant, env, ids, nonces, bind, done + 1, open)
  {
    InsertedRows(s.now, tenant, env, ids, nonces, bind, done);
    CallsBetween(done, open, tenant, env);
    CallsBetween(done + 1, open, tenant, env);
    assert CallsFrom(done, open, tenant, env) - {done} == CallsFrom(done + 1, open, tenant, env);
  }

  /** The run leads to that state and has kept to k calls in flight. */
  ghost predicate LeadsTo(world: World, s: State, acts: seq<Action>, t: State, tenant: string, env: Environment,
                          k: nat) {
    Run(world, s, acts) == t && AtMostInFlight(world, s, acts, tenant, env, k)
  }

  lemma LeadsOn(world: World, s: State, acts: seq<Action>, a: Action, t: State, tenant: string, env: Environment,
                k: nat)
    requires LeadsTo(world, s, acts, t, tenant, env, k) && |InFlight(Next(world, t, a), tenant, env)| <= k
    ensures LeadsTo(world, s, acts + [a], Next(world, t, a), tenant, env, k)
  {
    var longer := acts + [a];
    RunOneMore(world, s, acts, a);
    forall n | 0 <= n <= |longer| ensures |InFlight(Run(world, s, longer[..n]), tenant, env)| <= k {
      assert longer[..n] == if n <= |acts| then acts[..n] else longer;
    }
  }

  /**
   * The bound is exact: from any start, for every k and every supply of fresh
   * ids and nonces, some run with never more than k calls in flight reaches
   * 49 + k live sessions.
   */
  lemma CapIsReached(world: World, s: State, tenant: string, env: Environment, k: nat, ids: seq<string>,
                     nonces: seq<string>, bind: string) returns (acts: seq<Action>)
    requires Initial(s) && k >= 1 && Supply(ids, nonces) && |ids| == 49 + k
    ensures AtMostInFlight(world, s, acts, tenant, env, k)
    ensures |Open(Run(world, s, acts), tenant, env)| == 49 + k
  {
    acts := [];
    var done, open := 0, 0;
    OpeningStart(world, s, tenant, env, k, ids, nonces, bind);
    while done < 49 + k
      invariant done <= open <= 49 + k && Schedule(done, open, k)
      invariant LeadsTo(world, s, acts, Opening(s, tenant, env, ids, nonces, bind, done, open), tenant, env, k)
      decreases 49 + k - done, 49 + k - open
    {
      acts, done, open := OpenOneMore(world, s, acts, tenant, env, k, ids, nonces, bind, done, open);
    }
    InsertedRows(s.now, tenant, env, ids, nonces, bind, 49 + k);
    assert Open(Run(world, s, acts), tenant, env) == LiveSessions(Run(world, s, acts), tenant, env);
  }

  lemma OpeningStart(world: World, s: State, tenant: string, env: Environment, k: nat, ids: seq<string>,
                     nonces: seq<string>, bind: string)
    requires Initial(s) && |ids| == |nonces|
    ensures LeadsTo(world, s, [], Opening(s, tenant, env, ids, nonces, bind, 0, 0), tenant, env, k)
  {
    assert InFlight(s, tenant, env) == {};
  }

  /** One call after another up to 49 sessions, then k counts, then k inserts. */
  predicate Schedule(done: nat, open: nat, k: nat) {
    && open <= done + k && (open < 49 + k ==> done <= 49)
    && (open == done || open == 49 + k || done == 49 || open == done + 1)
  }

  lemma OpenOneMore(world: World, s: State, acts: seq<Action>, tenant: string, env: Environment, k: nat,
                    ids: seq<string>, nonces: seq<string>, bind: string, done: nat, open: nat)
    returns (acts': seq<Action>, done': nat, open': nat)
    requires k >= 1 && Supply(ids, nonces) && |ids| == 49 + k
    requires done <= open <= 49 + k && Schedule(done, open, k) && done < 49 + k
    requires LeadsTo(world, s, acts, Opening(s, tenant, env, ids, nonces, bind, done, open), tenant, env, k)
    ensures done' <= open' <= 49 + k && done' <= |ids| && Schedule(done', open', k)
    ensures (done' == done && open' == open + 1) || (done' == done + 1 && open' == open)
    ensures LeadsTo(world, s, acts', Opening(s, tenant, env, ids, nonces, bind, done', open'), tenant, env, k)
  {
    var t, a := Opening(s, tenant, env, ids, nonces, bind, done, open), Sweep;
    if open < 49 + k && (open == done || done == 49) {
      a, done', open' := CountOpen(open, tenant, env), done, open + 1;
      CountNext(world, s, tenant, env, ids, nonces, bind, done, open);
    } else {
      a, done', open' := InsertSession(done, ids[done], nonces[done], bind), done + 1, open;
      InsertNext(world, s, tenant, env, ids, nonces, bind, done, open);
    }
    OpeningInFlight(s, tenant, env, ids, nonces, bind, done', open');
    LeadsOn(world, s, acts, a, t, tenant, env, k);
    acts' := acts + [a];
  }
}
