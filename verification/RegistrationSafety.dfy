/**
 * What the signup ceremony guarantees in every reachable state, and what its
 * users can later log in with.
 */
module RegistrationSafety {
  import opened JsText
  import opened Runtime
  import opened EnrollmentCode
  import opened LoginAgreement
  import opened Registration
  import Devices

  /** The hash a typed code is looked up by. */
  function HashOfTyped(world: World, typed: string): (h: string) {
    world.host.sha(NormaliseEnrollmentCode(world.host.upper, typed))
  }

  // ---- codes ---------------------------------------------------------------

  /** The typed text of a matching column is a code minted for it and not used yet. */
  lemma MatchedCodeIsMinted(world: World, s: State, sid: string, step: Step, typed: string)
    requires Injective(world.host.sha) && CodesOk(world, s) && sid in s.sessions
    requires Column(s.sessions[sid], step).Some?
    requires Column(s.sessions[sid], step).value.hash == HashOfTyped(world, typed)
    ensures var text := NormaliseEnrollmentCode(world.host.upper, typed);
            && text in s.minted && Unused(s, text)
            && s.minted[text] == Mint(sid, step, Column(s.sessions[sid], step).value.expiresAt)
  {
    var code := Column(s.sessions[sid], step).value;
    assert OutstandingOk(world, s, sid, step, code);
    var text :| text in s.minted && world.host.sha(text) == code.hash
                && s.minted[text] == Mint(sid, step, code.expiresAt) && Unused(s, text);
    assert text == NormaliseEnrollmentCode(world.host.upper, typed);
  }

  /** At most one code is added to the ledger, and it is a fresh one for this session and step. */
  predicate MintsAtMost(s: State, s': State, sid: string, step: Step, code: string, expiresAt: int) {
    s'.minted == s.minted || (code !in s.minted && s'.minted == s.minted[code := Mint(sid, step, expiresAt)])
  }

  /** The session's only outstanding code, if any, is that fresh one. */
  predicate OnlyOutstanding(world: World, x: Session, step: Step, code: string, expiresAt: int) {
    forall st :: Column(x, st).Some? ==> st == step && Column(x, st).value == Code(world.host.sha(code), expiresAt)
  }

  lemma OutstandingStays(world: World, s: State, s': State, sid: string, step: Step, code: Code, used: string)
    requires OutstandingOk(world, s, sid, step, code)
    requires forall text :: text in s.minted ==> text in s'.minted && s'.minted[text] == s.minted[text]
    requires s'.advances == s.advances
             || (exists v :: s'.advances == s.advances + [v] && v.code == used
                             && !(used in s.minted && s.minted[used] == Mint(sid, step, code.expiresAt)))
    ensures OutstandingOk(world, s', sid, step, code)
  {
    var text :| text in s.minted && world.host.sha(text) == code.hash
                && s.minted[text] == Mint(sid, step, code.expiresAt) && Unused(s, text);
    assert Unused(s', text);
  }

  lemma FreshIsUnused(world: World, s: State, code: string)
    requires CodesOk(world, s) && code !in s.minted
    ensures Unused(s, code)
  {
    forall i | 0 <= i < |s.advances| ensures s.advances[i].code != code {
      assert AdvanceOk(s, s.advances[i]);
    }
  }

  /** A transaction that uses up one code and mints at most the next keeps the ledger in order. */
  lemma AdvanceKeepsCodes(world: World, s: State, s': State, sid: string, step: Step, typed: string,
                          nextStep: Step, nextCode: string, expiresAt: int)
    requires Injective(world.host.sha) && CodesOk(world, s) && sid in s.sessions && sid in s'.sessions
    requires Column(s.sessions[sid], step).Some?
    requires Column(s.sessions[sid], step).value.hash == HashOfTyped(world, typed)
    requires Column(s.sessions[sid], step).value.expiresAt > Now(s)
    requires s'.advances == s.advances + [Advance(NormaliseEnrollmentCode(world.host.upper, typed), sid, step, Now(s))]
    requires MintsAtMost(s, s', sid, nextStep, nextCode, expiresAt)
    requires s'.sessions == s.sessions[sid := s'.sessions[sid]]
    requires OnlyOutstanding(world, s'.sessions[sid], nextStep, nextCode, expiresAt)
    requires s'.minted == s.minted ==> forall st :: Column(s'.sessions[sid], st).None?
    ensures CodesOk(world, s')
  {
    var text := NormaliseEnrollmentCode(world.host.upper, typed);
    MatchedCodeIsMinted(world, s, sid, step, typed);
    forall i | 0 <= i < |s'.advances| ensures AdvanceOk(s', s'.advances[i]) {
      assert i < |s.advances| ==> AdvanceOk(s, s.advances[i]);
    }
    forall id, st {:trigger Column(s'.sessions[id], st)} | id in s'.sessions && Column(s'.sessions[id], st).Some?
      ensures OutstandingOk(world, s', id, st, Column(s'.sessions[id], st).value)
    {
      if id == sid {
        FreshIsUnused(world, s, nextCode);
        assert Unused(s', nextCode);
      } else {
        assert Column(s'.sessions[id], st) == Column(s.sessions[id], st);
        var v := Advance(text, sid, step, Now(s));
        assert s'.advances == s.advances + [v];
        OutstandingStays(world, s, s', id, st, Column(s.sessions[id], st).value, text);
      }
    }
  }

  /** A step that uses no code: it may mint one for a new session, or clear a session's columns. */
  lemma NoAdvanceKeepsCodes(world: World, s: State, s': State, sid: string, step: Step, code: string, expiresAt: int)
    requires CodesOk(world, s) && sid in s'.sessions && s'.advances == s.advances
    requires MintsAtMost(s, s', sid, step, code, expiresAt)
    requires s'.sessions == s.sessions[sid := s'.sessions[sid]]
    requires OnlyOutstanding(world, s'.sessions[sid], step, code, expiresAt)
    requires s'.minted == s.minted ==> forall st :: Column(s'.sessions[sid], st).None?
    ensures CodesOk(world, s')
  {
    forall i | 0 <= i < |s'.advances| ensures AdvanceOk(s', s'.advances[i]) {
      assert AdvanceOk(s, s.advances[i]);
    }
    forall id, st {:trigger Column(s'.sessions[id], st)} | id in s'.sessions && Column(s'.sessions[id], st).Some?
      ensures OutstandingOk(world, s', id, st, Column(s'.sessions[id], st).value)
    {
      if id == sid {
        FreshIsUnused(world, s, code);
        assert Unused(s', code);
      } else {
        assert Column(s'.sessions[id], st) == Column(s.sessions[id], st);
        OutstandingStays(world, s, s', id, st, Column(s.sessions[id], st).value, code);
      }
    }
  }

  // ---- users ---------------------------------------------------------------

  /** A step on a session that is not completed, and does not complete it, touches no user. */
  lemma UsersUntouched(world: World, s: State, s': State, sid: string)
    requires UsersOk(world, s) && s'.users == s.users && sid in s'.sessions
    requires s'.sessions == s.sessions[sid := s'.sessions[sid]]
    requires sid in s.sessions ==> s.sessions[sid].stage != Completed
    requires s'.sessions[sid].stage != Completed
    ensures UsersOk(world, s')
  {
    forall uid | uid in s'.users ensures UserOf(world, s', s'.users[uid].session, uid) {
      assert UserOf(world, s, s.users[uid].session, uid);
    }
    forall id | id in s'.sessions && s'.sessions[id].stage == Completed && s'.sessions[id].user.Some?
      ensures UserOf(world, s', id, s'.sessions[id].user.value)
    {
      assert UserOf(world, s, id, s.sessions[id].user.value);
    }
  }

  // ---- every transaction keeps the invariant ---------------------------------

  /** One session changes, to a well-formed one. */
  lemma SessionsStayOk(s: State, s': State, sid: string)
    requires SessionsOk(s) && sid in s'.sessions && s'.sessions == s.sessions[sid := s'.sessions[sid]]
    requires ShapeOk(s'.sessions[sid]) && CommitmentOk(s'.sessions[sid])
    ensures SessionsOk(s')
  {
  }

  /** A session waiting for a code is not completed. */
  lemma WaitingNotCompleted(s: State, sid: string, step: Step)
    requires SessionsOk(s) && sid in s.sessions && Column(s.sessions[sid], step).Some?
    ensures s.sessions[sid].stage != Completed
  {
    assert ShapeOk(s.sessions[sid]);
  }

  /** A code-consuming step that leaves the session well formed and not completed keeps the invariant. */
  lemma AdvanceKeepsInv(world: World, s: State, s': State, sid: string, step: Step, typed: string,
                        nextStep: Step, nextCode: string, expiresAt: int)
    requires Injective(world.host.sha) && Inv(world, s) && sid in s.sessions && sid in s'.sessions
    requires Column(s.sessions[sid], step).Some?
    requires Column(s.sessions[sid], step).value.hash == HashOfTyped(world, typed)
    requires Column(s.sessions[sid], step).value.expiresAt > Now(s)
    requires s'.advances == s.advances + [Advance(NormaliseEnrollmentCode(world.host.upper, typed), sid, step, Now(s))]
    requires MintsAtMost(s, s', sid, nextStep, nextCode, expiresAt) && s'.minted != s.minted
    requires s'.sessions == s.sessions[sid := s'.sessions[sid]]
    requires OnlyOutstanding(world, s'.sessions[sid], nextStep, nextCode, expiresAt)
    requires ShapeOk(s'.sessions[sid]) && CommitmentOk(s'.sessions[sid]) && s'.sessions[sid].stage != Completed
    requires s'.users == s.users && Devices.Inv(s'.devices)
    ensures Inv(world, s')
  {
    AdvanceKeepsCodes(world, s, s', sid, step, typed, nextStep, nextCode, expiresAt);
    WaitingNotCompleted(s, sid, step);
    SessionsStayOk(s, s', sid);
    UsersUntouched(world, s, s', sid);
  }

  lemma NewSessionKeepsInv(world: World, s: State, s': State, sid: string, code: string, expiresAt: int)
    requires Inv(world, s) && sid !in s.sessions && sid in s'.sessions && s'.advances == s.advances
    requires MintsAtMost(s, s', sid, PairStep, code, expiresAt) && s'.minted != s.minted
    requires s'.sessions == s.sessions[sid := s'.sessions[sid]]
    requires OnlyOutstanding(world, s'.sessions[sid], PairStep, code, expiresAt)
    requires ShapeOk(s'.sessions[sid]) && CommitmentOk(s'.sessions[sid]) && s'.sessions[sid].stage == AwaitingDevice
    requires s'.users == s.users && s'.devices == s.devices
    ensures Inv(world, s')
  {
    NoAdvanceKeepsCodes(world, s, s', sid, PairStep, code, expiresAt);
    SessionsStayOk(s, s', sid);
    UsersUntouched(world, s, s', sid);
  }

  lemma MintedGrows(s: State, code: string, sid: string, step: Step)
    requires code !in s.minted
    ensures Minted(s, code, sid, step).minted != s.minted
  {
    assert code in Minted(s, code, sid, step).minted;
  }

  lemma StartKeepsInv(world: World, s: State, a: Action)
    requires Inv(world, s) && a.Start? && StartRegistration(world, s, a).Advanced?
    ensures Inv(world, StartRegistration(world, s, a).s)
  {
    var s' := StartRegistration(world, s, a).s;
    MintedGrows(s, a.code, a.sid, PairStep);
    NewSessionKeepsInv(world, s, s', a.sid, a.code, Now(s) + ENROLLMENT_CODE_TTL_MS);
  }

  /** What the pairing transaction found and what it left behind. */
  predicate Paired(world: World, s: State, a: Action, s': State)
    requires a.PairDevice?
  {
    && a.sid in s.sessions && CodeMatches(world, s, a.sid, AwaitingDevice, s.sessions[a.sid].pair, a.code)
    && a.nextCode !in s.minted
    && s'.sessions == s.sessions[a.sid := s.sessions[a.sid].(device := Some(a.deviceId), stage := AwaitingCommitment,
                                            pair := None, enroll := Some(NewCode(world, s, a.nextCode)))]
    && s'.minted == Minted(s, a.nextCode, a.sid, EnrollStep).minted
    && s'.advances == Recorded(world, s, a.code, a.sid, PairStep).advances
    && s'.users == s.users
    && s'.devices == Devices.Upserted(s.devices, a.deviceId, s.sessions[a.sid].tenant, s.sessions[a.sid].env,
                                      world.host.sha(a.fingerprint), PhoneDetails(a.sid))
  }

  lemma PairEffect(world: World, s: State, a: Action)
    requires a.PairDevice? && PairDeviceForRegistration(world, s, a).Advanced?
    ensures Paired(world, s, a, PairDeviceForRegistration(world, s, a).s)
  {
  }

  lemma PairedKeepsInv(world: World, s: State, a: Action, s': State)
    requires Inv(world, s) && Injective(world.host.sha) && a.PairDevice? && Paired(world, s, a, s')
    ensures Inv(world, s')
  {
    var session := s.sessions[a.sid];
    assert ShapeOk(session) && CommitmentOk(session);
    MintedGrows(s, a.nextCode, a.sid, EnrollStep);
    Devices.UpsertKeepsInv(s.devices, a.deviceId, session.tenant, session.env, world.host.sha(a.fingerprint),
                           PhoneDetails(a.sid));
    AdvanceKeepsInv(world, s, s', a.sid, PairStep, a.code, EnrollStep, a.nextCode, Now(s) + ENROLLMENT_CODE_TTL_MS);
  }

  lemma PairKeepsInv(world: World, s: State, a: Action)
    requires Inv(world, s) && Injective(world.host.sha) && a.PairDevice?
    requires PairDeviceForRegistration(world, s, a).Advanced?
    ensures Inv(world, PairDeviceForRegistration(world, s, a).s)
  {
    PairEffect(world, s, a);
    PairedKeepsInv(world, s, a, PairDeviceForRegistration(world, s, a).s);
  }

  /** What the commitment transaction found and what it left behind. */
  predicate Committed(world: World, s: State, a: Action, s': State)
    requires a.SubmitCommitment?
  {
    && a.sid in s.sessions && CodeMatches(world, s, a.sid, AwaitingCommitment, s.sessions[a.sid].enroll, a.code)
    && a.nextCode !in s.minted && s'.minted == Minted(s, a.nextCode, a.sid, VerifyStep).minted
    && s'.advances == Recorded(world, s, a.code, a.sid, EnrollStep).advances
    && s'.users == s.users && s'.devices == s.devices
    && IsCommitmentText(world.host.lower(Trim(a.commitment)))
    && s'.sessions == s.sessions[a.sid := s.sessions[a.sid].(
                        did := Some(world.host.lower(Trim(a.did))),
                        commitment := Some(world.host.lower(Trim(a.commitment))), enroll := None,
                        verify := Some(NewCode(world, s, a.nextCode)), nonce := Some(a.nonce),
                        stage := AwaitingVerification)]
  }

  lemma SubmitEffect(world: World, s: State, a: Action)
    requires a.SubmitCommitment? && SubmitCommitmentForRegistration(world, s, a).Advanced?
    ensures Committed(world, s, a, SubmitCommitmentForRegistration(world, s, a).s)
  {
  }

  lemma CommittedShape(world: World, s: State, a: Action, s': State)
    requires SessionsOk(s) && a.SubmitCommitment? && Committed(world, s, a, s')
    ensures var x := s'.sessions[a.sid];
            && ShapeOk(x) && CommitmentOk(x) && x.stage == AwaitingVerification
            && OnlyOutstanding(world, x, VerifyStep, a.nextCode, Now(s) + ENROLLMENT_CODE_TTL_MS)
  {
    assert ShapeOk(s.sessions[a.sid]);
  }

  lemma CommittedKeepsInv(world: World, s: State, a: Action, s': State)
    requires Inv(world, s) && Injective(world.host.sha) && a.SubmitCommitment? && Committed(world, s, a, s')
    ensures Inv(world, s')
  {
    CommittedShape(world, s, a, s');
    MintedGrows(s, a.nextCode, a.sid, VerifyStep);
    AdvanceKeepsInv(world, s, s', a.sid, EnrollStep, a.code, VerifyStep, a.nextCode, Now(s) + ENROLLMENT_CODE_TTL_MS);
  }

  lemma SubmitKeepsInv(world: World, s: State, a: Action)
    requires Inv(world, s) && Injective(world.host.sha)
    requires a.SubmitCommitment? && SubmitCommitmentForRegistration(world, s, a).Advanced?
    ensures Inv(world, SubmitCommitmentForRegistration(world, s, a).s)
  {
    SubmitEffect(world, s, a);
    CommittedKeepsInv(world, s, a, SubmitCommitmentForRegistration(world, s, a).s);
  }

  /** One user of a session that was not completed is added, under a DID no other user of the tenant has. */
  predicate AddsUser(world: World, s: State, s': State, sid: string, uid: string) {
    && sid in s.sessions && s.sessions[sid].stage != Completed
    && sid in s'.sessions && s'.sessions == s.sessions[sid := s'.sessions[sid]] && uid !in s.users
    && uid in s'.users && s'.users == s.users[uid := s'.users[uid]]
    && UserOf(world, s', sid, uid) && s'.users[uid].session == sid
    && forall k :: k in s.users && s.users[k].tenant == s'.users[uid].tenant && s.users[k].env == s'.users[uid].env ==>
         s.users[k].did != s'.users[uid].did
  }

  lemma CompleteKeepsUsers(world: World, s: State, s': State, sid: string, uid: string)
    requires UsersOk(world, s) && AddsUser(world, s, s', sid, uid)
    ensures UsersOk(world, s')
  {
    CompleteKeepsOthers(world, s, s', sid, uid);
    CompleteKeepsSessions(world, s, s', sid, uid);
    DidStaysUnique(s.users, s'.users, uid);
  }

  lemma DidStaysUnique(users: map<string, User>, users': map<string, User>, uid: string)
    requires DidsUnique(users) && uid !in users && uid in users' && users' == users[uid := users'[uid]]
    requires forall k :: k in users && users[k].tenant == users'[uid].tenant && users[k].env == users'[uid].env ==>
               users[k].did != users'[uid].did
    ensures DidsUnique(users')
  {
  }

  lemma CompleteKeepsSessions(world: World, s: State, s': State, sid: string, uid: string)
    requires UsersOk(world, s) && AddsUser(world, s, s', sid, uid)
    ensures forall id :: id in s'.sessions && s'.sessions[id].stage == Completed && s'.sessions[id].user.Some? ==>
              UserOf(world, s', id, s'.sessions[id].user.value)
  {
    forall id | id in s'.sessions && s'.sessions[id].stage == Completed && s'.sessions[id].user.Some?
      ensures UserOf(world, s', id, s'.sessions[id].user.value)
    {
      assert id != sid ==> UserOf(world, s, id, s.sessions[id].user.value);
    }
  }

  lemma CompleteKeepsOthers(world: World, s: State, s': State, sid: string, uid: string)
    requires UsersOk(world, s) && AddsUser(world, s, s', sid, uid)
    ensures forall u :: u in s'.users ==> UserOf(world, s', s'.users[u].session, u)
  {
    forall u | u in s'.users ensures UserOf(world, s', s'.users[u].session, u) {
      assert u != uid ==> UserOf(world, s, s.users[u].session, u);
    }
  }

  /** What the completing transaction found and what it left behind. */
  predicate Finished(world: World, s: State, a: Action, s': State)
    requires a.Complete?
  {
    && a.sid in s.sessions && CodeMatches(world, s, a.sid, AwaitingVerification, s.sessions[a.sid].verify, a.code)
    && s.sessions[a.sid].did.Some? && s.sessions[a.sid].commitment.Some?
    && s'.sessions == s.sessions[a.sid := s.sessions[a.sid].(user := Some(a.userId), stage := Completed,
                                                             verify := None, nonce := None)]
    && s'.minted == s.minted && s'.devices == s.devices
    && s'.advances == Recorded(world, s, a.code, a.sid, VerifyStep).advances
    && a.userId !in s.users
    && var c := ParseCommitment(s.sessions[a.sid].commitment.value);
       c.Some? && c.value >= 0
       && s'.users == s.users[a.userId := NewUser(world, a.sid, s.sessions[a.sid], c.value)]
       && !UserRefused(s.users, a.userId, s'.users[a.userId])
  }

  lemma CompleteEffect(world: World, s: State, a: Action)
    requires a.Complete? && CompleteRegistration(world, s, a).Advanced?
    ensures Finished(world, s, a, CompleteRegistration(world, s, a).s)
  {
  }

  lemma FinishedKeepsInv(world: World, s: State, a: Action, s': State)
    requires Inv(world, s) && Injective(world.host.sha) && a.Complete? && Finished(world, s, a, s')
    ensures Inv(world, s')
  {
    assert ShapeOk(s.sessions[a.sid]) && CommitmentOk(s.sessions[a.sid]);
    AdvanceKeepsCodes(world, s, s', a.sid, VerifyStep, a.code, VerifyStep, "", 0);
    CompletedUser(world, s, a, s');
    SessionsStayOk(s, s', a.sid);
    CompleteKeepsUsers(world, s, s', a.sid, a.userId);
  }

  lemma CompletedUser(world: World, s: State, a: Action, s': State)
    requires a.Complete? && Finished(world, s, a, s')
    ensures UserOf(world, s', a.sid, a.userId) && s'.users[a.userId].session == a.sid
    ensures s.sessions[a.sid].stage != Completed ==> AddsUser(world, s, s', a.sid, a.userId)
  {
  }

  lemma CompleteKeepsInv(world: World, s: State, a: Action)
    requires Inv(world, s) && Injective(world.host.sha) && a.Complete? && CompleteRegistration(world, s, a).Advanced?
    ensures Inv(world, CompleteRegistration(world, s, a).s)
  {
    CompleteEffect(world, s, a);
    FinishedKeepsInv(world, s, a, CompleteRegistration(world, s, a).s);
  }

  /** What abandoning leaves behind. */
  predicate Dropped(s: State, a: Action, s': State)
    requires a.Abandon?
  {
    && a.sid in s.sessions && s'.minted == s.minted && s'.advances == s.advances
    && s'.users == s.users && s'.devices == s.devices
    && var x := s.sessions[a.sid];
       s'.sessions == s.sessions[a.sid := x.(stage := if x.stage == Completed then Completed else Abandoned,
                                             pair := None, enroll := None, verify := None, nonce := None)]
  }

  lemma DroppedKeepsInv(world: World, s: State, a: Action, s': State)
    requires Inv(world, s) && a.Abandon? && Dropped(s, a, s')
    ensures Inv(world, s')
  {
    assert ShapeOk(s.sessions[a.sid]) && CommitmentOk(s.sessions[a.sid]);
    NoAdvanceKeepsCodes(world, s, s', a.sid, PairStep, "", 0);
    SessionsStayOk(s, s', a.sid);
    if s.sessions[a.sid].stage == Completed {
      assert s'.sessions == s.sessions;
    } else {
      UsersUntouched(world, s, s', a.sid);
    }
  }

  lemma AbandonKeepsInv(world: World, s: State, a: Action)
    requires Inv(world, s) && a.Abandon? && AbandonRegistration(s, a).Advanced?
    ensures Inv(world, AbandonRegistration(s, a).s)
  {
    assert Dropped(s, a, AbandonRegistration(s, a).s);
    DroppedKeepsInv(world, s, a, AbandonRegistration(s, a).s);
  }

  lemma DeviceStepKeepsInv(world: World, s: State, a: Action)
    requires Inv(world, s) && a.OtherDeviceWriter?
    ensures Inv(world, Next(world, s, a))
  {
    var s' := Next(world, s, a);
    Devices.StepKeepsInv(world.host, s.devices, a.a);
    forall sid, step {:trigger Column(s'.sessions[sid], step)} |
      sid in s'.sessions && Column(s'.sessions[sid], step).Some?
      ensures OutstandingOk(world, s', sid, step, Column(s'.sessions[sid], step).value)
    {
      OutstandingStays(world, s, s', sid, step, Column(s.sessions[sid], step).value, "");
    }
    forall i | 0 <= i < |s'.advances| ensures AdvanceOk(s', s'.advances[i]) {
      assert AdvanceOk(s, s.advances[i]);
    }
    forall uid | uid in s'.users ensures UserOf(world, s', s'.users[uid].session, uid) {
      assert UserOf(world, s, s.users[uid].session, uid);
    }
    forall sid | sid in s'.sessions && s'.sessions[sid].stage == Completed
      ensures UserOf(world, s', sid, s'.sessions[sid].user.value)
    {
      assert UserOf(world, s, sid, s.sessions[sid].user.value);
    }
  }

  lemma StepKeepsInv(world: World, s: State, a: Action)
    requires Inv(world, s) && Injective(world.host.sha)
    ensures Inv(world, Next(world, s, a))
  {
    if Result(world, s, a).Advanced? {
      match a {
        case Start(_, _, _, _) => StartKeepsInv(world, s, a);
        case PairDevice(_, _, _, _, _) => PairKeepsInv(world, s, a);
        case SubmitCommitment(_, _, _, _, _, _) => SubmitKeepsInv(world, s, a);
        case Complete(_, _, _, _, _, _) => CompleteKeepsInv(world, s, a);
        case Abandon(_, _, _) => AbandonKeepsInv(world, s, a);
        case OtherDeviceWriter(_) => DeviceStepKeepsInv(world, s, a);
      }
    }
  }

  // ---- stages only move forward ----------------------------------------------

  function Rank(stage: Stage): (r: nat) {
    match stage
    case AwaitingDevice => 0
    case AwaitingCommitment => 1
    case AwaitingVerification => 2
    case Completed => 3
    case Abandoned => 4
  }

  predicate Final(stage: Stage) { stage == Completed || stage == Abandoned }

  /** The same session later: further on, or abandoned; once final, unchanged for good. */
  predicate MovedOn(x: Session, y: Session) {
    && x.tenant == y.tenant && x.env == y.env && x.expiresAt == y.expiresAt
    && Rank(x.stage) <= Rank(y.stage)
    && (Final(x.stage) ==> y == x)
  }

  /** The session an action is about. */
  predicate About(a: Action, sid: string) { !a.OtherDeviceWriter? && a.sid == sid }

  /** A session is as it was. */
  predicate Unmoved(s: State, o: Outcome, sid: string)
    requires sid in s.sessions
  {
    o.Advanced? ==> sid in o.s.sessions && o.s.sessions[sid] == s.sessions[sid]
  }

  lemma StartLeavesOthers(world: World, s: State, a: Action, sid: string)
    requires sid in s.sessions && a.Start? && a.sid != sid
    ensures Unmoved(s, StartRegistration(world, s, a), sid)
  {
  }

  lemma PairLeavesOthers(world: World, s: State, a: Action, sid: string)
    requires sid in s.sessions && a.PairDevice? && a.sid != sid
    ensures Unmoved(s, PairDeviceForRegistration(world, s, a), sid)
  {
  }

  lemma SubmitLeavesOthers(world: World, s: State, a: Action, sid: string)
    requires sid in s.sessions && a.SubmitCommitment? && a.sid != sid
    ensures Unmoved(s, SubmitCommitmentForRegistration(world, s, a), sid)
  {
  }

  lemma CompleteLeavesOthers(world: World, s: State, a: Action, sid: string)
    requires sid in s.sessions && a.Complete? && a.sid != sid
    ensures Unmoved(s, CompleteRegistration(world, s, a), sid)
  {
  }

  lemma AbandonLeavesOthers(s: State, a: Action, sid: string)
    requires sid in s.sessions && a.Abandon? && a.sid != sid
    ensures Unmoved(s, AbandonRegistration(s, a), sid)
  {
  }

  lemma OtherSessionsStay(world: World, s: State, a: Action, sid: string)
    requires sid in s.sessions && !About(a, sid)
    ensures sid in Next(world, s, a).sessions && Next(world, s, a).sessions[sid] == s.sessions[sid]
  {
    match a
    case Start(_, _, _, _) => StartLeavesOthers(world, s, a, sid);
    case PairDevice(_, _, _, _, _) => PairLeavesOthers(world, s, a, sid);
    case SubmitCommitment(_, _, _, _, _, _) => SubmitLeavesOthers(world, s, a, sid);
    case Complete(_, _, _, _, _, _) => CompleteLeavesOthers(world, s, a, sid);
    case Abandon(_, _, _) => AbandonLeavesOthers(s, a, sid);
    case OtherDeviceWriter(_) =>
  }

  lemma OwnSessionMoves(world: World, s: State, a: Action, sid: string)
    requires sid in s.sessions && About(a, sid) && Result(world, s, a).Advanced?
    ensures var x, s' := s.sessions[sid], Next(world, s, a);
            && sid in s'.sessions && s'.sessions[sid].tenant == x.tenant && s'.sessions[sid].env == x.env
            && s'.sessions[sid].expiresAt == x.expiresAt
            && match a
               case PairDevice(_, _, _, _, _) =>
                 x.stage == AwaitingDevice && s'.sessions[sid].stage == AwaitingCommitment
               case SubmitCommitment(_, _, _, _, _, _) =>
                 x.stage == AwaitingCommitment && s'.sessions[sid].stage == AwaitingVerification
               case Complete(_, _, _, _, _, _) => x.stage == AwaitingVerification && s'.sessions[sid].stage == Completed
               case Abandon(_, _, _) =>
                 s'.sessions[sid] == x.(stage := if x.stage == Completed then Completed else Abandoned,
                                        pair := None, enroll := None, verify := None, nonce := None)
               case _ => false
  {
  }

  lemma StepMovesOn(world: World, s: State, a: Action, sid: string)
    requires Inv(world, s) && sid in s.sessions
    ensures var s' := Next(world, s, a);
            && sid in s'.sessions && MovedOn(s.sessions[sid], s'.sessions[sid])
            && (s'.sessions[sid].stage == s.sessions[sid].stage || s'.sessions[sid].stage == Abandoned
                || Rank(s'.sessions[sid].stage) == Rank(s.sessions[sid].stage) + 1)
  {
    assert ShapeOk(s.sessions[sid]);
    if !About(a, sid) {
      OtherSessionsStay(world, s, a, sid);
    } else if Result(world, s, a).Advanced? {
      OwnSessionMoves(world, s, a, sid);
    }
  }

  lemma {:induction false} RunKeepsInv(world: World, s: State, acts: seq<Action>)
    requires Inv(world, s) && Injective(world.host.sha)
    ensures Inv(world, Run(world, s, acts))
    ensures forall sid :: sid in s.sessions ==>
              sid in Run(world, s, acts).sessions && MovedOn(s.sessions[sid], Run(world, s, acts).sessions[sid])
    decreases |acts|
  {
    if acts != [] {
      var before := Run(world, s, acts[..|acts| - 1]);
      RunKeepsInv(world, s, acts[..|acts| - 1]);
      StepKeepsInv(world, before, acts[|acts| - 1]);
      forall sid | sid in s.sessions
        ensures sid in Run(world, s, acts).sessions && MovedOn(s.sessions[sid], Run(world, s, acts).sessions[sid])
      {
        StepMovesOn(world, before, acts[|acts| - 1], sid);
      }
    }
  }

  // ---- the ledger of codes is the history of the stages -----------------------

  /** A stage further on in the ceremony. */
  predicate Forward(before: Stage, after: Stage) { after != Abandoned && Rank(before) < Rank(after) }

  const STEPS: seq<Step> := [PairStep, EnrollStep, VerifyStep]

  /** The code an action presents, as typed. */
  function Typed(a: Action): (code: string) {
    match a
    case PairDevice(_, code, _, _, _) => code
    case SubmitCommitment(_, code, _, _, _, _) => code
    case Complete(_, code, _, _, _, _) => code
    case _ => ""
  }

  /** Whether the session's stage moved forward in a step, by the states before and after alone. */
  predicate WentForward(s: State, s': State, sid: string) {
    sid in s.sessions && sid in s'.sessions && Forward(s.sessions[sid].stage, s'.sessions[sid].stage)
  }

  function StepFrom(stage: Stage): (step: Step) {
    if Rank(stage) < 3 then STEPS[Rank(stage)] else VerifyStep
  }

  /** Every forward move of one session over a run: the code presented, the step and the time. */
  function ForwardMoves(world: World, s: State, acts: seq<Action>, sid: string): (moves: seq<Advance>)
    decreases |acts|
  {
    if acts == [] then []
    else
      var before, a := acts[..|acts| - 1], acts[|acts| - 1];
      var mid := Run(world, s, before);
      ForwardMoves(world, s, before, sid) + MoveIn(world, mid, a, Next(world, mid, a), sid)
  }

  function MoveIn(world: World, s: State, a: Action, s': State, sid: string): (moves: seq<Advance>) {
    if WentForward(s, s', sid) then
      [Advance(NormaliseEnrollmentCode(world.host.upper, Typed(a)), sid, StepFrom(s.sessions[sid].stage), Now(s))]
    else []
  }

  /** The advances recorded for one session. */
  function Of(advances: seq<Advance>, sid: string): (r: seq<Advance>)
    ensures forall v :: v in r ==> v.session == sid
  {
    if advances == [] then []
    else
      var last := advances[|advances| - 1];
      Of(advances[..|advances| - 1], sid) + (if last.session == sid then [last] else [])
  }

  lemma {:induction false} OfLonger(advances: seq<Advance>, v: Advance, sid: string)
    ensures Of(advances + [v], sid) == Of(advances, sid) + (if v.session == sid then [v] else [])
  {
    assert (advances + [v])[..|advances|] == advances;
  }

  /** What a transaction adds to the ledger. */
  function Ledger(world: World, s: State, a: Action): (advances: seq<Advance>) {
    var code := NormaliseEnrollmentCode(world.host.upper, Typed(a));
    match a
    case PairDevice(_, _, _, _, _) => s.advances + [Advance(code, a.sid, PairStep, Now(s))]
    case SubmitCommitment(_, _, _, _, _, _) => s.advances + [Advance(code, a.sid, EnrollStep, Now(s))]
    case Complete(_, _, _, _, _, _) => s.advances + [Advance(code, a.sid, VerifyStep, Now(s))]
    case _ => s.advances
  }

  lemma StepRecords(world: World, s: State, a: Action)
    requires Result(world, s, a).Advanced?
    ensures Next(world, s, a).advances == Ledger(world, s, a)
    ensures a.PairDevice? || a.SubmitCommitment? || a.Complete? ==> a.sid in s.sessions
  {
    match a
    case Start(_, _, _, _) => StartRecordsNothing(world, s, a);
    case PairDevice(_, _, _, _, _) => PairEffect(world, s, a);
    case SubmitCommitment(_, _, _, _, _, _) => SubmitEffect(world, s, a);
    case Complete(_, _, _, _, _, _) => CompleteEffect(world, s, a);
    case Abandon(_, _, _) => assert Dropped(s, a, AbandonRegistration(s, a).s);
    case OtherDeviceWriter(_) =>
  }

  lemma StartRecordsNothing(world: World, s: State, a: Action)
    requires a.Start? && StartRegistration(world, s, a).Advanced?
    ensures StartRegistration(world, s, a).s.advances == s.advances
  {
  }

  /** The stages of an action's own session, before and after. */
  predicate OwnMove(a: Action, before: Stage, after: Stage) {
    match a
    case PairDevice(_, _, _, _, _) => before == AwaitingDevice && after == AwaitingCommitment
    case SubmitCommitment(_, _, _, _, _, _) => before == AwaitingCommitment && after == AwaitingVerification
    case Complete(_, _, _, _, _, _) => before == AwaitingVerification && after == Completed
    case _ => !Forward(before, after)
  }

  lemma {:induction false} OwnMoveRecorded(world: World, s: State, a: Action, s': State, sid: string)
    requires sid in s.sessions && sid in s'.sessions && About(a, sid) && s'.advances == Ledger(world, s, a)
    requires OwnMove(a, s.sessions[sid].stage, s'.sessions[sid].stage)
    ensures Of(s'.advances, sid) == Of(s.advances, sid) + MoveIn(world, s, a, s', sid)
  {
    if s'.advances != s.advances {
      OfLonger(s.advances, s'.advances[|s.advances|], sid);
    }
  }

  lemma {:induction false} OtherMoveRecorded(world: World, s: State, a: Action, s': State, sid: string)
    requires sid in s.sessions ==> !About(a, sid) && sid in s'.sessions && s'.sessions[sid] == s.sessions[sid]
    requires a.PairDevice? || a.SubmitCommitment? || a.Complete? ==> a.sid in s.sessions
    requires s'.advances == Ledger(world, s, a)
    ensures Of(s'.advances, sid) == Of(s.advances, sid) + MoveIn(world, s, a, s', sid)
  {
    if s'.advances != s.advances {
      OfLonger(s.advances, s'.advances[|s.advances|], sid);
    }
  }

  lemma {:induction false} StepRecordsMoves(world: World, s: State, a: Action, sid: string)
    ensures Of(Next(world, s, a).advances, sid) == Of(s.advances, sid) + MoveIn(world, s, a, Next(world, s, a), sid)
  {
    var s' := Next(world, s, a);
    if Result(world, s, a).Advanced? {
      StepRecords(world, s, a);
      if sid in s.sessions && About(a, sid) {
        OwnSessionMoves(world, s, a, sid);
        OwnMoveRecorded(world, s, a, s', sid);
      } else {
        if sid in s.sessions {
          OtherSessionsStay(world, s, a, sid);
        }
        OtherMoveRecorded(world, s, a, s', sid);
      }
    }
  }

  /** The recorded advances of a session are exactly its forward moves over the run. */
  lemma {:induction false} RecordedAdvancesAreMoves(world: World, s: State, acts: seq<Action>, sid: string)
    requires s.advances == []
    ensures Of(Run(world, s, acts).advances, sid) == ForwardMoves(world, s, acts, sid)
    decreases |acts|
  {
    if acts != [] {
      var before := acts[..|acts| - 1];
      RecordedAdvancesAreMoves(world, s, before, sid);
      StepRecordsMoves(world, Run(world, s, before), acts[|acts| - 1], sid);
    }
  }

  /** A session's history, step by step: the steps in order, as many as its stage says. */
  predicate InStep(moves: seq<Advance>, s: State, sid: string) {
    && |moves| <= 3
    && (forall i :: 0 <= i < |moves| ==> moves[i].step == STEPS[i])
    && (sid !in s.sessions ==> moves == [])
    && (sid in s.sessions ==>
          if s.sessions[sid].stage == Abandoned then |moves| < 3 else |moves| == Rank(s.sessions[sid].stage))
  }

  lemma {:induction false} StageCountsMoves(world: World, s: State, acts: seq<Action>, sid: string)
    requires Initial(s) && Injective(world.host.sha)
    ensures InStep(ForwardMoves(world, s, acts, sid), Run(world, s, acts), sid)
    decreases |acts|
  {
    if acts != [] {
      var before, a := acts[..|acts| - 1], acts[|acts| - 1];
      var mid := Run(world, s, before);
      StageCountsMoves(world, s, before, sid);
      RunKeepsInv(world, s, before);
      if sid in mid.sessions {
        StepMovesOn(world, mid, a, sid);
      } else if sid in Run(world, s, acts).sessions {
        NewSessionStarts(world, mid, a, sid);
      }
    }
  }

  lemma NewSessionStarts(world: World, s: State, a: Action, sid: string)
    requires sid !in s.sessions && sid in Next(world, s, a).sessions
    ensures Next(world, s, a).sessions[sid].stage == AwaitingDevice
  {
  }

  // ---- main results ----------------------------------------------------------

  /**
   * In every reachable state a session's stage fixes which single code is
   * outstanding and which of device, DID, commitment, nonce and user are set.
   */
  lemma {:induction false} CeremonyShape(world: World, s: State, acts: seq<Action>, sid: string)
    requires Initial(s) && Injective(world.host.sha) && sid in Run(world, s, acts).sessions
    ensures ShapeOk(Run(world, s, acts).sessions[sid])
  {
    RunKeepsInv(world, s, acts);
  }

  /** From any reachable state on, stages only move forward or to abandoned, and final ones never change. */
  lemma {:induction false} StagesMoveForward(world: World, s: State, before: seq<Action>, after: seq<Action>,
                                             sid: string)
    requires Initial(s) && Injective(world.host.sha) && sid in Run(world, s, before).sessions
    ensures var t := Run(world, s, before);
            sid in Run(world, t, after).sessions && MovedOn(t.sessions[sid], Run(world, t, after).sessions[sid])
  {
    RunKeepsInv(world, s, before);
    RunKeepsInv(world, Run(world, s, before), after);
  }

  /**
   * Over every run, a minted code advances at most one session once: the session
   * and the step it was minted for, before it expires. The advances recorded are
   * the forward moves of the sessions, one for each stage a session has left.
   */
  lemma {:induction false} CodesAreSingleUse(world: World, s: State, acts: seq<Action>)
    requires Initial(s) && Injective(world.host.sha)
    ensures var t := Run(world, s, acts);
            && (forall i :: 0 <= i < |t.advances| ==> AdvanceOk(t, t.advances[i]))
            && (forall i, j :: 0 <= i < j < |t.advances| ==> t.advances[i].code != t.advances[j].code)
            && (forall sid :: Of(t.advances, sid) == ForwardMoves(world, s, acts, sid))
            && (forall sid :: InStep(ForwardMoves(world, s, acts, sid), t, sid))
  {
    RunKeepsInv(world, s, acts);
    forall sid ensures Of(Run(world, s, acts).advances, sid) == ForwardMoves(world, s, acts, sid) {
      RecordedAdvancesAreMoves(world, s, acts, sid);
    }
    forall sid ensures InStep(ForwardMoves(world, s, acts, sid), Run(world, s, acts), sid) {
      StageCountsMoves(world, s, acts, sid);
    }
  }

  /** Completed sessions and ceremony-created users correspond one to one. */
  lemma {:induction false} OneUserPerCompletedSession(world: World, s: State, acts: seq<Action>)
    requires Initial(s) && Injective(world.host.sha)
    ensures var t := Run(world, s, acts);
            && (forall sid :: sid in t.sessions && t.sessions[sid].stage == Completed ==>
                  t.sessions[sid].user.Some? && t.sessions[sid].user.value in t.users
                  && t.users[t.sessions[sid].user.value].session == sid)
            && (forall uid :: uid in t.users ==>
                  t.users[uid].session in t.sessions && t.sessions[t.users[uid].session].stage == Completed
                  && t.sessions[t.users[uid].session].user == Some(uid))
  {
    RunKeepsInv(world, s, acts);
    var t := Run(world, s, acts);
    forall sid | sid in t.sessions && t.sessions[sid].stage == Completed
      ensures t.sessions[sid].user.Some? && t.sessions[sid].user.value in t.users
      ensures t.users[t.sessions[sid].user.value].session == sid
    {
      assert UserOf(world, t, sid, t.sessions[sid].user.value);
    }
  }

  /** The device table invariant holds with the ceremony among the writers. */
  lemma {:induction false} CeremonyDevicesUnique(world: World, s: State, acts: seq<Action>, i: string, j: string)
    requires Initial(s) && Injective(world.host.sha)
    requires var rows := Run(world, s, acts).devices.rows;
             && i in rows && j in rows && rows[i].tenant == rows[j].tenant && rows[i].env == rows[j].env
             && rows[i].fingerprintHash.Some? && rows[i].fingerprintHash == rows[j].fingerprintHash
    ensures i == j
  {
    RunKeepsInv(world, s, acts);
    var rows := Run(world, s, acts).devices.rows;
    assert Devices.DeviceOk(rows[i]) && Devices.DeviceOk(rows[j]);
  }
}
