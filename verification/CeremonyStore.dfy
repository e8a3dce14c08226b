/**
 * The transactions of src/services/registration.ts written out over the three
 * tables they update, statement by statement, and proved to be the steps of
 * Registration.dfy, so that everything RegistrationSafety.dfy says of a run of
 * steps holds of these tables after any sequence of calls. `minted` and
 * `advances` are the model's own record of the codes.
 */
module CeremonyStore {
  import opened JsText
  import opened EnrollmentCode
  import opened Tenancy
  import opened LoginAgreement
  import opened Registration
  import opened CeremonyChecks
  import Devices

  lemma SubmitSucceeds(world: World, s: State, a: Action, did: string, commitment: string)
    requires a.SubmitCommitment? && did == world.host.lower(Trim(a.did))
    requires commitment == world.host.lower(Trim(a.commitment))
    requires IsDid(did) && IsCommitmentText(commitment) && FreshCode(s, a.nextCode)
    requires a.sid in s.sessions && CodeMatches(world, s, a.sid, AwaitingCommitment, s.sessions[a.sid].enroll, a.code)
    ensures var next := s.sessions[a.sid].(did := Some(did), commitment := Some(commitment), enroll := None,
                                           verify := Some(NewCode(world, s, a.nextCode)), nonce := Some(a.nonce),
                                           stage := AwaitingVerification);
            Result(world, s, a)
            == Advanced(Recorded(world, Minted(s, a.nextCode, a.sid, VerifyStep), a.code, a.sid, EnrollStep)
                        .(sessions := s.sessions[a.sid := next]))
  {
  }

  class CeremonyTables {
    const world: World
    var sessions: map<string, Session>
    var users: map<string, User>
    var devices: Devices.Table
    ghost var minted: map<string, Mint>
    ghost var advances: seq<Advance>

    ghost function Abs(): (s: State)
      reads this
    {
      State(sessions, users, devices, minted, advances)
    }

    constructor (world: World, devices: Devices.Table)
      requires Devices.Initial(devices)
      ensures this.world == world && Initial(Abs()) && this.devices == devices
    {
      this.world, this.devices := world, devices;
      sessions, users, minted, advances := map[], map[], map[], [];
    }

    /** The session whose row the step locks, if its code, its stage and both expiries allow. */
    method LockSession(sid: string, stage: Stage, step: Step, typed: string) returns (found: Option<Session>)
      ensures found == if sid in sessions && CodeMatches(world, Abs(), sid, stage, Column(sessions[sid], step), typed)
                       then Some(sessions[sid]) else None
    {
      if sid !in sessions {
        return None;
      }
      var session := sessions[sid];
      var code := Column(session, step);
      var text := NormaliseEnrollmentCode(world.host.upper, typed);
      if session.stage != stage || code.None? || code.value.hash != world.host.sha(text)
         || code.value.expiresAt <= devices.now || session.expiresAt <= devices.now {
        return None;
      }
      return Some(session);
    }

    /** The next step's code, and the record of the one just used. */
    method UseAndMint(sid: string, step: Step, typed: string, nextStep: Step, nextCode: string) returns (next: Code)
      modifies this`minted, this`advances
      ensures next == NewCode(world, old(Abs()), nextCode)
      ensures minted == Minted(old(Abs()), nextCode, sid, nextStep).minted
      ensures advances == Recorded(world, old(Abs()), typed, sid, step).advances
    {
      next := Code(world.host.sha(nextCode), devices.now + ENROLLMENT_CODE_TTL_MS);
      advances := advances + [Advance(NormaliseEnrollmentCode(world.host.upper, typed), sid, step, devices.now)];
      minted := minted[nextCode := Mint(sid, nextStep, next.expiresAt)];
    }

    method StartRegistration(sid: string, tenant: string, env: Environment, code: string) returns (error: Option<Error>)
      requires sid !in sessions && FreshCode(Abs(), code)
      modifies this
      ensures error == None
      ensures Abs() == Next(world, old(Abs()), Start(sid, tenant, env, code))
      ensures StartAnswers(world, old(Abs()), Start(sid, tenant, env, code), error, Abs())
    {
      StartVerdict(world, Abs(), Start(sid, tenant, env, code));
      var pair := Code(world.host.sha(code), devices.now + ENROLLMENT_CODE_TTL_MS);
      minted := minted[code := Mint(sid, PairStep, pair.expiresAt)];
      sessions := sessions[sid := Session(tenant, env, AwaitingDevice, None, None, None, None, Some(pair), None,
                                          None, None, devices.now + REGISTRATION_SESSION_TTL_MS)];
      return None;
    }

    method PairDevice(sid: string, code: string, fingerprint: string, deviceId: string, nextCode: string)
      returns (error: Option<Error>)
      requires FreshCode(Abs(), nextCode)
      modifies this
      ensures Abs() == Next(world, old(Abs()), Action.PairDevice(sid, code, fingerprint, deviceId, nextCode))
      ensures error == ErrorOf(Result(world, old(Abs()), Action.PairDevice(sid, code, fingerprint, deviceId, nextCode)))
      ensures Devices.Inv(old(devices)) ==>
                PairAnswers(world, old(Abs()), Action.PairDevice(sid, code, fingerprint, deviceId, nextCode), error,
                            Abs())
    {
      PairVerdictIf(world, Abs(), Action.PairDevice(sid, code, fingerprint, deviceId, nextCode));
      if !IsValidFingerprint(fingerprint) {
        return Some(InvalidFingerprint);
      }
      var found := LockSession(sid, AwaitingDevice, PairStep, code);
      if found.None? {
        return Some(CodeNotFoundOrExpired);
      }
      var session, fpHash := found.value, world.host.sha(fingerprint);
      var upserted := Devices.Upserted(devices, deviceId, session.tenant, session.env, fpHash, PhoneDetails(sid));
      if !PairedRow(upserted, deviceId, session, fpHash) {
        return Some(ConstraintViolated);
      }
      var enroll := UseAndMint(sid, PairStep, code, EnrollStep, nextCode);
      devices := upserted;
      sessions := sessions[sid := session.(device := Some(deviceId), stage := AwaitingCommitment, pair := None,
                                           enroll := Some(enroll))];
      return None;
    }

    /** Trimming, lower-casing and the two shape checks. */
    method ReadIdentity(did: string, commitment: string) returns (d: string, c: string, wellFormed: bool)
      ensures d == world.host.lower(Trim(did)) && c == world.host.lower(Trim(commitment))
      ensures wellFormed <==> IsDid(d) && IsCommitmentText(c)
    {
      d, c := world.host.lower(Trim(did)), world.host.lower(Trim(commitment));
      wellFormed := IsDid(d) && IsCommitmentText(c);
    }

    method SubmitCommitment(sid: string, code: string, did: string, commitment: string, nextCode: string, nonce: string)
      returns (error: Option<Error>)
      requires FreshCode(Abs(), nextCode)
      modifies this
      ensures Abs() == Next(world, old(Abs()), Action.SubmitCommitment(sid, code, did, commitment, nextCode, nonce))
      ensures var a := Action.SubmitCommitment(sid, code, did, commitment, nextCode, nonce);
              error == ErrorOf(Result(world, old(Abs()), a)) && SubmitAnswers(world, old(Abs()), a, error, Abs())
    {
      SubmitVerdict(world, Abs(), Action.SubmitCommitment(sid, code, did, commitment, nextCode, nonce));
      var theDid, theCommitment, wellFormed := ReadIdentity(did, commitment);
      if !wellFormed {
        return Some(InvalidCommitment);
      }
      var found := LockSession(sid, AwaitingCommitment, EnrollStep, code);
      if found.None? {
        return Some(CodeNotFoundOrExpired);
      }
      var verify := UseAndMint(sid, EnrollStep, code, VerifyStep, nextCode);
      sessions := sessions[sid := found.value.(did := Some(theDid), commitment := Some(theCommitment), enroll := None,
                                               verify := Some(verify), nonce := Some(nonce),
                                               stage := AwaitingVerification)];
      SubmitSucceeds(world, old(Abs()), Action.SubmitCommitment(sid, code, did, commitment, nextCode, nonce), theDid,
                     theCommitment);
      assert Abs() == Recorded(world, Minted(old(Abs()), nextCode, sid, VerifyStep), code, sid, EnrollStep)
                      .(sessions := sessions);
      return None;
    }

    method CompleteRegistration(sid: string, code: string, challenge: string, proof: string, signals: seq<string>,
                                userId: string)
      returns (error: Option<Error>)
      modifies this
      ensures Abs() == Next(world, old(Abs()), Complete(sid, code, challenge, proof, signals, userId))
      ensures error == ErrorOf(Result(world, old(Abs()), Complete(sid, code, challenge, proof, signals, userId)))
      ensures CompleteAnswers(world, old(Abs()), Complete(sid, code, challenge, proof, signals, userId), error, Abs())
    {
      CompleteVerdict(world, Abs(), Complete(sid, code, challenge, proof, signals, userId));
      if code == "" {
        return Some(CodeNotFoundOrExpired);
      }
      if challenge == "" {
        return Some(ChallengeMismatch);
      }
      if signals == [] {
        return Some(ProofVerificationFailed);
      }
      var found := LockSession(sid, AwaitingVerification, VerifyStep, code);
      if found.None? {
        return Some(CodeNotFoundOrExpired);
      }
      var session := found.value;
      if session.nonce != Some(challenge) {
        return Some(ChallengeMismatch);
      }
      if session.commitment.None? || session.did.None? || !CommitmentsEqual(signals[0], session.commitment.value) {
        return Some(CommitmentMismatch);
      }
      if !world.verifyProof(proof, signals) {
        return Some(ProofVerificationFailed);
      }
      var c := ParseCommitment(session.commitment.value);
      if c.None? || c.value < 0 {
        return Some(CommitmentMismatch);
      }
      var user := NewUser(world, sid, session, c.value);
      if UserRefused(users, userId, user) {
        return Some(ConstraintViolated);
      }
      advances := advances + [Advance(NormaliseEnrollmentCode(world.host.upper, code), sid, VerifyStep, devices.now)];
      users := users[userId := user];
      sessions := sessions[sid := session.(user := Some(userId), stage := Completed, verify := None, nonce := None)];
      return None;
    }

    method AbandonRegistration(sid: string, tenant: string, env: Environment) returns (error: Option<Error>)
      modifies this
      ensures Abs() == Next(world, old(Abs()), Abandon(sid, tenant, env))
      ensures error == ErrorOf(Result(world, old(Abs()), Abandon(sid, tenant, env)))
      ensures AbandonAnswers(old(Abs()), Abandon(sid, tenant, env), error, Abs())
    {
      AbandonVerdict(world, Abs(), Abandon(sid, tenant, env));
      if sid !in sessions || sessions[sid].tenant != tenant || sessions[sid].env != env {
        return Some(CodeNotFoundOrExpired);
      }
      var session := sessions[sid];
      sessions := sessions[sid := session.(stage := if session.stage == Completed then Completed else Abandoned,
                                           pair := None, enroll := None, verify := None, nonce := None)];
      return None;
    }
  }
}
