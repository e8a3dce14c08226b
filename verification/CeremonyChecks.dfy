/**
 * What each transaction of src/services/registration.ts demands and does, said
 * check by check and column by column, and what that makes of a completed
 * session over any run: who paired, who committed, and with which proof.
 */
module CeremonyChecks {
  import opened JsText
  import opened Runtime
  import opened EnrollmentCode
  import opened Tenancy
  import opened LoginAgreement
  import opened Registration
  import RegistrationSafety
  import Devices

  function ErrorOf(o: Outcome): (e: Option<Error>) { if o.Failed? then Some(o.error) else None }

  /** The typed code is the one this column waits for, and neither it nor the session has run out. */
  predicate Fits(world: World, s: State, sid: string, code: Option<Code>, typed: string)
    requires sid in s.sessions
  {
    && code.Some? && code.value.hash == world.host.sha(NormaliseEnrollmentCode(world.host.upper, typed))
    && s.devices.now < code.value.expiresAt && s.devices.now < s.sessions[sid].expiresAt
  }

  /** A new code is good for fifteen minutes. */
  function GoodFor15Minutes(world: World, s: State, text: string): (c: Code) {
    Code(world.host.sha(text), s.devices.now + 900_000)
  }

  // ---- one transaction at a time -----------------------------------------------

  /** A session starts awaiting its device, for half an hour. */
  predicate StartAnswers(world: World, s: State, a: Action, error: Option<Error>, s': State)
    requires a.Start?
  {
    if a.sid in s.sessions || !IsGenerated(a.code) || a.code in s.minted then
      error == Some(ConstraintViolated) && s' == s
    else
      && error == None && s'.users == s.users && s'.devices == s.devices
      && s'.sessions == s.sessions[a.sid := Session(a.tenant, a.env, AwaitingDevice, None, None, None, None,
                                                    Some(GoodFor15Minutes(world, s, a.code)), None, None, None,
                                                    s.devices.now + 1_800_000)]
  }

  lemma StartVerdict(world: World, s: State, a: Action)
    requires a.Start?
    ensures StartAnswers(world, s, a, ErrorOf(Result(world, s, a)), Next(world, s, a))
  {
  }

  predicate PairAnswers(world: World, s: State, a: Action, error: Option<Error>, s': State)
    requires a.PairDevice?
  {
    if |Trim(a.fingerprint)| < 16 || |a.fingerprint| > 4096 then error == Some(InvalidFingerprint) && s' == s
    else if a.sid !in s.sessions || s.sessions[a.sid].stage != AwaitingDevice
            || !Fits(world, s, a.sid, s.sessions[a.sid].pair, a.code)
    then error == Some(CodeNotFoundOrExpired) && s' == s
    else if error.Some? then
      && error == Some(ConstraintViolated) && s' == s
      && (!IsGenerated(a.nextCode) || a.nextCode in s.minted
          || Blocked(s.devices, a.deviceId, s.sessions[a.sid], world.host.sha(a.fingerprint)))
    else Paired(world, s, a, s')
  }

  /**
   * Why the upsert may not return the device's row: the row of that external id is
   * held by an open claim; or there is none of that id yet, and its primary key or
   * its external id belongs to another row.
   */
  predicate Blocked(t: Devices.Table, id: string, x: Session, fpHash: string) {
    var ext := DerivedExternalId(fpHash);
    if id in t.rows && t.rows[id].tenant == x.tenant && t.rows[id].env == x.env && t.rows[id].externalId == ext then
      exists c :: c in t.claims && t.claims[c].id == id
    else
      || id in t.rows
      || exists other :: other in t.rows && t.rows[other].tenant == x.tenant && t.rows[other].env == x.env
                         && t.rows[other].externalId == ext
  }

  /** The device is enrolled under its fingerprint, and the session waits for the commitment with a new code. */
  predicate Paired(world: World, s: State, a: Action, s': State)
    requires a.PairDevice?
  {
    && a.sid in s.sessions && s'.users == s.users
    && s'.sessions == s.sessions[a.sid := s.sessions[a.sid].(
                        device := Some(a.deviceId), stage := AwaitingCommitment, pair := None,
                        enroll := Some(GoodFor15Minutes(world, s, a.nextCode)))]
    && a.deviceId in s'.devices.rows && s'.devices == s.devices.(rows := s'.devices.rows)
    && s'.devices.rows == s.devices.rows[a.deviceId := s'.devices.rows[a.deviceId]]
    && s'.devices.rows[a.deviceId].tenant == s.sessions[a.sid].tenant
    && s'.devices.rows[a.deviceId].env == s.sessions[a.sid].env
    && PhoneRow(s.devices, a.deviceId, a.sid, world.host.sha(a.fingerprint), s'.devices.rows[a.deviceId])
  }

  /**
   * The phone's row: a new one, or the one of its fingerprint enrolled again with the
   * registration's metadata; seen now, unless a claim holds it.
   */
  predicate PhoneRow(t: Devices.Table, id: string, sid: string, fpHash: string, d: Devices.Device) {
    var metadata := "{\"via\":\"registration\",\"sessionId\":\"" + sid + "\"}";
    var first := if |sid| < 8 then sid else sid[..8];
    && d.externalId == "dev_" + (if |fpHash| < 16 then fpHash else fpHash[..16])
    && d.fingerprintHash == Some(fpHash) && d.enrollment == Devices.Enrolled
    && if id in t.rows then
         || d == t.rows[id].(enrollment := Devices.Enrolled, fingerprintHash := Some(fpHash),
                             details := t.rows[id].details.(metadata := metadata, lastSeen := Some(t.now)))
         || (d == t.rows[id] && exists c :: c in t.claims && t.claims[c].id == id)
       else
         d == Devices.Device(d.tenant, d.env, d.externalId, Devices.Enrolled, Devices.Active, None, 0, Some(fpHash),
                             Devices.Details("Registration device (" + first + ")", None, None, metadata, Some(t.now)))
  }

  /** The session is there, and the code and the fingerprint are right. */
  predicate PairFits(world: World, s: State, a: Action)
    requires a.PairDevice?
  {
    && |Trim(a.fingerprint)| >= 16 && |a.fingerprint| <= 4096
    && a.sid in s.sessions && s.sessions[a.sid].stage == AwaitingDevice
    && Fits(world, s, a.sid, s.sessions[a.sid].pair, a.code)
  }

  lemma PairRefused(world: World, s: State, a: Action)
    requires a.PairDevice? && !PairFits(world, s, a)
    ensures PairDeviceForRegistration(world, s, a).Failed?
    ensures PairAnswers(world, s, a, ErrorOf(PairDeviceForRegistration(world, s, a)), s)
  {
  }

  /** The outcome once the session was found, from what the upsert leaves. */
  lemma PairTaken(world: World, s: State, a: Action)
    requires a.PairDevice? && PairFits(world, s, a)
    ensures var x, fpHash := s.sessions[a.sid], world.host.sha(a.fingerprint);
            var o := PairDeviceForRegistration(world, s, a);
            var t' := Devices.Upserted(s.devices, a.deviceId, x.tenant, x.env, fpHash, PhoneDetails(a.sid));
            if !IsGenerated(a.nextCode) || a.nextCode in s.minted || !PairedRow(t', a.deviceId, x, fpHash) then
              o == Failed(ConstraintViolated)
            else
              && o.Advanced? && o.s.devices == t' && o.s.users == s.users
              && o.s.sessions == s.sessions[a.sid := x.(device := Some(a.deviceId), stage := AwaitingCommitment,
                                                        pair := None,
                                                        enroll := Some(GoodFor15Minutes(world, s, a.nextCode)))]
  {
  }

  lemma PairVerdict(world: World, s: State, a: Action)
    requires a.PairDevice? && Devices.Inv(s.devices)
    ensures PairAnswers(world, s, a, ErrorOf(Result(world, s, a)), Next(world, s, a))
  {
    if PairFits(world, s, a) {
      PairTaken(world, s, a);
      UpsertedRow(s.devices, a.deviceId, s.sessions[a.sid], world.host.sha(a.fingerprint), a.sid);
    } else {
      PairRefused(world, s, a);
    }
  }

  lemma PairVerdictIf(world: World, s: State, a: Action)
    requires a.PairDevice?
    ensures Devices.Inv(s.devices) ==> PairAnswers(world, s, a, ErrorOf(Result(world, s, a)), Next(world, s, a))
  {
    if Devices.Inv(s.devices) {
      PairVerdict(world, s, a);
    }
  }

  /** What is known of the row that the upsert returns. */
  predicate PhoneUpserted(t: Devices.Table, id: string, x: Session, fpHash: string, sid: string, t': Devices.Table) {
    if PairedRow(t', id, x, fpHash) then
      && t' == t.(rows := t'.rows) && t'.rows == t.rows[id := t'.rows[id]]
      && PhoneRow(t, id, sid, fpHash, t'.rows[id])
    else Blocked(t, id, x, fpHash)
  }

  lemma KnownPhone(t: Devices.Table, id: string, x: Session, fpHash: string, sid: string)
    requires id in t.rows && t.rows[id].tenant == x.tenant && t.rows[id].env == x.env
    requires t.rows[id].externalId == DerivedExternalId(fpHash)
    ensures PhoneUpserted(t, id, x, fpHash, sid, Devices.Upserted(t, id, x.tenant, x.env, fpHash, PhoneDetails(sid)))
  {
    assert |fpHash| == 16 ==> fpHash[..16] == fpHash;
    assert t.rows[id := t.rows[id]] == t.rows;
  }

  lemma NewPhone(t: Devices.Table, id: string, x: Session, fpHash: string, sid: string)
    requires Devices.Inv(t)
    requires id in t.rows && t.rows[id].tenant == x.tenant && t.rows[id].env == x.env ==>
               t.rows[id].externalId != DerivedExternalId(fpHash)
    ensures PhoneUpserted(t, id, x, fpHash, sid, Devices.Upserted(t, id, x.tenant, x.env, fpHash, PhoneDetails(sid)))
  {
    assert |sid| == 8 ==> sid[..8] == sid;
    assert |fpHash| == 16 ==> fpHash[..16] == fpHash;
    if id in t.rows {
      assert Devices.DeviceOk(t.rows[id]);
      assert t.rows[id := t.rows[id]] == t.rows;
    }
  }

  lemma UpsertedRow(t: Devices.Table, id: string, x: Session, fpHash: string, sid: string)
    requires Devices.Inv(t)
    ensures PhoneUpserted(t, id, x, fpHash, sid, Devices.Upserted(t, id, x.tenant, x.env, fpHash, PhoneDetails(sid)))
  {
    if id in t.rows && t.rows[id].tenant == x.tenant && t.rows[id].env == x.env
       && t.rows[id].externalId == DerivedExternalId(fpHash)
    {
      KnownPhone(t, id, x, fpHash, sid);
    } else {
      NewPhone(t, id, x, fpHash, sid);
    }
  }

  predicate SubmitAnswers(world: World, s: State, a: Action, error: Option<Error>, s': State)
    requires a.SubmitCommitment?
  {
    var did, commitment := world.host.lower(Trim(a.did)), world.host.lower(Trim(a.commitment));
    if !IsDid(did) || !IsCommitmentText(commitment) then error == Some(InvalidCommitment) && s' == s
    else if a.sid !in s.sessions || s.sessions[a.sid].stage != AwaitingCommitment
            || !Fits(world, s, a.sid, s.sessions[a.sid].enroll, a.code)
    then error == Some(CodeNotFoundOrExpired) && s' == s
    else if !IsGenerated(a.nextCode) || a.nextCode in s.minted then error == Some(ConstraintViolated) && s' == s
    else
      && error == None && s'.users == s.users && s'.devices == s.devices
      && s'.sessions == s.sessions[a.sid := s.sessions[a.sid].(
                          did := Some(did), commitment := Some(commitment), enroll := None, nonce := Some(a.nonce),
                          verify := Some(GoodFor15Minutes(world, s, a.nextCode)), stage := AwaitingVerification)]
  }

  lemma SubmitRefused(world: World, s: State, a: Action)
    requires a.SubmitCommitment?
    requires var did, commitment := world.host.lower(Trim(a.did)), world.host.lower(Trim(a.commitment));
             || !IsDid(did) || !IsCommitmentText(commitment) || a.sid !in s.sessions
             || s.sessions[a.sid].stage != AwaitingCommitment
             || !Fits(world, s, a.sid, s.sessions[a.sid].enroll, a.code)
             || !IsGenerated(a.nextCode) || a.nextCode in s.minted
    ensures SubmitAnswers(world, s, a, ErrorOf(SubmitCommitmentForRegistration(world, s, a)), s)
    ensures SubmitCommitmentForRegistration(world, s, a).Failed?
  {
  }

  lemma SubmitTaken(world: World, s: State, a: Action)
    requires a.SubmitCommitment?
    requires var did, commitment := world.host.lower(Trim(a.did)), world.host.lower(Trim(a.commitment));
             && IsDid(did) && IsCommitmentText(commitment) && a.sid in s.sessions
             && s.sessions[a.sid].stage == AwaitingCommitment && Fits(world, s, a.sid, s.sessions[a.sid].enroll, a.code)
             && IsGenerated(a.nextCode) && a.nextCode !in s.minted
    ensures SubmitCommitmentForRegistration(world, s, a).Advanced?
    ensures SubmitAnswers(world, s, a, None, SubmitCommitmentForRegistration(world, s, a).s)
  {
  }

  lemma SubmitVerdict(world: World, s: State, a: Action)
    requires a.SubmitCommitment?
    ensures SubmitAnswers(world, s, a, ErrorOf(Result(world, s, a)), Next(world, s, a))
  {
    if SubmitCommitmentForRegistration(world, s, a).Advanced? {
      SubmitTaken(world, s, a);
    } else {
      SubmitRefused(world, s, a);
    }
  }

  /** The user a completed session leaves behind: all of its columns. */
  function UserFor(world: World, sid: string, x: Session, did: string, commitment: string, c: nat): (u: User) {
    User(x.tenant, x.env, "user_" + WithoutHyphens(if |sid| < 12 then sid else sid[..12]), did, commitment, sid,
         Render(world.poseidon1(c), 10), Render(c, 10))
  }

  /** The database refuses a user: the id, the external id or the DID is taken in the tenant and environment. */
  predicate Clashes(users: map<string, User>, id: string, u: User) {
    || id in users
    || exists k :: k in users && users[k].tenant == u.tenant && users[k].env == u.env
                   && (users[k].did == u.did || users[k].externalId == u.externalId)
  }

  predicate CompleteAnswers(world: World, s: State, a: Action, error: Option<Error>, s': State)
    requires a.Complete?
  {
    if a.code == "" then error == Some(CodeNotFoundOrExpired) && s' == s
    else if a.challenge == "" then error == Some(ChallengeMismatch) && s' == s
    else if a.signals == [] then error == Some(ProofVerificationFailed) && s' == s
    else if a.sid !in s.sessions || s.sessions[a.sid].stage != AwaitingVerification
            || !Fits(world, s, a.sid, s.sessions[a.sid].verify, a.code)
    then error == Some(CodeNotFoundOrExpired) && s' == s
    else
      var x := s.sessions[a.sid];
      if x.nonce != Some(a.challenge) then error == Some(ChallengeMismatch) && s' == s
      else if x.did == None || x.commitment == None || ParseCommitment(a.signals[0]) == None
              || ParseCommitment(a.signals[0]) != ParseCommitment(x.commitment.value)
      then error == Some(CommitmentMismatch) && s' == s
      else if !world.verifyProof(a.proof, a.signals) then error == Some(ProofVerificationFailed) && s' == s
      else if ParseCommitment(x.commitment.value).value < 0 then error == Some(CommitmentMismatch) && s' == s
      else
        var u := UserFor(world, a.sid, x, x.did.value, x.commitment.value, ParseCommitment(x.commitment.value).value);
        if Clashes(s.users, a.userId, u) then error == Some(ConstraintViolated) && s' == s
        else
          && error == None && s'.devices == s.devices && s'.users == s.users[a.userId := u]
          && s'.sessions == s.sessions[a.sid := x.(user := Some(a.userId), stage := Completed, verify := None,
                                                   nonce := None)]
  }

  /** The session is there, and the code fits. */
  predicate Found(world: World, s: State, a: Action)
    requires a.Complete?
  {
    a.sid in s.sessions && s.sessions[a.sid].stage == AwaitingVerification
    && Fits(world, s, a.sid, s.sessions[a.sid].verify, a.code)
  }

  lemma CompleteUnfound(world: World, s: State, a: Action)
    requires a.Complete? && (a.code == "" || a.challenge == "" || a.signals == [] || !Found(world, s, a))
    ensures CompleteAnswers(world, s, a, ErrorOf(CompleteRegistration(world, s, a)), s)
    ensures CompleteRegistration(world, s, a).Failed?
  {
  }

  lemma UsersAgree(world: World, s: State, sid: string, x: Session, uid: string, c: nat)
    requires x.did.Some? && x.commitment.Some?
    ensures NewUser(world, sid, x, c) == UserFor(world, sid, x, x.did.value, x.commitment.value, c)
    ensures UserRefused(s.users, uid, NewUser(world, sid, x, c)) <==> Clashes(s.users, uid, NewUser(world, sid, x, c))
  {
    assert |sid| == 12 ==> sid[..12] == sid;
  }

  /** The outcome once the session was found, from what its columns say. */
  lemma CompleteFound(world: World, s: State, a: Action)
    requires a.Complete? && a.code != "" && a.challenge != "" && a.signals != [] && Found(world, s, a)
    ensures var x, o := s.sessions[a.sid], CompleteRegistration(world, s, a);
            if x.nonce != Some(a.challenge) then o == Failed(ChallengeMismatch)
            else if x.did == None || x.commitment == None || !CommitmentsEqual(a.signals[0], x.commitment.value) then
              o == Failed(CommitmentMismatch)
            else if !world.verifyProof(a.proof, a.signals) then o == Failed(ProofVerificationFailed)
            else if ParseCommitment(x.commitment.value).value < 0 then o == Failed(CommitmentMismatch)
            else
              var u := NewUser(world, a.sid, x, ParseCommitment(x.commitment.value).value);
              if UserRefused(s.users, a.userId, u) then o == Failed(ConstraintViolated)
              else
                && o.Advanced? && o.s.devices == s.devices && o.s.users == s.users[a.userId := u]
                && o.s.sessions == s.sessions[a.sid := x.(user := Some(a.userId), stage := Completed, verify := None,
                                                          nonce := None)]
  {
  }

  lemma CompleteVerdict(world: World, s: State, a: Action)
    requires a.Complete?
    ensures CompleteAnswers(world, s, a, ErrorOf(Result(world, s, a)), Next(world, s, a))
  {
    if a.code == "" || a.challenge == "" || a.signals == [] || !Found(world, s, a) {
      CompleteUnfound(world, s, a);
    } else {
      CompleteFound(world, s, a);
      var x := s.sessions[a.sid];
      if x.did.Some? && x.commitment.Some? {
        var c := ParseCommitment(x.commitment.value);
        if c.Some? && c.value >= 0 {
          UsersAgree(world, s, a.sid, x, a.userId, c.value);
        }
      }
    }
  }

  /** Only the session's own tenant and environment may abandon it; a completed one stays completed. */
  predicate AbandonAnswers(s: State, a: Action, error: Option<Error>, s': State)
    requires a.Abandon?
  {
    if a.sid !in s.sessions || s.sessions[a.sid].tenant != a.tenant || s.sessions[a.sid].env != a.env then
      error == Some(CodeNotFoundOrExpired) && s' == s
    else
      && error == None && s'.users == s.users && s'.devices == s.devices
      && var x := s.sessions[a.sid];
         s'.sessions == s.sessions[a.sid := x.(stage := if x.stage == Completed then Completed else Abandoned,
                                               pair := None, enroll := None, verify := None, nonce := None)]
  }

  lemma AbandonVerdict(world: World, s: State, a: Action)
    requires a.Abandon?
    ensures AbandonAnswers(s, a, ErrorOf(Result(world, s, a)), Next(world, s, a))
  {
  }

  /** Each text's hyphens go, the rest stays in order. */
  lemma {:induction false} HyphensGo(s: string, c: char)
    ensures WithoutHyphens("") == "" && WithoutHyphens(s + [c]) == WithoutHyphens(s) + (if c == '-' then "" else [c])
  {
    if s == "" {
      assert s + [c] == [c] && [c][1..] == "";
    } else {
      assert (s + [c])[1..] == s[1..] + [c];
      HyphensGo(s[1..], c);
    }
  }

  /** `^did:zeroauth:[a-z0-9_-]+:[0-9a-f]{8,80}$`, character by character. */
  lemma DidShape(s: string)
    ensures IsDid(s) <==>
            exists i ::
              && 0 <= i < |s| && s[i] == ':' && 13 < i && s[..13] == "did:zeroauth:"
              && (forall j :: 13 <= j < i ==> 'a' <= s[j] <= 'z' || '0' <= s[j] <= '9' || s[j] == '_' || s[j] == '-')
              && (forall j :: i < j < |s| ==> '0' <= s[j] <= '9' || 'a' <= s[j] <= 'f')
              && 8 <= |s[i + 1..]| <= 80
  {
    if i :| |DID_PREFIX| < i < |s| && s[i] == ':' && (forall j :: |DID_PREFIX| <= j < i ==> IsMethodChar(s[j]))
            && AllLowerHex(s[i + 1..]) && 8 <= |s| - i - 1 <= 80 && DID_PREFIX <= s
    {
      forall j | i < j < |s| ensures '0' <= s[j] <= '9' || 'a' <= s[j] <= 'f' {
        assert s[i + 1..][j - i - 1] == s[j];
      }
    }
    if i :| 0 <= i < |s| && s[i] == ':' && 13 < i && s[..13] == "did:zeroauth:"
            && (forall j :: 13 <= j < i ==> 'a' <= s[j] <= 'z' || '0' <= s[j] <= '9' || s[j] == '_' || s[j] == '-')
            && (forall j :: i < j < |s| ==> '0' <= s[j] <= '9' || 'a' <= s[j] <= 'f')
            && 8 <= |s[i + 1..]| <= 80
    {
      assert AllLowerHex(s[i + 1..]);
      assert forall j :: |DID_PREFIX| <= j < i ==> IsMethodChar(s[j]);
    }
  }

  // ---- what a completed session went through ---------------------------------

  /** This step paired the session with a device of the phone that typed its code. */
  predicate PairedBy(world: World, t: State, a: Action, sid: string, x: Session) {
    && a.PairDevice? && a.sid == sid && sid in t.sessions && t.sessions[sid].stage == AwaitingDevice
    && Fits(world, t, sid, t.sessions[sid].pair, a.code)
    && |Trim(a.fingerprint)| >= 16 && |a.fingerprint| <= 4096
    && x.device == Some(a.deviceId)
  }

  /** This step took the DID and the commitment, and gave out the nonce. */
  predicate CommittedBy(world: World, t: State, a: Action, sid: string, x: Session) {
    && a.SubmitCommitment? && a.sid == sid && sid in t.sessions && t.sessions[sid].stage == AwaitingCommitment
    && Fits(world, t, sid, t.sessions[sid].enroll, a.code)
    && IsDid(world.host.lower(Trim(a.did))) && x.did == Some(world.host.lower(Trim(a.did)))
    && IsCommitmentText(world.host.lower(Trim(a.commitment)))
    && x.commitment == Some(world.host.lower(Trim(a.commitment)))
    && (x.nonce.Some? ==> x.nonce == Some(a.nonce))
  }

  /** This step completed it: the code, the nonce, the commitment and the proof were right. */
  predicate CompletedBy(world: World, t: State, a: Action, sid: string, x: Session) {
    && a.Complete? && a.sid == sid && sid in t.sessions && t.sessions[sid].stage == AwaitingVerification
    && Fits(world, t, sid, t.sessions[sid].verify, a.code)
    && a.challenge != "" && t.sessions[sid].nonce == Some(a.challenge)
    && t.sessions[sid].did == x.did && t.sessions[sid].commitment.Some? && t.sessions[sid].commitment == x.commitment
    && a.signals != []
    && ParseCommitment(a.signals[0]).Some?
    && ParseCommitment(a.signals[0]) == ParseCommitment(t.sessions[sid].commitment.value)
    && world.verifyProof(a.proof, a.signals) && x.user == Some(a.userId)
  }

  ghost predicate WasPaired(world: World, s: State, acts: seq<Action>, sid: string, x: Session) {
    exists n :: 0 <= n < |acts| && PairedBy(world, Run(world, s, acts[..n]), acts[n], sid, x)
  }

  ghost predicate WasCommitted(world: World, s: State, acts: seq<Action>, sid: string, x: Session) {
    exists n :: 0 <= n < |acts| && CommittedBy(world, Run(world, s, acts[..n]), acts[n], sid, x)
  }

  ghost predicate WasCompleted(world: World, s: State, acts: seq<Action>, sid: string, x: Session) {
    exists n :: 0 <= n < |acts| && CompletedBy(world, Run(world, s, acts[..n]), acts[n], sid, x)
  }

  lemma PairedBefore(world: World, s: State, acts: seq<Action>, sid: string, x: Session, y: Session)
    requires acts != [] && WasPaired(world, s, acts[..|acts| - 1], sid, x) && y.device == x.device
    ensures WasPaired(world, s, acts, sid, y)
  {
    var before := acts[..|acts| - 1];
    var n :| 0 <= n < |before| && PairedBy(world, Run(world, s, before[..n]), before[n], sid, x);
    assert before[..n] == acts[..n];
    assert PairedBy(world, Run(world, s, acts[..n]), acts[n], sid, y);
  }

  lemma CommittedBefore(world: World, s: State, acts: seq<Action>, sid: string, x: Session, y: Session)
    requires acts != [] && WasCommitted(world, s, acts[..|acts| - 1], sid, x)
    requires y.did == x.did && y.commitment == x.commitment && (y.nonce == x.nonce || y.nonce == None)
    ensures WasCommitted(world, s, acts, sid, y)
  {
    var before := acts[..|acts| - 1];
    var n :| 0 <= n < |before| && CommittedBy(world, Run(world, s, before[..n]), before[n], sid, x);
    assert before[..n] == acts[..n];
    assert CommittedBy(world, Run(world, s, acts[..n]), acts[n], sid, y);
  }

  lemma CompletedBefore(world: World, s: State, acts: seq<Action>, sid: string, x: Session)
    requires acts != [] && WasCompleted(world, s, acts[..|acts| - 1], sid, x)
    ensures WasCompleted(world, s, acts, sid, x)
  {
    var before := acts[..|acts| - 1];
    var n :| 0 <= n < |before| && CompletedBy(world, Run(world, s, before[..n]), before[n], sid, x);
    assert before[..n] == acts[..n];
    assert CompletedBy(world, Run(world, s, acts[..n]), acts[n], sid, x);
  }

  /** A session with its device, with its commitment, or completed, was once taken there. */
  ghost predicate TakenThere(world: World, s: State, acts: seq<Action>, sid: string, x: Session) {
    && (x.device.Some? ==> WasPaired(world, s, acts, sid, x))
    && (x.commitment.Some? || x.did.Some? || x.nonce.Some? ==> WasCommitted(world, s, acts, sid, x))
    && (x.stage == Completed ==> WasCompleted(world, s, acts, sid, x))
  }

  /** One step later: as it was, abandoned, or taken one stage further by that very step. */
  predicate StepLeaves(world: World, mid: State, a: Action, sid: string, x: Session, y: Session) {
    || y == x
    || (x.stage != Completed
        && y == x.(stage := Abandoned, pair := None, enroll := None, verify := None, nonce := None))
    || (PairedBy(world, mid, a, sid, y) && y == x.(device := y.device, stage := AwaitingCommitment, pair := None,
                                                   enroll := y.enroll))
    || (CommittedBy(world, mid, a, sid, y) && y.device == x.device && y.stage == AwaitingVerification)
    || (CompletedBy(world, mid, a, sid, y)
        && y == x.(user := y.user, stage := Completed, verify := None, nonce := None))
  }

  /** What an answered step says of its session. */
  lemma AnswerLeaves(world: World, s: State, a: Action, error: Option<Error>, s': State)
    requires !a.OtherDeviceWriter? && a.sid in s.sessions
    requires ShapeOk(s.sessions[a.sid])
    requires match a
             case Start(_, _, _, _) => StartAnswers(world, s, a, error, s')
             case PairDevice(_, _, _, _, _) => PairAnswers(world, s, a, error, s')
             case SubmitCommitment(_, _, _, _, _, _) => SubmitAnswers(world, s, a, error, s')
             case Complete(_, _, _, _, _, _) => CompleteAnswers(world, s, a, error, s')
             case Abandon(_, _, _) => AbandonAnswers(s, a, error, s')
             case _ => false
    ensures a.sid in s'.sessions && StepLeaves(world, s, a, a.sid, s.sessions[a.sid], s'.sessions[a.sid])
  {
  }

  lemma OwnStepLeaves(world: World, s: State, a: Action, sid: string)
    requires RegistrationSafety.About(a, sid) && sid in s.sessions && Inv(world, s)
    ensures sid in Next(world, s, a).sessions
    ensures StepLeaves(world, s, a, sid, s.sessions[sid], Next(world, s, a).sessions[sid])
  {
    match a {
      case Start(_, _, _, _) => StartVerdict(world, s, a);
      case PairDevice(_, _, _, _, _) => PairVerdict(world, s, a);
      case SubmitCommitment(_, _, _, _, _, _) => SubmitVerdict(world, s, a);
      case Complete(_, _, _, _, _, _) => CompleteVerdict(world, s, a);
      case Abandon(_, _, _) => AbandonVerdict(world, s, a);
    }
    AnswerLeaves(world, s, a, ErrorOf(Result(world, s, a)), Next(world, s, a));
  }

  lemma {:induction false} StepTakes(world: World, s: State, acts: seq<Action>, sid: string)
    requires acts != []
    requires var mid := Run(world, s, acts[..|acts| - 1]);
             && Inv(world, mid) && sid in mid.sessions
             && TakenThere(world, s, acts[..|acts| - 1], sid, mid.sessions[sid])
    ensures sid in Run(world, s, acts).sessions && TakenThere(world, s, acts, sid, Run(world, s, acts).sessions[sid])
  {
    var before, a := acts[..|acts| - 1], acts[|acts| - 1];
    var mid := Run(world, s, before);
    var x := mid.sessions[sid];
    assert ShapeOk(x);
    if RegistrationSafety.About(a, sid) {
      OwnStepLeaves(world, mid, a, sid);
    } else {
      RegistrationSafety.OtherSessionsStay(world, mid, a, sid);
    }
    var y := Run(world, s, acts).sessions[sid];
    assert StepLeaves(world, mid, a, sid, x, y);
    LaterTaken(world, s, acts, sid, x, y);
  }

  lemma {:induction false} LaterTaken(world: World, s: State, acts: seq<Action>, sid: string, x: Session, y: Session)
    requires acts != [] && ShapeOk(x) && TakenThere(world, s, acts[..|acts| - 1], sid, x)
    requires StepLeaves(world, Run(world, s, acts[..|acts| - 1]), acts[|acts| - 1], sid, x, y)
    requires y.stage == AwaitingCommitment && y != x ==> x.stage == AwaitingDevice
    ensures TakenThere(world, s, acts, sid, y)
  {
    var mid, a, n := Run(world, s, acts[..|acts| - 1]), acts[|acts| - 1], |acts| - 1;
    if y.device.Some? {
      if y.device == x.device {
        PairedBefore(world, s, acts, sid, x, y);
      } else {
        assert PairedBy(world, Run(world, s, acts[..n]), acts[n], sid, y);
      }
    }
    if y.commitment.Some? || y.did.Some? || y.nonce.Some? {
      if CommittedBy(world, mid, a, sid, y) {
        assert CommittedBy(world, Run(world, s, acts[..n]), acts[n], sid, y);
      } else {
        CommittedBefore(world, s, acts, sid, x, y);
      }
    }
    if y.stage == Completed {
      if y == x {
        CompletedBefore(world, s, acts, sid, x);
      } else {
        assert CompletedBy(world, Run(world, s, acts[..n]), acts[n], sid, y);
      }
    }
  }

  lemma {:induction false} SessionsWereTaken(world: World, s: State, acts: seq<Action>, sid: string)
    requires Initial(s) && Injective(world.host.sha) && sid in Run(world, s, acts).sessions
    ensures TakenThere(world, s, acts, sid, Run(world, s, acts).sessions[sid])
    decreases |acts|
  {
    var before := acts[..|acts| - 1];
    var mid := Run(world, s, before);
    RegistrationSafety.RunKeepsInv(world, s, before);
    if sid in mid.sessions {
      SessionsWereTaken(world, s, before, sid);
      StepTakes(world, s, acts, sid);
    } else {
      RegistrationSafety.NewSessionStarts(world, mid, acts[|acts| - 1], sid);
      RegistrationSafety.RunKeepsInv(world, s, acts);
      assert ShapeOk(Run(world, s, acts).sessions[sid]);
    }
  }

  /**
   * Over every run, each completed session was completed by a step that presented
   * the code, and the nonce the server had given out with it, a first signal that
   * reads as the stored commitment, and a proof the verifier accepts over the
   * signals; the nonce and the commitment came from a step that presented the code
   * before that, with a well-formed DID and commitment, which are those stored; and
   * the device from one that presented the first code, with a fingerprint.
   */
  lemma {:induction false} CompletedHonestly(world: World, s: State, acts: seq<Action>, sid: string)
    returns (i: nat, j: nat, k: nat)
    requires Initial(s) && Injective(world.host.sha)
    requires sid in Run(world, s, acts).sessions && Run(world, s, acts).sessions[sid].stage == Completed
    ensures i < |acts| && j < k < |acts|
    ensures var x := Run(world, s, acts).sessions[sid];
            && PairedBy(world, Run(world, s, acts[..i]), acts[i], sid, x)
            && CommittedBy(world, Run(world, s, acts[..j]), acts[j], sid, x)
            && CompletedBy(world, Run(world, s, acts[..k]), acts[k], sid, x)
            && acts[k].challenge == acts[j].nonce
  {
    var x := Run(world, s, acts).sessions[sid];
    SessionsWereTaken(world, s, acts, sid);
    RegistrationSafety.RunKeepsInv(world, s, acts);
    assert ShapeOk(x);
    i := PairingStep(world, s, acts, sid, x);
    k := CompletingStep(world, s, acts, sid, x);
    j := NonceGiven(world, s, acts, sid, x, k);
  }

  lemma PairingStep(world: World, s: State, acts: seq<Action>, sid: string, x: Session) returns (i: nat)
    requires WasPaired(world, s, acts, sid, x)
    ensures i < |acts| && PairedBy(world, Run(world, s, acts[..i]), acts[i], sid, x)
  {
    i :| 0 <= i < |acts| && PairedBy(world, Run(world, s, acts[..i]), acts[i], sid, x);
  }

  lemma CompletingStep(world: World, s: State, acts: seq<Action>, sid: string, x: Session) returns (k: nat)
    requires WasCompleted(world, s, acts, sid, x)
    ensures k < |acts| && CompletedBy(world, Run(world, s, acts[..k]), acts[k], sid, x)
  {
    k :| 0 <= k < |acts| && CompletedBy(world, Run(world, s, acts[..k]), acts[k], sid, x);
  }

  lemma {:induction false} NonceGiven(world: World, s: State, acts: seq<Action>, sid: string, x: Session, k: nat)
    returns (j: nat)
    requires Initial(s) && Injective(world.host.sha) && x.nonce == None
    requires k < |acts| && CompletedBy(world, Run(world, s, acts[..k]), acts[k], sid, x)
    ensures j < k && CommittedBy(world, Run(world, s, acts[..j]), acts[j], sid, x)
    ensures acts[j].nonce == acts[k].challenge
  {
    var y := Run(world, s, acts[..k]).sessions[sid];
    SessionsWereTaken(world, s, acts[..k], sid);
    j := CommittingStep(world, s, acts[..k], sid, y);
    assert acts[..k][..j] == acts[..j];
    OnceCommitted(world, Run(world, s, acts[..j]), acts[j], sid, x, y);
  }

  lemma CommittingStep(world: World, s: State, acts: seq<Action>, sid: string, x: Session) returns (j: nat)
    requires WasCommitted(world, s, acts, sid, x)
    ensures j < |acts| && CommittedBy(world, Run(world, s, acts[..j]), acts[j], sid, x)
  {
    j :| 0 <= j < |acts| && CommittedBy(world, Run(world, s, acts[..j]), acts[j], sid, x);
  }

  lemma OnceCommitted(world: World, t: State, a: Action, sid: string, x: Session, y: Session)
    requires CommittedBy(world, t, a, sid, y) && x.did == y.did && x.commitment == y.commitment && x.nonce == None
    ensures CommittedBy(world, t, a, sid, x) && (y.nonce.Some? ==> a.nonce == y.nonce.value)
  {
  }
}
