/**
 * The three-QR signup ceremony of src/services/registration.ts. Each step is one
 * transaction that locks its session row, so each is one step here; device rows
 * are shared with every other writer of the devices table.
 */
module Registration {
  import opened JsText
  import opened Runtime
  import opened EnrollmentCode
  import opened Tenancy
  import opened LoginAgreement
  import Devices

  const REGISTRATION_SESSION_TTL_MS := 30 * 60 * 1000

  datatype Stage = AwaitingDevice | AwaitingCommitment | AwaitingVerification | Completed | Abandoned

  /** Which of the three codes. */
  datatype Step = PairStep | EnrollStep | VerifyStep

  datatype Code = Code(hash: string, expiresAt: int)

  datatype Session = Session(
    tenant: string, env: Environment, stage: Stage, device: Option<string>, did: Option<string>,
    commitment: Option<string>, user: Option<string>, pair: Option<Code>, enroll: Option<Code>,
    verify: Option<Code>, nonce: Option<string>, expiresAt: int)

  /** A tenant user created by a ceremony, with the lookup values in its metadata. */
  datatype User = User(
    tenant: string, env: Environment, externalId: string, did: string, commitment: string,
    session: string, didHash: string, commitmentDecimal: string)

  /** Bookkeeping of the model: what each plaintext code was minted for, and which codes advanced a session. */
  datatype Mint = Mint(session: string, step: Step, expiresAt: int)
  datatype Advance = Advance(code: string, session: string, step: Step, at: int)

  datatype State = State(
    sessions: map<string, Session>, users: map<string, User>, devices: Devices.Table,
    minted: map<string, Mint>, advances: seq<Advance>)

  datatype World = World(host: Host, poseidon1: int -> nat, verifyProof: (string, seq<string>) -> bool)

  datatype Error =
    | InvalidFingerprint | InvalidCommitment | CodeNotFoundOrExpired | CommitmentMismatch
    | ChallengeMismatch | ProofVerificationFailed | ConstraintViolated

  datatype Outcome = Advanced(s: State) | Failed(error: Error)

  datatype Action =
    | Start(sid: string, tenant: string, env: Environment, code: string)
    | PairDevice(sid: string, code: string, fingerprint: string, deviceId: string, nextCode: string)
    | SubmitCommitment(sid: string, code: string, did: string, commitment: string, nextCode: string, nonce: string)
    | Complete(sid: string, code: string, challenge: string, proof: string, signals: seq<string>, userId: string)
    | Abandon(sid: string, tenant: string, env: Environment)
    | OtherDeviceWriter(a: Devices.Action)

  // ---- input shapes --------------------------------------------------------

  predicate IsMethodChar(c: char) { 'a' <= c <= 'z' || IsDigit(c) || c == '_' || c == '-' }

  const DID_PREFIX := "did:zeroauth:"

  /** `^did:zeroauth:[a-z0-9_-]+:[0-9a-f]{8,80}$`. */
  predicate IsDid(s: string) {
    DID_PREFIX <= s &&
    exists i :: |DID_PREFIX| < i < |s| && s[i] == ':'
                && (forall j :: |DID_PREFIX| <= j < i ==> IsMethodChar(s[j]))
                && AllLowerHex(s[i + 1..]) && 8 <= |s| - i - 1 <= 80
  }

  /** `user_` and the session id's first 12 characters without hyphens. */
  function UserExternalId(sid: string): (ext: string) {
    "user_" + WithoutHyphens(if |sid| <= 12 then sid else sid[..12])
  }

  function WithoutHyphens(s: string): (t: string) {
    if s == "" then "" else (if s[0] == '-' then "" else [s[0]]) + WithoutHyphens(s[1..])
  }

  // ---- the four transactions and abandon ------------------------------------

  function Now(s: State): (now: int) { s.devices.now }

  /** A code the supply has not given out before. */
  predicate FreshCode(s: State, code: string) { IsGenerated(code) && code !in s.minted }

  function Minted(s: State, code: string, sid: string, step: Step): (s': State) {
    s.(minted := s.minted[code := Mint(sid, step, Now(s) + ENROLLMENT_CODE_TTL_MS)])
  }

  function NewCode(world: World, s: State, code: string): (c: Code) {
    Code(world.host.sha(code), Now(s) + ENROLLMENT_CODE_TTL_MS)
  }

  /** The WHERE clause of the step's SELECT … FOR UPDATE; each step looks only at its own column. */
  predicate CodeMatches(world: World, s: State, sid: string, stage: Stage, column: Option<Code>, typed: string)
    requires sid in s.sessions
  {
    && s.sessions[sid].stage == stage
    && column.Some? && column.value.hash == world.host.sha(NormaliseEnrollmentCode(world.host.upper, typed))
    && column.value.expiresAt > Now(s)
    && s.sessions[sid].expiresAt > Now(s)
  }

  function Recorded(world: World, s: State, typed: string, sid: string, step: Step): (s': State) {
    s.(advances := s.advances + [Advance(NormaliseEnrollmentCode(world.host.upper, typed), sid, step, Now(s))])
  }

  function StartRegistration(world: World, s: State, a: Action): (r: Outcome)
    requires a.Start?
  {
    if a.sid in s.sessions || !FreshCode(s, a.code) then Failed(ConstraintViolated)
    else
      var session := Session(a.tenant, a.env, AwaitingDevice, None, None, None, None,
                             Some(NewCode(world, s, a.code)), None, None, None,
                             Now(s) + REGISTRATION_SESSION_TTL_MS);
      Advanced(Minted(s, a.code, a.sid, PairStep).(sessions := s.sessions[a.sid := session]))
  }

  function PairDeviceForRegistration(world: World, s: State, a: Action): (r: Outcome)
    requires a.PairDevice?
  {
    if !IsValidFingerprint(a.fingerprint) then Failed(InvalidFingerprint)
    else if !(a.sid in s.sessions && CodeMatches(world, s, a.sid, AwaitingDevice, s.sessions[a.sid].pair, a.code)) then
      Failed(CodeNotFoundOrExpired)
    else
      var session := s.sessions[a.sid];
      var fpHash := world.host.sha(a.fingerprint);
      var devices := Devices.Upserted(s.devices, a.deviceId, session.tenant, session.env, fpHash, PhoneDetails(a.sid));
      if !FreshCode(s, a.nextCode) || !PairedRow(devices, a.deviceId, session, fpHash) then Failed(ConstraintViolated)
      else
        var next := session.(device := Some(a.deviceId), stage := AwaitingCommitment, pair := None,
                             enroll := Some(NewCode(world, s, a.nextCode)));
        Advanced(Recorded(world, Minted(s, a.nextCode, a.sid, EnrollStep), a.code, a.sid, PairStep)
                 .(sessions := s.sessions[a.sid := next], devices := devices))
  }

  /**
   * Name and metadata of a device the ceremony registers; the session id is a
   * UUID, so its JSON text needs no escapes.
   */
  function PhoneDetails(sid: string): (d: Devices.Details) {
    Devices.Details("Registration device (" + (if |sid| <= 8 then sid else sid[..8]) + ")", None, None,
                    "{\"via\":\"registration\",\"sessionId\":\"" + sid + "\"}", None)
  }

  /** The row the upsert returns. */
  predicate PairedRow(devices: Devices.Table, id: string, session: Session, fpHash: string) {
    && id in devices.rows
    && devices.rows[id].tenant == session.tenant && devices.rows[id].env == session.env
    && devices.rows[id].fingerprintHash == Some(fpHash) && devices.rows[id].enrollment == Devices.Enrolled
  }

  function SubmitCommitmentForRegistration(world: World, s: State, a: Action): (r: Outcome)
    requires a.SubmitCommitment?
  {
    var did, commitment := world.host.lower(Trim(a.did)), world.host.lower(Trim(a.commitment));
    if !IsDid(did) || !IsCommitmentText(commitment) then Failed(InvalidCommitment)
    else if !(a.sid in s.sessions && CodeMatches(world, s, a.sid, AwaitingCommitment, s.sessions[a.sid].enroll, a.code))
    then Failed(CodeNotFoundOrExpired)
    else if !FreshCode(s, a.nextCode) then Failed(ConstraintViolated)
    else
      var next := s.sessions[a.sid].(did := Some(did), commitment := Some(commitment), enroll := None,
                                     verify := Some(NewCode(world, s, a.nextCode)), nonce := Some(a.nonce),
                                     stage := AwaitingVerification);
      Advanced(Recorded(world, Minted(s, a.nextCode, a.sid, VerifyStep), a.code, a.sid, EnrollStep)
               .(sessions := s.sessions[a.sid := next]))
  }

  predicate UserRefused(users: map<string, User>, id: string, u: User) {
    || id in users
    || exists k :: k in users && users[k].tenant == u.tenant && users[k].env == u.env
                   && (users[k].externalId == u.externalId || users[k].did == u.did)
  }

  function NewUser(world: World, sid: string, session: Session, c: int): (u: User)
    requires session.did.Some? && session.commitment.Some? && c >= 0
  {
    User(session.tenant, session.env, UserExternalId(sid), session.did.value, session.commitment.value, sid,
         Render(world.poseidon1(c), 10), Render(c, 10))
  }

  function CompleteRegistration(world: World, s: State, a: Action): (r: Outcome)
    requires a.Complete?
  {
    if a.code == "" then Failed(CodeNotFoundOrExpired)
    else if a.challenge == "" then Failed(ChallengeMismatch)
    else if a.signals == [] then Failed(ProofVerificationFailed)
    else if !(a.sid in s.sessions && CodeMatches(world, s, a.sid, AwaitingVerification, s.sessions[a.sid].verify,
                                                 a.code))
    then Failed(CodeNotFoundOrExpired)
    else
      var session := s.sessions[a.sid];
      if session.nonce != Some(a.challenge) then Failed(ChallengeMismatch)
      else if session.commitment.None? || session.did.None? then Failed(CommitmentMismatch)
      else if !CommitmentsEqual(a.signals[0], session.commitment.value) then Failed(CommitmentMismatch)
      else if !world.verifyProof(a.proof, a.signals) then Failed(ProofVerificationFailed)
      else
        var c := ParseCommitment(session.commitment.value);
        if c.None? || c.value < 0 then Failed(CommitmentMismatch)
        else
          var u := NewUser(world, a.sid, session, c.value);
          if UserRefused(s.users, a.userId, u) then Failed(ConstraintViolated)
          else
            var next := session.(user := Some(a.userId), stage := Completed, verify := None, nonce := None);
            Advanced(Recorded(world, s, a.code, a.sid, VerifyStep)
                     .(sessions := s.sessions[a.sid := next], users := s.users[a.userId := u]))
  }

  function AbandonRegistration(s: State, a: Action): (r: Outcome)
    requires a.Abandon?
  {
    if a.sid !in s.sessions || s.sessions[a.sid].tenant != a.tenant || s.sessions[a.sid].env != a.env then
      Failed(CodeNotFoundOrExpired)
    else
      var session := s.sessions[a.sid];
      var next := session.(stage := if session.stage == Completed then Completed else Abandoned,
                           pair := None, enroll := None, verify := None, nonce := None);
      Advanced(s.(sessions := s.sessions[a.sid := next]))
  }

  function Result(world: World, s: State, a: Action): (r: Outcome) {
    match a
    case Start(_, _, _, _) => StartRegistration(world, s, a)
    case PairDevice(_, _, _, _, _) => PairDeviceForRegistration(world, s, a)
    case SubmitCommitment(_, _, _, _, _, _) => SubmitCommitmentForRegistration(world, s, a)
    case Complete(_, _, _, _, _, _) => CompleteRegistration(world, s, a)
    case Abandon(_, _, _) => AbandonRegistration(s, a)
    case OtherDeviceWriter(d) => Advanced(s.(devices := Devices.Next(world.host, s.devices, d)))
  }

  /** A failed transaction is rolled back. */
  function Next(world: World, s: State, a: Action): (s': State) {
    match Result(world, s, a)
    case Advanced(s') => s'
    case Failed(_) => s
  }

  function Run(world: World, s: State, acts: seq<Action>): (s': State)
    decreases |acts|
  {
    if acts == [] then s else Next(world, Run(world, s, acts[..|acts| - 1]), acts[|acts| - 1])
  }

  predicate Initial(s: State) {
    s.sessions == map[] && s.users == map[] && s.minted == map[] && s.advances == [] && Devices.Initial(s.devices)
  }

  // ---- the invariant -------------------------------------------------------

  /** The stage fixes which code is outstanding and which fields are set. */
  predicate ShapeOk(x: Session) {
    match x.stage
    case AwaitingDevice =>
      && x.pair.Some? && x.enroll.None? && x.verify.None? && x.nonce.None?
      && x.device.None? && x.did.None? && x.commitment.None? && x.user.None?
    case AwaitingCommitment =>
      && x.pair.None? && x.enroll.Some? && x.verify.None? && x.nonce.None?
      && x.device.Some? && x.did.None? && x.commitment.None? && x.user.None?
    case AwaitingVerification =>
      && x.pair.None? && x.enroll.None? && x.verify.Some? && x.nonce.Some?
      && x.device.Some? && x.did.Some? && x.commitment.Some? && x.user.None?
    case Completed =>
      && x.pair.None? && x.enroll.None? && x.verify.None? && x.nonce.None?
      && x.device.Some? && x.did.Some? && x.commitment.Some? && x.user.Some?
    case Abandoned =>
      x.pair.None? && x.enroll.None? && x.verify.None? && x.nonce.None? && x.user.None?
  }

  function Column(x: Session, step: Step): (c: Option<Code>) {
    match step case PairStep => x.pair case EnrollStep => x.enroll case VerifyStep => x.verify
  }

  /** The outstanding code of a column is one minted for it and never used. */
  predicate OutstandingOk(world: World, s: State, sid: string, step: Step, code: Code) {
    exists text :: text in s.minted && world.host.sha(text) == code.hash
                   && s.minted[text] == Mint(sid, step, code.expiresAt) && Unused(s, text)
  }

  predicate Unused(s: State, text: string) {
    forall i :: 0 <= i < |s.advances| ==> s.advances[i].code != text
  }

  predicate AdvanceOk(s: State, v: Advance) {
    && v.code in s.minted
    && s.minted[v.code].session == v.session && s.minted[v.code].step == v.step
    && v.at < s.minted[v.code].expiresAt
  }

  predicate CommitmentOk(x: Session) { x.commitment.Some? ==> IsCommitmentText(x.commitment.value) }

  /** The user of a completed session carries the lookup values login recomputes. */
  predicate UserOf(world: World, s: State, sid: string, uid: string) {
    && sid in s.sessions && uid in s.users
    && s.sessions[sid].stage == Completed && s.sessions[sid].user == Some(uid)
    && s.sessions[sid].did.Some? && s.sessions[sid].commitment.Some?
    && var c := ParseCommitment(s.sessions[sid].commitment.value);
       c.Some? && c.value >= 0 && s.users[uid] == NewUser(world, sid, s.sessions[sid], c.value)
  }

  ghost predicate CodesOk(world: World, s: State) {
    && (forall sid, step {:trigger Column(s.sessions[sid], step)} ::
          sid in s.sessions && Column(s.sessions[sid], step).Some? ==>
            OutstandingOk(world, s, sid, step, Column(s.sessions[sid], step).value))
    && (forall i :: 0 <= i < |s.advances| ==> AdvanceOk(s, s.advances[i]))
    && (forall i, j :: 0 <= i < j < |s.advances| ==> s.advances[i].code != s.advances[j].code)
  }

  ghost predicate SessionsOk(s: State) {
    forall sid :: sid in s.sessions ==> ShapeOk(s.sessions[sid]) && CommitmentOk(s.sessions[sid])
  }

  ghost predicate UsersOk(world: World, s: State) {
    && (forall sid :: sid in s.sessions && s.sessions[sid].stage == Completed && s.sessions[sid].user.Some? ==>
          UserOf(world, s, sid, s.sessions[sid].user.value))
    && (forall uid :: uid in s.users ==> UserOf(world, s, s.users[uid].session, uid))
    && DidsUnique(s.users)
  }

  /** The unique index on (tenant_id, environment, did). */
  predicate DidsUnique(users: map<string, User>) {
    forall i, j ::
      i in users && j in users && i != j && users[i].tenant == users[j].tenant && users[i].env == users[j].env ==>
        users[i].did != users[j].did
  }

  ghost predicate Inv(world: World, s: State) {
    SessionsOk(s) && CodesOk(world, s) && UsersOk(world, s) && Devices.Inv(s.devices)
  }
}
