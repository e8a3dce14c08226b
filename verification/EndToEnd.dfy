/**
 * From the signup ceremony of src/services/registration.ts to the login of
 * src/services/proof-pairing.ts: the users one creates are the users the other
 * looks up.
 */
module EndToEnd {
  import opened JsText
  import opened Tenancy
  import opened Runtime
  import opened LoginAgreement
  import opened Registration
  import RegistrationSafety
  import LoginChecks
  import Pairing
  import PairingSafety

  // ---- the lookup by DID -----------------------------------------------------

  /** What `findUserByDid` reads from the metadata of a ceremony user. */
  function LoginUser(uid: string, u: User): (l: LoginChecks.User) {
    LoginChecks.User(uid, u.didHash, u.commitmentDecimal)
  }

  predicate Owns(users: map<string, User>, uid: string, tenant: string, env: Environment, did: string) {
    uid in users && users[uid].tenant == tenant && users[uid].env == env && users[uid].did == did
  }

  /** `findUserByDid`: some row of the tenant and environment with this DID, LIMIT 1. */
  ghost function FindUserByDid(users: map<string, User>, tenant: string, env: Environment, did: string)
    : (l: Option<LoginChecks.User>)
  {
    if exists uid :: Owns(users, uid, tenant, env, did) then
      var uid :| Owns(users, uid, tenant, env, did);
      Some(LoginUser(uid, users[uid]))
    else None
  }

  /** The user map of the pairing protocol is what the lookup finds. */
  ghost predicate Feeds(users: map<string, User>, table: map<Pairing.DidKey, LoginChecks.User>) {
    forall key {:trigger key in table} ::
      && (key in table <==> FindUserByDid(users, key.tenant, key.env, key.did).Some?)
      && (key in table ==> Some(table[key]) == FindUserByDid(users, key.tenant, key.env, key.did))
  }

  /** In every reachable state the lookup by a ceremony user's own DID finds that very user. */
  lemma {:induction false} CeremonyUserIsFound(world: World, s: State, acts: seq<Action>, uid: string)
    requires Initial(s) && Injective(world.host.sha) && uid in Run(world, s, acts).users
    ensures var users := Run(world, s, acts).users;
            FindUserByDid(users, users[uid].tenant, users[uid].env, users[uid].did) == Some(LoginUser(uid, users[uid]))
  {
    RegistrationSafety.RunKeepsInv(world, s, acts);
    var users := Run(world, s, acts).users;
    assert Owns(users, uid, users[uid].tenant, users[uid].env, users[uid].did);
  }

  // ---- the ceremony's users at login -------------------------------------------

  /** A reachable user carries the lookup values of the element the server read. */
  lemma {:induction false} StoredValues(world: World, s: State, acts: seq<Action>, uid: string)
    requires Initial(s) && Injective(world.host.sha) && uid in Run(world, s, acts).users
    ensures var u := Run(world, s, acts).users[uid];
            && IsCommitmentText(u.commitment)
            && ParseCommitment(u.commitment).Some? && ParseCommitment(u.commitment).value >= 0
            && LoginUser(uid, u) == RegisteredUser(world.poseidon1, uid, ParseCommitment(u.commitment).value)
  {
    RegistrationSafety.RunKeepsInv(world, s, acts);
    var t := Run(world, s, acts);
    var u := t.users[uid];
    assert UserOf(world, t, u.session, uid);
    assert CommitmentOk(t.sessions[u.session]);
    RegisteredAsSent(u.commitment);
  }

  /**
   * End to end: a login under the DID of any completed session's user is checked
   * against that very user, and passes the commitment and nonce checks exactly
   * with three signals of which the first denotes the element c the server read
   * at registration, and the second Poseidon2(Poseidon1(c), nonce); and c is the
   * element the phone sent unless the phone sent digits only.
   */
  lemma {:induction false} CeremonyUsersLogIn(world: World, s: State, acts: seq<Action>, uid: string,
                                              sha256: string -> string, poseidon2: LoginChecks.Poseidon2,
                                              verify: (string, seq<string>) -> bool, p: Pairing.State,
                                              req: Pairing.Request, row: Pairing.Row, gate: int)
    requires Initial(s) && Injective(world.host.sha) && uid in Run(world, s, acts).users
    requires LoginChecks.BindsNonce(poseidon2) && LoginChecks.IsStoredNonce(row.nonceHex)
    requires Feeds(Run(world, s, acts).users, p.users)
    requires Owns(Run(world, s, acts).users, uid, req.tenant, req.env, req.did)
    ensures var u := Run(world, s, acts).users[uid];
            && IsCommitmentText(u.commitment) && ParseCommitment(u.commitment).Some?
            && LoginChecks.NonceHexToField(row.nonceHex).Some?
            && var c, n := ParseCommitment(u.commitment).value, LoginChecks.NonceHexToField(row.nonceHex).value;
               && c >= 0 && poseidon2(world.poseidon1(c), n) >= 0
               && (c == SentValue(u.commitment) <==>
                     "0x" <= u.commitment || HasHexLetter(u.commitment) || SentValue(u.commitment) < 10)
               && var phase := Pairing.LookupResult(Pairing.SourceWorld(sha256, poseidon2, verify), p, req, row, gate);
                  && (phase.Proving? <==> && |req.signals| == 3 && Denotes(req.signals[0], c)
                                          && Denotes(req.signals[1], poseidon2(world.poseidon1(c), n)))
                  && (phase.Proving? ==> phase.user == LoginUser(uid, u))
  {
    var u := Run(world, s, acts).users[uid];
    var key := Pairing.DidKey(req.tenant, req.env, req.did);
    StoredValues(world, s, acts, uid);
    RegisteredAsSent(u.commitment);
    CeremonyUserIsFound(world, s, acts, uid);
    LoginChecks.StoredNonceField(row.nonceHex);
    var c, n := ParseCommitment(u.commitment).value, LoginChecks.NonceHexToField(row.nonceHex).value;
    assert key in p.users && p.users[key] == LoginUser(uid, u);
    LookupOf(sha256, poseidon2, verify, p, req, row, gate, LoginUser(uid, u));
    if |req.signals| == 3 {
      RegistrationLoginAgreement(world.poseidon1, poseidon2, uid, c, row.nonceHex, req.signals);
    } else {
      RegistrationLoginAgreement(world.poseidon1, poseidon2, uid, c, row.nonceHex, ["", "", ""]);
    }
  }

  /** The lookup step of a submit whose user is known. */
  lemma LookupOf(sha256: string -> string, poseidon2: LoginChecks.Poseidon2, verify: (string, seq<string>) -> bool,
                 p: Pairing.State, req: Pairing.Request, row: Pairing.Row, gate: int, user: LoginChecks.User)
    requires Pairing.DidKey(req.tenant, req.env, req.did) in p.users
    requires p.users[Pairing.DidKey(req.tenant, req.env, req.did)] == user
    ensures var phase := Pairing.LookupResult(Pairing.SourceWorld(sha256, poseidon2, verify), p, req, row, gate);
            && (phase.Proving? <==> LoginChecks.SignalChecks(poseidon2, row.nonceHex, req.signals, user).Passed?)
            && (phase.Proving? ==> phase.user == user)
    ensures |req.signals| != 3 ==> !LoginChecks.SignalChecks(poseidon2, row.nonceHex, req.signals, user).Passed?
  {
  }

  // ---- every consumed session ---------------------------------------------------

  /** What the lookup finds at some moment of the ceremony's run. */
  ghost predicate FedBy(world: World, s: State, acts: seq<Action>, table: map<Pairing.DidKey, LoginChecks.User>) {
    exists k: nat :: k <= |acts| && Feeds(Run(world, s, acts[..k]).users, table)
  }

  /** The two systems run side by side: whenever a login looks, it sees users of some moment of the ceremony. */
  ghost predicate SideBySide(world: World, s: State, acts: seq<Action>, w: Pairing.World, p: Pairing.State,
                             logins: seq<Pairing.Action>) {
    forall m: nat :: m <= |logins| ==> FedBy(world, s, acts, Pairing.Run(w, p, logins[..m]).users)
  }

  lemma FoundIsOwner(users: map<string, User>, tenant: string, env: Environment, did: string) returns (uid: string)
    requires FindUserByDid(users, tenant, env, did).Some?
    ensures Owns(users, uid, tenant, env, did)
    ensures FindUserByDid(users, tenant, env, did) == Some(LoginUser(uid, users[uid]))
  {
    uid :| Owns(users, uid, tenant, env, did)
           && FindUserByDid(users, tenant, env, did) == Some(LoginUser(uid, users[uid]));
  }

  lemma StepKeepsUser(world: World, s: State, a: Action, uid: string)
    requires uid in s.users
    ensures uid in Next(world, s, a).users && Next(world, s, a).users[uid] == s.users[uid]
  {
    if Result(world, s, a).Advanced? {
      match a {
        case Start(_, _, _, _) =>
        case PairDevice(_, _, _, _, _) => RegistrationSafety.PairEffect(world, s, a);
        case SubmitCommitment(_, _, _, _, _, _) => RegistrationSafety.SubmitEffect(world, s, a);
        case Complete(_, _, _, _, _, _) => RegistrationSafety.CompleteEffect(world, s, a);
        case Abandon(_, _, _) =>
        case OtherDeviceWriter(_) =>
      }
    }
  }

  /** No user of the ceremony ever goes or changes. */
  lemma {:induction false} UsersStay(world: World, s: State, acts: seq<Action>, k: nat, uid: string)
    requires k <= |acts| && uid in Run(world, s, acts[..k]).users
    ensures uid in Run(world, s, acts).users
    ensures Run(world, s, acts).users[uid] == Run(world, s, acts[..k]).users[uid]
    decreases |acts|
  {
    if k < |acts| {
      var before := acts[..|acts| - 1];
      assert before[..k] == acts[..k];
      UsersStay(world, s, before, k, uid);
      StepKeepsUser(world, Run(world, s, before), acts[|acts| - 1], uid);
    } else {
      assert acts[..k] == acts;
    }
  }

  /** The user a submit past its checks was checked against is the ceremony's owner of its DID. */
  lemma {:induction false} CheckedAgainstOwner(world: World, s: State, acts: seq<Action>, w: Pairing.World,
                                               p: Pairing.State, logins: seq<Pairing.Action>, c: nat)
    returns (uid: string)
    requires Pairing.Initial(p) && SideBySide(world, s, acts, w, p, logins)
    requires c in Pairing.Run(w, p, logins).submits
    requires PairingSafety.PassedNonceCheck(Pairing.Run(w, p, logins).submits[c].phase)
    ensures var users, sub := Run(world, s, acts).users, Pairing.Run(w, p, logins).submits[c];
            && Owns(users, uid, sub.req.tenant, sub.req.env, sub.req.did)
            && sub.phase.user == LoginUser(uid, users[uid])
  {
    var sub := Pairing.Run(w, p, logins).submits[c];
    var n := PairingSafety.CheckedAgainstOwnUser(w, p, logins, c);
    var table := Pairing.Run(w, p, logins[..n]).users;
    assert FedBy(world, s, acts, table);
    var k: nat :| k <= |acts| && Feeds(Run(world, s, acts[..k]).users, table);
    assert PairingSafety.KeyOf(sub.req) in table;
    uid := FoundIsOwner(Run(world, s, acts[..k]).users, sub.req.tenant, sub.req.env, sub.req.did);
    UsersStay(world, s, acts, k, uid);
  }

  /** The signals denote the element c that the server read at registration, and its fold with the nonce. */
  predicate SignalsOf(world: World, poseidon2: LoginChecks.Poseidon2, u: User, nonceHex: string, signals: seq<string>) {
    && |signals| == 3 && LoginChecks.NonceHexToField(nonceHex).Some?
    && ParseCommitment(u.commitment).Some? && ParseCommitment(u.commitment).value >= 0
    && var c, n := ParseCommitment(u.commitment).value, LoginChecks.NonceHexToField(nonceHex).value;
       && poseidon2(world.poseidon1(c), n) >= 0
       && Denotes(signals[0], c) && Denotes(signals[1], poseidon2(world.poseidon1(c), n))
  }

  /**
   * Over every run of logins beside every run of ceremonies: a consumed session
   * was won by exactly the submit c and is bound to uid, the ceremony user who
   * owns the DID that submit presented and whose own signup was completed; and
   * the proof c gave verified over signals that denote this user's element and
   * its fold with this session's nonce.
   */
  lemma {:induction false} ConsumedByItsOwner(world: World, s: State, acts: seq<Action>, sha256: string -> string,
                                              poseidon2: LoginChecks.Poseidon2,
                                              verify: (string, seq<string>) -> bool,
                                              p: Pairing.State, logins: seq<Pairing.Action>, id: string)
    returns (c: nat, uid: string)
    requires Initial(s) && Injective(world.host.sha) && Pairing.Initial(p) && LoginChecks.BindsNonce(poseidon2)
    requires SideBySide(world, s, acts, Pairing.SourceWorld(sha256, poseidon2, verify), p, logins)
    requires var t := Pairing.Run(Pairing.SourceWorld(sha256, poseidon2, verify), p, logins);
             id in t.rows && t.rows[id].state == Pairing.Consumed
    ensures var t, end := Pairing.Run(Pairing.SourceWorld(sha256, poseidon2, verify), p, logins), Run(world, s, acts);
            && Pairing.IsWinner(t, c, id)
            && var req := t.submits[c].req;
               && Owns(end.users, uid, req.tenant, req.env, req.did) && t.rows[id].consumedUser == Some(uid)
               && var u := end.users[uid];
                  && u.session in end.sessions && end.sessions[u.session].stage == Completed
                  && end.sessions[u.session].user == Some(uid)
                  && SignalsOf(world, poseidon2, u, t.rows[id].nonceHex, req.signals)
                  && verify(req.proof, req.signals)
  {
    var w := Pairing.SourceWorld(sha256, poseidon2, verify);
    var t, end := Pairing.Run(w, p, logins), Run(world, s, acts);
    Pairing.ReachableInv(w, p, logins);
    c :| Pairing.IsWinner(t, c, id);
    PairingSafety.WinnerPassed(w, t, c, id);
    uid := CheckedAgainstOwner(world, s, acts, w, p, logins, c);
    var req := t.submits[c].req;
    StoredValues(world, s, acts, uid);
    RegistrationSafety.OneUserPerCompletedSession(world, s, acts);
    assert Pairing.RowOk(t.rows[id], t.now);
    OwnerSignals(world, poseidon2, uid, end.users[uid], t.rows[id].nonceHex, req.signals);
  }

  lemma OwnerSignals(world: World, poseidon2: LoginChecks.Poseidon2, uid: string, u: User, nonceHex: string,
                     signals: seq<string>)
    requires LoginChecks.BindsNonce(poseidon2) && LoginChecks.IsStoredNonce(nonceHex)
    requires ParseCommitment(u.commitment).Some? && ParseCommitment(u.commitment).value >= 0
    requires LoginUser(uid, u) == RegisteredUser(world.poseidon1, uid, ParseCommitment(u.commitment).value)
    requires LoginChecks.SignalChecks(poseidon2, nonceHex, signals, LoginUser(uid, u)).Passed?
    ensures SignalsOf(world, poseidon2, u, nonceHex, signals)
  {
    LoginChecks.PassedMeans(poseidon2, nonceHex, signals, LoginUser(uid, u));
    RegistrationLoginAgreement(world.poseidon1, poseidon2, uid, ParseCommitment(u.commitment).value, nonceHex, signals);
  }
}
