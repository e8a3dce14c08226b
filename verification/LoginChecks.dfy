/**
 * The pure checks of `submitProof` in src/services/proof-pairing.ts: reading
 * public signals and comparing them with what the user registered and with the
 * nonce of the session.
 */
module LoginChecks {
  import opened JsText
  import opened BigIntCompare

  datatype User = User(id: string, didHash: string, commitment: string)

  datatype ErrorCode =
    | SessionNotFound | SessionExpired | SessionAlreadyBound | SessionLocked | IntegrityRejected
    | BindMismatch | DidUnknown | NonceMismatch | ProofInvalid | VerifierUnavailable | InternalError

  datatype CheckResult = Passed | Rejected(code: ErrorCode)

  /** `parseBigIntFromSignal` on a string; None where it throws. */
  function ParseSignal(raw: string): (r: Option<int>) {
    var s := Trim(raw);
    if s == "" then None else BigIntOfString(s)
  }

  /** `nonceHexToField`: exactly 62 hexadecimal digits of either case. */
  function NonceHexToField(nonceHex: string): (r: Option<int>) {
    if |nonceHex| == 62 && IsNumeral(nonceHex, 16) then Some(NumeralValue(nonceHex, 16)) else None
  }

  /** A nonce as `randomBytes(31).toString('hex')` writes it. */
  predicate IsStoredNonce(nonceHex: string) { |nonceHex| == 62 && AllLowerHex(nonceHex) }

  predicate IsNonceField(n: int) { n >= 0 && |Render(n, 16)| <= 62 }

  type Poseidon2 = (int, int) -> int

  /** Checks 5 to 7, in the order and with the error of each that fails. */
  function SignalChecks(poseidon2: Poseidon2, nonceHex: string, signals: seq<string>, user: User): (r: CheckResult) {
    if |signals| != 3 then Rejected(ProofInvalid)
    else
      var signalCommitment, storedCommitment := ParseSignal(signals[0]), ParseSignal(user.commitment);
      if signalCommitment.None? || storedCommitment.None? then Rejected(ProofInvalid)
      else if !TimingSafeBigIntEqual(signalCommitment.value, storedCommitment.value) then Rejected(DidUnknown)
      else
        var storedDidHash, nonceField := ParseSignal(user.didHash), NonceHexToField(nonceHex);
        if storedDidHash.None? then Rejected(ProofInvalid)
        else if nonceField.None? then Rejected(InternalError)
        else
          var signalDidHashSession := ParseSignal(signals[1]);
          if signalDidHashSession.None? then Rejected(ProofInvalid)
          else if !TimingSafeBigIntEqual(signalDidHashSession.value, poseidon2(storedDidHash.value, nonceField.value))
          then Rejected(NonceMismatch)
          else Passed
  }

  /**
   * Poseidon over two inputs, as far as replay protection needs it: outputs are
   * field sized and the second input, when it is a nonce, can be told from the
   * output.
   */
  ghost predicate BindsNonce(poseidon2: Poseidon2) {
    && (forall a, b {:trigger poseidon2(a, b)} :: FitsIn32Bytes(poseidon2(a, b)))
    && (forall a, b, c, d {:trigger poseidon2(a, b), poseidon2(c, d)} ::
          IsNonceField(b) && IsNonceField(d) && poseidon2(a, b) == poseidon2(c, d) ==> b == d)
  }

  lemma StoredNonceField(nonceHex: string)
    requires IsStoredNonce(nonceHex)
    ensures NonceHexToField(nonceHex).Some? && IsNonceField(NonceHexToField(nonceHex).value)
  {
    NumeralRenderLength(nonceHex, 16);
  }

  /** Different stored nonces are different field elements. */
  lemma NonceInjective(m: string, n: string)
    requires IsStoredNonce(m) && IsStoredNonce(n) && NonceHexToField(m) == NonceHexToField(n)
    ensures m == n
  {
    NumeralInjective(m, n, 16);
  }

  /** What a passed check 6 and 7 says, apart from the user's commitment. */
  lemma PassedMeans(poseidon2: Poseidon2, nonceHex: string, signals: seq<string>, user: User)
    requires SignalChecks(poseidon2, nonceHex, signals, user).Passed?
    ensures |signals| == 3 && ParseSignal(signals[1]).Some? && ParseSignal(user.didHash).Some?
    ensures NonceHexToField(nonceHex).Some?
    ensures TimingSafeBigIntEqual(ParseSignal(signals[1]).value,
                                  poseidon2(ParseSignal(user.didHash).value, NonceHexToField(nonceHex).value))
  {
  }

  /** Which verdict in which case: a malformed input is reported only if no comparison failed before it was read. */
  lemma CheckVerdicts(poseidon2: Poseidon2, nonceHex: string, signals: seq<string>, user: User)
    ensures var r, c, g := SignalChecks(poseidon2, nonceHex, signals, user), ParseSignal(user.commitment),
                           ParseSignal(user.didHash);
            && (|signals| != 3 ==> r == Rejected(ProofInvalid))
            && (|signals| == 3 ==>
                  var x, y, n := ParseSignal(signals[0]), ParseSignal(signals[1]), NonceHexToField(nonceHex);
                  && (x.None? || c.None? ==> r == Rejected(ProofInvalid))
                  && (x.Some? && c.Some? ==>
                        && (r == Rejected(DidUnknown) <==> !TimingSafeBigIntEqual(x.value, c.value))
                        && (TimingSafeBigIntEqual(x.value, c.value) ==>
                              && (g.None? ==> r == Rejected(ProofInvalid))
                              && (g.Some? && n.None? ==> r == Rejected(InternalError))
                              && (g.Some? && n.Some? && y.None? ==> r == Rejected(ProofInvalid))
                              && (g.Some? && n.Some? && y.Some? ==>
                                    var agree := TimingSafeBigIntEqual(y.value, poseidon2(g.value, n.value));
                                    (agree ==> r == Passed) && (!agree ==> r == Rejected(NonceMismatch))))))
  {
  }

  /** A value that compares equal to two Poseidon outputs has only one nonce behind it. */
  lemma OneNoncePerValue(poseidon2: Poseidon2, v: int, g: int, m: int, h: int, n: int)
    requires BindsNonce(poseidon2) && IsNonceField(m) && IsNonceField(n)
    requires TimingSafeBigIntEqual(v, poseidon2(g, m)) && TimingSafeBigIntEqual(v, poseidon2(h, n))
    ensures m == n
  {
    FieldSizedEqual(poseidon2(g, m), poseidon2(h, n));
  }

  /** One value of public signal 1 passes the nonce check under one nonce only, whoever the users are. */
  lemma SignalFixesNonce(poseidon2: Poseidon2, m: string, u: User, x: seq<string>, n: string, v: User, y: seq<string>)
    requires BindsNonce(poseidon2) && IsStoredNonce(m) && IsStoredNonce(n)
    requires SignalChecks(poseidon2, m, x, u).Passed? && SignalChecks(poseidon2, n, y, v).Passed?
    requires |x| == |y| == 3 && ParseSignal(x[1]) == ParseSignal(y[1])
    ensures m == n
  {
    PassedMeans(poseidon2, m, x, u);
    PassedMeans(poseidon2, n, y, v);
    StoredNonceField(m);
    StoredNonceField(n);
    var signal, g, h := ParseSignal(x[1]).value, ParseSignal(u.didHash).value, ParseSignal(v.didHash).value;
    OneNoncePerValue(poseidon2, signal, g, NonceHexToField(m).value, h, NonceHexToField(n).value);
    NonceInjective(m, n);
  }
}
