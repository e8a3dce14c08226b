/**
 * What registration stores and what login later compares, src/services/registration.ts
 * and src/services/proof-pairing.ts: a commitment travels as hexadecimal text to
 * the session row, as decimal text to the user's metadata and as decimal text in
 * the public signals, through two different parsers.
 */
module LoginAgreement {
  import opened JsText
  import opened BigIntCompare
  import opened LoginChecks

  predicate HasHexLetter(s: string) {
    exists i :: 0 <= i < |s| && ('a' <= s[i] <= 'f' || 'A' <= s[i] <= 'F')
  }

  /** `parseCommitmentBigInt` on a string; None stands for null. */
  function ParseCommitment(raw: string): (r: Option<int>) {
    var trimmed := Trim(raw);
    if trimmed == "" then None
    else if HasRadixPrefix(trimmed, 'x', 'X') then BigIntOfString(trimmed)
    else if HasHexLetter(trimmed) then BigIntOfString("0x" + trimmed)
    else BigIntOfString(trimmed)
  }

  /** Hexadecimal with a 0x prefix or a letter from a to f of either case, anything else as `BigInt` reads it. */
  lemma ParseCommitmentIs(raw: string)
    ensures var t := Trim(raw);
            && (t == "" ==> ParseCommitment(raw) == None)
            && (t != "" && |t| >= 2 && t[0] == '0' && t[1] in ['x', 'X'] ==> ParseCommitment(raw) == BigIntOfString(t))
            && (t != "" && !(|t| >= 2 && t[0] == '0' && t[1] in ['x', 'X']) ==>
                  ParseCommitment(raw)
                  == BigIntOfString(if exists i :: 0 <= i < |t| && t[i] in "abcdefABCDEF" then "0x" + t else t))
  {
    var t := Trim(raw);
    forall i | 0 <= i < |t| ensures t[i] in "abcdefABCDEF" <==> 'a' <= t[i] <= 'f' || 'A' <= t[i] <= 'F' {
      LettersAre(t[i]);
    }
  }

  lemma LettersAre(c: char)
    ensures c in "abcdefABCDEF" <==> 'a' <= c <= 'f' || 'A' <= c <= 'F'
  {
    var letters := "abcdefABCDEF";
    if 'a' <= c <= 'f' {
      assert letters[c as int - 'a' as int] == c;
    } else if 'A' <= c <= 'F' {
      assert letters[c as int - 'A' as int + 6] == c;
    }
  }

  predicate CommitmentsEqual(a: string, b: string) {
    ParseCommitment(a).Some? && ParseCommitment(a) == ParseCommitment(b)
  }

  function HexPart(s: string): (h: string) { if "0x" <= s then s[2..] else s }

  /** What /submit-commitment lets through, after trimming and lower-casing: `^(0x)?[0-9a-f]{32,128}$`. */
  predicate IsCommitmentText(s: string) {
    AllLowerHex(HexPart(s)) && 32 <= |HexPart(s)| <= 128
  }

  /** `^(0x)?[0-9a-f]{32,128}$`. */
  lemma CommitmentShape(s: string)
    ensures IsCommitmentText(s) <==>
            exists h :: (s == h || s == "0x" + h) && 32 <= |h| <= 128
                        && forall i :: 0 <= i < |h| ==> '0' <= h[i] <= '9' || 'a' <= h[i] <= 'f'
  {
    if IsCommitmentText(s) {
      var h := HexPart(s);
      assert s == h || s == "0x" + h;
    }
    if h :| (s == h || s == "0x" + h) && 32 <= |h| <= 128
            && forall i :: 0 <= i < |h| ==> '0' <= h[i] <= '9' || 'a' <= h[i] <= 'f'
    {
      assert "0x"[1] == 'x';
      assert s == h ==> !("0x" <= s);
      assert s == "0x" + h ==> s[2..] == h;
      assert HexPart(s) == h;
    }
  }

  /** The field element the phone wrote in hexadecimal. */
  function SentValue(s: string): (n: nat)
    requires IsCommitmentText(s)
  {
    NumeralValue(HexPart(s), 16)
  }

  // ---- reading the stored text ---------------------------------------------

  lemma {:induction false} HexBigInt(h: string)
    requires h != "" && AllLowerHex(h)
    ensures BigIntOfString("0x" + h) == Some(NumeralValue(h, 16))
    ensures Trim("0x" + h) == "0x" + h
  {
    var s := "0x" + h;
    assert !IsSpace(s[0]) && !IsSpace(s[|s| - 1]);
    assert s[2..] == h;
  }

  lemma LowerHexTrim(s: string)
    requires s != "" && AllLowerHex(s)
    ensures Trim(s) == s && !HasRadixPrefix(s, 'x', 'X')
  {
    assert !IsSpace(s[0]) && !IsSpace(s[|s| - 1]);
  }

  lemma NoLetterIsDecimal(s: string)
    requires AllLowerHex(s) && !HasHexLetter(s)
    ensures AllDigits(s) && IsNumeral(s, 10)
  {
    forall i | 0 <= i < |s| ensures IsDigit(s[i]) {
      assert !('a' <= s[i] <= 'f');
    }
  }

  /** Every stored text parses, to a hexadecimal reading with a prefix or a letter and to a decimal one without. */
  lemma {:induction false} StoredParses(s: string)
    requires IsCommitmentText(s)
    ensures "0x" <= s || HasHexLetter(s) ==> ParseCommitment(s) == Some(SentValue(s))
    ensures !("0x" <= s) && !HasHexLetter(s) ==> IsNumeral(s, 10) && ParseCommitment(s) == Some(NumeralValue(s, 10))
  {
    if "0x" <= s {
      assert s == "0x" + s[2..];
      HexBigInt(s[2..]);
    } else {
      LowerHexTrim(s);
      if HasHexLetter(s) {
        HexBigInt(s);
      } else {
        NoLetterIsDecimal(s);
        DigitsAreBigInt(s);
      }
    }
  }

  /** The same digits denote at least as much in base 16, and the same only below ten. */
  lemma {:induction false} HexVersusDecimal(s: string)
    requires IsNumeral(s, 10)
    ensures IsNumeral(s, 16)
    ensures NumeralValue(s, 16) >= NumeralValue(s, 10)
    ensures NumeralValue(s, 16) == NumeralValue(s, 10) <==> NumeralValue(s, 16) < 10
  {
    if s != "" {
      HexVersusDecimal(s[..|s| - 1]);
    }
  }

  /**
   * The server reads back the element the phone sent if and only if the text has
   * a 0x prefix or a letter, or the element is below ten.
   */
  lemma RegisteredAsSent(s: string)
    requires IsCommitmentText(s)
    ensures ParseCommitment(s).Some? && ParseCommitment(s).value >= 0
    ensures ParseCommitment(s) == Some(SentValue(s)) <==> "0x" <= s || HasHexLetter(s) || SentValue(s) < 10
  {
    StoredParses(s);
    if !("0x" <= s) && !HasHexLetter(s) {
      HexVersusDecimal(s);
    }
  }

  lemma {:induction false} CommitmentOfDecimal(n: nat)
    ensures ParseCommitment(Render(n, 10)) == Some(n)
  {
    var s := Render(n, 10);
    BigIntOfDecimal(n);
    RenderDecimal(n);
    LowerHexTrim(s);
  }

  /**
   * So a phone that registers element `c` and proves it with the decimal signal
   * snarkjs writes passes the commitment check of /complete exactly then.
   */
  lemma HonestPhoneCompletes(s: string)
    requires IsCommitmentText(s)
    ensures CommitmentsEqual(Render(SentValue(s), 10), s) <==>
            "0x" <= s || HasHexLetter(s) || SentValue(s) < 10
  {
    CommitmentOfDecimal(SentValue(s));
    RegisteredAsSent(s);
  }

  /** One and zero, in whatever base. */
  lemma {:induction false} OneZero(s: string, base: nat)
    requires 2 <= base && |s| == 2 && s[0] == '1' && s[1] == '0'
    ensures IsNumeral(s, base) && NumeralValue(s, base) == base
  {
    assert |s[..1]| == 1 && s[..1][0] == '1' && s[..1][..0] == "";
    assert NumeralValue(s[..1], base) == 1;
  }

  lemma SixteenReadAsTen(s: string, tail: string)
    requires s == Zeros(30) + tail && |tail| == 2 && tail[0] == '1' && tail[1] == '0'
    ensures IsCommitmentText(s) && SentValue(s) == 16 && ParseCommitment(s) == Some(10)
    ensures !CommitmentsEqual(Render(SentValue(s), 10), s)
  {
    assert s[1] == '0' && "0x"[1] == 'x';
    OneZero(tail, 16);
    OneZero(tail, 10);
    LeadingZeros(30, tail, 16);
    LeadingZeros(30, tail, 10);
    StoredParses(s);
    HonestPhoneCompletes(s);
  }

  /** One that does not: sixteen written without prefix or letter is read as ten. */
  lemma DigitsOnlyRefused()
    ensures var s := Zeros(30) + "10";
            && IsCommitmentText(s) && SentValue(s) == 16 && ParseCommitment(s) == Some(10)
            && !CommitmentsEqual(Render(SentValue(s), 10), s)
  {
    SixteenReadAsTen(Zeros(30) + "10", "10");
  }

  // ---- from registration to login ------------------------------------------

  /** The lookup values `completeRegistration` writes into the user's metadata. */
  function RegisteredUser(poseidon1: int -> nat, id: string, c: nat): (u: User) {
    User(id, Render(poseidon1(c), 10), Render(c, 10))
  }

  lemma {:induction false} ParseDecimalSignal(n: nat)
    ensures ParseSignal(Render(n, 10)) == Some(n)
  {
    BigIntOfDecimal(n);
  }

  /** The signal reads as v, but for a digit the comparison drops (`Kept`). */
  predicate Denotes(raw: string, v: nat) {
    var r := ParseSignal(raw);
    r.Some? && r.value >= 0 && Kept(r.value) == Kept(v)
  }

  /** A signal that is a field element, as a verifier accepts it. */
  predicate FieldSignal(raw: string) {
    ParseSignal(raw).Some? ==> FitsIn32Bytes(ParseSignal(raw).value)
  }

  lemma DenotesFieldSized(raw: string, v: nat)
    requires FieldSignal(raw) && FitsIn32Bytes(v)
    ensures Denotes(raw, v) <==> ParseSignal(raw) == Some(v)
  {
  }

  /** The checks, once the stored values are known. */
  lemma ChecksOfStored(poseidon2: Poseidon2, nonceHex: string, signals: seq<string>, user: User, c: int, g: int, n: int)
    requires |signals| == 3 && ParseSignal(user.commitment) == Some(c) && ParseSignal(user.didHash) == Some(g)
    requires NonceHexToField(nonceHex) == Some(n)
    ensures SignalChecks(poseidon2, nonceHex, signals, user).Passed? <==>
            && ParseSignal(signals[0]).Some? && TimingSafeBigIntEqual(ParseSignal(signals[0]).value, c)
            && ParseSignal(signals[1]).Some? && TimingSafeBigIntEqual(ParseSignal(signals[1]).value, poseidon2(g, n))
  {
  }

  /**
   * For the user a completed registration of element c creates, of whatever
   * size, login accepts signals exactly when signal 0 denotes c and signal 1
   * denotes Poseidon2(Poseidon1(c), session nonce).
   */
  lemma RegistrationLoginAgreement(poseidon1: int -> nat, poseidon2: Poseidon2, id: string, c: nat,
                                   nonceHex: string, signals: seq<string>)
    requires BindsNonce(poseidon2) && IsStoredNonce(nonceHex) && |signals| == 3
    ensures NonceHexToField(nonceHex).Some?
    ensures var expected := poseidon2(poseidon1(c), NonceHexToField(nonceHex).value);
            && expected >= 0
            && (SignalChecks(poseidon2, nonceHex, signals, RegisteredUser(poseidon1, id, c)).Passed? <==>
                  Denotes(signals[0], c) && Denotes(signals[1], expected))
            && (FitsIn32Bytes(c) && FieldSignal(signals[0]) && FieldSignal(signals[1]) ==>
                  (SignalChecks(poseidon2, nonceHex, signals, RegisteredUser(poseidon1, id, c)).Passed? <==>
                     ParseSignal(signals[0]) == Some(c) && ParseSignal(signals[1]) == Some(expected)))
  {
    StoredNonceField(nonceHex);
    var n := NonceHexToField(nonceHex).value;
    var expected := poseidon2(poseidon1(c), n);
    ParseDecimalSignal(c);
    ParseDecimalSignal(poseidon1(c));
    ChecksOfStored(poseidon2, nonceHex, signals, RegisteredUser(poseidon1, id, c), c, poseidon1(c), n);
    SignalComparison(signals[0], c);
    SignalComparison(signals[1], expected);
    if FitsIn32Bytes(c) && FieldSignal(signals[0]) && FieldSignal(signals[1]) {
      DenotesFieldSized(signals[0], c);
      DenotesFieldSized(signals[1], expected);
    }
  }

  lemma SignalComparison(raw: string, v: nat)
    ensures ParseSignal(raw).Some? && TimingSafeBigIntEqual(ParseSignal(raw).value, v) <==> Denotes(raw, v)
  {
    if ParseSignal(raw).Some? {
      CompareWithNatural(ParseSignal(raw).value, v);
    }
  }
}
