/**
 * `timingSafeBigIntEqual` of src/services/proof-pairing.ts: two BigInts are
 * rendered in hexadecimal, padded to 64 characters, decoded to bytes and the
 * bytes compared.
 */
module BigIntCompare {
  import opened JsText

  /** `a.toString(16)` of any BigInt. */
  function HexText(a: int): (s: string) {
    if a < 0 then "-" + Render(-a, 16) else Render(a, 16)
  }

  /** `s.padStart(64, '0')`. */
  function Pad64(s: string): (t: string)
    ensures |t| >= 64 && |t| >= |s|
  {
    if |s| >= 64 then s else Zeros(64 - |s|) + s
  }

  /** `Buffer.from(s, 'hex')`: stops at the first pair that is not two hex digits. */
  function BufferFromHex(s: string): (bytes: seq<nat>) {
    if |s| < 2 || !IsHex(s[0]) || !IsHex(s[1]) then []
    else [16 * DigitValue(s[0]) + DigitValue(s[1])] + BufferFromHex(s[2..])
  }

  function CompareBytes(a: int): (bytes: seq<nat>) { BufferFromHex(Pad64(HexText(a))) }

  predicate TimingSafeBigIntEqual(a: int, b: int) { CompareBytes(a) == CompareBytes(b) }

  /** At most 64 hexadecimal digits: what a 32-byte buffer holds. */
  predicate FitsIn32Bytes(n: int) { n >= 0 && |Render(n, 16)| <= 64 }

  /**
   * The part of a non-negative number that survives the decoding: a number with
   * an odd count of more than 64 hexadecimal digits loses its last digit.
   */
  function Kept(n: nat): (k: nat) {
    if |Render(n, 16)| <= 64 || |Render(n, 16)| % 2 == 0 then n else n / 16
  }

  lemma {:induction false} BufferLength(s: string)
    requires AllLowerHex(s)
    ensures |BufferFromHex(s)| == |s| / 2
  {
    if |s| >= 2 {
      BufferLength(s[2..]);
    }
  }

  lemma {:induction false} BufferDropsOddDigit(s: string)
    requires AllLowerHex(s) && |s| % 2 == 1
    ensures BufferFromHex(s) == BufferFromHex(s[..|s| - 1])
  {
    if |s| >= 2 {
      BufferDropsOddDigit(s[2..]);
      assert s[2..][..|s| - 3] == s[..|s| - 1][2..];
    }
  }

  lemma {:induction false} BufferInjective(s: string, t: string)
    requires AllLowerHex(s) && AllLowerHex(t) && |s| % 2 == 0 && |t| % 2 == 0
    requires BufferFromHex(s) == BufferFromHex(t)
    ensures s == t
  {
    BufferLength(s);
    BufferLength(t);
    if s != "" {
      assert BufferFromHex(s)[0] == BufferFromHex(t)[0];
      assert BufferFromHex(s)[1..] == BufferFromHex(s[2..]);
      assert BufferFromHex(t)[1..] == BufferFromHex(t[2..]);
      BufferInjective(s[2..], t[2..]);
      assert s == [s[0], s[1]] + s[2..] && t == [t[0], t[1]] + t[2..];
    }
  }

  /** The bytes of n are the bytes of what is kept of n, and those lose nothing. */
  lemma KeptBytes(n: nat)
    ensures CompareBytes(n) == CompareBytes(Kept(n))
    ensures |Pad64(HexText(Kept(n)))| % 2 == 0
    ensures AllLowerHex(Pad64(HexText(Kept(n))))
  {
    var s := HexText(n);
    if |s| > 64 && |s| % 2 == 1 {
      LastDigit(n);
      BufferDropsOddDigit(s);
    }
  }

  lemma {:induction false} LastDigit(n: nat)
    requires |Render(n, 16)| >= 2
    ensures Render(n / 16, 16) == Render(n, 16)[..|Render(n, 16)| - 1]
  {
    assert n >= 16;
  }

  lemma PaddedInjective(a: nat, b: nat)
    requires Pad64(HexText(a)) == Pad64(HexText(b))
    ensures a == b
  {
    PaddedValue(a);
    PaddedValue(b);
  }

  lemma PaddedValue(a: nat)
    ensures IsNumeral(Pad64(HexText(a)), 16)
    ensures NumeralValue(Pad64(HexText(a)), 16) == a
  {
    RenderValue(a, 16);
    if |HexText(a)| < 64 {
      LeadingZeros(64 - |HexText(a)|, HexText(a), 16);
    }
  }

  /**
   * The comparison is equality up to the digit it drops: exact for all
   * non-negative numbers, and plain equality whenever neither number has an
   * odd count of more than 64 digits.
   */
  lemma TimingSafeExact(a: nat, b: nat)
    ensures TimingSafeBigIntEqual(a, b) <==> Kept(a) == Kept(b)
  {
    KeptBytes(a);
    KeptBytes(b);
    if TimingSafeBigIntEqual(a, b) {
      BufferInjective(Pad64(HexText(Kept(a))), Pad64(HexText(Kept(b))));
      PaddedInjective(Kept(a), Kept(b));
    }
  }

  /** A minus sign stops the decoding short of 32 bytes. */
  lemma {:induction false} BufferStopsAtMinus(s: string, p: nat)
    requires p < |s| && s[p] == '-'
    ensures |BufferFromHex(s)| <= p / 2
    decreases |s|
  {
    if |s| >= 2 && IsHex(s[0]) && IsHex(s[1]) {
      assert s[2..][p - 2] == s[p];
      BufferStopsAtMinus(s[2..], p - 2);
    }
  }

  lemma NegativeIsShort(a: int)
    requires a < 0
    ensures |CompareBytes(a)| < 32
  {
    var s := HexText(a);
    var p := if |s| >= 64 then 0 else 64 - |s|;
    assert s[0] == '-' && |s| >= 2;
    assert Pad64(s)[p] == '-';
    BufferStopsAtMinus(Pad64(s), p);
  }

  /** Against a non-negative right side, for every BigInt on the left: no negative number is accepted. */
  lemma CompareWithNatural(a: int, b: nat)
    ensures TimingSafeBigIntEqual(a, b) <==> a >= 0 && Kept(a) == Kept(b)
  {
    if a < 0 {
      NegativeIsShort(a);
      BufferLength(Pad64(HexText(b)));
    } else {
      TimingSafeExact(a, b);
    }
  }

  /**
   * Against a field-sized right side, for every BigInt on the left (negative
   * ones included): accepted exactly on equality, or when the left side has 65
   * hexadecimal digits of which the first 64 are the right side.
   */
  lemma {:induction false} CompareWithFieldElement(a: int, b: int)
    requires FitsIn32Bytes(b)
    ensures TimingSafeBigIntEqual(a, b) <==> a == b || (a >= 0 && |Render(a, 16)| == 65 && a / 16 == b)
  {
    assert Kept(b) == b;
    KeptBytes(b);
    BufferLength(Pad64(HexText(b)));
    if a < 0 {
      NegativeIsShort(a);
    } else {
      TimingSafeExact(a, b);
      if a >= 16 {
        QuotientSmaller(a, 16);
        assert |Render(a, 16)| == |Render(a / 16, 16)| + 1;
      }
    }
  }

  function HexOne(zeros: nat): (n: nat)
    ensures n > 0
  {
    if zeros == 0 then 1 else 16 * HexOne(zeros - 1)
  }

  lemma {:induction false} HexOneDigits(zeros: nat)
    ensures |Render(HexOne(zeros), 16)| == zeros + 1
  {
    if zeros > 0 {
      HexOneDigits(zeros - 1);
    }
  }

  /** Such an input: any 64-digit number with one more digit behind it. */
  lemma {:induction false} LongerNumberAccepted(b: nat, digit: nat)
    requires |Render(b, 16)| == 64 && digit < 16
    ensures FitsIn32Bytes(b) && 16 * b + digit != b && TimingSafeBigIntEqual(16 * b + digit, b)
  {
    var a := 16 * b + digit;
    assert b > 0;
    assert |Render(a, 16)| == |Render(a / 16, 16)| + 1;
    CompareWithFieldElement(a, b);
  }

  lemma {:induction false} LongerPowerAccepted(zeros: nat)
    requires zeros == 63
    ensures FitsIn32Bytes(HexOne(zeros)) && TimingSafeBigIntEqual(16 * HexOne(zeros), HexOne(zeros))
  {
    HexOneDigits(zeros);
    LongerNumberAccepted(HexOne(zeros), 0);
  }

  /** So different numbers are accepted, one of them field-sized. */
  lemma SomeLongerNumberAccepted() returns (a: nat, b: nat)
    ensures FitsIn32Bytes(b) && a != b && TimingSafeBigIntEqual(a, b)
  {
    var zeros: nat :| zeros == 63;
    LongerPowerAccepted(zeros);
    b := HexOne(zeros);
    a := 16 * b;
  }

  /** Among field-sized numbers the comparison is equality. */
  lemma FieldSizedEqual(a: int, b: int)
    requires FitsIn32Bytes(a) && FitsIn32Bytes(b)
    ensures TimingSafeBigIntEqual(a, b) <==> a == b
  {
    CompareWithFieldElement(a, b);
  }
}
