/**
 * The parts of JavaScript's text handling that the services depend on: numerals
 * in a base, `String.prototype.trim`, and the `BigInt(string)` conversion.
 */
module JsText {

  datatype Option<+T> = None | Some(value: T)

  predicate IsDigit(c: char) { '0' <= c <= '9' }

  predicate IsLowerHex(c: char) { IsDigit(c) || 'a' <= c <= 'f' }

  predicate IsHex(c: char) { IsLowerHex(c) || 'A' <= c <= 'F' }

  function DigitValue(c: char): (v: nat)
    requires IsHex(c)
    ensures v < 16
    ensures IsDigit(c) <==> v < 10
  {
    if IsDigit(c) then c as int - '0' as int
    else if 'a' <= c <= 'f' then c as int - 'a' as int + 10
    else c as int - 'A' as int + 10
  }

  function DigitChar(d: nat): (c: char)
    requires d < 16
    ensures IsLowerHex(c) && DigitValue(c) == d
  {
    if d < 10 then (d + '0' as int) as char else (d - 10 + 'a' as int) as char
  }

  /** Digits of a numeral in `base`, upper or lower case. */
  predicate IsNumeral(s: string, base: nat) {
    forall i :: 0 <= i < |s| ==> IsHex(s[i]) && DigitValue(s[i]) < base
  }

  predicate AllLowerHex(s: string) {
    forall i :: 0 <= i < |s| ==> IsLowerHex(s[i])
  }

  predicate AllDigits(s: string) {
    forall i :: 0 <= i < |s| ==> IsDigit(s[i])
  }

  /** The number a numeral denotes; the empty numeral denotes zero. */
  function NumeralValue(s: string, base: nat): (v: nat)
    requires IsNumeral(s, base)
  {
    if s == "" then 0
    else NumeralValue(s[..|s| - 1], base) * base + DigitValue(s[|s| - 1])
  }

  /** `n.toString(base)` of a non-negative BigInt: lower case, no leading zero. */
  function Render(n: nat, base: nat): (s: string)
    requires 2 <= base <= 16
    ensures s != "" && AllLowerHex(s) && IsNumeral(s, base)
    decreases n
  {
    if n < base then [DigitChar(n)]
    else
      QuotientSmaller(n, base);
      Render(n / base, base) + [DigitChar(n % base)]
  }

  lemma QuotientSmaller(n: nat, base: nat)
    requires 2 <= base <= n
    ensures 0 < n / base < n
    ensures n == n / base * base + n % base
  {
    assert n == n / base * base + n % base;
    if n / base == 0 {
      assert false;
    }
    if n / base >= n {
      MulAtLeast(n / base, n, base, 2);
      assert false;
    }
  }

  lemma MulAtLeast(a: nat, b: nat, c: nat, d: nat)
    requires a >= b && c >= d
    ensures a * c >= b * d
  {
    assert a * c >= b * c >= b * d;
  }

  /** Quotient and remainder are determined by the number they make. */
  lemma DivModUnique(x: int, d: int, y: int, e: int, base: int)
    requires 0 <= d < base && 0 <= e < base
    requires x * base + d == y * base + e
    ensures x == y && d == e
  {
    var k := x - y;
    assert k * base == e - d by {
      Distribute(x, y, base);
    }
    if k >= 1 {
      MulAtLeast(k, 1, base, base);
    } else if k <= -1 {
      MulAtLeast(-k, 1, base, base);
      Distribute(0, k, base);
    }
  }

  lemma Distribute(x: int, y: int, base: int)
    ensures (x - y) * base == x * base - y * base
  {
  }

  /** Rendering and reading back is the identity, in every base. */
  lemma {:induction false} RenderValue(n: nat, base: nat)
    requires 2 <= base <= 16
    ensures NumeralValue(Render(n, base), base) == n
    decreases n
  {
    if n >= base {
      QuotientSmaller(n, base);
      RenderValue(n / base, base);
      assert Render(n, base)[..|Render(n, base)| - 1] == Render(n / base, base);
    } else {
      assert Render(n, base)[..0] == "";
    }
  }

  /** `toString(10)` gives decimal digits only, without a leading zero. */
  lemma {:induction false} RenderDecimal(n: nat)
    ensures AllDigits(Render(n, 10))
    ensures n > 0 ==> Render(n, 10)[0] != '0'
    decreases n
  {
    if n >= 10 {
      RenderDecimal(n / 10);
    }
  }

  lemma {:induction false} RenderLeadingDigit(n: nat, base: nat)
    requires 2 <= base <= 16
    ensures n > 0 ==> Render(n, base)[0] != '0'
    decreases n
  {
    if n >= base {
      QuotientSmaller(n, base);
      RenderLeadingDigit(n / base, base);
    }
  }

  lemma {:induction false} LeadingZeros(k: nat, s: string, base: nat)
    requires 2 <= base && IsNumeral(s, base)
    ensures IsNumeral(Zeros(k) + s, base)
    ensures NumeralValue(Zeros(k) + s, base) == NumeralValue(s, base)
    decreases k + |s|
  {
    var t := Zeros(k) + s;
    if s == "" {
      if k > 0 {
        LeadingZeros(k - 1, s, base);
        assert t[..|t| - 1] == Zeros(k - 1) + s;
      }
    } else {
      LeadingZeros(k, s[..|s| - 1], base);
      assert t[..|t| - 1] == Zeros(k) + s[..|s| - 1];
    }
  }

  function Zeros(k: nat): (s: string)
    ensures |s| == k && forall i :: 0 <= i < k ==> s[i] == '0'
  {
    seq(k, _ => '0')
  }

  lemma DigitInjective(c: char, d: char)
    requires IsLowerHex(c) && IsLowerHex(d) && DigitValue(c) == DigitValue(d)
    ensures c == d
  {
    assert DigitChar(DigitValue(c)) == c && DigitChar(DigitValue(d)) == d;
  }

  /** Numerals of one length in lower case are told apart by their values. */
  lemma {:induction false} NumeralInjective(s: string, t: string, base: nat)
    requires 2 <= base && |s| == |t| && AllLowerHex(s) && AllLowerHex(t)
    requires IsNumeral(s, base) && IsNumeral(t, base)
    requires NumeralValue(s, base) == NumeralValue(t, base)
    ensures s == t
  {
    if s != "" {
      var n := |s| - 1;
      DivModUnique(NumeralValue(s[..n], base), DigitValue(s[n]),
                   NumeralValue(t[..n], base), DigitValue(t[n]), base);
      NumeralInjective(s[..n], t[..n], base);
      DigitInjective(s[n], t[n]);
      assert s == s[..n] + [s[n]] && t == t[..n] + [t[n]];
    }
  }

  /** A numeral of k digits denotes a number that renders in at most k digits. */
  lemma {:induction false} NumeralRenderLength(s: string, base: nat)
    requires 2 <= base <= 16 && IsNumeral(s, base) && s != ""
    ensures |Render(NumeralValue(s, base), base)| <= |s|
    decreases |s|
  {
    var n := |s| - 1;
    if NumeralValue(s, base) >= base {
      QuotientSmaller(NumeralValue(s, base), base);
      DivModUnique(NumeralValue(s[..n], base), DigitValue(s[n]),
                   NumeralValue(s, base) / base, NumeralValue(s, base) % base, base);
      NumeralRenderLength(s[..n], base);
    }
  }

  // ---- whitespace ----------------------------------------------------------

  /** WhiteSpace and LineTerminator code points of ECMA-262; also `\s` in a regular expression. */
  predicate IsSpace(c: char) {
    || '\U{0009}' <= c <= '\U{000D}'
    || c == ' ' || c == '\U{00A0}' || c == '\U{1680}'
    || '\U{2000}' <= c <= '\U{200A}'
    || c == '\U{2028}' || c == '\U{2029}' || c == '\U{202F}' || c == '\U{205F}'
    || c == '\U{3000}' || c == '\U{FEFF}'
  }

  function TrimStart(s: string): (t: string)
    ensures t == "" || !IsSpace(t[0])
    ensures s != "" && !IsSpace(s[0]) ==> t == s
  {
    if s != "" && IsSpace(s[0]) then TrimStart(s[1..]) else s
  }

  function TrimEnd(s: string): (t: string)
    ensures t == "" || !IsSpace(t[|t| - 1])
    ensures s != "" && !IsSpace(s[|s| - 1]) ==> t == s
  {
    if s != "" && IsSpace(s[|s| - 1]) then TrimEnd(s[..|s| - 1]) else s
  }

  function Trim(s: string): (t: string) { TrimEnd(TrimStart(s)) }

  // ---- BigInt(string) ------------------------------------------------------

  /** The StringToBigInt conversion; None where `BigInt` throws a SyntaxError. */
  function BigIntOfString(raw: string): (r: Option<int>) {
    var s := Trim(raw);
    if s == "" then Some(0)
    else if HasRadixPrefix(s, 'x', 'X') then Magnitude(s[2..], 16)
    else if HasRadixPrefix(s, 'o', 'O') then Magnitude(s[2..], 8)
    else if HasRadixPrefix(s, 'b', 'B') then Magnitude(s[2..], 2)
    else if s[0] == '+' then Magnitude(s[1..], 10)
    else if s[0] == '-' then Negated(Magnitude(s[1..], 10))
    else Magnitude(s, 10)
  }

  predicate HasRadixPrefix(s: string, lower: char, upper: char) {
    |s| >= 2 && s[0] == '0' && (s[1] == lower || s[1] == upper)
  }

  function Magnitude(digits: string, base: nat): (r: Option<int>) {
    if digits != "" && IsNumeral(digits, base) then Some(NumeralValue(digits, base)) else None
  }

  function Negated(r: Option<int>): (n: Option<int>) {
    match r case None => None case Some(v) => Some(-v)
  }

  /** `BigInt` reads back what `toString(10)` wrote. */
  lemma {:induction false} BigIntOfDecimal(n: nat)
    ensures BigIntOfString(Render(n, 10)) == Some(n)
    ensures Trim(Render(n, 10)) == Render(n, 10)
  {
    RenderDecimal(n);
    RenderValue(n, 10);
    DigitsAreBigInt(Render(n, 10));
  }

  lemma {:induction false} DigitsAreBigInt(s: string)
    requires s != "" && AllDigits(s) && IsNumeral(s, 10)
    ensures Trim(s) == s
    ensures BigIntOfString(s) == Some(NumeralValue(s, 10))
  {
    assert !IsSpace(s[0]) && !IsSpace(s[|s| - 1]);
    assert !HasRadixPrefix(s, 'x', 'X') && !HasRadixPrefix(s, 'o', 'O') && !HasRadixPrefix(s, 'b', 'B');
    assert s[0] != '+' && s[0] != '-';
  }

  // ---- the same, character by character --------------------------------------

  /** The values of the digits, and what one more digit does to a numeral. */
  lemma {:induction false} DigitsAre(s: string, c: char, base: nat)
    ensures '0' <= c <= '9' ==> DigitValue(c) == c as int - 0x30
    ensures 'a' <= c <= 'f' ==> DigitValue(c) == c as int - 0x61 + 10
    ensures 'A' <= c <= 'F' ==> DigitValue(c) == c as int - 0x41 + 10
    ensures IsHex(c) <==> '0' <= c <= '9' || 'a' <= c <= 'f' || 'A' <= c <= 'F'
    ensures IsNumeral(s + [c], base) <==> IsNumeral(s, base) && IsHex(c) && DigitValue(c) < base
    ensures IsNumeral(s + [c], base) ==> NumeralValue(s + [c], base) == NumeralValue(s, base) * base + DigitValue(c)
    ensures NumeralValue("", base) == 0
  {
    assert (s + [c])[..|s|] == s;
    if IsNumeral(s + [c], base) {
      assert forall i :: 0 <= i < |s| ==> (s + [c])[i] == s[i];
      assert (s + [c])[|s|] == c;
    }
  }

  /** The white space and line terminators of ECMA-262, sections 12.2 and 12.3, by their code points. */
  lemma SpacesAre(c: char)
    ensures IsSpace(c) <==>
            c as int in {9, 10, 11, 12, 13, 32, 160, 5760, 8192, 8193, 8194, 8195, 8196, 8197, 8198, 8199, 8200, 8201,
                         8202, 8232, 8233, 8239, 8287, 12288, 65279}
  {
  }

  predicate Blank(s: string) { forall i :: 0 <= i < |s| ==> IsSpace(s[i]) }

  lemma {:induction false} TrimStartIs(s: string) returns (a: nat)
    ensures a <= |s| && TrimStart(s) == s[a..] && Blank(s[..a])
  {
    if s != "" && IsSpace(s[0]) {
      a := TrimStartIs(s[1..]);
      assert s[1..][a..] == s[a + 1..];
      var front := s[..a + 1];
      forall i | 0 <= i < |front| ensures IsSpace(front[i]) {
        assert i > 0 ==> s[1..][..a][i - 1] == s[i];
      }
      a := a + 1;
    } else {
      a := 0;
    }
  }

  lemma {:induction false} TrimEndIs(s: string) returns (b: nat)
    ensures b <= |s| && TrimEnd(s) == s[..b] && Blank(s[b..])
  {
    var n := |s| - 1;
    if s != "" && IsSpace(s[n]) {
      b := TrimEndIs(s[..n]);
      assert s[..n][..b] == s[..b];
      var back := s[b..];
      forall i | 0 <= i < |back| ensures IsSpace(back[i]) {
        assert b + i < n ==> s[..n][b..][i] == s[b + i];
      }
    } else {
      b := |s|;
    }
  }

  /** Trimming takes the blanks at both ends and nothing else. */
  lemma TrimIs(s: string) returns (a: nat, b: nat)
    ensures a <= b <= |s| && Trim(s) == s[a..b] && Blank(s[..a]) && Blank(s[b..])
    ensures a < b ==> !IsSpace(s[a]) && !IsSpace(s[b - 1])
  {
    a := TrimStartIs(s);
    var kept := TrimEndIs(s[a..]);
    b := a + kept;
    assert s[a..][..kept] == s[a..b] && s[a..][kept..] == s[b..];
    if a < b {
      assert Trim(s)[0] == s[a] && Trim(s)[|Trim(s)| - 1] == s[b - 1];
      assert TrimStart(s)[0] == s[a];
    }
  }

  /** StringToBigInt of ECMA-262, section 7.1.14, on the trimmed text. */
  lemma BigIntIs(raw: string)
    ensures var t, r := Trim(raw), BigIntOfString(raw);
            && (t == "" ==> r == Some(0))
            && (|t| >= 2 && t[0] == '0' && t[1] in ['x', 'X', 'o', 'O', 'b', 'B'] ==>
                  var base := if t[1] in ['x', 'X'] then 16 else if t[1] in ['o', 'O'] then 8 else 2;
                  r == if |t| > 2 && IsNumeral(t[2..], base) then Some(NumeralValue(t[2..], base)) else None)
            && (t != "" && t[0] in ['+', '-'] ==>
                  if |t| > 1 && IsNumeral(t[1..], 10)
                  then r == Some(if t[0] == '-' then 0 - NumeralValue(t[1..], 10) else NumeralValue(t[1..], 10))
                  else r == None)
            && (t != "" && t[0] !in ['+', '-']
                && !(|t| >= 2 && t[0] == '0' && t[1] in ['x', 'X', 'o', 'O', 'b', 'B']) ==>
                  r == if IsNumeral(t, 10) then Some(NumeralValue(t, 10)) else None)
  {
  }
}
