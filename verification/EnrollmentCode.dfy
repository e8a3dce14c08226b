/**
 * The one-time codes of src/services/device-enrollment.ts: generation,
 * normalisation of what a person typed, and the fingerprint length rule. Case
 * mapping is Unicode's, as the parameter `upper`.
 */
module EnrollmentCode {
  import opened JsText
  import opened Runtime
  import opened Sequences

  const CODE_ALPHABET := "23456789ABCDEFGHJKMNPQRSTVWXYZ"
  const CODE_GROUP_LEN := 4
  const CODE_GROUPS := 2
  const ENROLLMENT_CODE_TTL_MS := 15 * 60 * 1000

  function Upper(upper: CaseMap, s: string): (u: string) {
    if s == "" then "" else upper(s[0]) + Upper(upper, s[1..])
  }

  /** `replace(/[\s-]+/g, '')`. */
  function Strip(s: string): (t: string) {
    if s == "" then ""
    else (if IsSpace(s[0]) || s[0] == '-' then "" else [s[0]]) + Strip(s[1..])
  }

  /** Upper case, without blanks and hyphens. */
  function Bare(upper: CaseMap, raw: string): (t: string) { Strip(Upper(upper, Trim(raw))) }

  predicate CodeShaped(bare: string) {
    |bare| == 2 + CODE_GROUPS * CODE_GROUP_LEN && bare[0] == 'Z' && bare[1] == 'A'
  }

  function Hyphenated(a: string, b: string): (code: string) { "ZA-" + a + "-" + b }

  function NormaliseEnrollmentCode(upper: CaseMap, raw: string): (code: string) {
    var stripped := Bare(upper, raw);
    if CodeShaped(stripped) then Hyphenated(stripped[2..6], stripped[6..10]) else stripped
  }

  /** A code as `generateEnrollmentCode` builds it: ZA-XXXX-XXXX over the alphabet. */
  predicate IsGenerated(code: string) {
    && |code| == 12 && code[..3] == "ZA-" && code[7] == '-'
    && forall i :: 3 <= i < 12 && i != 7 ==> code[i] in CODE_ALPHABET
  }

  /** The letters a list of random indices picks. */
  function Letters(choice: seq<nat>): (s: string)
    requires forall i :: 0 <= i < |choice| ==> choice[i] < |CODE_ALPHABET|
    ensures |s| == |choice| && forall i :: 0 <= i < |s| ==> s[i] == CODE_ALPHABET[choice[i]]
  {
    seq(|choice|, i requires 0 <= i < |choice| => CODE_ALPHABET[choice[i]])
  }

  /** The nested loops, fed with the random index of each of the eight positions. */
  method GenerateEnrollmentCode(choice: seq<nat>) returns (code: string)
    requires |choice| == CODE_GROUPS * CODE_GROUP_LEN
    requires forall i :: 0 <= i < |choice| ==> choice[i] < |CODE_ALPHABET|
    ensures IsGenerated(code)
    ensures |code| == 12 && code[..3] == "ZA-" && code[7] == '-'
    ensures forall i :: 0 <= i < 4 ==> code[3 + i] == CODE_ALPHABET[choice[i]]
    ensures forall i :: 4 <= i < 8 ==> code[4 + i] == CODE_ALPHABET[choice[i]]
    ensures code == Hyphenated(Letters(choice[..4]), Letters(choice[4..]))
  {
    var groups: seq<string> := [];
    for g := 0 to CODE_GROUPS
      invariant |groups| == g
      invariant g > 0 ==> groups[0] == Letters(choice[..4])
      invariant g > 1 ==> groups[1] == Letters(choice[4..])
    {
      var group := "";
      for i := 0 to CODE_GROUP_LEN
        invariant group == Letters(choice[CODE_GROUP_LEN * g..CODE_GROUP_LEN * g + i])
      {
        group := group + [CODE_ALPHABET[choice[CODE_GROUP_LEN * g + i]]];
      }
      groups := groups + [group];
    }
    code := "ZA-" + groups[0] + "-" + groups[1];
  }

  // ---- normalisation -------------------------------------------------------

  lemma {:induction false} StripConcat(a: string, b: string)
    ensures Strip(a + b) == Strip(a) + Strip(b)
  {
    if a == "" {
      assert a + b == b;
    } else {
      StripConcat(a[1..], b);
      assert (a + b)[0] == a[0] && (a + b)[1..] == a[1..] + b;
      Associative(if IsSpace(a[0]) || a[0] == '-' then "" else [a[0]], Strip(a[1..]), Strip(b));
    }
  }

  lemma {:induction false} UpperConcat(upper: CaseMap, a: string, b: string)
    ensures Upper(upper, a + b) == Upper(upper, a) + Upper(upper, b)
  {
    if a == "" {
      assert a + b == b;
    } else {
      UpperConcat(upper, a[1..], b);
      assert (a + b)[0] == a[0] && (a + b)[1..] == a[1..] + b;
      Associative(upper(a[0]), Upper(upper, a[1..]), Upper(upper, b));
    }
  }

  /** Characters that neither case mapping nor stripping touches. */
  predicate PlainChar(upper: CaseMap, c: char) { upper(c) == [c] && !IsSpace(c) && c != '-' }

  predicate Plain(upper: CaseMap, s: string) { forall i :: 0 <= i < |s| ==> PlainChar(upper, s[i]) }

  lemma {:induction false} StripPlain(upper: CaseMap, s: string)
    requires Plain(upper, s)
    ensures Upper(upper, s) == s && Strip(s) == s
  {
    if s != "" {
      StripPlain(upper, s[1..]);
    }
  }

  /** Characters case mapping does not touch any more. */
  predicate Settled(upper: CaseMap, s: string) { forall i :: 0 <= i < |s| ==> upper(s[i]) == [s[i]] }

  lemma {:induction false} UpperSettles(upper: CaseMap, s: string)
    requires UpperCases(upper)
    ensures Settled(upper, Upper(upper, s))
  {
    if s != "" {
      UpperSettles(upper, s[1..]);
    }
  }

  lemma {:induction false} StripIsPlain(upper: CaseMap, s: string)
    requires Settled(upper, s)
    ensures Plain(upper, Strip(s))
  {
    if s != "" {
      StripIsPlain(upper, s[1..]);
    }
  }

  lemma BareIsPlain(upper: CaseMap, raw: string)
    requires UpperCases(upper)
    ensures Plain(upper, Bare(upper, raw))
  {
    UpperSettles(upper, Trim(raw));
    StripIsPlain(upper, Upper(upper, Trim(raw)));
  }

  lemma {:induction false} TrimPlain(s: string)
    requires s == "" || (!IsSpace(s[0]) && !IsSpace(s[|s| - 1]))
    ensures Trim(s) == s
  {
  }

  lemma UpperHyphenated(upper: CaseMap, a: string, b: string)
    requires UpperCases(upper) && Plain(upper, a) && Plain(upper, b)
    ensures Upper(upper, Hyphenated(a, b)) == Hyphenated(a, b)
  {
    UpperConcat(upper, "ZA-" + a + "-", b);
    UpperConcat(upper, "ZA-" + a, "-");
    UpperConcat(upper, "ZA-", a);
    StripPlain(upper, a);
    StripPlain(upper, b);
    AsciiSettled(upper, "ZA-");
    AsciiSettled(upper, "-");
  }

  lemma {:induction false} AsciiSettled(upper: CaseMap, s: string)
    requires UpperCases(upper) && forall i :: 0 <= i < |s| ==> IsAscii(s[i]) && !('a' <= s[i] <= 'z')
    ensures Upper(upper, s) == s
  {
    if s != "" {
      AsciiSettled(upper, s[1..]);
      assert s == [s[0]] + s[1..];
    }
  }

  lemma StripHyphenated(upper: CaseMap, a: string, b: string)
    requires Plain(upper, a) && Plain(upper, b)
    ensures Strip(Hyphenated(a, b)) == "ZA" + a + b
  {
    StripConcat("ZA-" + a + "-", b);
    StripConcat("ZA-" + a, "-");
    StripConcat("ZA-", a);
    StripPlain(upper, a);
    StripPlain(upper, b);
    assert Strip("ZA-") == "ZA" && Strip("-") == "";
    assert "ZA" + a + "" == "ZA" + a;
  }

  /** The hyphenated form of plain groups has their characters as its bare form. */
  lemma BareOfHyphenated(upper: CaseMap, a: string, b: string)
    requires UpperCases(upper) && Plain(upper, a) && Plain(upper, b) && b != ""
    ensures Bare(upper, Hyphenated(a, b)) == "ZA" + a + b
  {
    var code := Hyphenated(a, b);
    assert code[0] == 'Z' && code[|code| - 1] == b[|b| - 1];
    assert PlainChar(upper, b[|b| - 1]);
    TrimPlain(code);
    UpperHyphenated(upper, a, b);
    StripHyphenated(upper, a, b);
  }

  lemma ShapedIsGroups(bare: string)
    requires CodeShaped(bare)
    ensures bare == "ZA" + bare[2..6] + bare[6..10]
  {
  }

  predicate DigitOrUpper(c: char) { '0' <= c <= '9' || 'A' <= c <= 'Z' }

  lemma AlphabetIsPlain(upper: CaseMap)
    requires UpperCases(upper)
    ensures Plain(upper, CODE_ALPHABET)
  {
    assert forall i :: 0 <= i < |CODE_ALPHABET| ==> DigitOrUpper(CODE_ALPHABET[i]);
    DigitsAndUpperPlain(upper, CODE_ALPHABET);
  }

  lemma DigitsAndUpperPlain(upper: CaseMap, s: string)
    requires UpperCases(upper) && forall i :: 0 <= i < |s| ==> DigitOrUpper(s[i])
    ensures Plain(upper, s)
  {
    forall i | 0 <= i < |s| ensures PlainChar(upper, s[i]) {
      assert IsAscii(s[i]);
    }
  }

  lemma CodeParts(code: string)
    requires |code| == 12 && code[..3] == "ZA-" && code[7] == '-'
    ensures code == Hyphenated(code[3..7], code[8..12])
  {
    assert code == code[..3] + code[3..7] + [code[7]] + code[8..12];
  }

  lemma PlainLetters(upper: CaseMap, s: string, alphabet: string)
    requires Plain(upper, alphabet) && forall i :: 0 <= i < |s| ==> s[i] in alphabet
    ensures Plain(upper, s)
  {
  }

  /** A generated code is the hyphenated form of two plain groups. */
  lemma GeneratedHyphenated(upper: CaseMap, code: string)
    requires UpperCases(upper) && IsGenerated(code)
    ensures Plain(upper, code[3..7]) && Plain(upper, code[8..12]) && code == Hyphenated(code[3..7], code[8..12])
  {
    AlphabetIsPlain(upper);
    PlainLetters(upper, code[3..7], CODE_ALPHABET);
    PlainLetters(upper, code[8..12], CODE_ALPHABET);
    CodeParts(code);
  }

  /** A plain text is put in the form of two given groups exactly when it is those groups after ZA. */
  lemma GroupsRecognised(upper: CaseMap, bare: string, a: string, b: string)
    requires Plain(upper, bare) && |a| == 4 && |b| == 4
    ensures CodeShaped(bare) && Hyphenated(bare[2..6], bare[6..10]) == Hyphenated(a, b) <==> bare == "ZA" + a + b
    ensures bare != Hyphenated(a, b)
  {
    var groups := "ZA" + a + b;
    assert groups[2..6] == a && groups[6..10] == b;
    assert Hyphenated(a, b)[2] == '-';
    assert |bare| > 2 ==> PlainChar(upper, bare[2]);
    if CodeShaped(bare) && Hyphenated(bare[2..6], bare[6..10]) == Hyphenated(a, b) {
      ShapedIsGroups(bare);
      GroupsOf(bare[2..6], bare[6..10]);
      GroupsOf(a, b);
    }
  }

  lemma GroupsOf(a: string, b: string)
    requires |a| == 4 && |b| == 4
    ensures Hyphenated(a, b)[3..7] == a && Hyphenated(a, b)[8..12] == b
  {
  }

  /**
   * A typed text is taken for a generated code exactly when the two agree once
   * case, blanks and hyphens are ignored.
   */
  lemma NormaliseRecognises(upper: CaseMap, raw: string, code: string)
    requires UpperCases(upper) && IsGenerated(code)
    ensures NormaliseEnrollmentCode(upper, raw) == code <==> Bare(upper, raw) == Bare(upper, code)
    ensures NormaliseEnrollmentCode(upper, code) == code
  {
    var a, b := code[3..7], code[8..12];
    GeneratedHyphenated(upper, code);
    BareOfHyphenated(upper, a, b);
    BareIsPlain(upper, raw);
    GroupsRecognised(upper, Bare(upper, raw), a, b);
    BareIsPlain(upper, code);
    GroupsRecognised(upper, Bare(upper, code), a, b);
  }

  /** Normalising twice is normalising once. */
  lemma NormaliseIdempotent(upper: CaseMap, raw: string)
    requires UpperCases(upper)
    ensures NormaliseEnrollmentCode(upper, NormaliseEnrollmentCode(upper, raw)) == NormaliseEnrollmentCode(upper, raw)
  {
    var bare := Bare(upper, raw);
    BareIsPlain(upper, raw);
    if CodeShaped(bare) {
      BareOfHyphenated(upper, bare[2..6], bare[6..10]);
      ShapedIsGroups(bare);
    } else {
      assert bare != "" ==> PlainChar(upper, bare[0]) && PlainChar(upper, bare[|bare| - 1]);
      TrimPlain(bare);
      StripPlain(upper, bare);
    }
  }

  // ---- fingerprints --------------------------------------------------------

  predicate IsValidFingerprint(fp: string) { |Trim(fp)| >= 16 && |fp| <= 4096 }

  /** The external id a bound fingerprint forces: `dev_` and 16 characters of its hash. */
  function DerivedExternalId(fpHash: string): (ext: string) {
    "dev_" + (if |fpHash| <= 16 then fpHash else fpHash[..16])
  }

  // ---- the same, letter by letter --------------------------------------------

  /** The runs of letters and digits that are not easily misread: no 0, 1, I, L, O or U. */
  lemma AlphabetIs(k: nat)
    requires k < 30
    ensures |CODE_ALPHABET| == 30
    ensures CODE_ALPHABET[k] as int
         == if k < 8 then '2' as int + k else if k < 16 then 'A' as int + k - 8 else if k < 18 then 'J' as int + k - 16
            else if k < 20 then 'M' as int + k - 18 else if k < 25 then 'P' as int + k - 20 else 'V' as int + k - 25
  {
  }

  /** Blanks and hyphens go, every other character stays in its place. */
  lemma {:induction false} StripIs(s: string, c: char)
    ensures Strip("") == ""
    ensures Strip(s + [c]) == Strip(s) + (if IsSpace(c) || c == '-' then "" else [c])
  {
    StripConcat(s, [c]);
    assert [c][1..] == "";
  }

  lemma {:induction false} UpperIs(upper: CaseMap, s: string, c: char)
    ensures Upper(upper, "") == "" && Upper(upper, s + [c]) == Upper(upper, s) + upper(c)
  {
    UpperConcat(upper, s, [c]);
    assert [c][1..] == "";
  }

  /** Ten characters that begin with ZA are put in groups; anything else is left as it is. */
  lemma NormaliseIs(upper: CaseMap, raw: string)
    ensures var bare, code := Strip(Upper(upper, Trim(raw))), NormaliseEnrollmentCode(upper, raw);
            if |bare| == 10 && bare[..2] == "ZA"
            then && |code| == 12 && code[..3] == "ZA-" && code[7] == '-'
                 && code[3..7] == bare[2..6] && code[8..] == bare[6..]
            else code == bare
  {
    var bare := Strip(Upper(upper, Trim(raw)));
    if CodeShaped(bare) {
      assert bare[..2] == "ZA";
      GroupsOf(bare[2..6], bare[6..10]);
      assert bare[6..10] == bare[6..];
    } else if |bare| == 10 {
      assert bare[..2] == [bare[0], bare[1]];
    }
  }
}
