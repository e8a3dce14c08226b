/**
 * What the canonical text of src/services/audit.ts looks like, in the terms of
 * section 3.2 of RFC 8785 and of RFC 8259 rather than of the functions that
 * write it: the order of the keys, the characters of a string, the digits of a
 * number.
 */
module JsonText {
  import opened JsText
  import opened Json
  import opened Sequences

  // ---- UTF-16 ----------------------------------------------------------------

  /** The code units of one character: itself, or a high and a low surrogate. */
  function UnitsOf(c: char): (units: seq<nat>)
    ensures 1 <= |units| <= 2
  {
    if c as int < 0x1_0000 then [c as int]
    else [0xD800 + (c as int - 0x1_0000) / 0x400, 0xDC00 + (c as int - 0x1_0000) % 0x400]
  }

  function Units(s: string): (units: seq<nat>) { if s == "" then [] else UnitsOf(s[0]) + Units(s[1..]) }

  /** The first place where they differ is smaller in a, or a is a proper prefix of b. */
  predicate BeforeAt(a: seq<nat>, b: seq<nat>, i: nat) {
    i <= |a| && i < |b| && a[..i] == b[..i] && (i == |a| || a[i] < b[i])
  }

  ghost predicate Before(a: seq<nat>, b: seq<nat>) { exists i: nat :: BeforeAt(a, b, i) }

  lemma BeforeBehind(p: seq<nat>, a: seq<nat>, b: seq<nat>)
    requires Before(a, b)
    ensures Before(p + a, p + b)
  {
    var i: nat :| BeforeAt(a, b, i);
    assert (p + a)[..|p| + i] == p + a[..i] && (p + b)[..|p| + i] == p + b[..i];
    assert BeforeAt(p + a, p + b, |p| + i);
  }

  /** Different characters differ in their first unit or, after a common high surrogate, in their second. */
  lemma RankIsUnits(c: char, d: char, r: seq<nat>, t: seq<nat>)
    requires c != d && Rank(c) < Rank(d)
    ensures Before(UnitsOf(c) + r, UnitsOf(d) + t)
  {
    var a, b := UnitsOf(c) + r, UnitsOf(d) + t;
    if a[0] < b[0] {
      assert BeforeAt(a, b, 0);
    } else {
      assert a[..1] == b[..1];
      assert BeforeAt(a, b, 1);
    }
  }

  lemma {:induction false} LessIsBefore(a: string, b: string)
    requires KeyLess(a, b)
    ensures Before(Units(a), Units(b))
  {
    if a == "" {
      assert BeforeAt(Units(a), Units(b), 0);
    } else if a[0] == b[0] {
      LessIsBefore(a[1..], b[1..]);
      BeforeBehind(UnitsOf(a[0]), Units(a[1..]), Units(b[1..]));
    } else {
      RankIsUnits(a[0], b[0], Units(a[1..]), Units(b[1..]));
    }
  }

  /** Below the length of a common prefix nothing differs. */
  lemma PrefixAt(a: seq<nat>, b: seq<nat>, i: nat, j: nat)
    requires i <= |a| && i <= |b| && a[..i] == b[..i] && j <= |a| && j <= |b| && a[..j] == b[..j]
    ensures i < j ==> a[i] == b[i]
    ensures j < i ==> a[j] == b[j]
  {
    if i < j {
      assert a[..j][i] == b[..j][i];
    } else if j < i {
      assert a[..i][j] == b[..i][j];
    }
  }

  lemma NotBothBefore(a: seq<nat>, b: seq<nat>)
    requires Before(a, b)
    ensures !Before(b, a) && a != b
  {
    var i: nat :| BeforeAt(a, b, i);
    forall j: nat | j <= |b| && j < |a| && b[..j] == a[..j] && (j == |b| || b[j] < a[j]) ensures false {
      PrefixAt(a, b, i, j);
    }
  }

  /** The order of the keys is that of their UTF-16 code units. */
  lemma {:induction false} KeyOrder(a: string, b: string)
    ensures KeyLess(a, b) <==> Before(Units(a), Units(b))
  {
    KeyLessTotal(a, b);
    if KeyLess(a, b) {
      LessIsBefore(a, b);
    } else if KeyLess(b, a) {
      LessIsBefore(b, a);
      NotBothBefore(Units(b), Units(a));
    } else if Before(Units(a), Units(b)) {
      NotBothBefore(Units(a), Units(b));
    }
  }

  // ---- objects and arrays ------------------------------------------------------

  /** Neighbouring keys are in that order. */
  ghost predicate KeysAscend(order: seq<Entry<Js>>) {
    forall i :: 0 <= i < |order| - 1 ==> Before(Units(order[i].key), Units(order[i + 1].key))
  }

  /** `"key":value` for each property, with commas between them. */
  function Members(order: seq<Entry<Js>>): (t: string)
    decreases |order|
  {
    if order == [] then ""
    else if |order| == 1 then Quote(order[0].key) + ":" + Canonicalize(order[0].value)
    else Members(order[..|order| - 1]) + "," + Members([order[|order| - 1]])
  }

  /** The items with commas between them; an undefined one leaves nothing. */
  function Elements(items: seq<Js>): (t: string)
    decreases |items|
  {
    if items == [] then ""
    else if |items| == 1 then if items[0] == Undefined then "" else Canonicalize(items[0])
    else Elements(items[..|items| - 1]) + "," + Elements([items[|items| - 1]])
  }

  lemma {:induction false} MembersBack(order: seq<Entry<Js>>)
    requires |order| > 1
    ensures Members(order) == Members(order[..|order| - 1]) + "," + Members([order[|order| - 1]])
  {
  }

  lemma {:induction false} MembersFront(order: seq<Entry<Js>>)
    requires |order| > 1
    ensures Members(order) == Members([order[0]]) + "," + Members(order[1..])
    decreases |order|
  {
    var n, tail := |order| - 1, order[1..];
    MembersBack(order);
    if n == 1 {
      assert order[..1] == [order[0]] && tail == [order[1]];
    } else {
      MembersFront(order[..n]);
      MembersBack(tail);
      assert order[..n][1..] == tail[..n - 1];
      FourTexts(Members([order[0]]), Members(tail[..n - 1]), Members([order[n]]));
    }
  }

  lemma FourTexts(a: string, b: string, c: string)
    ensures a + "," + b + "," + c == a + "," + (b + "," + c)
  {
  }

  lemma {:induction false} ElementsFront(items: seq<Js>)
    requires |items| > 1
    ensures Elements(items) == Elements([items[0]]) + "," + Elements(items[1..])
    decreases |items|
  {
    var n := |items| - 1;
    if n == 1 {
      assert items[..1] == [items[0]] && items[1..] == [items[1]];
    } else {
      ElementsFront(items[..n]);
      assert items[..n][1..] == items[1..][..n - 1];
      FourTexts(Elements([items[0]]), Elements(items[1..][..n - 1]), Elements([items[n]]));
    }
  }

  lemma {:induction false} JoinIsElements(items: seq<Js>)
    ensures |CanonicalItems(items)| == |items| && Join(CanonicalItems(items)) == Elements(items)
  {
    if items != [] {
      JoinIsElements(items[1..]);
      var texts := CanonicalItems(items);
      assert texts[1..] == CanonicalItems(items[1..]);
      assert texts[0] == Elements([items[0]]);
      if |items| > 1 {
        ElementsFront(items);
        Associative(Elements([items[0]]), ",", Elements(items[1..]));
      }
    }
  }

  lemma {:induction false} JoinIsMembers(order: seq<Entry<Js>>)
    ensures |CanonicalFields(order)| == |order| && JoinFields(CanonicalFields(order)) == Members(order)
  {
    if order != [] {
      JoinIsMembers(order[1..]);
      var texts := CanonicalFields(order);
      assert texts[1..] == CanonicalFields(order[1..]);
      JoinFirst(texts);
      assert texts[0] == Entry(order[0].key, Canonicalize(order[0].value));
      if |order| > 1 {
        MembersFront(order);
        Associative(Members([order[0]]), ",", Members(order[1..]));
      }
    }
  }

  lemma {:induction false} JoinFirst(fs: seq<Entry<string>>)
    requires fs != []
    ensures JoinFields(fs)
         == Quote(fs[0].key) + ":" + fs[0].value + (if |fs| == 1 then "" else "," + JoinFields(fs[1..]))
  {
  }

  lemma {:induction false} InsertCanonical(e: Entry<Js>, fs: seq<Entry<Js>>)
    ensures CanonicalFields(Insert(e, fs)) == Insert(Entry(e.key, Canonicalize(e.value)), CanonicalFields(fs))
  {
    if fs != [] && !KeyLess(e.key, fs[0].key) {
      InsertCanonical(e, fs[1..]);
      assert CanonicalFields(fs)[1..] == CanonicalFields(fs[1..]);
      assert Insert(e, fs)[1..] == Insert(e, fs[1..]);
    } else {
      assert ([e] + fs)[1..] == fs;
    }
  }

  lemma {:induction false} SortCanonical(fs: seq<Entry<Js>>)
    ensures CanonicalFields(SortByKey(fs)) == SortByKey(CanonicalFields(fs))
  {
    if fs != [] {
      SortCanonical(fs[1..]);
      InsertCanonical(fs[0], SortByKey(fs[1..]));
      assert CanonicalFields(fs)[1..] == CanonicalFields(fs[1..]);
    }
  }

  lemma {:induction false} ObjectIsMembers(fields: seq<Entry<Js>>)
    ensures Canonicalize(Obj(fields)) == "{" + Members(SortByKey(fields)) + "}"
  {
    SortCanonical(fields);
    JoinIsMembers(SortByKey(fields));
  }

  /** The text of an object lists each of its properties once, keys ascending by UTF-16 code units. */
  lemma ObjectText(fields: seq<Entry<Js>>) returns (order: seq<Entry<Js>>)
    requires DistinctKeys(fields)
    ensures multiset(order) == multiset(fields) && KeysAscend(order)
    ensures Canonicalize(Obj(fields)) == "{" + Members(order) + "}"
  {
    order := SortByKey(fields);
    SortSorts(fields);
    ObjectIsMembers(fields);
    forall i | 0 <= i < |order| - 1 ensures Before(Units(order[i].key), Units(order[i + 1].key)) {
      KeyOrder(order[i].key, order[i + 1].key);
    }
  }

  lemma {:induction false} AscendIsSorted(order: seq<Entry<Js>>, i: nat, j: nat)
    requires KeysAscend(order) && i < j < |order|
    ensures KeyLess(order[i].key, order[j].key)
    decreases j
  {
    KeyOrder(order[j - 1].key, order[j].key);
    if i < j - 1 {
      AscendIsSorted(order, i, j - 1);
      KeyLessTransitive(order[i].key, order[j - 1].key, order[j].key);
    }
  }

  /** And that is the only way to list them, so whoever lists them in that order has the text. */
  lemma {:induction false} ObjectTextIs(fields: seq<Entry<Js>>, order: seq<Entry<Js>>)
    requires DistinctKeys(fields) && KeysAscend(order) && forall e :: e in order <==> e in fields
    ensures Canonicalize(Obj(fields)) == "{" + Members(order) + "}"
  {
    var sorted := SortByKey(fields);
    SortSorts(fields);
    ObjectIsMembers(fields);
    forall i, j | 0 <= i < j < |order| ensures KeyLess(order[i].key, order[j].key) {
      AscendIsSorted(order, i, j);
    }
    forall e ensures e in fields <==> e in sorted {
      assert e in multiset(fields) <==> e in multiset(sorted);
    }
    SortedUnique(order, sorted);
  }

  /** Arrays keep their order; the other values have one text each. */
  lemma {:induction false} OtherTexts(items: seq<Js>)
    ensures Canonicalize(Arr(items)) == "[" + Elements(items) + "]"
    ensures Canonicalize(Null) == "null" && Canonicalize(Bool(true)) == "true" && Canonicalize(Bool(false)) == "false"
  {
    JoinIsElements(items);
  }

  // ---- strings -----------------------------------------------------------------

  predicate IsControl(c: char) { c as int < 0x20 }

  /** What one character after a backslash stands for, section 7 of RFC 8259. */
  function Named(c: char): (r: Option<char>) {
    if c == '"' || c == '\\' || c == '/' then Some(c)
    else if c == 'b' then Some(0x08 as char)
    else if c == 't' then Some(0x09 as char)
    else if c == 'n' then Some(0x0A as char)
    else if c == 'f' then Some(0x0C as char)
    else if c == 'r' then Some(0x0D as char)
    else None
  }

  /** A JSON reader for what stands between the quotes; None if it is not well formed. */
  function ReadChars(t: string): (r: Option<string>)
    decreases |t|
  {
    if t == "" then Some("")
    else if t[0] == '"' || IsControl(t[0]) then None
    else if t[0] != '\\' then Then(t[0], ReadChars(t[1..]))
    else if |t| >= 2 && Named(t[1]).Some? then Then(Named(t[1]).value, ReadChars(t[2..]))
    else if |t| >= 6 && t[1] == 'u' && IsNumeral(t[2..6], 16) && NumeralValue(t[2..6], 16) < 0xD800 then
      Then(NumeralValue(t[2..6], 16) as char, ReadChars(t[6..]))
    else None
  }

  function Then(c: char, rest: Option<string>): (r: Option<string>) {
    match rest case None => None case Some(s) => Some([c] + s)
  }

  lemma {:induction false} ControlValue(t: string, n: nat)
    requires n < 0x20 && |t| == 4 && t[0] == '0' && t[1] == '0'
    requires t[2] == DigitChar(n / 16) && t[3] == DigitChar(n % 16)
    ensures IsNumeral(t, 16) && NumeralValue(t, 16) == n
  {
    assert t[..3][..2][..1][..0] == "";
    assert t[..3][..2][..1][0] == '0' && t[..3][..2][1] == '0';
    assert NumeralValue(t[..3][..2][..1], 16) == 0;
    assert NumeralValue(t[..3][..2], 16) == 0;
    assert NumeralValue(t[..3], 16) == n / 16;
  }

  lemma {:induction false} EscapeIsRead(c: char, rest: string)
    ensures ReadChars(Escape(c) + rest) == Then(c, ReadChars(rest))
  {
    var e := Escape(c);
    var t := e + rest;
    if |e| == 6 {
      ControlValue(e[2..], c as int);
      assert t[2..6] == e[2..] && t[6..] == rest;
    } else if |e| == 2 {
      assert t[2..] == rest;
    } else {
      assert t[1..] == rest;
    }
  }

  /** A string is quoted so that a JSON reader gets it back. */
  lemma {:induction false} QuoteIsRead(s: string)
    ensures |Quote(s)| >= 2 && Quote(s)[0] == '"' && Quote(s)[|Quote(s)| - 1] == '"'
    ensures ReadChars(Quote(s)[1..|Quote(s)| - 1]) == Some(s)
  {
    assert Quote(s)[1..|Quote(s)| - 1] == EscapeAll(s);
    EscapeAllIsRead(s);
  }

  lemma {:induction false} EscapeAllIsRead(s: string)
    ensures ReadChars(EscapeAll(s)) == Some(s)
  {
    if s != "" {
      EscapeAllIsRead(s[1..]);
      EscapeIsRead(s[0], EscapeAll(s[1..]));
      assert s == [s[0]] + s[1..];
    }
  }

  /**
   * Only what must be is escaped, in the shortest way, section 3.2.2.2 of RFC
   * 8785: two characters where there is a named escape for a quote, a backslash
   * or a control character, six for the other control characters, in lower case.
   */
  lemma EscapesAreShortest(c: char)
    ensures |Escape(c)| == 1 <==> c != '"' && c != '\\' && !IsControl(c)
    ensures |Escape(c)| == 1 ==> Escape(c) == [c]
    ensures |Escape(c)| == 2 <==> c == '"' || c == '\\' || (IsControl(c) && c as int in {8, 9, 10, 12, 13})
    ensures |Escape(c)| > 2 ==> |Escape(c)| == 6 && Escape(c)[..4] == "\\u00" && AllLowerHex(Escape(c)[4..])
  {
  }

  // ---- numbers -----------------------------------------------------------------

  /** A number of section 6 of RFC 8259 in its parts; an exponent of zero is not written. */
  function Numeral(negative: bool, whole: string, frac: string, exp: int): (t: string) {
    (if negative then "-" else "") + whole + (if frac == "" then "" else "." + frac)
    + (if exp == 0 then "" else if exp < 0 then "e-" + Render(-exp, 10) else "e+" + Render(exp, 10))
  }

  /** The parts are those of a JSON number without a zero too many, and it is an exponent form only if it must be. */
  predicate WellWritten(whole: string, frac: string, exp: int, point: int) {
    && AllDigits(whole) && AllDigits(frac) && whole != "" && (|whole| > 1 ==> whole[0] != '0')
    && (frac != "" ==> frac[|frac| - 1] != '0')
    && (exp != 0 <==> point > 21 || point <= -6)
    && (exp != 0 ==> |whole| == 1 && whole[0] != '0')
  }

  /** The parts have the value of these digits with the point there: the digits between zeros, scaled alike. */
  predicate SameValue(whole: string, frac: string, exp: int, digits: string, point: int, lead: nat, trail: nat) {
    whole + frac == Zeros(lead) + digits + Zeros(trail) && exp - |frac| + trail == point - |digits|
  }

  lemma WholeForm(digits: string, point: int)
    requires ValidNumber(Finite(false, digits, point)) && |digits| <= point <= 21
    ensures Unsigned(digits, point) == Numeral(false, digits + Zeros(point - |digits|), "", 0)
    ensures WellWritten(digits + Zeros(point - |digits|), "", 0, point)
    ensures SameValue(digits + Zeros(point - |digits|), "", 0, digits, point, 0, point - |digits|)
  {
    var t := digits + Zeros(point - |digits|);
    Unwritten(t);
    assert t + "" == t && Zeros(0) == "" && "" + digits == digits;
  }

  lemma CutAt(digits: string, i: nat, point: int)
    requires i <= |digits|
    ensures SameValue(digits[..i], digits[i..], point - i, digits, point, 0, 0)
  {
    assert digits[..i] + digits[i..] == digits;
    assert Zeros(0) == "" && "" + digits + "" == digits;
  }

  lemma PointText(digits: string, point: int)
    requires 0 < point <= 21 && point < |digits|
    ensures Unsigned(digits, point) == Numeral(false, digits[..point], digits[point..], 0)
  {
    Fraction(digits[..point], digits[point..]);
  }

  lemma PointForm(digits: string, point: int)
    requires ValidNumber(Finite(false, digits, point)) && 0 < point <= 21 && point < |digits|
    ensures Unsigned(digits, point) == Numeral(false, digits[..point], digits[point..], 0)
    ensures WellWritten(digits[..point], digits[point..], 0, point)
    ensures SameValue(digits[..point], digits[point..], 0, digits, point, 0, 0)
  {
    PointText(digits, point);
    CutAt(digits, point, point);
  }

  lemma SmallText(digits: string, point: int)
    requires -6 < point <= 0 && digits != ""
    ensures Unsigned(digits, point) == Numeral(false, "0", Zeros(-point) + digits, 0)
  {
    Fraction("0", Zeros(-point) + digits);
    Associative("0.", Zeros(-point), digits);
  }

  lemma SmallForm(digits: string, point: int)
    requires ValidNumber(Finite(false, digits, point)) && -6 < point <= 0
    ensures Unsigned(digits, point) == Numeral(false, "0", Zeros(-point) + digits, 0)
    ensures WellWritten("0", Zeros(-point) + digits, 0, point)
    ensures SameValue("0", Zeros(-point) + digits, 0, digits, point, 1 - point, 0)
  {
    SmallText(digits, point);
    assert "0" + Zeros(-point) == Zeros(1 - point);
    Associative("0", Zeros(-point), digits);
    assert Zeros(0) == "" && Zeros(1 - point) + digits + "" == Zeros(1 - point) + digits;
  }

  /** The exponent of such a number with its sign. */
  function Shown(exp: int): (t: string) { if exp < 0 then "e-" + Render(-exp, 10) else "e+" + Render(exp, 10) }

  lemma ExponentShown(exp: int)
    ensures "e" + ExponentText(exp) == Shown(exp)
  {
  }

  lemma ExponentWritten(digits: string, point: int)
    requires digits != "" && (point > 21 || point <= -6)
    ensures Unsigned(digits, point)
         == (if |digits| == 1 then digits else digits[..1] + "." + digits[1..]) + "e" + ExponentText(point - 1)
  {
  }

  lemma WithExponent(whole: string, frac: string, exp: int)
    requires exp != 0
    ensures Numeral(false, whole, frac, exp) == (if frac == "" then whole else whole + "." + frac) + Shown(exp)
  {
    assert "" + whole == whole;
    Associative(whole, ".", frac);
  }

  lemma ExponentNumeral(digits: string, point: int)
    requires digits != "" && (point > 21 || point <= -6)
    ensures Unsigned(digits, point) == Numeral(false, digits[..1], digits[1..], point - 1)
  {
    var mantissa := if |digits| == 1 then digits else digits[..1] + "." + digits[1..];
    ExponentWritten(digits, point);
    ExponentShown(point - 1);
    WithExponent(digits[..1], digits[1..], point - 1);
    Associative(mantissa, "e", ExponentText(point - 1));
    assert |digits| == 1 ==> digits[..1] == digits;
  }

  lemma ExponentForm(digits: string, point: int)
    requires ValidNumber(Finite(false, digits, point)) && (point > 21 || point <= -6)
    ensures Unsigned(digits, point) == Numeral(false, digits[..1], digits[1..], point - 1)
    ensures WellWritten(digits[..1], digits[1..], point - 1, point)
    ensures SameValue(digits[..1], digits[1..], point - 1, digits, point, 0, 0)
  {
    ExponentNumeral(digits, point);
    CutAt(digits, 1, point);
  }

  lemma UnsignedMeans(digits: string, point: int)
    returns (whole: string, frac: string, exp: int, lead: nat, trail: nat)
    requires ValidNumber(Finite(false, digits, point))
    ensures Unsigned(digits, point) == Numeral(false, whole, frac, exp)
    ensures WellWritten(whole, frac, exp, point) && SameValue(whole, frac, exp, digits, point, lead, trail)
  {
    var k := |digits|;
    lead, trail := 0, 0;
    if k <= point <= 21 {
      WholeForm(digits, point);
      whole, frac, exp, trail := digits + Zeros(point - k), "", 0, point - k;
    } else if 0 < point <= 21 {
      PointForm(digits, point);
      whole, frac, exp := digits[..point], digits[point..], 0;
    } else if -6 < point <= 0 {
      SmallForm(digits, point);
      whole, frac, exp, lead := "0", Zeros(-point) + digits, 0, 1 - point;
    } else {
      ExponentForm(digits, point);
      whole, frac, exp := digits[..1], digits[1..], point - 1;
    }
  }

  /**
   * The text of a number is a JSON number of the same sign and value: its digits
   * are those of the number between `lead` and `trail` zeros, and the point is
   * where it belongs. No zero is there that need not be, and an exponent is
   * written, behind one digit and a fraction, exactly for numbers of 10^21 and more
   * and for those below 10^-6.
   */
  lemma NumberTextMeans(negative: bool, digits: string, point: int)
    returns (whole: string, frac: string, exp: int, lead: nat, trail: nat)
    requires ValidNumber(Finite(negative, digits, point))
    ensures NumberText(Finite(negative, digits, point)) == Numeral(negative, whole, frac, exp)
    ensures WellWritten(whole, frac, exp, point) && SameValue(whole, frac, exp, digits, point, lead, trail)
  {
    whole, frac, exp, lead, trail := UnsignedMeans(digits, point);
    Signed(negative, whole, frac, exp);
  }

  lemma Unwritten(whole: string)
    ensures Numeral(false, whole, "", 0) == whole
  {
  }

  lemma Fraction(whole: string, frac: string)
    requires frac != ""
    ensures Numeral(false, whole, frac, 0) == whole + "." + frac
    ensures whole == "0" ==> Numeral(false, whole, frac, 0) == "0." + frac
  {
    Associative(whole, ".", frac);
  }

  lemma Signed(negative: bool, whole: string, frac: string, exp: int)
    ensures Numeral(negative, whole, frac, exp) == (if negative then "-" else "") + Numeral(false, whole, frac, exp)
  {
    var f, e := if frac == "" then "" else "." + frac,
                if exp == 0 then "" else if exp < 0 then "e-" + Render(-exp, 10) else "e+" + Render(exp, 10);
    assert "" + whole == whole;
    Associative("-" + whole, f, e);
    Associative("-", whole, f + e);
    Associative(whole, f, e);
  }

  lemma ZeroText()
    ensures NumberText(Zero) == "0"
  {
  }

  // ---- an example ----------------------------------------------------------------

  lemma {:induction false} AsciiBefore(a: string, b: string, i: nat)
    requires i <= |a| && i < |b| && a[..i] == b[..i]
    requires forall j :: 0 <= j < |a| ==> a[j] as int < 0x80
    requires forall j :: 0 <= j < |b| ==> b[j] as int < 0x80
    requires i == |a| || a[i] < b[i]
    ensures Before(Units(a), Units(b))
  {
    AsciiUnits(a);
    AsciiUnits(b);
    assert BeforeAt(Units(a), Units(b), i) by {
      forall j | 0 <= j < i ensures Units(a)[j] == Units(b)[j] {
        assert a[..i][j] == b[..i][j];
      }
      assert Units(a)[..i] == Units(b)[..i];
    }
  }

  lemma {:induction false} AsciiUnits(s: string)
    requires forall j :: 0 <= j < |s| ==> s[j] as int < 0x80
    ensures |Units(s)| == |s| && forall j :: 0 <= j < |s| ==> Units(s)[j] == s[j] as int
  {
    if s != "" {
      AsciiUnits(s[1..]);
    }
  }

  lemma TwoMembers(x: Entry<Js>, y: Entry<Js>)
    ensures Members([x, y]) == Members([x]) + "," + Members([y])
  {
    MembersFront([x, y]);
    assert [x, y][1..] == [y];
  }

  lemma TwoInOrder(x: Entry<Js>, y: Entry<Js>)
    requires Before(Units(x.key), Units(y.key))
    ensures Canonicalize(Obj([y, x])) == "{" + (Members([x]) + "," + Members([y])) + "}"
  {
    KeyOrder(x.key, y.key);
    KeyLessTotal(x.key, y.key);
    ObjectTextIs([y, x], [x, y]);
    TwoMembers(x, y);
  }

  /** Two properties given in the wrong order: `{"l": w, "k": v}` with k < l. */
  lemma {:induction false} TwoKeys(k: char, v: Js, l: char, w: Js)
    requires Plain(k) && Plain(l) && k < l
    ensures Canonicalize(Obj([Entry([l], w), Entry([k], v)]))
         == "{" + (("\"" + [k] + "\":" + Canonicalize(v)) + "," + ("\"" + [l] + "\":" + Canonicalize(w))) + "}"
  {
    AsciiBefore([k], [l], 0);
    TwoInOrder(Entry([k], v), Entry([l], w));
    OneMember(k, v);
    OneMember(l, w);
  }

  predicate Plain(c: char) { 0x20 <= c as int < 0x80 && c != '"' && c != '\\' }

  lemma {:induction false} OneMember(k: char, v: Js)
    requires Plain(k)
    ensures Members([Entry([k], v)]) == "\"" + [k] + "\":" + Canonicalize(v)
  {
    assert [k][1..] == "";
    assert EscapeAll([k]) == Escape(k) + EscapeAll("");
  }
}
