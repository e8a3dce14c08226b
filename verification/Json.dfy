/**
 * The values that reach `canonicalize` in src/services/audit.ts, the text it
 * produces for them (JSON canonicalisation, RFC 8785), and the proof that this
 * text stands for exactly one value.
 */
module Json {
  import opened JsText

  /** A property of an object literal, or a rendered property. */
  datatype Entry<+T> = Entry(key: string, value: T)

  /**
   * A finite number as ECMA-262 prints it: the shortest decimal digits (no zero
   * at either end) and the position of the decimal point relative to them.
   */
  datatype Number = Zero | Finite(negative: bool, digits: string, point: int)

  /** A JavaScript value as built in memory; objects list properties in insertion order. */
  datatype Js =
    | Undefined
    | Null
    | Bool(b: bool)
    | Num(n: Number)
    | Str(s: string)
    | Arr(items: seq<Js>)
    | Obj(fields: seq<Entry<Js>>)

  /** What a value means: an object is a finite map, without an order. */
  datatype Value =
    | VUndefined
    | VNull
    | VBool(b: bool)
    | VNum(n: Number)
    | VStr(s: string)
    | VArr(items: seq<Value>)
    | VObj(m: map<string, Value>)

  // ---- well-formed values --------------------------------------------------

  predicate ValidNumber(n: Number) {
    n.Finite? ==>
      n.digits != "" && AllDigits(n.digits) && n.digits[0] != '0' && n.digits[|n.digits| - 1] != '0'
  }

  predicate DistinctKeys<T>(fs: seq<Entry<T>>) {
    forall i, j :: 0 <= i < j < |fs| ==> fs[i].key != fs[j].key
  }

  predicate Valid(v: Js) {
    match v
    case Num(n) => ValidNumber(n)
    case Arr(items) => forall i :: 0 <= i < |items| ==> Valid(items[i])
    case Obj(fields) => DistinctKeys(fields) && forall i :: 0 <= i < |fields| ==> Valid(fields[i].value)
    case _ => true
  }

  // ---- meaning -------------------------------------------------------------

  function Denote(v: Js): (r: Value) {
    match v
    case Undefined => VUndefined
    case Null => VNull
    case Bool(b) => VBool(b)
    case Num(n) => VNum(n)
    case Str(s) => VStr(s)
    case Arr(items) => VArr(DenoteItems(items))
    case Obj(fields) => VObj(DenoteFields(fields))
  }

  function DenoteItems(items: seq<Js>): (r: seq<Value>)
    ensures |r| == |items|
    ensures forall i :: 0 <= i < |items| ==> r[i] == Denote(items[i])
  {
    if items == [] then [] else [Denote(items[0])] + DenoteItems(items[1..])
  }

  function DenoteFields(fields: seq<Entry<Js>>): (r: map<string, Value>)
    ensures r.Keys == set i | 0 <= i < |fields| :: fields[i].key
    ensures DistinctKeys(fields) ==>
              forall i :: 0 <= i < |fields| ==> fields[i].key in r && r[fields[i].key] == Denote(fields[i].value)
  {
    if fields == [] then map[]
    else
      var rest := DenoteFields(fields[1..]);
      var r := rest[fields[0].key := Denote(fields[0].value)];
      assert r.Keys == set i | 0 <= i < |fields| :: fields[i].key by {
        assert forall i :: 0 < i < |fields| ==> fields[i] == fields[1..][i - 1];
      }
      assert DistinctKeys(fields) ==>
          forall i :: 0 <= i < |fields| ==> fields[i].key in r && r[fields[i].key] == Denote(fields[i].value) by {
        if DistinctKeys(fields) {
          forall i | 0 < i < |fields|
            ensures fields[i].key in r && r[fields[i].key] == Denote(fields[i].value)
          {
            assert fields[i] == fields[1..][i - 1];
          }
        }
      }
      r
  }

  // ---- key order -----------------------------------------------------------

  /**
   * `Array.prototype.sort` compares strings by UTF-16 code units. On code points
   * that is the code point order, except that supplementary characters (encoded
   * with surrogates D800 to DFFF) come before E000 to FFFF.
   */
  function Rank(c: char): (r: int) {
    if c as int < 0xD800 then c as int
    else if c as int >= 0x1_0000 then c as int - 0x1_0000 + 0xD800
    else c as int + 0x10_0000
  }

  predicate KeyLess(a: string, b: string) {
    if b == "" then false
    else if a == "" then true
    else if a[0] == b[0] then KeyLess(a[1..], b[1..])
    else Rank(a[0]) < Rank(b[0])
  }

  lemma RankInjective(c: char, d: char)
    requires Rank(c) == Rank(d)
    ensures c == d
  {
  }

  lemma {:induction false} KeyLessTotal(a: string, b: string)
    ensures a == b || KeyLess(a, b) || KeyLess(b, a)
    ensures !(KeyLess(a, b) && KeyLess(b, a))
    ensures !KeyLess(a, a)
  {
    if a != "" {
      KeyLessTotal(a[1..], if b != "" then b[1..] else "");
      if b != "" {
        if a[0] == b[0] {
          assert a == [a[0]] + a[1..] && b == [b[0]] + b[1..];
        } else if Rank(a[0]) == Rank(b[0]) {
          RankInjective(a[0], b[0]);
        }
      }
    }
  }

  lemma {:induction false} KeyLessTransitive(a: string, b: string, c: string)
    requires KeyLess(a, b) && KeyLess(b, c)
    ensures KeyLess(a, c)
  {
    if a != "" && a[0] == b[0] == c[0] {
      KeyLessTransitive(a[1..], b[1..], c[1..]);
    }
  }

  ghost predicate Sorted<T>(fs: seq<Entry<T>>) {
    forall i, j :: 0 <= i < j < |fs| ==> KeyLess(fs[i].key, fs[j].key)
  }

  function Insert<T>(e: Entry<T>, fs: seq<Entry<T>>): (r: seq<Entry<T>>) {
    if fs == [] || KeyLess(e.key, fs[0].key) then [e] + fs else [fs[0]] + Insert(e, fs[1..])
  }

  /** `Object.keys(obj).sort()` together with the properties it lists. */
  function SortByKey<T>(fs: seq<Entry<T>>): (r: seq<Entry<T>>) {
    if fs == [] then [] else Insert(fs[0], SortByKey(fs[1..]))
  }

  lemma {:induction false} InsertMembers<T>(e: Entry<T>, fs: seq<Entry<T>>)
    ensures multiset(Insert(e, fs)) == multiset([e] + fs)
  {
    if !(fs == [] || KeyLess(e.key, fs[0].key)) {
      InsertMembers(e, fs[1..]);
      assert fs == [fs[0]] + fs[1..];
    }
  }

  lemma {:induction false} InsertSorted<T>(e: Entry<T>, fs: seq<Entry<T>>)
    requires Sorted(fs) && forall i :: 0 <= i < |fs| ==> fs[i].key != e.key
    ensures Sorted(Insert(e, fs))
  {
    var r := Insert(e, fs);
    if fs == [] {
    } else if KeyLess(e.key, fs[0].key) {
      forall j | 0 < j < |r| ensures KeyLess(r[0].key, r[j].key) {
        if j > 1 {
          KeyLessTransitive(e.key, fs[0].key, fs[j - 1].key);
        }
      }
    } else {
      InsertSorted(e, fs[1..]);
      InsertMembers(e, fs[1..]);
      KeyLessTotal(e.key, fs[0].key);
      forall j | 0 < j < |r| ensures KeyLess(r[0].key, r[j].key) {
        assert r[j] in multiset(r[1..]) && r[1..] == Insert(e, fs[1..]);
        assert r[j] == e || r[j] in fs[1..];
      }
    }
  }

  lemma {:induction false} SortSorts<T>(fs: seq<Entry<T>>)
    requires DistinctKeys(fs)
    ensures multiset(SortByKey(fs)) == multiset(fs)
    ensures Sorted(SortByKey(fs))
  {
    if fs != [] {
      var tail := SortByKey(fs[1..]);
      SortSorts(fs[1..]);
      InsertMembers(fs[0], tail);
      assert fs == [fs[0]] + fs[1..];
      forall i | 0 <= i < |tail| ensures tail[i].key != fs[0].key {
        assert tail[i] in multiset(tail);
        assert tail[i] in fs[1..];
      }
      InsertSorted(fs[0], tail);
    }
  }

  lemma HeadIsMember<T>(s: seq<T>)
    ensures s != [] ==> s[0] in s
  {
  }

  /** A strictly sorted list is determined by the properties it holds. */
  lemma {:induction false} SortedUnique<T>(fs: seq<Entry<T>>, gs: seq<Entry<T>>)
    requires Sorted(fs) && Sorted(gs)
    requires forall e :: e in fs <==> e in gs
    ensures fs == gs
  {
    HeadIsMember(gs);
    if fs != [] {
      assert fs[0] in fs;
      var j :| 0 <= j < |gs| && gs[j] == fs[0];
      assert gs[0] in gs;
      var i :| 0 <= i < |fs| && fs[i] == gs[0];
      KeyLessTotal(fs[0].key, gs[0].key);
      assert i == 0 && j == 0;
      forall e | e in fs[1..] ensures e in gs[1..] {
        assert e in fs;
        KeyLessTotal(fs[0].key, e.key);
      }
      forall e | e in gs[1..] ensures e in fs[1..] {
        assert e in gs;
        KeyLessTotal(gs[0].key, e.key);
      }
      SortedUnique(fs[1..], gs[1..]);
      SameHeadAndTail(fs, gs);
    }
  }

  lemma SameHeadAndTail<T>(xs: seq<T>, ys: seq<T>)
    requires |xs| > 0 && |ys| > 0 && xs[0] == ys[0] && xs[1..] == ys[1..]
    ensures xs == ys
  {
    assert xs == [xs[0]] + xs[1..] && ys == [ys[0]] + ys[1..];
  }

  // ---- text ----------------------------------------------------------------

  /** JSON string escapes of `JSON.stringify`. */
  function Escape(c: char): (s: string) {
    if c == '"' then "\\\""
    else if c == '\\' then "\\\\"
    else if c == '\U{08}' then "\\b"
    else if c == '\U{09}' then "\\t"
    else if c == '\U{0A}' then "\\n"
    else if c == '\U{0C}' then "\\f"
    else if c == '\U{0D}' then "\\r"
    else if c < ' ' then "\\u00" + [DigitChar(c as int / 16), DigitChar(c as int % 16)]
    else [c]
  }

  function EscapeAll(s: string): (r: string) {
    if s == "" then "" else Escape(s[0]) + EscapeAll(s[1..])
  }

  function Quote(s: string): (r: string) { "\"" + EscapeAll(s) + "\"" }

  /** `Number::toString` of ECMA-262 for a finite number with k digits and point n. */
  function NumberText(x: Number): (r: string) {
    match x
    case Zero => "0"
    case Finite(negative, digits, point) => (if negative then "-" else "") + Unsigned(digits, point)
  }

  function Unsigned(digits: string, point: int): (r: string) {
    var k := |digits|;
    if k <= point <= 21 then digits + Zeros(point - k)
    else if 0 < point <= 21 then digits[..point] + "." + digits[point..]
    else if -6 < point <= 0 then "0." + Zeros(-point) + digits
    else if k <= 1 then digits + "e" + ExponentText(point - 1)
    else digits[..1] + "." + digits[1..] + "e" + ExponentText(point - 1)
  }

  function ExponentText(e: int): (r: string) {
    if e < 0 then "-" + Render(-e, 10) else "+" + Render(e, 10)
  }

  /** The text `canonicalize` gives a value whose properties are listed in key order already. */
  function Stringify(v: Js): (r: string)
    decreases v, 0
  {
    match v
    case Undefined => "undefined"
    case Null => "null"
    case Bool(b) => if b then "true" else "false"
    case Num(n) => NumberText(n)
    case Str(s) => Quote(s)
    case Arr(items) => "[" + StringifyItems(items) + "]"
    case Obj(fields) => "{" + StringifyFields(fields) + "}"
  }

  /** `Array.prototype.join` writes nothing for an item that has no text. */
  function ItemText(v: Js): (r: string)
    decreases v, 1
  {
    if v.Undefined? then "" else Stringify(v)
  }

  function StringifyItems(items: seq<Js>): (r: string) {
    if items == [] then ""
    else ItemText(items[0]) + (if |items| == 1 then "" else "," + StringifyItems(items[1..]))
  }

  function StringifyFields(fields: seq<Entry<Js>>): (r: string) {
    if fields == [] then ""
    else
      Quote(fields[0].key) + ":" + Stringify(fields[0].value)
      + (if |fields| == 1 then "" else "," + StringifyFields(fields[1..]))
  }

  /** `canonicalize`: properties sorted by key at every level, then rendered and joined. */
  function Canonicalize(v: Js): (r: string) {
    match v
    case Arr(items) => "[" + Join(CanonicalItems(items)) + "]"
    case Obj(fields) => "{" + JoinFields(SortByKey(CanonicalFields(fields))) + "}"
    case _ => Stringify(v)
  }

  function CanonicalItems(items: seq<Js>): (r: seq<string>) {
    if items == [] then []
    else [if items[0].Undefined? then "" else Canonicalize(items[0])] + CanonicalItems(items[1..])
  }

  function CanonicalFields(fields: seq<Entry<Js>>): (r: seq<Entry<string>>) {
    if fields == [] then []
    else [Entry(fields[0].key, Canonicalize(fields[0].value))] + CanonicalFields(fields[1..])
  }

  function Join(texts: seq<string>): (r: string) {
    if texts == [] then "" else texts[0] + (if |texts| == 1 then "" else "," + Join(texts[1..]))
  }

  function JoinFields(fs: seq<Entry<string>>): (r: string) {
    if fs == [] then ""
    else Quote(fs[0].key) + ":" + fs[0].value + (if |fs| == 1 then "" else "," + JoinFields(fs[1..]))
  }

  // ---- canonical text is the plain text of the sorted value ----------------

  /** The same value with the properties of every object in key order. */
  function Normal(v: Js): (r: Js) {
    match v
    case Arr(items) => Arr(NormalItems(items))
    case Obj(fields) => Obj(SortByKey(NormalFields(fields)))
    case _ => v
  }

  function NormalItems(items: seq<Js>): (r: seq<Js>)
    ensures |r| == |items| && forall i :: 0 <= i < |items| ==> r[i] == Normal(items[i])
  {
    if items == [] then [] else [Normal(items[0])] + NormalItems(items[1..])
  }

  function NormalFields(fields: seq<Entry<Js>>): (r: seq<Entry<Js>>)
    ensures |r| == |fields|
    ensures forall i :: 0 <= i < |fields| ==> r[i] == Entry(fields[i].key, Normal(fields[i].value))
  {
    if fields == [] then []
    else [Entry(fields[0].key, Normal(fields[0].value))] + NormalFields(fields[1..])
  }

  function RenderFields(fs: seq<Entry<Js>>): (r: seq<Entry<string>>) {
    if fs == [] then [] else [Entry(fs[0].key, Stringify(fs[0].value))] + RenderFields(fs[1..])
  }

  lemma {:induction false} InsertRenders(e: Entry<Js>, fs: seq<Entry<Js>>)
    ensures RenderFields(Insert(e, fs)) == Insert(Entry(e.key, Stringify(e.value)), RenderFields(fs))
  {
    if fs != [] && !KeyLess(e.key, fs[0].key) {
      InsertRenders(e, fs[1..]);
      assert RenderFields(fs)[1..] == RenderFields(fs[1..]);
      assert Insert(e, fs)[1..] == Insert(e, fs[1..]);
    } else {
      assert ([e] + fs)[1..] == fs;
    }
  }

  lemma {:induction false} SortRenders(fs: seq<Entry<Js>>)
    ensures RenderFields(SortByKey(fs)) == SortByKey(RenderFields(fs))
  {
    if fs != [] {
      SortRenders(fs[1..]);
      InsertRenders(fs[0], SortByKey(fs[1..]));
      assert RenderFields(fs)[1..] == RenderFields(fs[1..]);
    }
  }

  lemma {:induction false} JoinRenders(fs: seq<Entry<Js>>)
    ensures |RenderFields(fs)| == |fs|
    ensures JoinFields(RenderFields(fs)) == StringifyFields(fs)
  {
    if fs != [] {
      JoinRenders(fs[1..]);
      assert RenderFields(fs)[1..] == RenderFields(fs[1..]);
    }
  }

  lemma {:induction false} CanonicalText(v: Js)
    ensures Canonicalize(v) == Stringify(Normal(v))
    decreases v, 1
  {
    match v
    case Arr(items) =>
      CanonicalItemsText(items);
    case Obj(fields) =>
      CanonicalFieldsText(fields);
      SortRenders(NormalFields(fields));
      JoinRenders(SortByKey(NormalFields(fields)));
    case _ =>
  }

  lemma {:induction false} CanonicalItemsText(items: seq<Js>)
    ensures |CanonicalItems(items)| == |items|
    ensures Join(CanonicalItems(items)) == StringifyItems(NormalItems(items))
    decreases items, 0
  {
    if items != [] {
      CanonicalText(items[0]);
      CanonicalItemsText(items[1..]);
      assert CanonicalItems(items)[1..] == CanonicalItems(items[1..]);
      assert NormalItems(items)[1..] == NormalItems(items[1..]);
    }
  }

  lemma {:induction false} CanonicalFieldsText(fields: seq<Entry<Js>>)
    ensures CanonicalFields(fields) == RenderFields(NormalFields(fields))
    decreases fields, 0
  {
    if fields != [] {
      CanonicalText(fields[0].value);
      CanonicalFieldsText(fields[1..]);
      assert NormalFields(fields)[1..] == NormalFields(fields[1..]);
    }
  }

  // ---- what an undefined item leaves behind ---------------------------------

  /** No array in the value is `[undefined]`. */
  predicate NoLone(v: Js) {
    match v
    case Arr(items) => items != [Undefined] && AllNoLone(items)
    case Obj(fields) => forall i :: 0 <= i < |fields| ==> NoLone(fields[i].value)
    case _ => true
  }

  predicate AllNoLone(items: seq<Js>) { forall i :: 0 <= i < |items| ==> NoLone(items[i]) }

  /** The same value with `[]` for every `[undefined]`. */
  function Squash(v: Js): (r: Js)
    ensures Valid(v) ==> Valid(r)
    ensures NoLone(r)
    ensures r.Undefined? <==> v.Undefined?
  {
    match v
    case Arr(items) => if items == [Undefined] then Arr([]) else Arr(SquashItems(items))
    case Obj(fields) => Obj(SquashFields(fields))
    case _ => v
  }

  function SquashItems(items: seq<Js>): (r: seq<Js>)
    ensures |r| == |items| && forall i :: 0 <= i < |items| ==> r[i] == Squash(items[i])
  {
    if items == [] then [] else [Squash(items[0])] + SquashItems(items[1..])
  }

  function SquashFields(fields: seq<Entry<Js>>): (r: seq<Entry<Js>>)
    ensures |r| == |fields|
    ensures forall i :: 0 <= i < |fields| ==> r[i] == Entry(fields[i].key, Squash(fields[i].value))
  {
    if fields == [] then []
    else [Entry(fields[0].key, Squash(fields[0].value))] + SquashFields(fields[1..])
  }

  lemma {:induction false} SquashNothing(v: Js)
    requires NoLone(v)
    ensures Squash(v) == v
  {
    match v
    case Arr(items) =>
      forall i | 0 <= i < |items| ensures Squash(items[i]) == items[i] {
        SquashNothing(items[i]);
      }
      assert SquashItems(items) == items;
    case Obj(fields) =>
      forall i | 0 <= i < |fields| ensures SquashFields(fields)[i] == fields[i] {
        SquashNothing(fields[i].value);
      }
      assert SquashFields(fields) == fields;
    case _ =>
  }

  /** The value as its text shows it: `[undefined]` cannot be told from `[]`. */
  function Reading(v: Js): (r: Value) { Denote(Squash(v)) }

  lemma {:induction false} SquashKeepsText(v: Js)
    ensures Canonicalize(Squash(v)) == Canonicalize(v)
    decreases v, 1
  {
    match v
    case Arr(items) =>
      if items == [Undefined] {
        assert CanonicalItems(items) == [""];
      } else {
        SquashKeepsItems(items);
      }
    case Obj(fields) =>
      SquashKeepsFields(fields);
    case _ =>
  }

  lemma {:induction false} SquashKeepsItems(items: seq<Js>)
    ensures CanonicalItems(SquashItems(items)) == CanonicalItems(items)
    decreases items, 0
  {
    if items != [] {
      SquashKeepsText(items[0]);
      SquashKeepsItems(items[1..]);
      assert SquashItems(items)[1..] == SquashItems(items[1..]);
    }
  }

  lemma {:induction false} SquashKeepsFields(fields: seq<Entry<Js>>)
    ensures CanonicalFields(SquashFields(fields)) == CanonicalFields(fields)
    decreases fields, 0
  {
    if fields != [] {
      SquashKeepsText(fields[0].value);
      SquashKeepsFields(fields[1..]);
      assert SquashFields(fields)[1..] == SquashFields(fields[1..]);
    }
  }

  /** Sorting properties puts `[undefined]` nowhere. */
  lemma {:induction false} NormalNoLone(v: Js)
    requires Valid(v) && NoLone(v)
    ensures NoLone(Normal(v))
  {
    match v
    case Arr(items) =>
      forall i | 0 <= i < |items|
        ensures NoLone(Normal(items[i])) && (Normal(items[i]) == Undefined <==> items[i] == Undefined)
      {
        NormalNoLone(items[i]);
      }
      assert |items| == 1 && items[0] == Undefined ==> items == [Undefined];
    case Obj(fields) =>
      forall i | 0 <= i < |fields| ensures NoLone(Normal(fields[i].value)) {
        NormalNoLone(fields[i].value);
      }
      SortNoLone(NormalFields(fields));
    case _ =>
  }

  lemma {:induction false} SortNoLone(fs: seq<Entry<Js>>)
    requires DistinctKeys(fs) && NoLone(Obj(fs))
    ensures NoLone(Obj(SortByKey(fs)))
  {
    var gs := SortByKey(fs);
    SortSorts(fs);
    SameMembers(fs, gs);
    forall j | 0 <= j < |gs| ensures NoLone(gs[j].value) {
      assert gs[j] in gs;
    }
  }

  // ---- numbers are told apart by their text --------------------------------

  predicate IsNumberChar(c: char) { IsDigit(c) || c == '.' || c == 'e' || c == '+' || c == '-' }

  /** What can follow a value inside a document: nothing, or a character no number contains. */
  predicate Delimited(rest: string) { rest == "" || rest[0] in [',', ']', '}', '|'] }

  predicate InWords(digits: string, point: int) { |digits| <= point <= 21 }
  predicate InFraction(digits: string, point: int) { 0 < point <= 21 && point < |digits| }
  predicate InSmall(digits: string, point: int) { -6 < point <= 0 }
  predicate InExponent(digits: string, point: int) {
    !InWords(digits, point) && !InFraction(digits, point) && !InSmall(digits, point)
  }

  lemma ExponentChars(e: int)
    ensures ExponentText(e) != ""
    ensures forall i :: 0 <= i < |ExponentText(e)| ==> IsNumberChar(ExponentText(e)[i])
    ensures 'e' !in ExponentText(e) && '.' !in ExponentText(e)
  {
    RenderDecimal(if e < 0 then -e else e);
  }

  lemma ExponentInjective(e: int, f: int)
    requires ExponentText(e) == ExponentText(f)
    ensures e == f
  {
    var a, b := if e < 0 then -e else e, if f < 0 then -f else f;
    assert ExponentText(e)[1..] == Render(a, 10) && ExponentText(f)[1..] == Render(b, 10);
    RenderValue(a, 10);
    RenderValue(b, 10);
    assert ExponentText(e)[0] == ExponentText(f)[0];
  }

  /** Which of the marks '.' and 'e' a rendering contains, and how it starts. */
  lemma UnsignedShape(digits: string, point: int)
    requires ValidNumber(Finite(false, digits, point))
    ensures var t := Unsigned(digits, point);
            && t != "" && IsDigit(t[0]) && t != "0"
            && (forall i :: 0 <= i < |t| ==> IsNumberChar(t[i]))
            && (t[0] == '0' <==> InSmall(digits, point))
            && ('e' in t <==> InExponent(digits, point))
            && ('.' in t <==> InFraction(digits, point) || InSmall(digits, point)
                              || (InExponent(digits, point) && |digits| > 1))
  {
    var t := Unsigned(digits, point);
    assert 'e' !in digits && '.' !in digits;
    if InExponent(digits, point) {
      ExponentChars(point - 1);
      if |digits| == 1 {
        assert t[1] == 'e';
      } else {
        assert t[1] == '.' && t[|digits| + 1] == 'e';
      }
    } else if InFraction(digits, point) {
      assert t[point] == '.';
    } else if InSmall(digits, point) {
      assert t[1] == '.' && t[0] == '0';
    }
  }

  /** The first occurrence of a separator splits a text in one way. */
  lemma SplitUnique(c: char, a1: string, b1: string, a2: string, b2: string)
    requires c !in a1 && c !in a2
    requires a1 + [c] + b1 == a2 + [c] + b2
    ensures a1 == a2 && b1 == b2
  {
    var t, u := a1 + [c] + b1, a2 + [c] + b2;
    assert t[|a1|] == u[|a1|] == c && t[|a2|] == u[|a2|] == c;
    assert |a1| == |a2|;
    assert t[..|a1|] == a1 && u[..|a2|] == a2;
    assert t[|a1| + 1..] == b1 && u[|a2| + 1..] == b2;
  }

  lemma WordsInjective(d1: string, p1: int, d2: string, p2: int)
    requires ValidNumber(Finite(false, d1, p1)) && ValidNumber(Finite(false, d2, p2))
    requires |d1| <= p1 && |d2| <= p2
    requires d1 + Zeros(p1 - |d1|) == d2 + Zeros(p2 - |d2|)
    ensures d1 == d2 && p1 == p2
  {
    var t, u := d1 + Zeros(p1 - |d1|), d2 + Zeros(p2 - |d2|);
    assert |t| == p1 && |u| == p2;
    assert t[|d2| - 1] == u[|d2| - 1] != '0' && t[|d1| - 1] == u[|d1| - 1] != '0';
    assert |d1| == |d2|;
    assert t[..|d1|] == d1 && u[..|d2|] == d2;
  }

  lemma SmallInjective(d1: string, k1: nat, d2: string, k2: nat)
    requires d1 != "" && d2 != "" && d1[0] != '0' && d2[0] != '0'
    requires "0." + Zeros(k1) + d1 == "0." + Zeros(k2) + d2
    ensures d1 == d2 && k1 == k2
  {
    var t, u := "0." + Zeros(k1) + d1, "0." + Zeros(k2) + d2;
    assert t[2 + k1] == u[2 + k1] != '0' && t[2 + k2] == u[2 + k2] != '0';
    assert k1 == k2;
    assert t[2 + k1..] == d1 && u[2 + k2..] == d2;
  }

  lemma MantissaInjective(d1: string, d2: string)
    requires AllDigits(d1) && AllDigits(d2) && d1 != "" && d2 != ""
    requires Mantissa(d1) == Mantissa(d2)
    ensures d1 == d2
  {
    assert '.' !in d1 && '.' !in d2;
    if |d1| > 1 {
      var t := d1[..1] + "." + d1[1..];
      assert t[1] == '.';
      assert |d2| > 1;
      SplitUnique('.', d1[..1], d1[1..], d2[..1], d2[1..]);
      assert d1 == d1[..1] + d1[1..] && d2 == d2[..1] + d2[1..];
    }
  }

  lemma FractionInjective(d1: string, p1: int, d2: string, p2: int)
    requires AllDigits(d1) && AllDigits(d2) && 0 < p1 < |d1| && 0 < p2 < |d2|
    requires d1[..p1] + "." + d1[p1..] == d2[..p2] + "." + d2[p2..]
    ensures d1 == d2 && p1 == p2
  {
    assert '.' !in d1 && '.' !in d2;
    SplitUnique('.', d1[..p1], d1[p1..], d2[..p2], d2[p2..]);
    assert d1 == d1[..p1] + d1[p1..] && d2 == d2[..p2] + d2[p2..];
  }

  function Mantissa(digits: string): (m: string)
    requires digits != ""
  {
    if |digits| <= 1 then digits else digits[..1] + "." + digits[1..]
  }

  lemma ExponentFormInjective(d1: string, p1: int, d2: string, p2: int)
    requires AllDigits(d1) && AllDigits(d2) && d1 != "" && d2 != ""
    requires Mantissa(d1) + "e" + ExponentText(p1 - 1) == Mantissa(d2) + "e" + ExponentText(p2 - 1)
    ensures d1 == d2 && p1 == p2
  {
    assert 'e' !in d1 && 'e' !in d2;
    SplitUnique('e', Mantissa(d1), ExponentText(p1 - 1), Mantissa(d2), ExponentText(p2 - 1));
    MantissaInjective(d1, d2);
    ExponentInjective(p1 - 1, p2 - 1);
  }

  /** Equal renderings are renderings in the same one of the four forms. */
  lemma SameForm(d1: string, p1: int, d2: string, p2: int)
    requires ValidNumber(Finite(false, d1, p1)) && ValidNumber(Finite(false, d2, p2))
    requires Unsigned(d1, p1) == Unsigned(d2, p2)
    ensures InWords(d1, p1) <==> InWords(d2, p2)
    ensures InFraction(d1, p1) <==> InFraction(d2, p2)
    ensures InSmall(d1, p1) <==> InSmall(d2, p2)
  {
    UnsignedShape(d1, p1);
    UnsignedShape(d2, p2);
  }

  lemma UnsignedInjective(d1: string, p1: int, d2: string, p2: int)
    requires ValidNumber(Finite(false, d1, p1)) && ValidNumber(Finite(false, d2, p2))
    requires Unsigned(d1, p1) == Unsigned(d2, p2)
    ensures d1 == d2 && p1 == p2
  {
    SameForm(d1, p1, d2, p2);
    if InWords(d1, p1) {
      WordsInjective(d1, p1, d2, p2);
    } else if InFraction(d1, p1) {
      FractionInjective(d1, p1, d2, p2);
    } else if InSmall(d1, p1) {
      SmallInjective(d1, -p1, d2, -p2);
    } else {
      assert Unsigned(d1, p1) == Mantissa(d1) + "e" + ExponentText(p1 - 1);
      assert Unsigned(d2, p2) == Mantissa(d2) + "e" + ExponentText(p2 - 1);
      ExponentFormInjective(d1, p1, d2, p2);
    }
  }

  lemma NumberChars(x: Number)
    requires ValidNumber(x)
    ensures NumberText(x) != "" && (IsDigit(NumberText(x)[0]) || NumberText(x)[0] == '-')
    ensures forall i :: 0 <= i < |NumberText(x)| ==> IsNumberChar(NumberText(x)[i])
  {
    if x.Finite? {
      UnsignedShape(x.digits, x.point);
    }
  }

  lemma NumberInjective(x: Number, y: Number)
    requires ValidNumber(x) && ValidNumber(y) && NumberText(x) == NumberText(y)
    ensures x == y
  {
    if x.Finite? {
      UnsignedShape(x.digits, x.point);
    }
    if y.Finite? {
      UnsignedShape(y.digits, y.point);
    }
    if x.Finite? && y.Finite? {
      var t, u := NumberText(x), NumberText(y);
      assert x.negative <==> t[0] == '-';
      assert y.negative <==> u[0] == '-';
      assert (if x.negative then t[1..] else t) == Unsigned(x.digits, x.point);
      assert (if y.negative then u[1..] else u) == Unsigned(y.digits, y.point);
      UnsignedInjective(x.digits, x.point, y.digits, y.point);
    }
  }

  /** How many number characters a text starts with. */
  function NumberRun(t: string): (k: nat) {
    if t != "" && IsNumberChar(t[0]) then 1 + NumberRun(t[1..]) else 0
  }

  lemma {:induction false} LongestNumber(a: string, r: string)
    requires Delimited(r) && forall i :: 0 <= i < |a| ==> IsNumberChar(a[i])
    ensures NumberRun(a + r) == |a|
  {
    if a != "" {
      LongestNumber(a[1..], r);
      assert (a + r)[1..] == a[1..] + r;
    } else {
      assert a + r == r;
    }
  }

  lemma NumberPrefix(x: Number, y: Number, r1: string, r2: string)
    requires ValidNumber(x) && ValidNumber(y) && Delimited(r1) && Delimited(r2)
    requires NumberText(x) + r1 == NumberText(y) + r2
    ensures x == y && r1 == r2
  {
    var a, b := NumberText(x), NumberText(y);
    NumberChars(x);
    NumberChars(y);
    LongestNumber(a, r1);
    LongestNumber(b, r2);
    assert (a + r1)[..|a|] == a && (b + r2)[..|b|] == b;
    assert (a + r1)[|a|..] == r1 && (b + r2)[|b|..] == r2;
    NumberInjective(x, y);
  }

  // ---- strings are told apart by their text --------------------------------

  lemma EscapePrefix(c: char, d: char, r1: string, r2: string)
    requires Escape(c) + r1 == Escape(d) + r2
    ensures c == d && r1 == r2
  {
    var a, b := Escape(c), Escape(d);
    var t := a + r1;
    assert t == b + r2;
    assert t[0] == a[0] == b[0];
    if a[0] == '\\' {
      assert t[1] == a[1] == b[1];
      if a[1] == 'u' {
        assert t[4] == a[4] == b[4] && t[5] == a[5] == b[5];
        assert DigitValue(a[4]) == c as int / 16 && DigitValue(a[5]) == c as int % 16;
        assert DigitValue(b[4]) == d as int / 16 && DigitValue(b[5]) == d as int % 16;
      }
    }
    assert |a| == |b|;
    assert t[|a|..] == r1 && t[|b|..] == r2;
  }

  lemma Regroup(open: string, body: string, close: string, r: string)
    ensures open + body + close + r == open + (body + close + r)
  {
  }

  lemma {:induction false} EscapeHead(s: string, r: string)
    ensures (EscapeAll(s) + "\"" + r)[0] == '"' <==> s == ""
  {
    if s != "" {
      assert EscapeAll(s)[0] == Escape(s[0])[0];
    }
  }

  lemma {:induction false} EscapeAllPrefix(s: string, t: string, r1: string, r2: string)
    requires EscapeAll(s) + "\"" + r1 == EscapeAll(t) + "\"" + r2
    ensures s == t && r1 == r2
  {
    var a, b := EscapeAll(s) + "\"" + r1, EscapeAll(t) + "\"" + r2;
    EscapeHead(s, r1);
    EscapeHead(t, r2);
    if s == "" {
      assert a[1..] == r1 && b[1..] == r2;
    } else {
      var a', b' := EscapeAll(s[1..]) + "\"" + r1, EscapeAll(t[1..]) + "\"" + r2;
      Regroup(Escape(s[0]), EscapeAll(s[1..]), "\"", r1);
      Regroup(Escape(t[0]), EscapeAll(t[1..]), "\"", r2);
      EscapePrefix(s[0], t[0], a', b');
      EscapeAllPrefix(s[1..], t[1..], r1, r2);
      assert s == [s[0]] + s[1..] && t == [t[0]] + t[1..];
    }
  }

  lemma QuotePrefix(s: string, t: string, r1: string, r2: string)
    requires Quote(s) + r1 == Quote(t) + r2
    ensures s == t && r1 == r2
  {
    QuoteOpens(s, r1);
    QuoteOpens(t, r2);
    ConstantPrefix("\"", EscapeAll(s) + "\"" + r1, EscapeAll(t) + "\"" + r2);
    EscapeAllPrefix(s, t, r1, r2);
  }

  lemma {:induction false} QuoteOpens(s: string, r: string)
    ensures Quote(s) + r == "\"" + (EscapeAll(s) + "\"" + r)
  {
    Regroup("\"", EscapeAll(s), "\"", r);
  }

  // ---- every value is told apart by its text -------------------------------

  /** The first character of a value's text shows what kind of value it is. */
  function Kind(v: Js): (k: int) {
    match v
    case Undefined => 0
    case Null => 1
    case Bool(b) => if b then 2 else 3
    case Num(_) => 4
    case Str(_) => 5
    case Arr(_) => 6
    case Obj(_) => 7
  }

  function KindOf(c: char): (k: int) {
    if c == 'u' then 0 else if c == 'n' then 1 else if c == 't' then 2 else if c == 'f' then 3
    else if IsDigit(c) || c == '-' then 4 else if c == '"' then 5 else if c == '[' then 6
    else if c == '{' then 7 else 8
  }

  lemma {:induction false} FirstChar(v: Js)
    requires Valid(v)
    ensures Stringify(v) != "" && KindOf(Stringify(v)[0]) == Kind(v)
  {
    if v.Num? {
      NumberChars(v.n);
    }
  }

  lemma ConstantPrefix(t: string, r1: string, r2: string)
    requires t + r1 == t + r2
    ensures r1 == r2
  {
    assert (t + r1)[|t|..] == r1 && (t + r2)[|t|..] == r2;
  }

  /** What follows the first item, or the first property, of a list closed by `close`. */
  function Tail(rest: string, last: bool, close: string, r: string): (t: string) {
    (if last then "" else "," + rest) + close + r
  }

  lemma TailSplit(x1: string, last1: bool, r1: string, x2: string, last2: bool, r2: string, close: string)
    requires close == "]" || close == "}"
    requires Tail(x1, last1, close, r1) == Tail(x2, last2, close, r2)
    ensures last1 == last2
    ensures if last1 then r1 == r2 else x1 + close + r1 == x2 + close + r2
  {
    var t, u := Tail(x1, last1, close, r1), Tail(x2, last2, close, r2);
    assert t[0] == if last1 then close[0] else ',';
    assert u[0] == if last2 then close[0] else ',';
    assert t[1..] == if last1 then r1 else x1 + close + r1;
    assert u[1..] == if last2 then r2 else x2 + close + r2;
  }

  lemma {:induction false} ItemsText(items: seq<Js>, r: string)
    requires items != []
    ensures StringifyItems(items) + "]" + r
         == ItemText(items[0]) + Tail(StringifyItems(items[1..]), |items| == 1, "]", r)
  {
    Regroup(ItemText(items[0]), if |items| == 1 then "" else "," + StringifyItems(items[1..]), "]", r);
  }

  lemma {:induction false} FieldsText(fields: seq<Entry<Js>>, r: string)
    requires fields != []
    ensures StringifyFields(fields) + "}" + r
         == Quote(fields[0].key)
            + (":" + (Stringify(fields[0].value) + Tail(StringifyFields(fields[1..]), |fields| == 1, "}", r)))
  {
    RegroupField(Quote(fields[0].key), Stringify(fields[0].value),
                 if |fields| == 1 then "" else "," + StringifyFields(fields[1..]), "}", r);
  }

  lemma RegroupField(key: string, value: string, rest: string, close: string, r: string)
    ensures key + ":" + value + rest + close + r == key + (":" + (value + (rest + close + r)))
  {
    Regroup(key + ":" + value, rest, close, r);
    Regroup(key, ":", value, rest + close + r);
    assert ":" + value + (rest + close + r) == ":" + (value + (rest + close + r));
  }

  lemma {:induction false} ItemsHead(items: seq<Js>, r: string)
    requires Valid(Arr(items)) && items != [Undefined]
    ensures (StringifyItems(items) + "]" + r)[0] == ']' <==> items == []
  {
    if items != [] {
      FirstChar(items[0]);
      ItemsText(items, r);
      assert items[0].Undefined? && |items| == 1 ==> items == [Undefined];
    }
  }

  /** An item with no text is followed at once by a comma or bracket, which opens no other item. */
  lemma {:induction false} ItemPrefix(x: Js, y: Js, r1: string, r2: string)
    requires Valid(x) && Valid(y) && NoLone(x) && NoLone(y)
    requires r1 != "" && r1[0] in [',', ']'] && r2 != "" && r2[0] in [',', ']']
    requires ItemText(x) + r1 == ItemText(y) + r2
    ensures x == y && r1 == r2
    decreases x, 3
  {
    FirstChar(x);
    FirstChar(y);
    assert (ItemText(x) + r1)[0] == (ItemText(y) + r2)[0];
    if !x.Undefined? && !y.Undefined? {
      StringifyPrefix(x, y, r1, r2);
    } else {
      assert x.Undefined? && y.Undefined?;
      assert ItemText(x) + r1 == r1 && ItemText(y) + r2 == r2;
    }
  }

  /** No value's text is a proper prefix of another's, wherever values can be followed by more text. */
  lemma {:induction false} StringifyPrefix(v: Js, w: Js, r1: string, r2: string)
    requires Valid(v) && Valid(w) && NoLone(v) && NoLone(w)
    requires v.Obj? || Delimited(r1)
    requires w.Obj? || Delimited(r2)
    requires Stringify(v) + r1 == Stringify(w) + r2
    ensures v == w && r1 == r2
    decreases v, 2
  {
    SameKind(v, w, r1, r2);
    match v
    case Num(n) =>
      NumberPrefix(n, w.n, r1, r2);
    case Str(s) =>
      QuotePrefix(s, w.s, r1, r2);
    case Arr(items) =>
      Regroup("[", StringifyItems(items), "]", r1);
      Regroup("[", StringifyItems(w.items), "]", r2);
      ConstantPrefix("[", StringifyItems(items) + "]" + r1, StringifyItems(w.items) + "]" + r2);
      ItemsHead(items, r1);
      ItemsHead(w.items, r2);
      if items == [] {
        assert StringifyItems(items) + "]" == "]" && StringifyItems(w.items) + "]" == "]";
        ConstantPrefix("]", r1, r2);
      } else {
        ItemsPrefix(items, w.items, r1, r2);
      }
    case Obj(fields) =>
      Regroup("{", StringifyFields(fields), "}", r1);
      Regroup("{", StringifyFields(w.fields), "}", r2);
      ConstantPrefix("{", StringifyFields(fields) + "}" + r1, StringifyFields(w.fields) + "}" + r2);
      FieldsPrefix(fields, w.fields, r1, r2);
    case _ =>
      ConstantPrefix(Stringify(v), r1, r2);
  }

  lemma {:induction false} SameKind(v: Js, w: Js, r1: string, r2: string)
    requires Valid(v) && Valid(w)
    requires Stringify(v) + r1 == Stringify(w) + r2
    ensures Kind(v) == Kind(w)
  {
    FirstChar(v);
    FirstChar(w);
    assert (Stringify(v) + r1)[0] == Stringify(v)[0] && (Stringify(w) + r2)[0] == Stringify(w)[0];
  }

  lemma {:induction false} ItemsPrefix(xs: seq<Js>, ys: seq<Js>, r1: string, r2: string)
    requires xs != [] && ys != [] && Valid(Arr(xs)) && Valid(Arr(ys)) && AllNoLone(xs) && AllNoLone(ys)
    requires StringifyItems(xs) + "]" + r1 == StringifyItems(ys) + "]" + r2
    ensures xs == ys && r1 == r2
    decreases xs, 0
  {
    var ta := Tail(StringifyItems(xs[1..]), |xs| == 1, "]", r1);
    var tb := Tail(StringifyItems(ys[1..]), |ys| == 1, "]", r2);
    ItemsText(xs, r1);
    ItemsText(ys, r2);
    ItemPrefix(xs[0], ys[0], ta, tb);
    TailSplit(StringifyItems(xs[1..]), |xs| == 1, r1, StringifyItems(ys[1..]), |ys| == 1, r2, "]");
    if |xs| > 1 {
      ItemsPrefix(xs[1..], ys[1..], r1, r2);
    }
    SameHeadAndTail(xs, ys);
  }

  lemma {:induction false} FieldsHead(fields: seq<Entry<Js>>, r: string)
    ensures (StringifyFields(fields) + "}" + r)[0] == '}' <==> fields == []
  {
    if fields != [] {
      FieldsText(fields, r);
    }
  }

  lemma {:induction false} FieldsPrefix(fs: seq<Entry<Js>>, gs: seq<Entry<Js>>, r1: string, r2: string)
    requires Valid(Obj(fs)) && Valid(Obj(gs)) && NoLone(Obj(fs)) && NoLone(Obj(gs))
    requires StringifyFields(fs) + "}" + r1 == StringifyFields(gs) + "}" + r2
    ensures fs == gs && r1 == r2
    decreases fs, 1
  {
    FieldsHead(fs, r1);
    FieldsHead(gs, r2);
    if fs == [] {
      assert StringifyFields(fs) + "}" == "}" && StringifyFields(gs) + "}" == "}";
      ConstantPrefix("}", r1, r2);
    } else {
      FieldsHeadsAgree(fs, gs, r1, r2);
      if |fs| > 1 {
        FieldsPrefix(fs[1..], gs[1..], r1, r2);
      }
      SameHeadAndTail(fs, gs);
    }
  }

  lemma {:induction false} FieldsHeadsAgree(fs: seq<Entry<Js>>, gs: seq<Entry<Js>>, r1: string, r2: string)
    requires Valid(Obj(fs)) && Valid(Obj(gs)) && NoLone(Obj(fs)) && NoLone(Obj(gs)) && fs != [] && gs != []
    requires StringifyFields(fs) + "}" + r1 == StringifyFields(gs) + "}" + r2
    ensures fs[0] == gs[0] && (|fs| == 1 <==> |gs| == 1)
    ensures if |fs| == 1 then r1 == r2 else StringifyFields(fs[1..]) + "}" + r1 == StringifyFields(gs[1..]) + "}" + r2
    decreases fs, 0
  {
    var f, g := fs[0], gs[0];
    var ta := Tail(StringifyFields(fs[1..]), |fs| == 1, "}", r1);
    var tb := Tail(StringifyFields(gs[1..]), |gs| == 1, "}", r2);
    FieldsText(fs, r1);
    FieldsText(gs, r2);
    KeyPrefix(f.key, g.key, Stringify(f.value) + ta, Stringify(g.value) + tb);
    StringifyPrefix(f.value, g.value, ta, tb);
    TailSplit(StringifyFields(fs[1..]), |fs| == 1, r1, StringifyFields(gs[1..]), |gs| == 1, r2, "}");
  }

  lemma KeyPrefix(k: string, l: string, r1: string, r2: string)
    requires Quote(k) + (":" + r1) == Quote(l) + (":" + r2)
    ensures k == l && r1 == r2
  {
    QuotePrefix(k, l, ":" + r1, ":" + r2);
    ConstantPrefix(":", r1, r2);
  }

  // ---- the sorted value and the meaning determine each other ----------------

  lemma {:induction false} NormalKeepsMeaning(v: Js)
    requires Valid(v)
    ensures Valid(Normal(v)) && Denote(Normal(v)) == Denote(v)
  {
    match v
    case Arr(items) =>
      forall i | 0 <= i < |items|
        ensures Valid(Normal(items[i])) && Denote(Normal(items[i])) == Denote(items[i])
      {
        NormalKeepsMeaning(items[i]);
      }
      assert DenoteItems(NormalItems(items)) == DenoteItems(items);
    case Obj(fields) =>
      forall i | 0 <= i < |fields|
        ensures Valid(Normal(fields[i].value)) && Denote(Normal(fields[i].value)) == Denote(fields[i].value)
      {
        NormalKeepsMeaning(fields[i].value);
      }
      SortKeepsMeaning(fields, NormalFields(fields));
    case _ =>
  }

  lemma {:induction false} SortKeepsMeaning(fields: seq<Entry<Js>>, fs: seq<Entry<Js>>)
    requires DistinctKeys(fields) && |fs| == |fields|
    requires forall i :: 0 <= i < |fs| ==>
               fs[i].key == fields[i].key && Valid(fs[i].value) && Denote(fs[i].value) == Denote(fields[i].value)
    ensures Valid(Obj(SortByKey(fs))) && DenoteFields(SortByKey(fs)) == DenoteFields(fields)
  {
    assert DistinctKeys(fs);
    SameFieldsMeanTheSame(fs, fields);
    SortPermutesFields(fs);
  }

  lemma {:induction false} SortPermutesFields(fs: seq<Entry<Js>>)
    requires Valid(Obj(fs))
    ensures Valid(Obj(SortByKey(fs))) && DenoteFields(SortByKey(fs)) == DenoteFields(fs)
  {
    var gs := SortByKey(fs);
    SortSorts(fs);
    SortedDistinct(gs);
    SameMembers(fs, gs);
    forall j | 0 <= j < |gs| ensures Valid(gs[j].value) {
      assert gs[j] in gs;
    }
    MembersMeanTheSame(fs, gs);
  }

  lemma {:induction false} SameFieldsMeanTheSame(fs: seq<Entry<Js>>, gs: seq<Entry<Js>>)
    requires |fs| == |gs|
    requires forall i :: 0 <= i < |fs| ==> fs[i].key == gs[i].key && Denote(fs[i].value) == Denote(gs[i].value)
    ensures DenoteFields(fs) == DenoteFields(gs)
  {
    if fs != [] {
      SameFieldsMeanTheSame(fs[1..], gs[1..]);
    }
  }

  lemma {:induction false} MembersMeanTheSame(fs: seq<Entry<Js>>, gs: seq<Entry<Js>>)
    requires DistinctKeys(fs) && DistinctKeys(gs)
    requires forall e :: e in fs <==> e in gs
    ensures DenoteFields(fs) == DenoteFields(gs)
  {
    MembersIncluded(fs, gs);
    MembersIncluded(gs, fs);
  }

  lemma {:induction false} MembersIncluded(fs: seq<Entry<Js>>, gs: seq<Entry<Js>>)
    requires DistinctKeys(fs) && DistinctKeys(gs)
    requires forall e :: e in fs ==> e in gs
    ensures forall k :: k in DenoteFields(fs) ==> k in DenoteFields(gs) && DenoteFields(gs)[k] == DenoteFields(fs)[k]
  {
    forall k | k in DenoteFields(fs)
      ensures k in DenoteFields(gs) && DenoteFields(gs)[k] == DenoteFields(fs)[k]
    {
      var i :| 0 <= i < |fs| && fs[i].key == k;
      assert fs[i] in gs;
      var j :| 0 <= j < |gs| && gs[j] == fs[i];
    }
  }

  lemma SortedDistinct<T>(fs: seq<Entry<T>>)
    requires Sorted(fs)
    ensures DistinctKeys(fs)
  {
    forall i, j | 0 <= i < j < |fs| ensures fs[i].key != fs[j].key {
      KeyLessTotal(fs[i].key, fs[j].key);
    }
  }

  lemma SameMembers<T>(fs: seq<T>, gs: seq<T>)
    requires multiset(fs) == multiset(gs)
    ensures forall e :: e in fs <==> e in gs
  {
    assert forall e :: e in fs <==> e in multiset(fs);
    assert forall e :: e in gs <==> e in multiset(gs);
  }

  lemma {:induction false} NormalUnique(v: Js, w: Js)
    requires Valid(v) && Valid(w) && Denote(v) == Denote(w)
    ensures Normal(v) == Normal(w)
  {
    match v
    case Arr(items) =>
      forall i | 0 <= i < |items| ensures Normal(items[i]) == Normal(w.items[i]) {
        assert DenoteItems(items)[i] == DenoteItems(w.items)[i];
        NormalUnique(items[i], w.items[i]);
      }
      assert NormalItems(items) == NormalItems(w.items);
    case Obj(fields) =>
      forall i, j | 0 <= i < |fields| && 0 <= j < |w.fields| && fields[i].key == w.fields[j].key
        ensures Normal(fields[i].value) == Normal(w.fields[j].value)
      {
        assert DenoteFields(fields)[fields[i].key] == DenoteFields(w.fields)[fields[i].key];
        NormalUnique(fields[i].value, w.fields[j].value);
      }
      SortedFieldsUnique(fields, w.fields);
    case _ =>
  }

  lemma {:induction false} SortedFieldsUnique(fields: seq<Entry<Js>>, other: seq<Entry<Js>>)
    requires DistinctKeys(fields) && DistinctKeys(other)
    requires DenoteFields(fields).Keys == DenoteFields(other).Keys
    requires forall i, j :: 0 <= i < |fields| && 0 <= j < |other| && fields[i].key == other[j].key
               ==> Normal(fields[i].value) == Normal(other[j].value)
    ensures SortByKey(NormalFields(fields)) == SortByKey(NormalFields(other))
  {
    var fs, gs := NormalFields(fields), NormalFields(other);
    NormalIncluded(fields, other);
    NormalIncluded(other, fields);
    SortSorts(fs);
    SortSorts(gs);
    SameMembers(fs, SortByKey(fs));
    SameMembers(gs, SortByKey(gs));
    SortedUnique(SortByKey(fs), SortByKey(gs));
  }

  lemma {:induction false} NormalIncluded(fields: seq<Entry<Js>>, other: seq<Entry<Js>>)
    requires DenoteFields(fields).Keys == DenoteFields(other).Keys
    requires forall i, j :: 0 <= i < |fields| && 0 <= j < |other| && fields[i].key == other[j].key
               ==> Normal(fields[i].value) == Normal(other[j].value)
    ensures forall e :: e in NormalFields(fields) ==> e in NormalFields(other)
  {
    var fs, gs := NormalFields(fields), NormalFields(other);
    forall e | e in fs ensures e in gs {
      var i :| 0 <= i < |fs| && fs[i] == e;
      assert fields[i].key in DenoteFields(other);
      var j :| 0 <= j < |other| && other[j].key == fields[i].key;
      assert gs[j] == e;
    }
  }

  /** Texts with `[undefined]` nowhere: the sorted values can be read off, whatever follows. */
  lemma {:induction false} ReadOff(v: Js, w: Js, r1: string, r2: string)
    requires Valid(v) && Valid(w) && NoLone(v) && NoLone(w)
    requires (v.Obj? || Delimited(r1)) && (w.Obj? || Delimited(r2))
    requires Canonicalize(v) + r1 == Canonicalize(w) + r2
    ensures Denote(v) == Denote(w) && r1 == r2
  {
    CanonicalText(v);
    CanonicalText(w);
    NormalKeepsMeaning(v);
    NormalKeepsMeaning(w);
    NormalNoLone(v);
    NormalNoLone(w);
    StringifyPrefix(Normal(v), Normal(w), r1, r2);
  }

  /** Canonical text depends on the value alone, not on the order in which properties were added. */
  lemma {:induction false} SameValueSameText(v: Js, w: Js)
    requires Valid(v) && Valid(w) && Denote(v) == Denote(w)
    ensures Canonicalize(v) == Canonicalize(w)
  {
    CanonicalText(v);
    CanonicalText(w);
    NormalUnique(v, w);
  }

  /**
   * Two values have the same canonical text exactly when they are the same value
   * once every `[undefined]` in them is read as `[]`.
   */
  lemma {:induction false} CanonicalizeExact(v: Js, w: Js)
    requires Valid(v) && Valid(w)
    ensures Canonicalize(v) == Canonicalize(w) <==> Reading(v) == Reading(w)
    ensures NoLone(v) && NoLone(w) ==> (Canonicalize(v) == Canonicalize(w) <==> Denote(v) == Denote(w))
  {
    SquashKeepsText(v);
    SquashKeepsText(w);
    if NoLone(v) && NoLone(w) {
      SquashNothing(v);
      SquashNothing(w);
    }
    if Canonicalize(v) == Canonicalize(w) {
      assert Canonicalize(Squash(v)) + "" == Canonicalize(Squash(w)) + "";
      ReadOff(Squash(v), Squash(w), "", "");
    }
    if Reading(v) == Reading(w) {
      SameValueSameText(Squash(v), Squash(w));
    }
  }

  /** The reading is a function of the value. */
  lemma {:induction false} SameValueSameReading(v: Js, w: Js)
    requires Valid(v) && Valid(w) && Denote(v) == Denote(w)
    ensures Reading(v) == Reading(w)
  {
    SameValueSameText(v, w);
    CanonicalizeExact(v, w);
  }

  /** The two texts that collide: `Array.prototype.join` writes nothing for `undefined`. */
  lemma LoneUndefinedCollides()
    ensures Canonicalize(Arr([Undefined])) == Canonicalize(Arr([])) == "[]"
    ensures Denote(Arr([Undefined])) != Denote(Arr([]))
  {
    OneText("");
    assert CanonicalItems([Undefined]) == [""];
    assert |DenoteItems([Undefined])| == 1;
  }

  lemma OneText(t: string)
    ensures Join([t]) == t
  {
    assert t + "" == t;
  }

  /** Any text appended to the canonical text of an object can be split off again in one way. */
  lemma {:induction false} FramingDecodable(v: Js, w: Js, r1: string, r2: string)
    requires Valid(v) && Valid(w) && v.Obj? && w.Obj?
    requires Canonicalize(v) + r1 == Canonicalize(w) + r2
    ensures Reading(v) == Reading(w) && r1 == r2
  {
    SquashKeepsText(v);
    SquashKeepsText(w);
    ReadOff(Squash(v), Squash(w), r1, r2);
  }

  // ---- integers ------------------------------------------------------------

  function StripZeros(s: string): (r: string)
    ensures r <= s && (r == "" || r[|r| - 1] != '0')
    ensures s == r + Zeros(|s| - |r|)
    ensures s != "" && s[0] != '0' ==> r != ""
  {
    if s != "" && s[|s| - 1] == '0' then StripZeros(s[..|s| - 1]) else s
  }

  /** The JavaScript number with a given non-negative integer value. */
  function NumberOfNat(n: nat): (x: Number) {
    if n == 0 then Zero
    else Finite(false, StripZeros(Render(n, 10)), |Render(n, 10)|)
  }

  lemma NumberOfNatValid(n: nat)
    ensures ValidNumber(NumberOfNat(n))
  {
    RenderDecimal(n);
  }

  /** The digits of a positive integer are those of its number, filled up with zeros to the point. */
  lemma {:induction false} DigitsFilledUp(n: nat, x: Number)
    requires n > 0 && x == NumberOfNat(n)
    ensures x.Finite? && !x.negative && 0 < |x.digits| <= x.point == |Render(n, 10)|
    ensures Render(n, 10) == x.digits + Zeros(x.point - |x.digits|)
  {
    RenderDecimal(n);
  }

  lemma NumberOfNatInjective(m: nat, n: nat)
    requires NumberOfNat(m) == NumberOfNat(n)
    ensures m == n
  {
    var x := NumberOfNat(m);
    if m > 0 && n > 0 {
      DigitsFilledUp(m, x);
      DigitsFilledUp(n, x);
      RenderValue(m, 10);
      RenderValue(n, 10);
    }
  }

  // ---- records: objects with a fixed list of properties ---------------------

  ghost predicate DistinctNames(keys: seq<string>) {
    forall i, j :: 0 <= i < j < |keys| ==> keys[i] != keys[j]
  }

  function Record(keys: seq<string>, values: seq<Js>): (v: Js)
    requires |keys| == |values|
    ensures v.Obj? && |v.fields| == |keys|
    ensures forall i :: 0 <= i < |keys| ==> v.fields[i] == Entry(keys[i], values[i])
    ensures DistinctNames(keys) && (forall i :: 0 <= i < |keys| ==> Valid(values[i])) ==> Valid(v)
  {
    Obj(seq(|keys|, i requires 0 <= i < |keys| => Entry(keys[i], values[i])))
  }

  function Readings(xs: seq<Js>): (r: seq<Value>)
    ensures |r| == |xs| && forall i :: 0 <= i < |xs| ==> r[i] == Reading(xs[i])
  {
    DenoteItems(SquashItems(xs))
  }

  /** The fields hold these values, under distinct keys. */
  ghost predicate Holds(f: seq<Entry<Js>>, keys: seq<string>, xs: seq<Js>) {
    |f| == |keys| == |xs| && DistinctKeys(f) && forall i :: 0 <= i < |f| ==> f[i].key == keys[i] && f[i].value == xs[i]
  }

  /** Records over the same names read the same exactly when each property does. */
  lemma RecordReading(keys: seq<string>, xs: seq<Js>, ys: seq<Js>)
    requires DistinctNames(keys) && |xs| == |ys| == |keys|
    ensures Reading(Record(keys, xs)) == Reading(Record(keys, ys)) <==> Readings(xs) == Readings(ys)
  {
    RecordFields(keys, xs);
    RecordFields(keys, ys);
    SquashHolds(Record(keys, xs).fields, keys, xs);
    SquashHolds(Record(keys, ys).fields, keys, ys);
    ObjectReading(Squash(Record(keys, xs)), Squash(Record(keys, ys)), keys, xs, ys);
  }

  lemma {:induction false} SquashHolds(f: seq<Entry<Js>>, keys: seq<string>, xs: seq<Js>)
    requires Holds(f, keys, xs)
    ensures Holds(SquashFields(f), keys, SquashItems(xs))
  {
  }

  lemma RecordFields(keys: seq<string>, xs: seq<Js>)
    requires DistinctNames(keys) && |xs| == |keys|
    ensures Holds(Record(keys, xs).fields, keys, xs)
  {
  }

  lemma {:induction false} ObjectReading(v: Js, w: Js, keys: seq<string>, xs: seq<Js>, ys: seq<Js>)
    requires v.Obj? && w.Obj? && Holds(v.fields, keys, SquashItems(xs)) && Holds(w.fields, keys, SquashItems(ys))
    ensures Denote(v) == Denote(w) <==> Readings(xs) == Readings(ys)
  {
    if DenoteFields(v.fields) == DenoteFields(w.fields) {
      EqualFieldsEqualItems(v.fields, w.fields, keys, SquashItems(xs), SquashItems(ys));
    }
    if Readings(xs) == Readings(ys) {
      EqualItemsEqualFields(v.fields, w.fields, keys, SquashItems(xs), SquashItems(ys));
    }
  }

  lemma {:induction false} EqualFieldsEqualItems(f: seq<Entry<Js>>, g: seq<Entry<Js>>, keys: seq<string>,
                                                 xs: seq<Js>, ys: seq<Js>)
    requires Holds(f, keys, xs) && Holds(g, keys, ys) && DenoteFields(f) == DenoteFields(g)
    ensures DenoteItems(xs) == DenoteItems(ys)
  {
    forall i | 0 <= i < |xs| ensures Denote(xs[i]) == Denote(ys[i]) {
      assert DenoteFields(f)[f[i].key] == DenoteFields(g)[g[i].key];
    }
  }

  lemma {:induction false} EqualItemsEqualFields(f: seq<Entry<Js>>, g: seq<Entry<Js>>, keys: seq<string>,
                                                 xs: seq<Js>, ys: seq<Js>)
    requires Holds(f, keys, xs) && Holds(g, keys, ys) && DenoteItems(xs) == DenoteItems(ys)
    ensures DenoteFields(f) == DenoteFields(g)
  {
    forall i | 0 <= i < |f| ensures f[i].key == g[i].key && Denote(f[i].value) == Denote(g[i].value) {
      assert DenoteItems(xs)[i] == DenoteItems(ys)[i];
    }
    SameFieldsMeanTheSame(f, g);
  }
}
