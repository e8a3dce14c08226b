/**
 * The hand-written CBOR reader of src/routes/demo-portal.ts, for the subset of
 * RFC 8949 (sections 3 and 3.1) made of unsigned integers, text strings, arrays
 * and maps with text keys. UTF-8 decoding is the parameter `utf8`.
 */
module Cbor {
  import opened Octets
  import JsText

  type Utf8 = Bytes -> string

  /** What the reader returns: JavaScript numbers, strings, arrays and plain objects. */
  datatype Val = Num(n: nat) | Str(s: string) | Arr(items: seq<Val>) | Obj(m: map<string, Val>)

  datatype Error = UnexpectedEnd | KeyNotText | UnsupportedMajor(major: nat) | UnsupportedLength(additional: nat)

  datatype Result<+T> = Ok(value: T, offset: nat) | Err(error: Error)

  // ---- numbers -------------------------------------------------------------

  const TWO_53 := 0x20_0000_0000_0000

  /** Spacing of doubles at n. */
  function Spacing(n: nat): (u: nat)
    ensures u >= 1
  {
    if n < TWO_53 then 1 else 2 * Spacing(n / 2)
  }

  /** `Number(n)` of a BigInt below 2^64: round to nearest, ties to even. */
  function ToNumber(n: nat): (r: nat) {
    var u := Spacing(n);
    var q, rest := n / u, n % u;
    if 2 * rest < u || (2 * rest == u && q % 2 == 0) then q * u else (q + 1) * u
  }

  lemma SmallIsExact(n: nat)
    requires n <= TWO_53
    ensures ToNumber(n) == n
  {
    if n == TWO_53 {
      assert Spacing(n) == 2;
    }
  }

  /** Rounding a number of at least 2^53 never takes it below. */
  lemma {:induction false} LargeStaysLarge(n: nat)
    requires n >= TWO_53
    ensures n / Spacing(n) * Spacing(n) >= TWO_53
    ensures ToNumber(n) >= TWO_53
  {
    var u := Spacing(n / 2);
    HalfQuotient(n, u);
    if n / 2 >= TWO_53 {
      LargeStaysLarge(n / 2);
    }
    var q := n / Spacing(n);
    assert (q + 1) * Spacing(n) == q * Spacing(n) + Spacing(n);
  }

  lemma HalfQuotient(n: nat, u: nat)
    requires u >= 1
    ensures n / (2 * u) == n / 2 / u
    ensures n / (2 * u) * (2 * u) == 2 * (n / 2 / u * u)
  {
    var q, r := n / 2 / u, n / 2 % u;
    assert n / 2 == q * u + r;
    assert q * (2 * u) == 2 * (q * u);
    assert n == q * (2 * u) + (2 * r + n % 2);
    JsText.DivModUnique(q, 2 * r + n % 2, n / (2 * u), n % (2 * u), 2 * u);
  }

  function TwoTo(k: nat): (p: nat)
    ensures p >= 1
  {
    if k == 0 then 1 else 2 * TwoTo(k - 1)
  }

  /** q * 2^k is a double next to n, none is nearer, and of two equally near ones it is the even one. */
  predicate IsNearest(n: nat, q: nat, k: nat) {
    && q <= TWO_53 && (k > 0 ==> 2 * q >= TWO_53)
    && 2 * (q * TwoTo(k)) <= 2 * n + TwoTo(k) && 2 * n <= 2 * (q * TwoTo(k)) + TwoTo(k)
    && (2 * (q * TwoTo(k)) == 2 * n + TwoTo(k) || 2 * n == 2 * (q * TwoTo(k)) + TwoTo(k) ==> q % 2 == 0)
  }

  lemma {:induction false} SpacingIsPower(n: nat) returns (k: nat)
    ensures Spacing(n) == TwoTo(k) && (k > 0 ==> 2 * (n / Spacing(n)) >= TWO_53) && n / Spacing(n) < TWO_53
    ensures k == 0 ==> n < TWO_53
  {
    if n < TWO_53 {
      k := 0;
    } else {
      var j := SpacingIsPower(n / 2);
      k := j + 1;
      HalfQuotient(n, Spacing(n / 2));
    }
  }

  lemma RoundedBy(n: nat, u: nat) returns (q: nat)
    requires u >= 1
    ensures var floor, rest := n / u, n % u;
            && q == (if 2 * rest < u || (2 * rest == u && floor % 2 == 0) then floor else floor + 1)
            && 2 * (q * u) <= 2 * n + u && 2 * n <= 2 * (q * u) + u
            && (2 * (q * u) == 2 * n + u || 2 * n == 2 * (q * u) + u ==> q % 2 == 0)
  {
    var floor, rest := n / u, n % u;
    assert n == floor * u + rest;
    q := if 2 * rest < u || (2 * rest == u && floor % 2 == 0) then floor else floor + 1;
    assert (floor + 1) * u == floor * u + u;
  }

  /** A length becomes the double nearest to it, ties to even. */
  lemma ToNumberRounds(n: nat) returns (q: nat, k: nat)
    ensures ToNumber(n) == q * TwoTo(k) && IsNearest(n, q, k)
  {
    k := SpacingIsPower(n);
    q := RoundedBy(n, Spacing(n));
  }

  // ---- the wire ------------------------------------------------------------

  /** Value of k bytes, most significant first. */
  function BigEndian(bytes: Bytes): (n: nat) {
    if bytes == [] then 0 else BigEndian(bytes[..|bytes| - 1]) * 256 + bytes[|bytes| - 1]
  }

  /** How many bytes follow an initial byte with this additional information. */
  function LengthBytes(additional: nat): (k: nat) {
    if additional == 24 then 1 else if additional == 25 then 2 else if additional == 26 then 4
    else if additional == 27 then 8 else 0
  }

  function ReadLengthAt(bytes: Bytes, offset: nat, additional: nat): (r: Result<nat>)
    ensures r.Ok? ==> r.offset == offset + LengthBytes(additional)
    ensures r.Ok? && LengthBytes(additional) > 0 ==> r.offset <= |bytes|
  {
    var k := LengthBytes(additional);
    if additional < 24 then Ok(additional, offset)
    else if additional > 27 then Err(UnsupportedLength(additional))
    else if offset + k > |bytes| then Err(UnexpectedEnd)
    else Ok(BigEndian(bytes[offset..offset + k]), offset + k)
  }

  /** `bytes.toString('utf8', offset, offset + len)`: the end is cut off at the end of the buffer. */
  function Clamped(bytes: Bytes, offset: nat, len: nat): (b: Bytes) {
    if offset >= |bytes| then [] else if offset + len > |bytes| then bytes[offset..] else bytes[offset..offset + len]
  }

  /** `obj[key] = value` on a plain object: assigning `__proto__` adds no property. */
  function SetKey(m: map<string, Val>, key: string, value: Val): (r: map<string, Val>) {
    if key == "__proto__" then m else m[key := value]
  }

  function Remaining(bytes: Bytes, offset: nat): (n: nat) { if offset <= |bytes| then |bytes| - offset else 0 }

  // ---- reading -------------------------------------------------------------

  /** One data item at an offset. Every successful read starts inside the buffer and moves forward. */
  function ReadItem(utf8: Utf8, bytes: Bytes, offset: nat): (r: Result<Val>)
    ensures r.Ok? ==> offset < |bytes| && offset < r.offset
    decreases Remaining(bytes, offset), 0
  {
    if offset >= |bytes| then Err(UnexpectedEnd)
    else
      var major, additional := bytes[offset] / 32, bytes[offset] % 32;
      match ReadLengthAt(bytes, offset + 1, additional)
      case Err(e) => Err(e)
      case Ok(length, at) =>
        if major == 0 then Ok(Num(ToNumber(length)), at)
        else if major == 3 then Ok(Str(utf8(Clamped(bytes, at, ToNumber(length)))), at + ToNumber(length))
        else if major == 4 then
          match ReadItems(utf8, bytes, at, ToNumber(length))
          case Err(e) => Err(e)
          case Ok(items, end) => Ok(Arr(items), end)
        else if major == 5 then
          match ReadEntries(utf8, bytes, at, ToNumber(length), map[])
          case Err(e) => Err(e)
          case Ok(m, end) => Ok(Obj(m), end)
        else Err(UnsupportedMajor(major))
  }

  function ReadItems(utf8: Utf8, bytes: Bytes, offset: nat, count: nat): (r: Result<seq<Val>>)
    ensures r.Ok? ==> offset <= r.offset && (r.offset <= |bytes| ==> offset + count <= r.offset)
    decreases Remaining(bytes, offset), 1
  {
    if count == 0 then Ok([], offset)
    else
      match ReadItem(utf8, bytes, offset)
      case Err(e) => Err(e)
      case Ok(v, next) =>
        match ReadItems(utf8, bytes, next, count - 1)
        case Err(e) => Err(e)
        case Ok(rest, end) => Ok([v] + rest, end)
  }

  function ReadEntries(utf8: Utf8, bytes: Bytes, offset: nat, count: nat,
                       m: map<string, Val>): (r: Result<map<string, Val>>)
    ensures r.Ok? ==> offset <= r.offset && (r.offset <= |bytes| ==> offset + count <= r.offset)
    decreases Remaining(bytes, offset), 1
  {
    if count == 0 then Ok(m, offset)
    else
      match ReadItem(utf8, bytes, offset)
      case Err(e) => Err(e)
      case Ok(key, next) =>
        if !key.Str? then Err(KeyNotText)
        else
          match ReadItem(utf8, bytes, next)
          case Err(e) => Err(e)
          case Ok(value, after) => ReadEntries(utf8, bytes, after, count - 1, SetKey(m, key.s, value))
  }

  /** Which error a head that is not of the subset, or not all there, gives. */
  lemma {:induction false} HeadErrors(utf8: Utf8, bytes: Bytes, offset: nat)
    ensures offset >= |bytes| ==> ReadItem(utf8, bytes, offset) == Err(UnexpectedEnd)
    ensures offset < |bytes| ==>
              var major, additional := bytes[offset] / 32, bytes[offset] % 32;
              var more := if additional == 24 then 1 else if additional == 25 then 2 else if additional == 26 then 4
                          else if additional == 27 then 8 else 0;
              && (additional > 27 ==> ReadItem(utf8, bytes, offset) == Err(UnsupportedLength(additional)))
              && (additional <= 27 && offset + 1 + more > |bytes| ==>
                    ReadItem(utf8, bytes, offset) == Err(UnexpectedEnd))
              && (additional <= 27 && offset + 1 + more <= |bytes| && major !in {0, 3, 4, 5} ==>
                    ReadItem(utf8, bytes, offset) == Err(UnsupportedMajor(major)))
  {
  }

  /** A list or a map fails with the error of the first of its items that fails, or for a key that is not a text. */
  lemma {:induction false} ItemErrors(utf8: Utf8, bytes: Bytes, offset: nat, count: nat, m: map<string, Val>)
    requires count > 0
    ensures var first := ReadItem(utf8, bytes, offset);
            && (first.Err? ==>
                  && ReadItems(utf8, bytes, offset, count) == Err(first.error)
                  && ReadEntries(utf8, bytes, offset, count, m) == Err(first.error))
            && (first.Ok? ==>
                  && (var rest := ReadItems(utf8, bytes, first.offset, count - 1);
                      rest.Err? ==> ReadItems(utf8, bytes, offset, count) == Err(rest.error))
                  && (!first.value.Str? ==> ReadEntries(utf8, bytes, offset, count, m) == Err(KeyNotText))
                  && (first.value.Str? ==>
                        var second := ReadItem(utf8, bytes, first.offset);
                        second.Err? ==> ReadEntries(utf8, bytes, offset, count, m) == Err(second.error)))
  {
  }

  // ---- the reader object ---------------------------------------------------

  class CborReader {
    const utf8: Utf8
    const bytes: Bytes
    var offset: nat

    constructor (utf8: Utf8, bytes: Bytes)
      ensures this.utf8 == utf8 && this.bytes == bytes && offset == 0
    {
      this.utf8, this.bytes, offset := utf8, bytes, 0;
    }

    method ReadByte() returns (r: Result<Byte>)
      modifies this`offset
      ensures r.Ok? <==> old(offset) < |bytes|
      ensures r.Ok? ==> r.offset == offset <= |bytes| && bytes[old(offset)..] == [r.value] + bytes[offset..]
      ensures r.Err? ==> r == Err(UnexpectedEnd) && offset == old(offset)
    {
      if offset >= |bytes| {
        return Err(UnexpectedEnd);
      }
      r := Ok(bytes[offset], offset + 1);
      offset := offset + 1;
    }

    /** The shift-and-or loop over k bytes. */
    method ReadBytes(k: nat) returns (r: Result<nat>)
      modifies this`offset
      ensures r == if old(offset) + k <= |bytes|
                   then Ok(BigEndian(bytes[old(offset)..old(offset) + k]), old(offset) + k) else Err(UnexpectedEnd)
      ensures r.Ok? ==> offset == r.offset
    {
      var start := offset;
      var v: nat := 0;
      for i := 0 to k
        invariant offset == start + i <= |bytes| || (i == 0 && offset == start)
        invariant i > 0 ==> start + i <= |bytes|
        invariant v == if i == 0 then 0 else BigEndian(bytes[start..start + i])
      {
        ghost var rest := bytes[if offset <= |bytes| then offset else |bytes|..];
        var b := ReadByte();
        if b.Err? {
          return Err(UnexpectedEnd);
        }
        assert rest[0] == b.value && |rest| == 1 + |bytes[offset..]|;
        assert bytes[start..start + i + 1][..i] == bytes[start..start + i];
        v := v * 256 + b.value as int;
      }
      if k == 0 && offset > |bytes| {
        return Err(UnexpectedEnd);
      }
      return Ok(v, offset);
    }

    method ReadLength(additional: nat) returns (r: Result<nat>)
      modifies this`offset
      ensures r == ReadLengthAt(bytes, old(offset), additional)
      ensures r.Ok? ==> offset == r.offset
    {
      if additional < 24 {
        return Ok(additional, offset);
      }
      if additional > 27 {
        return Err(UnsupportedLength(additional));
      }
      r := ReadBytes(LengthBytes(additional));
    }

    /** `read()`; terminates on every input, whatever lengths it claims. */
    method Read() returns (r: Result<Val>)
      modifies this`offset
      ensures r == ReadItem(utf8, bytes, old(offset))
      ensures r.Ok? ==> offset == r.offset
      decreases Remaining(bytes, offset), 0
    {
      ghost var rest := bytes[if offset <= |bytes| then offset else |bytes|..];
      var initial := ReadByte();
      if initial.Err? {
        return Err(initial.error);
      }
      assert rest[0] == initial.value && |rest| == 1 + |bytes[offset..]|;
      var major, additional := initial.value / 32, initial.value % 32;
      var length := ReadLength(additional);
      if length.Err? {
        return Err(length.error);
      }
      var len := ToNumber(length.value);
      match major
      case 0 =>
        return Ok(Num(len), offset);
      case 3 =>
        var s := utf8(Clamped(bytes, offset, len));
        offset := offset + len;
        return Ok(Str(s), offset);
      case 4 =>
        var items := ReadArray(len);
        return if items.Ok? then Ok(Arr(items.value), items.offset) else Err(items.error);
      case 5 =>
        var m := ReadMap(len);
        return if m.Ok? then Ok(Obj(m.value), m.offset) else Err(m.error);
      case _ =>
        return Err(UnsupportedMajor(major));
    }

    /** The array loop. */
    method ReadArray(len: nat) returns (r: Result<seq<Val>>)
      modifies this`offset
      ensures r == ReadItems(utf8, bytes, old(offset), len)
      ensures r.Ok? ==> offset == r.offset
      decreases Remaining(bytes, offset), 1
    {
      var arr: seq<Val> := [];
      var i := 0;
      ghost var all, left := ReadItems(utf8, bytes, offset, len), ReadItems(utf8, bytes, offset, len);
      ContinueEmpty(all);
      while i < len
        invariant 0 <= i <= len && Remaining(bytes, offset) <= Remaining(bytes, old(offset))
        invariant left == ReadItems(utf8, bytes, offset, len - i)
        invariant all == Continued(arr, left)
        decreases len - i
      {
        ItemsStep(utf8, bytes, offset, len - i);
        var item := Read();
        if item.Err? {
          return Err(item.error);
        }
        left := ReadItems(utf8, bytes, offset, len - i - 1);
        PushContinues(arr, item.value, left);
        arr := arr + [item.value];
        i := i + 1;
      }
      assert arr + [] == arr;
      return Ok(arr, offset);
    }

    /** One turn of the map loop: key, check, value; `count` turns are left, `m` is the object so far. */
    method ReadEntry(ghost count: nat, ghost m: map<string, Val>) returns (r: Result<(string, Val)>)
      requires count > 0
      modifies this`offset
      ensures r.Ok? ==> old(offset) < offset == r.offset && Remaining(bytes, offset) < Remaining(bytes, old(offset))
      ensures ReadEntries(utf8, bytes, old(offset), count, m)
           == if r.Err? then Err(r.error)
              else ReadEntries(utf8, bytes, r.offset, count - 1, SetKey(m, r.value.0, r.value.1))
      decreases Remaining(bytes, offset), 1
    {
      EntriesStep(utf8, bytes, offset, count, m);
      var key := Read();
      if key.Err? {
        return Err(key.error);
      }
      if !key.value.Str? {
        return Err(KeyNotText);
      }
      var value := Read();
      if value.Err? {
        return Err(value.error);
      }
      return Ok((key.value.s, value.value), offset);
    }

    /** The map loop, with its assignments. */
    method ReadMap(len: nat) returns (r: Result<map<string, Val>>)
      modifies this`offset
      ensures r == ReadEntries(utf8, bytes, old(offset), len, map[])
      ensures r.Ok? ==> offset == r.offset
      decreases Remaining(bytes, offset), 2
    {
      var obj: map<string, Val> := map[];
      var i := 0;
      ghost var all := ReadEntries(utf8, bytes, offset, len, map[]);
      while i < len
        invariant 0 <= i <= len && Remaining(bytes, offset) <= Remaining(bytes, old(offset))
        invariant all == ReadEntries(utf8, bytes, offset, len - i, obj)
        decreases len - i
      {
        var entry := ReadEntry(len - i, obj);
        if entry.Err? {
          return Err(entry.error);
        }
        obj := SetKey(obj, entry.value.0, entry.value.1);
        i := i + 1;
      }
      return Ok(obj, offset);
    }
  }

  /** Items read so far in front of what the rest of the loop reads. */
  function Continued(front: seq<Val>, r: Result<seq<Val>>): (r': Result<seq<Val>>) {
    if r.Ok? then Ok(front + r.value, r.offset) else r
  }

  lemma ItemsStep(utf8: Utf8, bytes: Bytes, offset: nat, count: nat)
    requires count > 0
    ensures var first := ReadItem(utf8, bytes, offset);
            ReadItems(utf8, bytes, offset, count)
            == if first.Err? then Err(first.error)
               else Continued([first.value], ReadItems(utf8, bytes, first.offset, count - 1))
  {
  }

  lemma EntriesStep(utf8: Utf8, b: Bytes, off: nat, count: nat, m: map<string, Val>)
    requires count > 0
    ensures var key := ReadItem(utf8, b, off);
            ReadEntries(utf8, b, off, count, m)
            == if key.Err? then Err(key.error)
               else if !key.value.Str? then Err(KeyNotText)
               else
                 var value := ReadItem(utf8, b, key.offset);
                 if value.Err? then Err(value.error)
                 else ReadEntries(utf8, b, value.offset, count - 1, SetKey(m, key.value.s, value.value))
  {
  }

  lemma ContinueEmpty(r: Result<seq<Val>>)
    ensures Continued([], r) == r
  {
    if r.Ok? {
      assert [] + r.value == r.value;
    }
  }

  lemma PushContinues(front: seq<Val>, v: Val, r: Result<seq<Val>>)
    ensures Continued(front, Continued([v], r)) == Continued(front + [v], r)
  {
    if r.Ok? {
      assert front + ([v] + r.value) == front + [v] + r.value;
    }
  }
}
