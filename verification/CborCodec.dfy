/**
 * The encodings the reader of Cbor.dfy accepts, and the proof that reading is
 * exactly the inverse of encoding: every definite-length encoding of the subset
 * is read back, and whatever is read without running past the end of the input
 * was such an encoding.
 */
module CborCodec {
  import opened Octets
  import opened Cbor

  /** How many bytes a head spends on its argument; RFC 8949 section 3 allows any that fits. */
  datatype Width = Tiny | One | Two | Four | Eight

  datatype Item =
    | UInt(w: Width, n: nat)
    | Text(w: Width, chars: Bytes)
    | Array(w: Width, items: seq<Item>)
    | Map(w: Width, entries: seq<MapEntry>)

  datatype MapEntry = MapEntry(kw: Width, key: Bytes, value: Item)

  // ---- encoding ------------------------------------------------------------

  function WidthBytes(w: Width): (k: nat) {
    match w case Tiny => 0 case One => 1 case Two => 2 case Four => 4 case Eight => 8
  }

  function Power256(k: nat): (p: nat)
    ensures p >= 1
  {
    if k == 0 then 1 else 256 * Power256(k - 1)
  }

  predicate Fits(w: Width, n: nat) { if w == Tiny then n < 24 else n < Power256(WidthBytes(w)) }

  function BE(n: nat, k: nat): (r: Bytes)
    ensures |r| == k
  {
    if k == 0 then [] else BE(n / 256, k - 1) + [n % 256]
  }

  function Additional(w: Width, n: nat): (a: nat)
    requires Fits(w, n)
    ensures a < 28 && LengthBytes(a) == WidthBytes(w)
  {
    match w case Tiny => n case One => 24 case Two => 25 case Four => 26 case Eight => 27
  }

  function Head(major: nat, w: Width, n: nat): (r: Bytes)
    requires major < 8 && Fits(w, n)
    ensures |r| == 1 + WidthBytes(w)
  {
    [major * 32 + Additional(w, n)] + BE(n, WidthBytes(w))
  }

  predicate WellFormed(item: Item) {
    match item
    case UInt(w, n) => Fits(w, n)
    case Text(w, chars) => Fits(w, |chars|)
    case Array(w, items) => Fits(w, |items|) && AllWellFormed(items)
    case Map(w, entries) => Fits(w, |entries|) && EntriesWellFormed(entries)
  }

  predicate AllWellFormed(items: seq<Item>) { items == [] || (WellFormed(items[0]) && AllWellFormed(items[1..])) }

  predicate EntriesWellFormed(entries: seq<MapEntry>) {
    entries == []
    || (Fits(entries[0].kw, |entries[0].key|) && WellFormed(entries[0].value) && EntriesWellFormed(entries[1..]))
  }

  function Encode(item: Item): (r: Bytes)
    requires WellFormed(item)
    ensures |r| >= 1
  {
    match item
    case UInt(w, n) => Head(0, w, n)
    case Text(w, chars) => Head(3, w, |chars|) + chars
    case Array(w, items) => Head(4, w, |items|) + EncodeItems(items)
    case Map(w, entries) => Head(5, w, |entries|) + EncodeEntries(entries)
  }

  function EncodeItems(items: seq<Item>): (r: Bytes)
    requires AllWellFormed(items)
    ensures |r| >= |items|
  {
    if items == [] then [] else Encode(items[0]) + EncodeItems(items[1..])
  }

  function EncodeEntries(entries: seq<MapEntry>): (r: Bytes)
    requires EntriesWellFormed(entries)
    ensures |r| >= |entries|
  {
    if entries == [] then []
    else
      Head(3, entries[0].kw, |entries[0].key|) + entries[0].key
      + (Encode(entries[0].value) + EncodeEntries(entries[1..]))
  }

  // ---- meaning -------------------------------------------------------------

  /** The JavaScript value an encoding stands for, with the quirks of numbers and of `__proto__`. */
  function Denote(utf8: Utf8, item: Item): (v: Val) {
    match item
    case UInt(_, n) => Num(ToNumber(n))
    case Text(_, chars) => Str(utf8(chars))
    case Array(_, items) => Arr(DenoteItems(utf8, items))
    case Map(_, entries) => Obj(DenoteEntries(utf8, entries, map[]))
  }

  function DenoteItems(utf8: Utf8, items: seq<Item>): (r: seq<Val>)
    ensures |r| == |items| && forall i :: 0 <= i < |items| ==> r[i] == Denote(utf8, items[i])
  {
    if items == [] then [] else [Denote(utf8, items[0])] + DenoteItems(utf8, items[1..])
  }

  function DenoteEntries(utf8: Utf8, entries: seq<MapEntry>, m: map<string, Val>): (r: map<string, Val>) {
    if entries == [] then m
    else
      DenoteEntries(utf8, entries[1..], SetKey(m, utf8(entries[0].key), Denote(utf8, entries[0].value)))
  }

  // ---- heads ---------------------------------------------------------------

  lemma {:induction false} BigEndianOfBE(n: nat, k: nat)
    requires n < Power256(k)
    ensures BigEndian(BE(n, k)) == n
  {
    if k > 0 {
      BigEndianOfBE(n / 256, k - 1);
      assert BE(n, k)[..k - 1] == BE(n / 256, k - 1);
    }
  }

  lemma {:induction false} BEOfBigEndian(bytes: Bytes)
    ensures BigEndian(bytes) < Power256(|bytes|)
    ensures BE(BigEndian(bytes), |bytes|) == bytes
  {
    if bytes != [] {
      var front := bytes[..|bytes| - 1];
      BEOfBigEndian(front);
      assert BigEndian(bytes) / 256 == BigEndian(front) && BigEndian(bytes) % 256 == bytes[|bytes| - 1];
      assert bytes == front + [bytes[|bytes| - 1]];
    }
  }

  /** These bytes stand in the buffer at this offset. */
  predicate At(b: Bytes, off: nat, x: Bytes) { off + |x| <= |b| && b[off..off + |x|] == x }

  /** Where a slice of the buffer is known, so is each part of it. */
  lemma SlicePart(b: Bytes, off: nat, x: Bytes, y: Bytes)
    requires At(b, off, x + y)
    ensures At(b, off, x) && At(b, off + |x|, y)
  {
    var s := b[off..off + |x| + |y|];
    assert s[..|x|] == b[off..off + |x|] && s[|x|..] == b[off + |x|..off + |x| + |y|];
    assert (x + y)[..|x|] == x && (x + y)[|x|..] == y;
  }

  lemma HeadReads(b: Bytes, off: nat, major: nat, w: Width, n: nat)
    requires major < 8 && Fits(w, n)
    requires At(b, off, Head(major, w, n))
    ensures off < |b| && b[off] / 32 == major
    ensures ReadLengthAt(b, off + 1, b[off] % 32) == Ok(n, off + |Head(major, w, n)|)
  {
    var k := WidthBytes(w);
    SlicePart(b, off, [major * 32 + Additional(w, n)], BE(n, k));
    assert b[off] == b[off..off + 1][0] == major * 32 + Additional(w, n);
    if w != Tiny {
      BigEndianOfBE(n, k);
    }
  }

  /** What a successful head read says about the bytes. */
  lemma HeadWasEncoded(b: Bytes, off: nat) returns (w: Width)
    requires off < |b| && ReadLengthAt(b, off + 1, b[off] % 32).Ok?
    ensures var r := ReadLengthAt(b, off + 1, b[off] % 32);
            Fits(w, r.value) && r.offset <= |b| && b[off..r.offset] == Head(b[off] / 32, w, r.value)
  {
    var a := b[off] % 32;
    var r := ReadLengthAt(b, off + 1, a);
    w := if a < 24 then Tiny else if a == 24 then One else if a == 25 then Two else if a == 26 then Four else Eight;
    if w != Tiny {
      BEOfBigEndian(b[off + 1..r.offset]);
      assert b[off..r.offset] == [b[off]] + b[off + 1..r.offset];
    }
  }

  /** What the reader does once the head is read. */
  function ReadBody(utf8: Utf8, b: Bytes, major: nat, at: nat, n: nat): (r: Result<Val>) {
    if major == 0 then Ok(Num(ToNumber(n)), at)
    else if major == 3 then Ok(Str(utf8(Clamped(b, at, ToNumber(n)))), at + ToNumber(n))
    else if major == 4 then
      var r := ReadItems(utf8, b, at, ToNumber(n));
      if r.Ok? then Ok(Arr(r.value), r.offset) else Err(r.error)
    else if major == 5 then
      var r := ReadEntries(utf8, b, at, ToNumber(n), map[]);
      if r.Ok? then Ok(Obj(r.value), r.offset) else Err(r.error)
    else Err(UnsupportedMajor(major))
  }

  lemma {:induction false} ReadSplits(utf8: Utf8, b: Bytes, off: nat)
    requires off < |b|
    ensures var head := ReadLengthAt(b, off + 1, b[off] % 32);
            ReadItem(utf8, b, off)
            == if head.Ok? then ReadBody(utf8, b, b[off] / 32, head.offset, head.value) else Err(head.error)
  {
  }

  /** A head of this major type and argument starts at `off` and ends at `at`. */
  predicate HeadAt(b: Bytes, off: nat, major: nat, at: nat, n: nat) {
    off < |b| && b[off] / 32 == major && ReadLengthAt(b, off + 1, b[off] % 32) == Ok(n, at)
  }

  lemma {:induction false} ReadWithHead(utf8: Utf8, b: Bytes, off: nat, major: nat, at: nat, n: nat)
    requires HeadAt(b, off, major, at, n)
    ensures ReadItem(utf8, b, off) == ReadBody(utf8, b, major, at, n)
    ensures n < TWO_53 ==> ToNumber(n) == n
  {
    ReadSplits(utf8, b, off);
    if n < TWO_53 {
      SmallIsExact(n);
    }
  }

  /** The head of an encoding, and where the rest of it lies. */
  lemma EncodedHead(b: Bytes, off: nat, major: nat, w: Width, n: nat, rest: Bytes)
    requires major < 8 && Fits(w, n)
    requires At(b, off, Head(major, w, n) + rest)
    ensures var at := off + 1 + WidthBytes(w);
            HeadAt(b, off, major, at, n) && At(b, at, rest)
  {
    SlicePart(b, off, Head(major, w, n), rest);
    HeadReads(b, off, major, w, n);
  }

  // ---- reading inverts encoding ----------------------------------------------

  lemma {:induction false} TextReads(utf8: Utf8, b: Bytes, off: nat, at: nat, chars: Bytes)
    requires |b| < TWO_53 && HeadAt(b, off, 3, at, |chars|)
    requires At(b, at, chars)
    ensures ReadItem(utf8, b, off) == Ok(Str(utf8(chars)), at + |chars|)
  {
    ReadWithHead(utf8, b, off, 3, at, |chars|);
    assert Clamped(b, at, |chars|) == chars;
  }

  lemma {:induction false} ReadsEncodedUInt(utf8: Utf8, b: Bytes, off: nat, item: Item)
    requires WellFormed(item) && item.UInt?
    requires At(b, off, Encode(item))
    ensures ReadItem(utf8, b, off) == Ok(Denote(utf8, item), off + |Encode(item)|)
  {
    assert Encode(item) == Head(0, item.w, item.n) + [];
    EncodedHead(b, off, 0, item.w, item.n, []);
    ReadWithHead(utf8, b, off, 0, off + |Encode(item)|, item.n);
  }

  lemma {:induction false} ReadsEncodedText(utf8: Utf8, b: Bytes, off: nat, item: Item)
    requires |b| < TWO_53 && WellFormed(item) && item.Text?
    requires At(b, off, Encode(item))
    ensures ReadItem(utf8, b, off) == Ok(Denote(utf8, item), off + |Encode(item)|)
  {
    EncodedHead(b, off, 3, item.w, |item.chars|, item.chars);
    TextReads(utf8, b, off, off + 1 + WidthBytes(item.w), item.chars);
  }

  lemma {:induction false} ReadsEncodedArray(utf8: Utf8, b: Bytes, off: nat, item: Item)
    requires |b| < TWO_53 && WellFormed(item) && item.Array?
    requires At(b, off, Encode(item))
    ensures ReadItem(utf8, b, off) == Ok(Denote(utf8, item), off + |Encode(item)|)
    decreases item, 0
  {
    var at := off + 1 + WidthBytes(item.w);
    EncodedHead(b, off, 4, item.w, |item.items|, EncodeItems(item.items));
    ReadsEncodedItems(utf8, b, at, item.items);
    ReadWithHead(utf8, b, off, 4, at, |item.items|);
  }

  lemma {:induction false} ReadsEncodedMap(utf8: Utf8, b: Bytes, off: nat, item: Item)
    requires |b| < TWO_53 && WellFormed(item) && item.Map?
    requires At(b, off, Encode(item))
    ensures ReadItem(utf8, b, off) == Ok(Denote(utf8, item), off + |Encode(item)|)
    decreases item, 0
  {
    var at := off + 1 + WidthBytes(item.w);
    EncodedHead(b, off, 5, item.w, |item.entries|, EncodeEntries(item.entries));
    ReadsEncodedEntries(utf8, b, at, item.entries, map[]);
    ReadWithHead(utf8, b, off, 5, at, |item.entries|);
  }

  lemma {:induction false} ReadsEncodedItem(utf8: Utf8, b: Bytes, off: nat, item: Item)
    requires |b| < TWO_53 && WellFormed(item)
    requires At(b, off, Encode(item))
    ensures ReadItem(utf8, b, off) == Ok(Denote(utf8, item), off + |Encode(item)|)
    decreases item, 1
  {
    if item.UInt? {
      ReadsEncodedUInt(utf8, b, off, item);
    } else if item.Text? {
      ReadsEncodedText(utf8, b, off, item);
    } else if item.Array? {
      ReadsEncodedArray(utf8, b, off, item);
    } else {
      ReadsEncodedMap(utf8, b, off, item);
    }
  }

  /** Where the first item and the others lie. */
  lemma ItemsLie(b: Bytes, off: nat, items: seq<Item>) returns (next: nat, end: nat)
    requires items != [] && AllWellFormed(items) && At(b, off, EncodeItems(items))
    ensures next == off + |Encode(items[0])| && end == off + |EncodeItems(items)| == next + |EncodeItems(items[1..])|
    ensures At(b, off, Encode(items[0])) && At(b, next, EncodeItems(items[1..]))
  {
    SlicePart(b, off, Encode(items[0]), EncodeItems(items[1..]));
    next, end := off + |Encode(items[0])|, off + |EncodeItems(items)|;
  }

  lemma {:induction false} ItemsCompose(utf8: Utf8, b: Bytes, off: nat, items: seq<Item>, next: nat, end: nat)
    requires items != []
    requires ReadItem(utf8, b, off) == Ok(Denote(utf8, items[0]), next)
    requires ReadItems(utf8, b, next, |items| - 1) == Ok(DenoteItems(utf8, items[1..]), end)
    ensures ReadItems(utf8, b, off, |items|) == Ok(DenoteItems(utf8, items), end)
  {
    ItemsStep(utf8, b, off, |items|);
  }

  lemma {:induction false} ReadsEncodedItems(utf8: Utf8, b: Bytes, off: nat, items: seq<Item>)
    requires |b| < TWO_53 && AllWellFormed(items)
    requires At(b, off, EncodeItems(items))
    ensures ReadItems(utf8, b, off, |items|) == Ok(DenoteItems(utf8, items), off + |EncodeItems(items)|)
    decreases items, 2
  {
    if items != [] {
      var next, end := ItemsLie(b, off, items);
      ReadsEncodedItem(utf8, b, off, items[0]);
      ReadsEncodedItems(utf8, b, next, items[1..]);
      ItemsCompose(utf8, b, off, items, next, end);
    }
  }

  lemma {:induction false} ReadsEncodedEntries(utf8: Utf8, b: Bytes, off: nat, entries: seq<MapEntry>,
                                               m: map<string, Val>)
    requires |b| < TWO_53 && EntriesWellFormed(entries)
    requires At(b, off, EncodeEntries(entries))
    ensures ReadEntries(utf8, b, off, |entries|, m)
         == Ok(DenoteEntries(utf8, entries, m), off + |EncodeEntries(entries)|)
    decreases entries, 2
  {
    if entries != [] {
      var value := Denote(utf8, entries[0].value);
      var next, after, end := EntriesLie(utf8, b, off, entries);
      ReadsEncodedItem(utf8, b, next, entries[0].value);
      ReadsEncodedEntries(utf8, b, after, entries[1..], SetKey(m, utf8(entries[0].key), value));
      EntriesCompose(utf8, b, off, entries, m, next, after, end);
    }
  }

  lemma {:induction false} EntriesCompose(utf8: Utf8, b: Bytes, off: nat, entries: seq<MapEntry>,
                                          m: map<string, Val>, next: nat, after: nat, end: nat)
    requires entries != [] && ReadItem(utf8, b, off) == Ok(Str(utf8(entries[0].key)), next)
    requires ReadItem(utf8, b, next) == Ok(Denote(utf8, entries[0].value), after)
    requires var m1 := SetKey(m, utf8(entries[0].key), Denote(utf8, entries[0].value));
             ReadEntries(utf8, b, after, |entries| - 1, m1) == Ok(DenoteEntries(utf8, entries[1..], m1), end)
    ensures ReadEntries(utf8, b, off, |entries|, m) == Ok(DenoteEntries(utf8, entries, m), end)
  {
    EntriesStepOk(utf8, b, off, |entries|, m, utf8(entries[0].key), next, Denote(utf8, entries[0].value), after);
  }

  /** The first key is read, and its value and the other entries lie behind it. */
  lemma EntriesLie(utf8: Utf8, b: Bytes, off: nat, entries: seq<MapEntry>) returns (next: nat, after: nat, end: nat)
    requires |b| < TWO_53 && entries != [] && EntriesWellFormed(entries)
    requires At(b, off, EncodeEntries(entries))
    ensures WellFormed(entries[0].value) && EntriesWellFormed(entries[1..])
    ensures after == next + |Encode(entries[0].value)|
    ensures end == off + |EncodeEntries(entries)| == after + |EncodeEntries(entries[1..])|
    ensures ReadItem(utf8, b, off) == Ok(Str(utf8(entries[0].key)), next)
    ensures At(b, next, Encode(entries[0].value)) && At(b, after, EncodeEntries(entries[1..]))
  {
    var e := entries[0];
    var value, rest := EntriesUnfold(entries);
    next, after, end := EntryReads(utf8, b, off, e.kw, e.key, value, rest);
  }

  lemma EntriesUnfold(entries: seq<MapEntry>) returns (value: Bytes, rest: Bytes)
    requires entries != [] && EntriesWellFormed(entries)
    ensures WellFormed(entries[0].value) && EntriesWellFormed(entries[1..]) && Fits(entries[0].kw, |entries[0].key|)
    ensures value == Encode(entries[0].value) && rest == EncodeEntries(entries[1..])
    ensures EncodeEntries(entries) == Head(3, entries[0].kw, |entries[0].key|) + entries[0].key + (value + rest)
  {
    value, rest := Encode(entries[0].value), EncodeEntries(entries[1..]);
  }

  lemma EntriesStepOk(utf8: Utf8, b: Bytes, off: nat, count: nat, m: map<string, Val>, key: string, next: nat,
                      value: Val, after: nat)
    requires count > 0 && ReadItem(utf8, b, off) == Ok(Str(key), next) && ReadItem(utf8, b, next) == Ok(value, after)
    ensures ReadEntries(utf8, b, off, count, m) == ReadEntries(utf8, b, after, count - 1, SetKey(m, key, value))
  {
    EntriesStep(utf8, b, off, count, m);
  }

  /** An encoded key is read, and what follows it lies behind it. */
  lemma EntryReads(utf8: Utf8, b: Bytes, off: nat, w: Width, key: Bytes, value: Bytes, rest: Bytes)
    returns (next: nat, after: nat, end: nat)
    requires |b| < TWO_53 && Fits(w, |key|)
    requires At(b, off, Head(3, w, |key|) + key + (value + rest))
    ensures after == next + |value| && end == after + |rest| == off + |Head(3, w, |key|) + key + (value + rest)|
    ensures ReadItem(utf8, b, off) == Ok(Str(utf8(key)), next) && At(b, next, value) && At(b, after, rest)
  {
    next := off + 1 + WidthBytes(w) + |key|;
    after, end := next + |value|, next + |value| + |rest|;
    SlicePart(b, off, Head(3, w, |key|) + key, value + rest);
    SlicePart(b, next, value, rest);
    EncodedHead(b, off, 3, w, |key|, key);
    TextReads(utf8, b, off, off + 1 + WidthBytes(w), key);
  }

  // ---- what is read was an encoding ------------------------------------------

  lemma {:induction false} ReadWasEncoded(utf8: Utf8, b: Bytes, off: nat) returns (item: Item)
    requires |b| < TWO_53 && ReadItem(utf8, b, off).Ok? && ReadItem(utf8, b, off).offset <= |b|
    ensures WellFormed(item) && Denote(utf8, item) == ReadItem(utf8, b, off).value
    ensures b[off..ReadItem(utf8, b, off).offset] == Encode(item)
    decreases Remaining(b, off), 3
  {
    var end, head, major := ReadItem(utf8, b, off).offset, ReadLengthAt(b, off + 1, b[off] % 32), b[off] / 32;
    ReadSplits(utf8, b, off);
    var w := HeadWasEncoded(b, off);
    SliceJoin(b, off, head.offset, end, end);
    assert b[head.offset..end] + b[end..end] == b[head.offset..end];
    if major == 0 {
      item := UIntWasEncoded(utf8, b, off, w, end, head.value);
    } else if major == 3 {
      item := TextWasEncoded(utf8, b, off, w, head.offset, head.value, end);
    } else if major == 4 {
      item := ArrayWasEncoded(utf8, b, off, w, head.offset, head.value, end);
    } else {
      item := MapWasEncoded(utf8, b, off, w, head.offset, head.value, end);
    }
  }

  lemma UIntWasEncoded(utf8: Utf8, b: Bytes, off: nat, w: Width, end: nat, n: nat) returns (item: Item)
    requires off < end <= |b| && Fits(w, n) && b[off..end] == Head(0, w, n)
    ensures WellFormed(item) && b[off..end] == Encode(item) && Denote(utf8, item) == Num(ToNumber(n))
  {
    item := UInt(w, n);
  }

  lemma TextWasEncoded(utf8: Utf8, b: Bytes, off: nat, w: Width, at: nat, n: nat, end: nat) returns (item: Item)
    requires |b| < TWO_53 && off < at <= end <= |b| && Fits(w, n) && b[off..at] == Head(3, w, n)
    requires end == at + ToNumber(n) && b[off..end] == b[off..at] + b[at..end]
    ensures WellFormed(item) && b[off..end] == Encode(item)
    ensures Denote(utf8, item) == Str(utf8(Clamped(b, at, ToNumber(n))))
  {
    LengthIsExact(b, at, n, end);
    item := Text(w, b[at..end]);
    assert Clamped(b, at, n) == b[at..end];
  }

  lemma {:induction false} ArrayWasEncoded(utf8: Utf8, b: Bytes, off: nat, w: Width, at: nat, n: nat, end: nat)
    returns (item: Item)
    requires |b| < TWO_53 && off < at <= end <= |b| && off < |b| && Fits(w, n) && b[off..at] == Head(4, w, n)
    requires ReadItems(utf8, b, at, ToNumber(n)).Ok? && ReadItems(utf8, b, at, ToNumber(n)).offset == end
    requires b[off..end] == b[off..at] + b[at..end]
    ensures WellFormed(item) && b[off..end] == Encode(item)
    ensures Denote(utf8, item) == Arr(ReadItems(utf8, b, at, ToNumber(n)).value)
    decreases Remaining(b, off), 2
  {
    LengthIsExact(b, at, n, end);
    var items := ReadItemsWereEncoded(utf8, b, at, n);
    item := Array(w, items);
  }

  lemma {:induction false} MapWasEncoded(utf8: Utf8, b: Bytes, off: nat, w: Width, at: nat, n: nat, end: nat)
    returns (item: Item)
    requires |b| < TWO_53 && off < at <= end <= |b| && off < |b| && Fits(w, n) && b[off..at] == Head(5, w, n)
    requires ReadEntries(utf8, b, at, ToNumber(n), map[]).Ok?
    requires ReadEntries(utf8, b, at, ToNumber(n), map[]).offset == end
    requires b[off..end] == b[off..at] + b[at..end]
    ensures WellFormed(item) && b[off..end] == Encode(item)
    ensures Denote(utf8, item) == Obj(ReadEntries(utf8, b, at, ToNumber(n), map[]).value)
    decreases Remaining(b, off), 2
  {
    LengthIsExact(b, at, n, end);
    var entries := ReadEntriesWereEncoded(utf8, b, at, n, map[]);
    item := Map(w, entries);
  }

  /** A length that stays inside a real buffer is not rounded. */
  lemma LengthIsExact(b: Bytes, at: nat, n: nat, end: nat)
    requires |b| < TWO_53 && at + ToNumber(n) <= end <= |b|
    ensures ToNumber(n) == n
  {
    if n >= TWO_53 {
      LargeStaysLarge(n);
    } else {
      SmallIsExact(n);
    }
  }

  lemma {:induction false} ReadItemsWereEncoded(utf8: Utf8, b: Bytes, off: nat, count: nat) returns (items: seq<Item>)
    requires |b| < TWO_53 && ReadItems(utf8, b, off, count).Ok? && ReadItems(utf8, b, off, count).offset <= |b|
    ensures |items| == count && AllWellFormed(items)
    ensures DenoteItems(utf8, items) == ReadItems(utf8, b, off, count).value
    ensures b[off..ReadItems(utf8, b, off, count).offset] == EncodeItems(items)
    decreases Remaining(b, off), 4
  {
    items := [];
    if count > 0 {
      ItemsStep(utf8, b, off, count);
      var first, end := ReadItem(utf8, b, off), ReadItems(utf8, b, off, count).offset;
      var item := ReadWasEncoded(utf8, b, off);
      var rest := ReadItemsWereEncoded(utf8, b, first.offset, count - 1);
      items := [item] + rest;
      FirstItem(utf8, item, rest);
      SliceJoin(b, off, first.offset, end, end);
      assert b[first.offset..end] + b[end..end] == b[first.offset..end];
    }
  }

  lemma {:induction false} FirstItem(utf8: Utf8, item: Item, rest: seq<Item>)
    requires WellFormed(item) && AllWellFormed(rest)
    ensures EncodeItems([item] + rest) == Encode(item) + EncodeItems(rest)
    ensures DenoteItems(utf8, [item] + rest) == [Denote(utf8, item)] + DenoteItems(utf8, rest)
  {
    assert ([item] + rest)[1..] == rest;
  }

  lemma {:induction false} ReadEntriesWereEncoded(utf8: Utf8, b: Bytes, off: nat, count: nat, m: map<string, Val>)
    returns (entries: seq<MapEntry>)
    requires |b| < TWO_53 && ReadEntries(utf8, b, off, count, m).Ok?
    requires ReadEntries(utf8, b, off, count, m).offset <= |b|
    ensures |entries| == count && EntriesWellFormed(entries)
    ensures DenoteEntries(utf8, entries, m) == ReadEntries(utf8, b, off, count, m).value
    ensures b[off..ReadEntries(utf8, b, off, count, m).offset] == EncodeEntries(entries)
    decreases Remaining(b, off), 4
  {
    entries := [];
    if count > 0 {
      EntriesStep(utf8, b, off, count, m);
      var key := ReadItem(utf8, b, off);
      var value := ReadItem(utf8, b, key.offset);
      var end := ReadEntries(utf8, b, off, count, m).offset;
      var k := ReadWasEncoded(utf8, b, off);
      var v := ReadWasEncoded(utf8, b, key.offset);
      assert k.Text?;
      var rest := ReadEntriesWereEncoded(utf8, b, value.offset, count - 1, SetKey(m, key.value.s, value.value));
      var e := MapEntry(k.w, k.chars, v);
      assert ([e] + rest)[1..] == rest;
      SliceJoin(b, off, key.offset, value.offset, end);
      DenoteFirst(utf8, e, rest, m);
      entries := [e] + rest;
    }
  }

  lemma SliceJoin(b: Bytes, i: nat, j: nat, k: nat, l: nat)
    requires i <= j <= k <= l <= |b|
    ensures b[i..l] == b[i..j] + (b[j..k] + b[k..l])
  {
  }

  lemma {:induction false} DenoteFirst(utf8: Utf8, e: MapEntry, rest: seq<MapEntry>, m: map<string, Val>)
    ensures DenoteEntries(utf8, [e] + rest, m)
         == DenoteEntries(utf8, rest, SetKey(m, utf8(e.key), Denote(utf8, e.value)))
  {
    assert ([e] + rest)[1..] == rest;
  }

  // ---- main results ----------------------------------------------------------

  /**
   * Reading is exactly the inverse of encoding: a read that stays inside the
   * buffer succeeds with a value and an end if and only if the bytes up to that
   * end are a well-formed encoding of that value, whatever comes after them.
   */
  lemma {:induction false} ReadIffEncoded(utf8: Utf8, b: Bytes, off: nat, v: Val, end: nat)
    requires |b| < TWO_53 && off <= end <= |b|
    ensures ReadItem(utf8, b, off) == Ok(v, end) <==>
            exists item :: WellFormed(item) && b[off..end] == Encode(item) && Denote(utf8, item) == v
  {
    if ReadItem(utf8, b, off) == Ok(v, end) {
      var item := ReadWasEncoded(utf8, b, off);
    }
    if item :| WellFormed(item) && b[off..end] == Encode(item) && Denote(utf8, item) == v {
      assert |Encode(item)| == end - off;
      ReadsEncodedItem(utf8, b, off, item);
    }
  }

  /** The round trip with arbitrary trailing bytes. */
  lemma {:induction false} EncodeThenRead(utf8: Utf8, item: Item, trailing: Bytes)
    requires WellFormed(item) && |Encode(item) + trailing| < TWO_53
    ensures ReadItem(utf8, Encode(item) + trailing, 0) == Ok(Denote(utf8, item), |Encode(item)|)
  {
    var b := Encode(item) + trailing;
    assert b[0..0 + |Encode(item)|] == Encode(item);
    ReadsEncodedItem(utf8, b, 0, item);
  }

  // ---- when the value read is the value meant ---------------------------------

  /** The value of the encoded item itself, without JavaScript's rounding and special key. */
  function Intended(utf8: Utf8, item: Item): (v: Val) {
    match item
    case UInt(_, n) => Num(n)
    case Text(_, chars) => Str(utf8(chars))
    case Array(_, items) => Arr(IntendedItems(utf8, items))
    case Map(_, entries) => Obj(IntendedEntries(utf8, entries))
  }

  function IntendedItems(utf8: Utf8, items: seq<Item>): (r: seq<Val>)
    ensures |r| == |items| && forall i :: 0 <= i < |items| ==> r[i] == Intended(utf8, items[i])
  {
    if items == [] then [] else [Intended(utf8, items[0])] + IntendedItems(utf8, items[1..])
  }

  function IntendedEntries(utf8: Utf8, entries: seq<MapEntry>): (r: map<string, Val>)
    ensures forall k :: k in r <==> exists i :: 0 <= i < |entries| && utf8(entries[i].key) == k
    ensures UniqueKeys(utf8, entries) ==>
              forall i :: 0 <= i < |entries| ==>
                utf8(entries[i].key) in r && r[utf8(entries[i].key)] == Intended(utf8, entries[i].value)
  {
    if entries == [] then map[]
    else
      var rest := IntendedEntries(utf8, entries[1..]);
      assert forall i :: 0 < i < |entries| ==> entries[i] == entries[1..][i - 1];
      rest[utf8(entries[0].key) := Intended(utf8, entries[0].value)]
  }

  predicate UniqueKeys(utf8: Utf8, entries: seq<MapEntry>) {
    forall i, j :: 0 <= i < j < |entries| ==> utf8(entries[i].key) != utf8(entries[j].key)
  }

  /** Maps have distinct keys, as section 5.6 of RFC 8949 asks for, at every level. */
  predicate KeysDistinct(utf8: Utf8, item: Item) {
    match item
    case Array(_, items) => forall i :: 0 <= i < |items| ==> KeysDistinct(utf8, items[i])
    case Map(_, entries) =>
      UniqueKeys(utf8, entries) && forall i :: 0 <= i < |entries| ==> KeysDistinct(utf8, entries[i].value)
    case _ => true
  }

  /** Every integer is a double and no key is `__proto__`, at every level. */
  predicate Representable(utf8: Utf8, item: Item) {
    match item
    case UInt(_, n) => ToNumber(n) == n
    case Text(_, _) => true
    case Array(_, items) => forall i :: 0 <= i < |items| ==> Representable(utf8, items[i])
    case Map(_, entries) =>
      forall i :: 0 <= i < |entries| ==>
        utf8(entries[i].key) != "__proto__" && Representable(utf8, entries[i].value)
  }

  lemma {:induction false} EntriesDenote(utf8: Utf8, entries: seq<MapEntry>, m: map<string, Val>)
    requires UniqueKeys(utf8, entries)
    requires forall i :: 0 <= i < |entries| ==> utf8(entries[i].key) !in m
    ensures var r := DenoteEntries(utf8, entries, m);
            && (forall k :: k in m ==> k in r && r[k] == m[k])
            && (forall i :: 0 <= i < |entries| ==>
                  if utf8(entries[i].key) == "__proto__" then utf8(entries[i].key) !in r
                  else utf8(entries[i].key) in r && r[utf8(entries[i].key)] == Denote(utf8, entries[i].value))
            && (forall k :: k in r ==> k in m || exists i :: 0 <= i < |entries| && utf8(entries[i].key) == k)
    decreases |entries|
  {
    if entries != [] {
      var m1, tail := SetKey(m, utf8(entries[0].key), Denote(utf8, entries[0].value)), entries[1..];
      assert forall i :: 0 <= i < |tail| ==> tail[i] == entries[i + 1];
      EntriesDenote(utf8, tail, m1);
      var r := DenoteEntries(utf8, entries, m);
      assert r == DenoteEntries(utf8, tail, m1);
      forall i | 0 <= i < |entries|
        ensures if utf8(entries[i].key) == "__proto__" then utf8(entries[i].key) !in r
                else utf8(entries[i].key) in r && r[utf8(entries[i].key)] == Denote(utf8, entries[i].value)
      {
        if i > 0 {
          assert entries[i] == tail[i - 1];
        }
      }
      forall k | k in r ensures k in m || exists i :: 0 <= i < |entries| && utf8(entries[i].key) == k {
        if k !in m && k !in m1 {
          var i :| 0 <= i < |tail| && utf8(tail[i].key) == k;
          assert utf8(entries[i + 1].key) == k;
        }
      }
    }
  }

  /** The value read is the value meant exactly for representable items. */
  lemma {:induction false} FaithfulIffRepresentable(utf8: Utf8, item: Item)
    requires KeysDistinct(utf8, item)
    ensures Denote(utf8, item) == Intended(utf8, item) <==> Representable(utf8, item)
  {
    match item
    case UInt(_, n) =>
    case Text(_, _) =>
    case Array(_, items) =>
      forall i | 0 <= i < |items|
        ensures Denote(utf8, items[i]) == Intended(utf8, items[i]) <==> Representable(utf8, items[i])
      {
        FaithfulIffRepresentable(utf8, items[i]);
      }
      var xs, ys := DenoteItems(utf8, items), IntendedItems(utf8, items);
      assert xs == ys <==> forall i :: 0 <= i < |items| ==> xs[i] == ys[i];
    case Map(_, entries) =>
      forall i | 0 <= i < |entries|
        ensures Denote(utf8, entries[i].value) == Intended(utf8, entries[i].value)
                <==> Representable(utf8, entries[i].value)
      {
        FaithfulIffRepresentable(utf8, entries[i].value);
      }
      FaithfulEntries(utf8, entries);
  }

  lemma {:induction false} FaithfulEntries(utf8: Utf8, entries: seq<MapEntry>)
    requires UniqueKeys(utf8, entries)
    ensures DenoteEntries(utf8, entries, map[]) == IntendedEntries(utf8, entries) <==>
            forall i :: 0 <= i < |entries| ==>
              utf8(entries[i].key) != "__proto__"
              && Denote(utf8, entries[i].value) == Intended(utf8, entries[i].value)
  {
    EntriesDenote(utf8, entries, map[]);
    var r, s := DenoteEntries(utf8, entries, map[]), IntendedEntries(utf8, entries);
    if r == s {
      forall i | 0 <= i < |entries|
        ensures utf8(entries[i].key) != "__proto__"
        ensures Denote(utf8, entries[i].value) == Intended(utf8, entries[i].value)
      {
        assert utf8(entries[i].key) in s;
      }
    }
    if forall i :: 0 <= i < |entries| ==>
         utf8(entries[i].key) != "__proto__" && Denote(utf8, entries[i].value) == Intended(utf8, entries[i].value)
    {
      assert forall k :: k in r <==> k in s;
      forall k | k in s ensures r[k] == s[k] {
        var i :| 0 <= i < |entries| && utf8(entries[i].key) == k;
      }
    }
  }
}
