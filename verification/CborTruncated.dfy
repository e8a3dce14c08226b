/**
 * Exactly which inputs the CBOR reader of src/routes/demo-portal.ts reads past
 * their end: encodings that stop short inside their last text string, however
 * deeply that text is nested. `decodeProofQr` never compares the offset with the
 * length, so it accepts them.
 */
module CborTruncated {
  import opened Octets
  import opened Cbor
  import opened CborCodec

  // ---- the last text of an item ------------------------------------------------

  /** How many bytes of text an encoding ends with. */
  function Trailing(item: Item): (n: nat) {
    match item
    case UInt(_, _) => 0
    case Text(_, chars) => |chars|
    case Array(_, items) => TrailingItems(items)
    case Map(_, entries) => TrailingEntries(entries)
  }

  function TrailingItems(items: seq<Item>): (n: nat) {
    if items == [] then 0 else if |items| == 1 then Trailing(items[0]) else TrailingItems(items[1..])
  }

  function TrailingEntries(entries: seq<MapEntry>): (n: nat) {
    if entries == [] then 0 else if |entries| == 1 then Trailing(entries[0].value) else TrailingEntries(entries[1..])
  }

  /** The item with the last k bytes of that text gone. */
  function CutShort(item: Item, k: nat): (r: Item)
    requires k <= Trailing(item)
  {
    match item
    case UInt(_, _) => item
    case Text(w, chars) => Text(w, chars[..|chars| - k])
    case Array(w, items) => Array(w, CutItems(items, k))
    case Map(w, entries) => Map(w, CutEntries(entries, k))
  }

  function CutItems(items: seq<Item>, k: nat): (r: seq<Item>)
    requires k <= TrailingItems(items)
  {
    if items == [] then []
    else if |items| == 1 then [CutShort(items[0], k)]
    else [items[0]] + CutItems(items[1..], k)
  }

  function CutEntries(entries: seq<MapEntry>, k: nat): (r: seq<MapEntry>)
    requires k <= TrailingEntries(entries)
  {
    if entries == [] then []
    else if |entries| == 1 then [entries[0].(value := CutShort(entries[0].value, k))]
    else [entries[0]] + CutEntries(entries[1..], k)
  }

  /** Where the reader believes a text of n bytes ends that really starts at `at`. */
  function Past(at: nat, n: nat): (end: nat) { at + ToNumber(n) }

  /** The buffer from `off` on is `whole` but for its last, missing bytes. */
  predicate StopsShort(b: Bytes, off: nat, whole: Bytes, missing: Bytes) {
    off <= |b| && b[off..] + missing == whole
  }

  /** Where an item's last text starts when the item starts at `off`. */
  function TextStart(off: nat, whole: nat, trailing: nat): (at: nat)
    requires trailing <= whole
  {
    off + whole - trailing
  }

  lemma {:induction false} TrailingFits(item: Item)
    requires WellFormed(item)
    ensures Trailing(item) < |Encode(item)|
    decreases item, 0
  {
    match item
    case UInt(_, _) =>
    case Text(_, _) =>
    case Array(_, items) => TrailingItemsFit(items);
    case Map(_, entries) => TrailingEntriesFit(entries);
  }

  lemma {:induction false} TrailingItemsFit(items: seq<Item>)
    requires AllWellFormed(items)
    ensures TrailingItems(items) <= |EncodeItems(items)|
    decreases items, 1
  {
    if items != [] {
      TrailingFits(items[0]);
      TrailingItemsFit(items[1..]);
    }
  }

  lemma {:induction false} TrailingEntriesFit(entries: seq<MapEntry>)
    requires EntriesWellFormed(entries)
    ensures TrailingEntries(entries) <= |EncodeEntries(entries)|
    decreases entries, 1
  {
    if entries != [] {
      TrailingFits(entries[0].value);
      TrailingEntriesFit(entries[1..]);
    }
  }

  // ---- buffers that stop short ---------------------------------------------------

  /** If only the second part is cut, the first is there and the second stops short behind it. */
  lemma FirstIsThere(b: Bytes, off: nat, x: Bytes, y: Bytes, missing: Bytes)
    requires StopsShort(b, off, x + y, missing) && |missing| <= |y|
    ensures At(b, off, x) && StopsShort(b, off + |x|, y, missing)
  {
    var rest := b[off..];
    assert |rest| == |x| + |y| - |missing|;
    assert rest[..|x|] == (rest + missing)[..|x|] == x;
    assert b[off..off + |x|] == rest[..|x|];
    assert (rest + missing)[|x|..] == rest[|x|..] + missing;
    assert (x + y)[|x|..] == y && rest[|x|..] == b[off + |x|..];
  }

  /** And the other way round. */
  lemma JoinShort(b: Bytes, off: nat, next: nat, y: Bytes, missing: Bytes)
    requires off <= next <= |b| && StopsShort(b, next, y, missing)
    ensures StopsShort(b, off, b[off..next] + y, missing)
  {
    assert b[off..] == b[off..next] + b[next..];
    assert b[off..next] + b[next..] + missing == b[off..next] + (b[next..] + missing);
  }

  /** A long text, or one that has bytes missing, ends past the buffer. */
  lemma TextRunsOver(b: Bytes, at: nat, n: nat)
    requires |b| < TWO_53 && at <= |b| < at + n
    ensures Past(at, n) > |b|
  {
    if n >= TWO_53 {
      LargeStaysLarge(n);
    } else {
      SmallIsExact(n);
    }
  }

  // ---- cut encodings are read --------------------------------------------------

  lemma {:induction false} ReadsCutText(utf8: Utf8, b: Bytes, off: nat, item: Item, missing: Bytes)
    requires |b| < TWO_53 && WellFormed(item) && item.Text? && 0 < |missing| <= |item.chars|
    requires StopsShort(b, off, Encode(item), missing)
    ensures ReadItem(utf8, b, off)
         == Ok(Denote(utf8, CutShort(item, |missing|)), Past(off + 1 + WidthBytes(item.w), |item.chars|))
  {
    var n, at, head := |item.chars|, off + 1 + WidthBytes(item.w), Head(3, item.w, |item.chars|);
    FirstIsThere(b, off, head, item.chars, missing);
    assert head + [] == head;
    EncodedHead(b, off, 3, item.w, n, []);
    ReadSplits(utf8, b, off);
    TextRunsOver(b, at, n);
    assert b[at..] == item.chars[..n - |missing|];
    assert Clamped(b, at, ToNumber(n)) == b[at..];
  }

  lemma {:induction false} ReadsCutItem(utf8: Utf8, b: Bytes, off: nat, item: Item, missing: Bytes)
    requires |b| < TWO_53 && WellFormed(item) && 0 < |missing| <= Trailing(item)
    requires StopsShort(b, off, Encode(item), missing)
    ensures var r := ReadItem(utf8, b, off);
            && r.Ok? && r.value == Denote(utf8, CutShort(item, |missing|))
            && Trailing(item) <= |Encode(item)|
            && r.offset == Past(TextStart(off, |Encode(item)|, Trailing(item)), Trailing(item)) > |b|
    decreases item, 1
  {
    TrailingFits(item);
    var at := TextStart(off, |Encode(item)|, Trailing(item));
    assert |b| - off + |missing| == |Encode(item)|;
    TextRunsOver(b, at, Trailing(item));
    match item
    case Text(_, _) => ReadsCutText(utf8, b, off, item, missing);
    case Array(_, _) => ReadsCutArray(utf8, b, off, item, missing);
    case Map(_, _) => ReadsCutMap(utf8, b, off, item, missing);
  }

  lemma {:induction false} ReadsCutArray(utf8: Utf8, b: Bytes, off: nat, item: Item, missing: Bytes)
    requires |b| < TWO_53 && WellFormed(item) && item.Array? && 0 < |missing| <= Trailing(item)
    requires StopsShort(b, off, Encode(item), missing) && Trailing(item) <= |Encode(item)|
    ensures ReadItem(utf8, b, off)
         == Ok(Denote(utf8, CutShort(item, |missing|)),
               Past(TextStart(off, |Encode(item)|, Trailing(item)), Trailing(item)))
    decreases item, 0
  {
    var at, n, body := off + 1 + WidthBytes(item.w), |item.items|, EncodeItems(item.items);
    TrailingItemsFit(item.items);
    FirstIsThere(b, off, Head(4, item.w, n), body, missing);
    HeadStands(b, off, 4, item.w, n);
    ReadsCutItems(utf8, b, at, item.items, missing);
    FewItems(utf8, b, at, item.items, missing);
    ReadWithHead(utf8, b, off, 4, at, n);
  }

  lemma HeadStands(b: Bytes, off: nat, major: nat, w: Width, n: nat)
    requires major < 8 && Fits(w, n) && At(b, off, Head(major, w, n))
    ensures HeadAt(b, off, major, off + 1 + WidthBytes(w), n)
  {
    HeadReads(b, off, major, w, n);
  }

  /** A list that is nearly all there is shorter than the buffer, so its count is exact. */
  lemma {:induction false} FewItems(utf8: Utf8, b: Bytes, off: nat, items: seq<Item>, missing: Bytes)
    requires |b| < TWO_53 && AllWellFormed(items) && StopsShort(b, off, EncodeItems(items), missing)
    requires |missing| <= TrailingItems(items)
    ensures |items| < TWO_53
  {
    CountWithoutText(items);
  }

  /** Each item needs a byte that is not of the last text. */
  lemma {:induction false} CountWithoutText(items: seq<Item>)
    requires AllWellFormed(items)
    ensures |items| + TrailingItems(items) <= |EncodeItems(items)|
    decreases items
  {
    if items != [] {
      TrailingFits(items[0]);
      CountWithoutText(items[1..]);
    }
  }

  lemma {:induction false} ReadsCutItems(utf8: Utf8, b: Bytes, off: nat, items: seq<Item>, missing: Bytes)
    requires |b| < TWO_53 && AllWellFormed(items) && 0 < |missing| <= TrailingItems(items)
    requires StopsShort(b, off, EncodeItems(items), missing) && TrailingItems(items) <= |EncodeItems(items)|
    ensures ReadItems(utf8, b, off, |items|)
         == Ok(DenoteItems(utf8, CutItems(items, |missing|)),
               Past(TextStart(off, |EncodeItems(items)|, TrailingItems(items)), TrailingItems(items)))
    decreases items, 3
  {
    if |items| == 1 {
      var end := SingleLies(b, off, items, missing);
      ReadsCutItem(utf8, b, off, items[0], missing);
      LastItem(utf8, b, off, CutShort(items[0], |missing|), end);
    } else {
      ReadsCutRest(utf8, b, off, items, missing);
    }
  }

  lemma {:induction false} ReadsCutRest(utf8: Utf8, b: Bytes, off: nat, items: seq<Item>, missing: Bytes)
    requires |b| < TWO_53 && |items| > 1 && AllWellFormed(items) && 0 < |missing| <= TrailingItems(items)
    requires StopsShort(b, off, EncodeItems(items), missing) && TrailingItems(items) <= |EncodeItems(items)|
    ensures ReadItems(utf8, b, off, |items|)
         == Ok(DenoteItems(utf8, CutItems(items, |missing|)),
               Past(TextStart(off, |EncodeItems(items)|, TrailingItems(items)), TrailingItems(items)))
    decreases items, 2
  {
    var next, end := SeveralLie(b, off, items, missing);
    ReadsEncodedItem(utf8, b, off, items[0]);
    ReadsCutItems(utf8, b, next, items[1..], missing);
    RestCompose(utf8, b, off, items, missing, next, end);
  }

  lemma {:induction false} RestCompose(utf8: Utf8, b: Bytes, off: nat, items: seq<Item>, missing: Bytes, next: nat,
                                       end: nat)
    requires |items| > 1 && 0 < |missing| <= TrailingItems(items) == TrailingItems(items[1..])
    requires ReadItem(utf8, b, off) == Ok(Denote(utf8, items[0]), next)
    requires ReadItems(utf8, b, next, |items| - 1) == Ok(DenoteItems(utf8, CutItems(items[1..], |missing|)), end)
    ensures ReadItems(utf8, b, off, |items|) == Ok(DenoteItems(utf8, CutItems(items, |missing|)), end)
  {
    MoreItems(utf8, b, off, items[0], CutItems(items[1..], |missing|), next, end, |items|);
  }

  /** The only item of a list stops short where the list does. */
  lemma SingleLies(b: Bytes, off: nat, items: seq<Item>, missing: Bytes) returns (end: nat)
    requires |items| == 1 && AllWellFormed(items) && StopsShort(b, off, EncodeItems(items), missing)
    requires TrailingItems(items) <= |EncodeItems(items)|
    ensures WellFormed(items[0]) && StopsShort(b, off, Encode(items[0]), missing)
    ensures Trailing(items[0]) <= |Encode(items[0])|
    ensures end == Past(TextStart(off, |EncodeItems(items)|, TrailingItems(items)), TrailingItems(items))
         == Past(TextStart(off, |Encode(items[0])|, Trailing(items[0])), Trailing(items[0]))
  {
    assert items[1..] == [] && EncodeItems(items) == Encode(items[0]) + [] == Encode(items[0]);
    end := Past(TextStart(off, |EncodeItems(items)|, TrailingItems(items)), TrailingItems(items));
  }

  /** The first of several items is all there, and the others stop short behind it. */
  lemma SeveralLie(b: Bytes, off: nat, items: seq<Item>, missing: Bytes) returns (next: nat, end: nat)
    requires |items| > 1 && AllWellFormed(items) && 0 < |missing| <= TrailingItems(items)
    requires StopsShort(b, off, EncodeItems(items), missing) && TrailingItems(items) <= |EncodeItems(items)|
    ensures next == off + |Encode(items[0])| && At(b, off, Encode(items[0]))
    ensures StopsShort(b, next, EncodeItems(items[1..]), missing)
    ensures TrailingItems(items[1..]) == TrailingItems(items) <= |EncodeItems(items[1..])|
    ensures end == Past(TextStart(off, |EncodeItems(items)|, TrailingItems(items)), TrailingItems(items))
         == Past(TextStart(next, |EncodeItems(items[1..])|, TrailingItems(items)), TrailingItems(items))
  {
    TrailingItemsFit(items[1..]);
    FirstIsThere(b, off, Encode(items[0]), EncodeItems(items[1..]), missing);
    next := off + |Encode(items[0])|;
    end := Past(TextStart(off, |EncodeItems(items)|, TrailingItems(items)), TrailingItems(items));
  }

  lemma {:induction false} LastItem(utf8: Utf8, b: Bytes, off: nat, item: Item, end: nat)
    requires ReadItem(utf8, b, off) == Ok(Denote(utf8, item), end)
    ensures ReadItems(utf8, b, off, 1) == Ok(DenoteItems(utf8, [item]), end)
  {
    ItemsStep(utf8, b, off, 1);
    assert [item][1..] == [];
  }

  lemma MoreItems(utf8: Utf8, b: Bytes, off: nat, item: Item, rest: seq<Item>, next: nat, end: nat, count: nat)
    requires count > 0 && ReadItem(utf8, b, off) == Ok(Denote(utf8, item), next)
    requires ReadItems(utf8, b, next, count - 1) == Ok(DenoteItems(utf8, rest), end)
    ensures ReadItems(utf8, b, off, count) == Ok(DenoteItems(utf8, [item] + rest), end)
  {
    ItemsStep(utf8, b, off, count);
    assert ([item] + rest)[1..] == rest;
  }

  lemma {:induction false} ReadsCutMap(utf8: Utf8, b: Bytes, off: nat, item: Item, missing: Bytes)
    requires |b| < TWO_53 && WellFormed(item) && item.Map? && 0 < |missing| <= Trailing(item)
    requires StopsShort(b, off, Encode(item), missing) && Trailing(item) <= |Encode(item)|
    ensures ReadItem(utf8, b, off)
         == Ok(Denote(utf8, CutShort(item, |missing|)),
               Past(TextStart(off, |Encode(item)|, Trailing(item)), Trailing(item)))
    decreases item, 0
  {
    var at, n, body := off + 1 + WidthBytes(item.w), |item.entries|, EncodeEntries(item.entries);
    TrailingEntriesFit(item.entries);
    FirstIsThere(b, off, Head(5, item.w, n), body, missing);
    HeadStands(b, off, 5, item.w, n);
    ReadsCutEntries(utf8, b, at, item.entries, missing, map[]);
    EntriesWithoutText(item.entries);
    ReadWithHead(utf8, b, off, 5, at, n);
  }

  lemma {:induction false} EntriesWithoutText(entries: seq<MapEntry>)
    requires EntriesWellFormed(entries)
    ensures |entries| + TrailingEntries(entries) <= |EncodeEntries(entries)|
    decreases entries
  {
    if entries != [] {
      TrailingFits(entries[0].value);
      EntriesWithoutText(entries[1..]);
    }
  }

  /** A key before the cut is read whole. */
  lemma KeyRead(utf8: Utf8, b: Bytes, off: nat, w: Width, key: Bytes, after: Bytes, missing: Bytes) returns (next: nat)
    requires |b| < TWO_53 && Fits(w, |key|) && |missing| <= |after|
    requires StopsShort(b, off, Head(3, w, |key|) + key + after, missing)
    ensures next == off + 1 + WidthBytes(w) + |key|
    ensures ReadItem(utf8, b, off) == Ok(Str(utf8(key)), next) && StopsShort(b, next, after, missing)
  {
    next := off + 1 + WidthBytes(w) + |key|;
    FirstIsThere(b, off, Head(3, w, |key|) + key, after, missing);
    EncodedHead(b, off, 3, w, |key|, key);
    TextReads(utf8, b, off, off + 1 + WidthBytes(w), key);
  }

  lemma {:induction false} ReadsCutEntries(utf8: Utf8, b: Bytes, off: nat, entries: seq<MapEntry>, missing: Bytes,
                                           m: map<string, Val>)
    requires |b| < TWO_53 && EntriesWellFormed(entries) && 0 < |missing| <= TrailingEntries(entries)
    requires StopsShort(b, off, EncodeEntries(entries), missing) && TrailingEntries(entries) <= |EncodeEntries(entries)|
    ensures ReadEntries(utf8, b, off, |entries|, m)
         == Ok(DenoteEntries(utf8, CutEntries(entries, |missing|), m),
               Past(TextStart(off, |EncodeEntries(entries)|, TrailingEntries(entries)), TrailingEntries(entries)))
    decreases entries, 3
  {
    if |entries| == 1 {
      ReadsCutSingle(utf8, b, off, entries, missing, m);
    } else {
      ReadsCutSeveral(utf8, b, off, entries, missing, m);
    }
  }

  lemma {:induction false} ReadsCutSingle(utf8: Utf8, b: Bytes, off: nat, entries: seq<MapEntry>, missing: Bytes,
                                          m: map<string, Val>)
    requires |b| < TWO_53 && |entries| == 1 && EntriesWellFormed(entries) && 0 < |missing| <= TrailingEntries(entries)
    requires StopsShort(b, off, EncodeEntries(entries), missing) && TrailingEntries(entries) <= |EncodeEntries(entries)|
    ensures ReadEntries(utf8, b, off, 1, m)
         == Ok(DenoteEntries(utf8, CutEntries(entries, |missing|), m),
               Past(TextStart(off, |EncodeEntries(entries)|, TrailingEntries(entries)), TrailingEntries(entries)))
    decreases entries, 2
  {
    var next, end := SingleEntryLies(utf8, b, off, entries, missing);
    ReadsCutItem(utf8, b, next, entries[0].value, missing);
    SingleCompose(utf8, b, off, entries, missing, next, end, m);
  }

  lemma {:induction false} ReadsCutSeveral(utf8: Utf8, b: Bytes, off: nat, entries: seq<MapEntry>, missing: Bytes,
                                           m: map<string, Val>)
    requires |b| < TWO_53 && |entries| > 1 && EntriesWellFormed(entries) && 0 < |missing| <= TrailingEntries(entries)
    requires StopsShort(b, off, EncodeEntries(entries), missing) && TrailingEntries(entries) <= |EncodeEntries(entries)|
    ensures ReadEntries(utf8, b, off, |entries|, m)
         == Ok(DenoteEntries(utf8, CutEntries(entries, |missing|), m),
               Past(TextStart(off, |EncodeEntries(entries)|, TrailingEntries(entries)), TrailingEntries(entries)))
    decreases entries, 2
  {
    var next, after, end := SeveralEntriesLie(utf8, b, off, entries, missing);
    var m1 := SetKey(m, utf8(entries[0].key), Denote(utf8, entries[0].value));
    ReadsEncodedItem(utf8, b, next, entries[0].value);
    ReadsCutEntries(utf8, b, after, entries[1..], missing, m1);
    SeveralCompose(utf8, b, off, entries, missing, next, after, end, m);
  }

  lemma {:induction false} SeveralCompose(utf8: Utf8, b: Bytes, off: nat, entries: seq<MapEntry>, missing: Bytes,
                                          next: nat, after: nat, end: nat, m: map<string, Val>)
    requires |entries| > 1 && 0 < |missing| <= TrailingEntries(entries) == TrailingEntries(entries[1..])
    requires ReadItem(utf8, b, off) == Ok(Str(utf8(entries[0].key)), next)
    requires ReadItem(utf8, b, next) == Ok(Denote(utf8, entries[0].value), after)
    requires var m1 := SetKey(m, utf8(entries[0].key), Denote(utf8, entries[0].value));
             ReadEntries(utf8, b, after, |entries| - 1, m1)
             == Ok(DenoteEntries(utf8, CutEntries(entries[1..], |missing|), m1), end)
    ensures ReadEntries(utf8, b, off, |entries|, m)
         == Ok(DenoteEntries(utf8, CutEntries(entries, |missing|), m), end)
  {
    MoreEntries(utf8, b, off, entries[0], CutEntries(entries[1..], |missing|), next, after, end, |entries|, m);
  }

  lemma {:induction false} SingleCompose(utf8: Utf8, b: Bytes, off: nat, entries: seq<MapEntry>, missing: Bytes,
                                         next: nat, end: nat, m: map<string, Val>)
    requires |entries| == 1 && 0 < |missing| <= Trailing(entries[0].value)
    requires ReadItem(utf8, b, off) == Ok(Str(utf8(entries[0].key)), next)
    requires ReadItem(utf8, b, next) == Ok(Denote(utf8, CutShort(entries[0].value, |missing|)), end)
    ensures ReadEntries(utf8, b, off, 1, m) == Ok(DenoteEntries(utf8, CutEntries(entries, |missing|), m), end)
  {
    var e := entries[0];
    LastEntry(utf8, b, off, e.(value := CutShort(e.value, |missing|)), next, end, m);
  }

  /** The only key is read, and its value stops short. */
  lemma SingleEntryLies(utf8: Utf8, b: Bytes, off: nat, entries: seq<MapEntry>, missing: Bytes)
    returns (next: nat, end: nat)
    requires |b| < TWO_53 && |entries| == 1 && EntriesWellFormed(entries) && 0 < |missing| <= TrailingEntries(entries)
    requires StopsShort(b, off, EncodeEntries(entries), missing) && TrailingEntries(entries) <= |EncodeEntries(entries)|
    ensures WellFormed(entries[0].value) && ReadItem(utf8, b, off) == Ok(Str(utf8(entries[0].key)), next)
    ensures StopsShort(b, next, Encode(entries[0].value), missing)
    ensures TrailingEntries(entries) == Trailing(entries[0].value) <= |Encode(entries[0].value)|
    ensures end == Past(TextStart(off, |EncodeEntries(entries)|, TrailingEntries(entries)), TrailingEntries(entries))
         == Past(TextStart(next, |Encode(entries[0].value)|, TrailingEntries(entries)), TrailingEntries(entries))
  {
    var e := entries[0];
    var value, others := EntriesUnfold(entries);
    TrailingFits(e.value);
    assert entries[1..] == [] && others == [] && value + others == value;
    next := KeyRead(utf8, b, off, e.kw, e.key, value + others, missing);
    end := Past(TextStart(off, |EncodeEntries(entries)|, TrailingEntries(entries)), TrailingEntries(entries));
  }

  /** The first of several keys is read, its value is all there, and the other entries stop short behind it. */
  lemma SeveralEntriesLie(utf8: Utf8, b: Bytes, off: nat, entries: seq<MapEntry>, missing: Bytes)
    returns (next: nat, after: nat, end: nat)
    requires |b| < TWO_53 && |entries| > 1 && EntriesWellFormed(entries) && 0 < |missing| <= TrailingEntries(entries)
    requires StopsShort(b, off, EncodeEntries(entries), missing) && TrailingEntries(entries) <= |EncodeEntries(entries)|
    ensures WellFormed(entries[0].value) && EntriesWellFormed(entries[1..])
    ensures ReadItem(utf8, b, off) == Ok(Str(utf8(entries[0].key)), next)
    ensures At(b, next, Encode(entries[0].value)) && after == next + |Encode(entries[0].value)|
    ensures StopsShort(b, after, EncodeEntries(entries[1..]), missing)
    ensures TrailingEntries(entries[1..]) == TrailingEntries(entries) <= |EncodeEntries(entries[1..])|
    ensures end == Past(TextStart(off, |EncodeEntries(entries)|, TrailingEntries(entries)), TrailingEntries(entries))
         == Past(TextStart(after, |EncodeEntries(entries[1..])|, TrailingEntries(entries)), TrailingEntries(entries))
  {
    var e := entries[0];
    var value, others := EntriesUnfold(entries);
    TrailingEntriesFit(entries[1..]);
    next := KeyRead(utf8, b, off, e.kw, e.key, value + others, missing);
    FirstIsThere(b, next, value, others, missing);
    after := next + |value|;
    end := Past(TextStart(off, |EncodeEntries(entries)|, TrailingEntries(entries)), TrailingEntries(entries));
  }

  lemma {:induction false} LastEntry(utf8: Utf8, b: Bytes, off: nat, e: MapEntry, next: nat, end: nat,
                                     m: map<string, Val>)
    requires ReadItem(utf8, b, off) == Ok(Str(utf8(e.key)), next)
    requires ReadItem(utf8, b, next) == Ok(Denote(utf8, e.value), end)
    ensures ReadEntries(utf8, b, off, 1, m) == Ok(DenoteEntries(utf8, [e], m), end)
  {
    EntriesStepOk(utf8, b, off, 1, m, utf8(e.key), next, Denote(utf8, e.value), end);
    assert [e][1..] == [];
  }

  lemma MoreEntries(utf8: Utf8, b: Bytes, off: nat, e: MapEntry, rest: seq<MapEntry>, next: nat, after: nat, end: nat,
                    count: nat, m: map<string, Val>)
    requires count > 0 && ReadItem(utf8, b, off) == Ok(Str(utf8(e.key)), next)
    requires ReadItem(utf8, b, next) == Ok(Denote(utf8, e.value), after)
    requires var m1 := SetKey(m, utf8(e.key), Denote(utf8, e.value));
             ReadEntries(utf8, b, after, count - 1, m1) == Ok(DenoteEntries(utf8, rest, m1), end)
    ensures ReadEntries(utf8, b, off, count, m) == Ok(DenoteEntries(utf8, [e] + rest, m), end)
  {
    EntriesStepOk(utf8, b, off, count, m, utf8(e.key), next, Denote(utf8, e.value), after);
    DenoteFirst(utf8, e, rest, m);
  }

  // ---- what is read past the end was a cut encoding ------------------------------

  /** An item whose encoding stops short at the end of the buffer, and the bytes that are missing. */
  predicate CutAt(b: Bytes, off: nat, item: Item, missing: Bytes) {
    WellFormed(item) && 0 < |missing| <= Trailing(item) && StopsShort(b, off, Encode(item), missing)
  }

  function Filler(n: nat): (r: Bytes)
    ensures |r| == n
  {
    seq(n, _ => 0)
  }

  lemma CutTextWasRead(utf8: Utf8, b: Bytes, off: nat, w: Width, at: nat, n: nat) returns (item: Item, missing: Bytes)
    requires |b| < TWO_53 && off < at <= |b| && Fits(w, n) && b[off..at] == Head(3, w, n) && at + ToNumber(n) > |b|
    ensures CutAt(b, off, item, missing)
    ensures Denote(utf8, CutShort(item, |missing|)) == Str(utf8(Clamped(b, at, ToNumber(n))))
  {
    if n < TWO_53 {
      SmallIsExact(n);
    }
    missing := Filler(n - (|b| - at));
    var chars := b[at..] + missing;
    item := Text(w, chars);
    assert b[at..] + missing == chars;
    JoinShort(b, off, at, chars, missing);
    assert chars[..|chars| - |missing|] == b[at..];
    assert Clamped(b, at, ToNumber(n)) == b[at..];
  }

  lemma {:induction false} CutWasRead(utf8: Utf8, b: Bytes, off: nat) returns (item: Item, missing: Bytes)
    requires |b| < TWO_53 && ReadItem(utf8, b, off).Ok? && ReadItem(utf8, b, off).offset > |b|
    ensures CutAt(b, off, item, missing)
    ensures Denote(utf8, CutShort(item, |missing|)) == ReadItem(utf8, b, off).value
    decreases Remaining(b, off), 3
  {
    var head, major := ReadLengthAt(b, off + 1, b[off] % 32), b[off] / 32;
    ReadSplits(utf8, b, off);
    var w := HeadWasEncoded(b, off);
    if major == 3 {
      item, missing := CutTextWasRead(utf8, b, off, w, head.offset, head.value);
    } else if major == 4 {
      item, missing := CutArrayWasRead(utf8, b, off, w, head.offset, head.value);
    } else {
      item, missing := CutMapWasRead(utf8, b, off, w, head.offset, head.value);
    }
  }

  lemma {:induction false} CutArrayWasRead(utf8: Utf8, b: Bytes, off: nat, w: Width, at: nat, n: nat)
    returns (item: Item, missing: Bytes)
    requires |b| < TWO_53 && off < at <= |b| && Fits(w, n) && b[off..at] == Head(4, w, n)
    requires ReadItems(utf8, b, at, ToNumber(n)).Ok? && ReadItems(utf8, b, at, ToNumber(n)).offset > |b|
    ensures CutAt(b, off, item, missing)
    ensures Denote(utf8, CutShort(item, |missing|)) == Arr(ReadItems(utf8, b, at, ToNumber(n)).value)
    decreases Remaining(b, off), 2
  {
    var items: seq<Item>;
    items, missing := CutItemsWereRead(utf8, b, at, ToNumber(n));
    CountFits(b, at, n);
    item := Array(w, items);
    JoinShort(b, off, at, EncodeItems(items), missing);
  }

  lemma CountFits(b: Bytes, at: nat, n: nat)
    requires |b| < TWO_53 && ToNumber(n) <= |b|
    ensures ToNumber(n) == n
  {
    if n >= TWO_53 {
      LargeStaysLarge(n);
    } else {
      SmallIsExact(n);
    }
  }

  lemma {:induction false} CutMapWasRead(utf8: Utf8, b: Bytes, off: nat, w: Width, at: nat, n: nat)
    returns (item: Item, missing: Bytes)
    requires |b| < TWO_53 && off < at <= |b| && Fits(w, n) && b[off..at] == Head(5, w, n)
    requires var r := ReadEntries(utf8, b, at, ToNumber(n), map[]); r.Ok? && r.offset > |b|
    ensures CutAt(b, off, item, missing)
    ensures Denote(utf8, CutShort(item, |missing|)) == Obj(ReadEntries(utf8, b, at, ToNumber(n), map[]).value)
    decreases Remaining(b, off), 2
  {
    var entries: seq<MapEntry>;
    var r := ReadEntries(utf8, b, at, ToNumber(n), map[]);
    entries, missing := CutEntriesWereRead(utf8, b, at, ToNumber(n), map[], r.value, r.offset);
    CountFits(b, at, n);
    item := Map(w, entries);
    JoinShort(b, off, at, EncodeEntries(entries), missing);
  }

  lemma {:induction false} CutItemsWereRead(utf8: Utf8, b: Bytes, off: nat, count: nat)
    returns (items: seq<Item>, missing: Bytes)
    requires |b| < TWO_53 && off <= |b| && ReadItems(utf8, b, off, count).Ok?
    requires ReadItems(utf8, b, off, count).offset > |b|
    ensures |items| == count && AllWellFormed(items) && 0 < |missing| <= TrailingItems(items)
    ensures StopsShort(b, off, EncodeItems(items), missing) && count <= |b| - off
    ensures DenoteItems(utf8, CutItems(items, |missing|)) == ReadItems(utf8, b, off, count).value
    decreases Remaining(b, off), 4
  {
    ItemsStep(utf8, b, off, count);
    var first := ReadItem(utf8, b, off);
    if first.offset > |b| {
      assert count == 1;
      var item;
      item, missing := CutWasRead(utf8, b, off);
      items := [item];
      OneCutItem(utf8, item, missing);
    } else {
      var item := ReadWasEncoded(utf8, b, off);
      var rest;
      rest, missing := CutItemsWereRead(utf8, b, first.offset, count - 1);
      items := [item] + rest;
      MoreCutItems(utf8, item, rest, missing);
      JoinShort(b, off, first.offset, EncodeItems(rest), missing);
    }
  }

  lemma {:induction false} OneCutItem(utf8: Utf8, item: Item, missing: Bytes)
    requires WellFormed(item) && 0 < |missing| <= Trailing(item)
    ensures AllWellFormed([item]) && TrailingItems([item]) == Trailing(item) && EncodeItems([item]) == Encode(item)
    ensures DenoteItems(utf8, CutItems([item], |missing|)) == [Denote(utf8, CutShort(item, |missing|))]
  {
    assert [item][1..] == [];
    assert Encode(item) + [] == Encode(item);
    assert [CutShort(item, |missing|)][1..] == [];
  }

  lemma {:induction false} MoreCutItems(utf8: Utf8, item: Item, rest: seq<Item>, missing: Bytes)
    requires WellFormed(item) && AllWellFormed(rest) && rest != [] && 0 < |missing| <= TrailingItems(rest)
    ensures var items := [item] + rest;
            && AllWellFormed(items) && TrailingItems(items) == TrailingItems(rest)
            && EncodeItems(items) == Encode(item) + EncodeItems(rest)
            && DenoteItems(utf8, CutItems(items, |missing|))
               == [Denote(utf8, item)] + DenoteItems(utf8, CutItems(rest, |missing|))
  {
    var items, cut := [item] + rest, CutItems(rest, |missing|);
    assert items[1..] == rest;
    assert ([item] + cut)[1..] == cut;
  }

  /** Entries whose encoding stops short at the end of the buffer, and what is read of them. */
  predicate CutList(utf8: Utf8, b: Bytes, off: nat, entries: seq<MapEntry>, missing: Bytes, m: map<string, Val>,
                    result: map<string, Val>)
  {
    && EntriesWellFormed(entries) && 0 < |missing| <= TrailingEntries(entries)
    && StopsShort(b, off, EncodeEntries(entries), missing)
    && DenoteEntries(utf8, CutEntries(entries, |missing|), m) == result
  }

  lemma {:induction false} CutEntriesWereRead(utf8: Utf8, b: Bytes, off: nat, count: nat, m: map<string, Val>,
                                              result: map<string, Val>, end: nat)
    returns (entries: seq<MapEntry>, missing: Bytes)
    requires |b| < TWO_53 && off <= |b| < end && ReadEntries(utf8, b, off, count, m) == Ok(result, end)
    ensures |entries| == count <= |b| - off && CutList(utf8, b, off, entries, missing, m, result)
    decreases Remaining(b, off), 4
  {
    var key, next, value, after := EntryParts(utf8, b, off, count, m);
    if after > |b| {
      entries, missing := CutLastEntry(utf8, b, off, key, next, value, after, m, result);
    } else {
      var k, v := EntryThere(utf8, b, off, key, next, value, after);
      entries, missing := CutLaterEntry(utf8, b, off, count, k, next, v, after, m, SetKey(m, key, value), result, end);
    }
  }

  lemma {:induction false} CutLastEntry(utf8: Utf8, b: Bytes, off: nat, key: string, next: nat, value: Val, after: nat,
                                        m: map<string, Val>, result: map<string, Val>)
    returns (entries: seq<MapEntry>, missing: Bytes)
    requires |b| < TWO_53 && ReadItem(utf8, b, off) == Ok(Str(key), next) && off < next < |b| < after
    requires ReadItem(utf8, b, next) == Ok(value, after) && result == SetKey(m, key, value)
    ensures |entries| == 1 && CutList(utf8, b, off, entries, missing, m, result)
    decreases Remaining(b, off), 3
  {
    var k := ReadWasText(utf8, b, off);
    var item;
    item, missing := CutWasRead(utf8, b, next);
    entries := LastEntryWasRead(utf8, b, off, k, next, item, missing, m, result);
  }

  lemma {:induction false} CutLaterEntry(utf8: Utf8, b: Bytes, off: nat, count: nat, k: Item, next: nat, v: Item,
                                         after: nat, m: map<string, Val>, m1: map<string, Val>,
                                         result: map<string, Val>, end: nat)
    returns (entries: seq<MapEntry>, missing: Bytes)
    requires |b| < TWO_53 && off < next < after <= |b| < end && k.Text? && WellFormed(k) && b[off..next] == Encode(k)
    requires WellFormed(v) && b[next..after] == Encode(v) && m1 == SetKey(m, utf8(k.chars), Denote(utf8, v))
    requires count > 0 && ReadEntries(utf8, b, after, count - 1, m1) == Ok(result, end)
    ensures |entries| == count <= |b| - off && CutList(utf8, b, off, entries, missing, m, result)
    decreases Remaining(b, off), 3
  {
    var rest;
    rest, missing := CutEntriesWereRead(utf8, b, after, count - 1, m1, result, end);
    entries := EntryWasRead(utf8, b, off, k, next, v, after, rest, missing, m, m1, result);
  }

  lemma EntryThere(utf8: Utf8, b: Bytes, off: nat, key: string, next: nat, value: Val, after: nat)
    returns (k: Item, v: Item)
    requires |b| < TWO_53 && ReadItem(utf8, b, off) == Ok(Str(key), next) && off < next < after <= |b|
    requires ReadItem(utf8, b, next) == Ok(value, after)
    ensures WellFormed(k) && k.Text? && key == utf8(k.chars) && b[off..next] == Encode(k)
    ensures WellFormed(v) && value == Denote(utf8, v) && b[next..after] == Encode(v)
  {
    k := ReadWasText(utf8, b, off);
    v := ReadWasEncoded(utf8, b, next);
  }

  lemma ReadWasText(utf8: Utf8, b: Bytes, off: nat) returns (k: Item)
    requires |b| < TWO_53 && ReadItem(utf8, b, off).Ok? && ReadItem(utf8, b, off).offset <= |b|
    requires ReadItem(utf8, b, off).value.Str?
    ensures WellFormed(k) && k.Text? && ReadItem(utf8, b, off).value.s == utf8(k.chars)
    ensures b[off..ReadItem(utf8, b, off).offset] == Encode(k)
  {
    k := ReadWasEncoded(utf8, b, off);
    KeyWasText(utf8, k, ReadItem(utf8, b, off).value);
  }

  /** What a successful read of entries past the end began with. */
  lemma {:induction false} EntryParts(utf8: Utf8, b: Bytes, off: nat, count: nat, m: map<string, Val>)
    returns (key: string, next: nat, value: Val, after: nat)
    requires off <= |b| && ReadEntries(utf8, b, off, count, m).Ok? && ReadEntries(utf8, b, off, count, m).offset > |b|
    ensures count > 0 && ReadItem(utf8, b, off) == Ok(Str(key), next) && off < next < |b|
    ensures ReadItem(utf8, b, next) == Ok(value, after) && next < after
    ensures ReadEntries(utf8, b, off, count, m) == ReadEntries(utf8, b, after, count - 1, SetKey(m, key, value))
    ensures after > |b| ==> count == 1 && ReadEntries(utf8, b, off, count, m) == Ok(SetKey(m, key, value), after)
  {
    EntriesStep(utf8, b, off, count, m);
    key, next := ReadItem(utf8, b, off).value.s, ReadItem(utf8, b, off).offset;
    value, after := ReadItem(utf8, b, next).value, ReadItem(utf8, b, next).offset;
  }

  lemma {:induction false} KeyWasText(utf8: Utf8, k: Item, v: Val)
    requires Denote(utf8, k) == v && v.Str?
    ensures k.Text? && v.s == utf8(k.chars)
  {
  }

  lemma LastEntryWasRead(utf8: Utf8, b: Bytes, off: nat, k: Item, next: nat, item: Item, missing: Bytes,
                         m: map<string, Val>, result: map<string, Val>) returns (entries: seq<MapEntry>)
    requires k.Text? && WellFormed(k) && off <= next <= |b| && b[off..next] == Encode(k)
    requires CutAt(b, next, item, missing)
    requires result == SetKey(m, utf8(k.chars), Denote(utf8, CutShort(item, |missing|)))
    ensures |entries| == 1 && CutList(utf8, b, off, entries, missing, m, result)
  {
    var e := MapEntry(k.w, k.chars, item);
    entries := [e];
    OneCutEntry(utf8, e, missing, m);
    JoinShort(b, off, next, Encode(item), missing);
  }

  lemma EntryWasRead(utf8: Utf8, b: Bytes, off: nat, k: Item, next: nat, v: Item, after: nat, rest: seq<MapEntry>,
                     missing: Bytes, m: map<string, Val>, m1: map<string, Val>, result: map<string, Val>)
    returns (entries: seq<MapEntry>)
    requires k.Text? && WellFormed(k) && off <= next <= after <= |b| && b[off..next] == Encode(k)
    requires WellFormed(v) && b[next..after] == Encode(v) && CutList(utf8, b, after, rest, missing, m1, result)
    requires m1 == SetKey(m, utf8(k.chars), Denote(utf8, v))
    ensures |entries| == |rest| + 1 && CutList(utf8, b, off, entries, missing, m, result)
  {
    var e := MapEntry(k.w, k.chars, v);
    entries := [e] + rest;
    assert rest != [];
    MoreCutEntries(utf8, e, rest, missing, m);
    JoinShort(b, next, after, EncodeEntries(rest), missing);
    JoinShort(b, off, next, Encode(v) + EncodeEntries(rest), missing);
  }

  lemma {:induction false} OneCutEntry(utf8: Utf8, e: MapEntry, missing: Bytes, m: map<string, Val>)
    requires Fits(e.kw, |e.key|) && WellFormed(e.value) && 0 < |missing| <= Trailing(e.value)
    ensures EntriesWellFormed([e]) && TrailingEntries([e]) == Trailing(e.value)
    ensures EncodeEntries([e]) == Head(3, e.kw, |e.key|) + e.key + Encode(e.value)
    ensures DenoteEntries(utf8, CutEntries([e], |missing|), m)
         == SetKey(m, utf8(e.key), Denote(utf8, CutShort(e.value, |missing|)))
  {
    var cut := e.(value := CutShort(e.value, |missing|));
    assert [e][1..] == [] && [cut][1..] == [];
    assert Encode(e.value) + [] == Encode(e.value);
    assert CutEntries([e], |missing|) == [cut];
  }

  lemma {:induction false} MoreCutEntries(utf8: Utf8, e: MapEntry, rest: seq<MapEntry>, missing: Bytes,
                                          m: map<string, Val>)
    requires Fits(e.kw, |e.key|) && WellFormed(e.value) && EntriesWellFormed(rest) && rest != []
    requires 0 < |missing| <= TrailingEntries(rest)
    ensures var entries := [e] + rest;
            && EntriesWellFormed(entries) && TrailingEntries(entries) == TrailingEntries(rest)
            && EncodeEntries(entries) == Head(3, e.kw, |e.key|) + e.key + (Encode(e.value) + EncodeEntries(rest))
            && DenoteEntries(utf8, CutEntries(entries, |missing|), m)
               == DenoteEntries(utf8, CutEntries(rest, |missing|), SetKey(m, utf8(e.key), Denote(utf8, e.value)))
  {
    var entries, cut := [e] + rest, CutEntries(rest, |missing|);
    assert entries[1..] == rest;
    DenoteFirst(utf8, e, cut, m);
  }

  // ---- main result ---------------------------------------------------------------

  /**
   * The reader runs past the end of its input exactly on the encodings that stop
   * short inside their last text: those bytes are missing, and the value is that
   * of the item with its last text cut short by them.
   */
  lemma {:induction false} TruncatedIff(utf8: Utf8, b: Bytes, off: nat, v: Val, end: nat)
    requires |b| < TWO_53 && off <= |b| < end
    ensures ReadItem(utf8, b, off) == Ok(v, end) <==>
            exists item, missing ::
              && CutAt(b, off, item, missing) && v == Denote(utf8, CutShort(item, |missing|))
              && Trailing(item) <= |Encode(item)|
              && end == Past(TextStart(off, |Encode(item)|, Trailing(item)), Trailing(item))
  {
    if ReadItem(utf8, b, off) == Ok(v, end) {
      var item, missing := CutWasRead(utf8, b, off);
      ReadsCutItem(utf8, b, off, item, missing);
    }
    if item, missing :|
      && CutAt(b, off, item, missing) && v == Denote(utf8, CutShort(item, |missing|))
      && Trailing(item) <= |Encode(item)|
      && end == Past(TextStart(off, |Encode(item)|, Trailing(item)), Trailing(item))
    {
      ReadsCutItem(utf8, b, off, item, missing);
    }
  }

  /** A text of less than 2^53 bytes is taken to end where it would have ended. */
  lemma {:induction false} ClaimedEnd(off: nat, item: Item)
    requires WellFormed(item) && Trailing(item) < TWO_53
    ensures Trailing(item) <= |Encode(item)|
    ensures Past(TextStart(off, |Encode(item)|, Trailing(item)), Trailing(item)) == off + |Encode(item)|
  {
    TrailingFits(item);
    SmallIsExact(Trailing(item));
  }
}
