/**
 * The R307 packet codec and byte-stream driver of iot/src/sensor.ts: building
 * packets, resynchronising on the header, draining a buffer fed in arbitrary
 * chunks, and moving templates in data packets.
 */
module R307 {
  import opened Octets
  import opened Sequences

  const PID_DATA: Byte := 0x02
  const PID_END_DATA: Byte := 0x08

  datatype Packet = Packet(address: nat, pid: Byte, payload: Bytes)

  datatype ParseResult = NeedMore | Parsed(packet: Packet, nextOffset: nat)

  datatype Built = Ok(bytes: Bytes) | RangeError

  // ---- big-endian fields ---------------------------------------------------

  function BE16(n: nat): (r: Bytes)
    requires n < 0x1_0000
    ensures |r| == 2
  {
    [n / 256, n % 256]
  }

  function BE32(n: nat): (r: Bytes)
    requires n < 0x1_0000_0000
    ensures |r| == 4
  {
    BE16(n / 0x1_0000) + BE16(n % 0x1_0000)
  }

  function U16(buf: Bytes, i: nat): (n: nat)
    requires i + 2 <= |buf|
    ensures n < 0x1_0000
  {
    (buf[i] as int) * 256 + buf[i + 1] as int
  }

  function U32(buf: Bytes, i: nat): (n: nat)
    requires i + 4 <= |buf|
    ensures n < 0x1_0000_0000
  {
    U16(buf, i) * 0x1_0000 + U16(buf, i + 2)
  }

  function Sum(payload: Bytes): (n: nat) {
    if payload == [] then 0 else Sum(payload[..|payload| - 1]) + payload[|payload| - 1]
  }

  // ---- building ------------------------------------------------------------

  /** Low 16 bits of packet id, both length bytes and all payload bytes. */
  function Checksum(pid: Byte, payload: Bytes): (n: nat)
    requires |payload| + 2 < 0x1_0000
    ensures n < 0x1_0000
  {
    (pid + BE16(|payload| + 2)[0] + BE16(|payload| + 2)[1] + Sum(payload)) % 0x1_0000
  }

  predicate Sendable(p: Packet) { |p.payload| + 2 < 0x1_0000 && p.address < 0x1_0000_0000 }

  /** header | address | packet id | length | payload | checksum, for an address already reduced to 32 bits. */
  function PacketBytes(p: Packet): (r: Bytes)
    requires Sendable(p)
    ensures |r| == 11 + |p.payload|
  {
    [0xEF, 0x01] + BE32(p.address) + [p.pid] + BE16(|p.payload| + 2) + p.payload + BE16(Checksum(p.pid, p.payload))
  }

  /** A number of any width, high byte first. */
  function BigEndian(bytes: Bytes): (n: nat) {
    if bytes == [] then 0 else 256 * BigEndian(bytes[..|bytes| - 1]) + (bytes[|bytes| - 1] as int)
  }

  lemma BigEndianTwo(buf: Bytes, i: nat)
    requires i + 2 <= |buf|
    ensures BigEndian(buf[i..i + 2]) == U16(buf, i)
  {
    var b := buf[i..i + 2];
    assert b[..1][..0] == [];
    assert BigEndian(b[..1]) == b[0] as int;
  }

  lemma BigEndianFour(buf: Bytes, i: nat)
    requires i + 4 <= |buf|
    ensures BigEndian(buf[i..i + 4]) == U32(buf, i)
  {
    var b := buf[i..i + 4];
    assert b[..3][..2] == b[..2] && b[..2] == buf[i..i + 2];
    BigEndianTwo(buf, i);
    assert BigEndian(b[..3]) == 256 * U16(buf, i) + (b[2] as int);
  }

  function Total(bytes: Bytes): (n: nat) { if bytes == [] then 0 else (bytes[0] as int) + Total(bytes[1..]) }

  /**
   * The bytes of a packet, one by one: header, address, packet id, the length of
   * payload and checksum, the payload, and as checksum the sum of all bytes from
   * the packet id on, modulo 65536; numbers with the high byte first.
   */
  predicate IsPacket(b: Bytes, address: nat, pid: Byte, payload: Bytes) {
    var n := |payload|;
    && |b| == 11 + n
    && b[0] == 0xEF && b[1] == 0x01
    && BigEndian(b[2..6]) == address
    && b[6] == pid
    && BigEndian(b[7..9]) == n + 2
    && b[9..9 + n] == payload
    && BigEndian(b[9 + n..11 + n]) == Total(b[6..9 + n]) % 65536
  }

  lemma {:induction false} TotalOfTwo(a: Bytes, b: Bytes)
    ensures Total(a + b) == Total(a) + Total(b)
  {
    if a == [] {
      assert a + b == b;
    } else {
      assert (a + b)[1..] == a[1..] + b;
      TotalOfTwo(a[1..], b);
    }
  }

  lemma {:induction false} SumIsTotal(bytes: Bytes)
    ensures Sum(bytes) == Total(bytes)
    decreases |bytes|
  {
    if bytes != [] {
      var front, last := bytes[..|bytes| - 1], bytes[|bytes| - 1..];
      assert bytes == front + last && last == [bytes[|bytes| - 1]] && last[1..] == [];
      SumIsTotal(front);
      TotalOfTwo(front, last);
    }
  }

  lemma PacketFields(p: Packet)
    requires Sendable(p)
    ensures var b, n := PacketBytes(p), |p.payload|;
            && b[0] == 0xEF && b[1] == 0x01
            && U32(b, 2) == p.address && b[6] == p.pid && U16(b, 7) == n + 2
            && b[9..9 + n] == p.payload && U16(b, 9 + n) == Checksum(p.pid, p.payload)
            && b[6..9 + n] == [p.pid, b[7], b[8]] + p.payload
            && b[7] == BE16(n + 2)[0] && b[8] == BE16(n + 2)[1]
  {
  }

  lemma PacketBytesAre(p: Packet)
    requires Sendable(p)
    ensures IsPacket(PacketBytes(p), p.address, p.pid, p.payload)
  {
    var b, n := PacketBytes(p), |p.payload|;
    PacketFields(p);
    BigEndianFour(b, 2);
    BigEndianTwo(b, 7);
    BigEndianTwo(b, 9 + n);
    TotalOfTwo([p.pid, b[7], b[8]], p.payload);
    SumIsTotal(p.payload);
    TotalOfThree(p.pid, b[7], b[8]);
  }

  lemma TotalOfThree(a: Byte, b: Byte, c: Byte)
    ensures Total([a, b, c]) == (a as int) + (b as int) + (c as int)
  {
    var s: Bytes := [a, b, c];
    assert s[1..][1..][1..] == [];
    assert Total(s[1..][1..]) == c as int;
    assert Total(s[1..]) == (b as int) + (c as int);
  }

  /** The loop over the payload bytes. */
  method AddUp(start: nat, payload: Bytes) returns (checksum: nat)
    ensures checksum == start + Sum(payload)
  {
    checksum := start;
    for i := 0 to |payload|
      invariant checksum == start + Sum(payload[..i])
    {
      assert payload[..i + 1][..i] == payload[..i];
      checksum := checksum + payload[i];
    }
    assert payload[..|payload|] == payload;
  }

  method BuildPacket(pid: Byte, payload: Bytes, address: int) returns (r: Built)
    ensures r.Ok? <==> |payload| <= 65533
    ensures r.Ok? ==> IsPacket(r.bytes, address % 0x1_0000_0000, pid, payload)
    ensures r == if |payload| + 2 < 0x1_0000 then Ok(PacketBytes(Packet(address % 0x1_0000_0000, pid, payload)))
                 else RangeError
  {
    var length := |payload| + 2;
    if length >= 0x1_0000 {
      return RangeError;
    }
    PacketBytesAre(Packet(address % 0x1_0000_0000, pid, payload));
    var lenBuf := BE16(length);
    var checksum := AddUp(pid + lenBuf[0] + lenBuf[1], payload);
    var ckBuf := BE16(checksum % 0x1_0000);
    r := Ok([0xEF, 0x01] + BE32(address % 0x1_0000_0000) + [pid] + lenBuf + payload + ckBuf);
  }

  // ---- parsing -------------------------------------------------------------

  predicate IsHeader(buf: Bytes, i: nat) { i + 1 < |buf| && buf[i] == 0xEF && buf[i + 1] == 0x01 }

  /** Where the scan for the header stops: at the first one, or short of the last byte. */
  function FindHeader(buf: Bytes, offset: nat): (r: nat)
    decreases |buf| - offset
  {
    if offset + 1 < |buf| && !IsHeader(buf, offset) then FindHeader(buf, offset + 1) else offset
  }

  function ParseAt(buf: Bytes, offset: nat): (r: ParseResult)
    ensures r.Parsed? ==> offset + 9 <= r.nextOffset <= |buf|
  {
    if offset + 9 > |buf| then NeedMore
    else
      var length := U16(buf, offset + 7);
      if offset + 9 + length > |buf| then NeedMore
      else
        var payload := if length >= 2 then buf[offset + 9..offset + 9 + length - 2] else [];
        Parsed(Packet(U32(buf, offset + 2), buf[offset + 6], payload), offset + 9 + length)
  }

  function Parse(buf: Bytes, offset: nat): (r: ParseResult)
    ensures r.Parsed? ==> offset + 9 <= r.nextOffset <= |buf|
  {
    FindHeaderAdvances(buf, offset);
    ParseAt(buf, FindHeader(buf, offset))
  }

  lemma {:induction false} FindHeaderAdvances(buf: Bytes, offset: nat)
    ensures FindHeader(buf, offset) >= offset
    decreases |buf| - offset
  {
    if offset + 1 < |buf| && !IsHeader(buf, offset) {
      FindHeaderAdvances(buf, offset + 1);
    }
  }

  /** The first place from `start` on where the two header bytes stand. */
  predicate FirstHeader(buf: Bytes, start: nat, o: nat) {
    && start <= o && o + 1 < |buf| && buf[o] == 0xEF && buf[o + 1] == 0x01
    && forall i :: start <= i < o ==> !(buf[i] == 0xEF && buf[i + 1] == 0x01)
  }

  /** A packet with that header is there as a whole: nine bytes, and as many as its length field says. */
  predicate Whole(buf: Bytes, o: nat) { o + 9 <= |buf| && o + 9 + BigEndian(buf[o + 7..o + 9]) <= |buf| }

  /** What is to be read: the packet behind the first header if all of it is there, and nothing otherwise. */
  ghost predicate ReadsFrom(buf: Bytes, start: nat, r: ParseResult) {
    match r
    case NeedMore => forall o :: FirstHeader(buf, start, o) ==> !Whole(buf, o)
    case Parsed(packet, next) =>
      exists o: nat :: && FirstHeader(buf, start, o) && Whole(buf, o)
                  && next == o + 9 + BigEndian(buf[o + 7..o + 9])
                  && packet.address == BigEndian(buf[o + 2..o + 6])
                  && packet.pid == buf[o + 6]
                  && packet.payload == if next < o + 11 then [] else buf[o + 9..next - 2]
  }

  lemma {:induction false} FindHeaderIs(buf: Bytes, start: nat)
    ensures var o := FindHeader(buf, start);
            (o + 1 < |buf| ==> FirstHeader(buf, start, o))
            && forall i :: start <= i < o && i + 1 < |buf| ==> !(buf[i] == 0xEF && buf[i + 1] == 0x01)
    decreases |buf| - start
  {
    if start + 1 < |buf| && !IsHeader(buf, start) {
      FindHeaderIs(buf, start + 1);
    }
  }

  lemma ParseReads(buf: Bytes, start: nat)
    ensures ReadsFrom(buf, start, Parse(buf, start))
  {
    var found := FindHeader(buf, start);
    FindHeaderIs(buf, start);
    forall o | FirstHeader(buf, start, o) ensures o == found {
    }
    ParseAtReads(buf, found);
  }

  lemma ParseAtReads(buf: Bytes, o: nat)
    ensures ParseAt(buf, o).Parsed? <==> Whole(buf, o)
    ensures Whole(buf, o) ==>
              var packet, next := ParseAt(buf, o).packet, ParseAt(buf, o).nextOffset;
              && next == o + 9 + BigEndian(buf[o + 7..o + 9])
              && packet.address == BigEndian(buf[o + 2..o + 6])
              && packet.pid == buf[o + 6]
              && packet.payload == if next < o + 11 then [] else buf[o + 9..next - 2]
  {
    if o + 9 <= |buf| {
      BigEndianTwo(buf, o + 7);
      BigEndianFour(buf, o + 2);
    }
  }

  method TryParsePacket(buf: Bytes, start: nat) returns (r: ParseResult)
    ensures r == Parse(buf, start) && ReadsFrom(buf, start, r)
  {
    ParseReads(buf, start);
    var offset := start;
    while offset + 1 < |buf| && U16(buf, offset) != 0xEF01
      invariant FindHeader(buf, offset) == FindHeader(buf, start)
    {
      offset := offset + 1;
    }
    r := ParseAt(buf, offset);
  }

  /** More bytes never change a packet that can already be parsed. */
  lemma {:induction false} FindHeaderStable(buf: Bytes, more: Bytes, offset: nat)
    requires FindHeader(buf, offset) + 9 <= |buf|
    ensures FindHeader(buf + more, offset) == FindHeader(buf, offset)
    decreases |buf| - offset
  {
    if offset + 1 < |buf| {
      assert IsHeader(buf + more, offset) <==> IsHeader(buf, offset);
      if !IsHeader(buf, offset) {
        FindHeaderStable(buf, more, offset + 1);
      }
    }
  }

  lemma FieldsStable(buf: Bytes, more: Bytes, o: nat)
    requires o + 9 <= |buf|
    ensures U16(buf + more, o + 7) == U16(buf, o + 7) && U32(buf + more, o + 2) == U32(buf, o + 2)
    ensures (buf + more)[o + 6] == buf[o + 6]
  {
  }

  lemma ParseAtStable(buf: Bytes, more: Bytes, o: nat)
    requires ParseAt(buf, o).Parsed?
    ensures ParseAt(buf + more, o) == ParseAt(buf, o)
  {
    FieldsStable(buf, more, o);
    var length := U16(buf, o + 7);
    if length >= 2 {
      assert (buf + more)[o + 9..o + 9 + length - 2] == buf[o + 9..o + 9 + length - 2];
    }
  }

  lemma ParseStable(buf: Bytes, more: Bytes)
    requires Parse(buf, 0).Parsed?
    ensures Parse(buf + more, 0) == Parse(buf, 0)
  {
    FindHeaderStable(buf, more, 0);
    ParseAtStable(buf, more, FindHeader(buf, 0));
  }

  // ---- draining, for any incremental parser ----------------------------------

  type Parser = Bytes -> ParseResult

  ghost predicate Consumes(parse: Parser) {
    forall buf {:trigger parse(buf)} :: parse(buf).Parsed? ==> 0 < parse(buf).nextOffset <= |buf|
  }

  ghost predicate Stable(parse: Parser) {
    forall buf, more {:trigger parse(buf + more)} :: parse(buf).Parsed? ==> parse(buf + more) == parse(buf)
  }

  datatype Drained = Drained(packets: seq<Packet>, rest: Bytes)

  /** Parsing from the front of a buffer until no complete packet is left. */
  function DrainBy(parse: Parser, buf: Bytes): (r: Drained)
    requires Consumes(parse)
    decreases |buf|
  {
    var first := parse(buf);
    if first.NeedMore? then Drained([], buf)
    else
      var more := DrainBy(parse, buf[first.nextOffset..]);
      Drained([first.packet] + more.packets, more.rest)
  }

  /** Packets drained from a prefix come first; its undrained rest is continued by what follows. */
  lemma {:induction false} DrainAppend(parse: Parser, a: Bytes, b: Bytes)
    requires Consumes(parse) && Stable(parse)
    ensures DrainBy(parse, a + b).packets
         == DrainBy(parse, a).packets + DrainBy(parse, DrainBy(parse, a).rest + b).packets
    ensures DrainBy(parse, a + b).rest == DrainBy(parse, DrainBy(parse, a).rest + b).rest
    decreases |a|
  {
    var first := parse(a);
    if first.Parsed? {
      assert parse(a + b) == first;
      assert (a + b)[first.nextOffset..] == a[first.nextOffset..] + b;
      DrainAppend(parse, a[first.nextOffset..], b);
      var inner := DrainBy(parse, a[first.nextOffset..]);
      assert DrainBy(parse, a) == Drained([first.packet] + inner.packets, inner.rest);
      Associative([first.packet], inner.packets, DrainBy(parse, inner.rest + b).packets);
    }
  }

  lemma {:induction false} DrainRest(parse: Parser, buf: Bytes)
    requires Consumes(parse)
    ensures DrainBy(parse, DrainBy(parse, buf).rest) == Drained([], DrainBy(parse, buf).rest)
    decreases |buf|
  {
    if parse(buf).Parsed? {
      DrainRest(parse, buf[parse(buf).nextOffset..]);
    }
  }

  /** A buffer fed one chunk after another, drained after each. */
  function FedBy(parse: Parser, buf: Bytes, chunks: seq<Bytes>): (r: Drained)
    requires Consumes(parse)
    decreases |chunks|
  {
    if chunks == [] then Drained([], buf)
    else
      var first := DrainBy(parse, buf + chunks[0]);
      var more := FedBy(parse, first.rest, chunks[1..]);
      Drained(first.packets + more.packets, more.rest)
  }

  function Concat(chunks: seq<Bytes>): (r: Bytes) {
    if chunks == [] then [] else chunks[0] + Concat(chunks[1..])
  }

  lemma {:induction false} FedIsDrain(parse: Parser, buf: Bytes, chunks: seq<Bytes>)
    requires Consumes(parse) && Stable(parse) && DrainBy(parse, buf) == Drained([], buf)
    ensures FedBy(parse, buf, chunks) == DrainBy(parse, buf + Concat(chunks))
    decreases |chunks|
  {
    if chunks == [] {
      assert buf + [] == buf;
    } else {
      var head, tail := buf + chunks[0], Concat(chunks[1..]);
      DrainRest(parse, head);
      FedIsDrain(parse, DrainBy(parse, head).rest, chunks[1..]);
      DrainAppend(parse, head, tail);
      assert buf + Concat(chunks) == head + tail;
    }
  }

  // ---- the R307 parser is one ------------------------------------------------

  const PARSER: Parser := (buf: Bytes) => Parse(buf, 0)

  lemma ParserIsIncremental()
    ensures Consumes(PARSER) && Stable(PARSER)
  {
    forall buf: Bytes, more: Bytes | Parse(buf, 0).Parsed? ensures Parse(buf + more, 0) == Parse(buf, 0) {
      ParseStable(buf, more);
    }
  }

  /** All complete packets of a byte stream, and what is left of it. */
  function Drain(buf: Bytes): (r: Drained) {
    ParserIsIncremental();
    DrainBy(PARSER, buf)
  }

  /** The driver fed one chunk after another. */
  function Fed(buf: Bytes, chunks: seq<Bytes>): (r: Drained) {
    ParserIsIncremental();
    FedBy(PARSER, buf, chunks)
  }

  lemma DrainFirst(buf: Bytes, packet: Packet, next: nat)
    requires Parse(buf, 0) == Parsed(packet, next)
    ensures Drain(buf) == Drained([packet] + Drain(buf[next..]).packets, Drain(buf[next..]).rest)
  {
    assert PARSER(buf) == Parsed(packet, next);
  }

  lemma DrainNone(buf: Bytes)
    requires Parse(buf, 0).NeedMore?
    ensures Drain(buf) == Drained([], buf)
  {
    assert PARSER(buf).NeedMore?;
  }

  /** For every stream and every way of cutting it into chunks, the packets are those of one-shot parsing. */
  lemma {:induction false} ChunkingIndependent(chunks: seq<Bytes>)
    ensures Fed([], chunks) == Drain(Concat(chunks))
  {
    ParserIsIncremental();
    DrainNone([]);
    FedIsDrain(PARSER, [], chunks);
    assert [] + Concat(chunks) == Concat(chunks);
  }

  // ---- streams of built packets --------------------------------------------

  predicate NoHeader(g: Bytes) { forall i :: 0 <= i < |g| ==> !IsHeader(g, i) }

  /** A packet and the line noise before it. */
  datatype Segment = Segment(noise: Bytes, packet: Packet)

  function Stream(segments: seq<Segment>, tail: Bytes): (r: Bytes)
    requires forall i :: 0 <= i < |segments| ==> Sendable(segments[i].packet)
  {
    if segments == [] then tail
    else segments[0].noise + PacketBytes(segments[0].packet) + Stream(segments[1..], tail)
  }

  function PacketsOf(segments: seq<Segment>): (r: seq<Packet>) {
    if segments == [] then [] else [segments[0].packet] + PacketsOf(segments[1..])
  }

  lemma {:induction false} NoiseSkipped(g: Bytes, rest: Bytes, offset: nat)
    requires NoHeader(g) && offset <= |g| && |rest| >= 2 && rest[0] == 0xEF && rest[1] == 0x01
    ensures FindHeader(g + rest, offset) == |g|
    decreases |g| - offset
  {
    if offset < |g| {
      assert offset + 1 < |g| ==> !IsHeader(g, offset);
      NoiseSkipped(g, rest, offset + 1);
    }
  }

  lemma {:induction false} NoiseOnly(g: Bytes, offset: nat)
    requires NoHeader(g) && offset <= |g|
    ensures FindHeader(g, offset) + 1 >= |g|
    decreases |g| - offset
  {
    if offset + 1 < |g| {
      assert !IsHeader(g, offset);
      NoiseOnly(g, offset + 1);
    }
  }

  /** A built packet at a known position parses back to itself, whatever follows. */
  lemma BuiltParses(g: Bytes, p: Packet, after: Bytes)
    requires Sendable(p)
    ensures ParseAt(g + PacketBytes(p) + after, |g|) == Parsed(p, |g| + |PacketBytes(p)|)
  {
    var buf, bytes := g + PacketBytes(p) + after, PacketBytes(p);
    assert buf[|g|..|g| + |bytes|] == bytes;
    BuiltFields(p);
    FieldAt(buf, |g|, bytes, |p.payload|);
  }

  lemma BuiltFields(p: Packet)
    requires Sendable(p)
    ensures var bytes := PacketBytes(p);
            && bytes[2..6] == BE32(p.address) && bytes[6] == p.pid && bytes[7..9] == BE16(|p.payload| + 2)
            && bytes[9..9 + |p.payload|] == p.payload
  {
  }

  lemma SliceOfSlice(s: Bytes, a: nat, b: nat, c: nat, d: nat)
    requires a <= b <= |s| && c <= d <= b - a
    ensures s[a..b][c..d] == s[a + c..a + d]
  {
    var t, u, v := s[a..b], s[a..b][c..d], s[a + c..a + d];
    forall i | 0 <= i < d - c ensures u[i] == v[i] {
      assert u[i] == t[c + i];
    }
  }

  lemma FieldAt(buf: Bytes, o: nat, bytes: Bytes, n: nat)
    requires |bytes| == 11 + n && o + |bytes| <= |buf| && buf[o..o + |bytes|] == bytes
    ensures U32(buf, o + 2) == U32(bytes[2..6], 0) && U16(buf, o + 7) == U16(bytes[7..9], 0) && buf[o + 6] == bytes[6]
    ensures buf[o + 9..o + 9 + n] == bytes[9..9 + n]
  {
    assert buf[o + 2] == bytes[2] && buf[o + 3] == bytes[3] && buf[o + 4] == bytes[4] && buf[o + 5] == bytes[5];
    assert buf[o + 7] == bytes[7] && buf[o + 8] == bytes[8] && buf[o + 6] == bytes[6];
    SliceOfSlice(buf, o, o + |bytes|, 9, 9 + n);
  }

  /**
   * Built packets with noise before each of them and after the last, none of it
   * containing the header pair, parse to exactly those packets.
   */
  lemma {:induction false} BuiltStreamParses(segments: seq<Segment>, tail: Bytes)
    requires forall i :: 0 <= i < |segments| ==> Sendable(segments[i].packet) && NoHeader(segments[i].noise)
    requires NoHeader(tail)
    ensures Drain(Stream(segments, tail)) == Drained(PacketsOf(segments), tail)
    decreases |segments|
  {
    if segments == [] {
      NoiseOnly(tail, 0);
      DrainNone(tail);
    } else {
      var s := segments[0];
      var after := Stream(segments[1..], tail);
      var buf := s.noise + PacketBytes(s.packet) + after;
      assert buf == s.noise + (PacketBytes(s.packet) + after);
      NoiseSkipped(s.noise, PacketBytes(s.packet) + after, 0);
      BuiltParses(s.noise, s.packet, after);
      DrainFirst(buf, s.packet, |s.noise| + |PacketBytes(s.packet)|);
      assert buf[|s.noise| + |PacketBytes(s.packet)|..] == after;
      BuiltStreamParses(segments[1..], tail);
    }
  }

  // ---- the driver ----------------------------------------------------------

  /** `tryParsePacket(this.buffer, 0)`, as the drain loop uses it. */
  method FirstPacket(buf: Bytes) returns (r: ParseResult)
    ensures r.NeedMore? ==> Drain(buf) == Drained([], buf)
    ensures r.Parsed? ==>
              && 0 < r.nextOffset <= |buf|
              && Drain(buf) == Drained([r.packet] + Drain(buf[r.nextOffset..]).packets, Drain(buf[r.nextOffset..]).rest)
  {
    r := TryParsePacket(buf, 0);
    if r.Parsed? {
      DrainFirst(buf, r.packet, r.nextOffset);
    } else {
      DrainNone(buf);
    }
  }

  class R307Sensor {
    var buffer: Bytes
    /** Pending readPacket calls, oldest first, and what has been delivered to earlier ones. */
    var waiters: seq<nat>
    var delivered: seq<(nat, Packet)>
    ghost var emitted: seq<Packet>

    constructor ()
      ensures buffer == [] && waiters == [] && delivered == [] && emitted == []
    {
      buffer, waiters, delivered, emitted := [], [], [], [];
    }

    /** Packets `out` have been handed out since the fields had the given values. */
    ghost predicate HandedOut(start: seq<nat>, before: seq<(nat, Packet)>, earlier: seq<Packet>, out: seq<Packet>)
      reads this`waiters, this`delivered, this`emitted
    {
      && emitted == earlier + out
      && delivered == before + Handed(start, out)
      && waiters == Left(start, out)
    }

    /** The oldest waiter, if any, is resolved with the packet. */
    method Deliver(packet: Packet, ghost start: seq<nat>, ghost before: seq<(nat, Packet)>, ghost earlier: seq<Packet>,
                   ghost out: seq<Packet>)
      requires HandedOut(start, before, earlier, out)
      modifies this`waiters, this`delivered, this`emitted
      ensures HandedOut(start, before, earlier, out + [packet])
    {
      HandOne(start, out, packet);
      if waiters != [] {
        delivered := delivered + [(waiters[0], packet)];
        waiters := waiters[1..];
      }
      emitted := emitted + [packet];
    }

    /** `onData`: packets go to the oldest waiters; a packet nobody waits for is dropped. */
    method OnData(chunk: Bytes)
      modifies this
      ensures buffer == Drain(old(buffer) + chunk).rest
      ensures HandedOut(old(waiters), old(delivered), old(emitted), Drain(old(buffer) + chunk).packets)
    {
      buffer := buffer + chunk;
      ghost var whole := Drain(buffer);
      ghost var out: seq<Packet> := [];
      while true
        invariant whole.packets == out + Drain(buffer).packets && whole.rest == Drain(buffer).rest
        invariant HandedOut(old(waiters), old(delivered), old(emitted), out)
        decreases |buffer|
      {
        var result := FirstPacket(buffer);
        if result.NeedMore? {
          break;
        }
        AppendOne(whole.packets, out, result.packet, Drain(buffer).packets, Drain(buffer[result.nextOffset..]).packets);
        buffer := buffer[result.nextOffset..];
        Deliver(result.packet, old(waiters), old(delivered), old(emitted), out);
        out := out + [result.packet];
      }
      assert whole.packets == out;
    }
  }

  lemma AppendOne(whole: seq<Packet>, out: seq<Packet>, p: Packet, left: seq<Packet>, rest: seq<Packet>)
    requires whole == out + left && left == [p] + rest
    ensures whole == out + [p] + rest
  {
  }

  /** Which waiter gets which packet: first come, first served. */
  function Handed(waiters: seq<nat>, packets: seq<Packet>): (r: seq<(nat, Packet)>) {
    if waiters == [] || packets == [] then [] else [(waiters[0], packets[0])] + Handed(waiters[1..], packets[1..])
  }

  function Left(waiters: seq<nat>, packets: seq<Packet>): (r: seq<nat>) {
    if |packets| <= |waiters| then waiters[|packets|..] else []
  }

  lemma {:induction false} HandOne(waiters: seq<nat>, packets: seq<Packet>, p: Packet)
    ensures Handed(waiters, packets + [p])
         == Handed(waiters, packets) + (if |packets| < |waiters| then [(waiters[|packets|], p)] else [])
    decreases |packets|
  {
    if waiters != [] && packets != [] {
      HandOne(waiters[1..], packets[1..], p);
      assert (packets + [p])[1..] == packets[1..] + [p];
    }
  }

  // ---- template transfer ---------------------------------------------------

  /** The data packets that carry `data` in pieces of `size`, the last one flagged. */
  function DataPackets(address: nat, data: Bytes, size: nat): (r: seq<Packet>)
    requires size > 0
    decreases |data|
  {
    if |data| <= size then [Packet(address, PID_END_DATA, data)]
    else [Packet(address, PID_DATA, data[..size])] + DataPackets(address, data[size..], size)
  }

  predicate AllSendable(packets: seq<Packet>) { forall i :: 0 <= i < |packets| ==> Sendable(packets[i]) }

  function Wire(packets: seq<Packet>): (r: Bytes)
    requires AllSendable(packets)
  {
    if packets == [] then [] else PacketBytes(packets[0]) + Wire(packets[1..])
  }

  lemma {:induction false} DataPacketsSendable(address: nat, data: Bytes, size: nat)
    requires 0 < size && size + 2 < 0x1_0000 && address < 0x1_0000_0000
    ensures AllSendable(DataPackets(address, data, size))
    decreases |data|
  {
    if |data| > size {
      DataPacketsSendable(address, data[size..], size);
    }
  }

  datatype Download = Sent(bytes: Bytes) | Rejected

  predicate Divides(size: nat, n: nat) { size > 0 && n % size == 0 }

  /** `count` pieces of `size` bytes. */
  function Pieces(count: nat, size: nat): (n: nat) {
    if count == 0 then 0 else size + Pieces(count - 1, size)
  }

  lemma {:induction false} PiecesIsProduct(count: nat, size: nat)
    ensures Pieces(count, size) == count * size
  {
    if count > 0 {
      PiecesIsProduct(count - 1, size);
    }
  }

  lemma {:induction false} WholePieces(n: nat, size: nat)
    requires Divides(size, n)
    ensures n == Pieces(n / size, size)
  {
    PiecesIsProduct(n / size, size);
  }

  /** The length checks and the writing loop of `downloadCharacteristic`. */
  method WriteTemplate(address: nat, data: Bytes, packetSize: nat) returns (r: Download)
    requires address < 0x1_0000_0000
    ensures r.Sent? <==> data != [] && Divides(packetSize, |data|) && packetSize + 2 < 0x1_0000
    ensures r.Sent? ==> AllSendable(DataPackets(address, data, packetSize))
    ensures r.Sent? ==> r.bytes == Wire(DataPackets(address, data, packetSize))
  {
    if data == [] || packetSize == 0 || |data| % packetSize != 0 || packetSize + 2 >= 0x1_0000 {
      return Rejected;
    }
    WholePieces(|data|, packetSize);
    DataPacketsSendable(address, data, packetSize);
    var sent := WriteChunks(address, data, packetSize, |data| / packetSize);
    return Sent(sent);
  }

  /** What is still to be written: the packets of what is left, until nothing is. */
  function ToWrite(address: nat, left: Bytes, size: nat): (r: Bytes)
    requires 0 < size && size + 2 < 0x1_0000 && address < 0x1_0000_0000
  {
    DataPacketsSendable(address, left, size);
    if left == [] then [] else Wire(DataPackets(address, left, size))
  }

  lemma PiecesLeft(count: nat, size: nat)
    requires count > 0 && size > 0
    ensures Pieces(count, size) == size + Pieces(count - 1, size)
    ensures Pieces(count, size) == size <==> count == 1
  {
  }

  /** Where the loop stands: so many pieces are left from here on, and with them all is written. */
  predicate Underway(address: nat, data: Bytes, size: nat, sent: Bytes, at: nat, count: nat)
    requires 0 < size && size + 2 < 0x1_0000 && address < 0x1_0000_0000
  {
    && at + Pieces(count, size) == |data|
    && ToWrite(address, data, size) == sent + ToWrite(address, data[at..], size)
  }

  lemma OnePieceFurther(address: nat, data: Bytes, size: nat, sent: Bytes, bytes: Bytes, at: nat, count: nat)
    requires 0 < size && size + 2 < 0x1_0000 && address < 0x1_0000_0000 && count > 0
    requires Underway(address, data, size, sent, at, count) && at + size <= |data|
    requires ToWrite(address, data[at..], size) == bytes + ToWrite(address, data[at + size..], size)
    ensures Underway(address, data, size, sent + bytes, at + size, count - 1)
  {
    PiecesLeft(count, size);
    Associative(sent, bytes, ToWrite(address, data[at + size..], size));
  }

  method WriteChunks(address: nat, data: Bytes, packetSize: nat, totalChunks: nat) returns (sent: Bytes)
    requires 0 < packetSize && packetSize + 2 < 0x1_0000 && address < 0x1_0000_0000
    requires data != [] && |data| == Pieces(totalChunks, packetSize)
    ensures sent == ToWrite(address, data, packetSize)
  {
    sent := [];
    var i, at := 0, 0;
    assert data[0..] == data;
    while i < totalChunks
      invariant 0 <= i <= totalChunks && Underway(address, data, packetSize, sent, at, totalChunks - i)
    {
      ghost var left := data[at..];
      PiecesLeft(totalChunks - i, packetSize);
      assert data[at..at + packetSize] == left[..packetSize] && data[at + packetSize..] == left[packetSize..];
      var bytes := WritePiece(address, data[at..at + packetSize], i == totalChunks - 1, left, packetSize);
      OnePieceFurther(address, data, packetSize, sent, bytes, at, totalChunks - i);
      sent := sent + bytes;
      i, at := i + 1, at + packetSize;
    }
    assert data[at..] == [];
  }

  /** One iteration: the next piece in a DATA packet, or in an END_DATA packet if it is the last. */
  method WritePiece(address: nat, chunk: Bytes, isLast: bool, ghost left: Bytes, ghost size: nat) returns (bytes: Bytes)
    requires 0 < size && size + 2 < 0x1_0000 && address < 0x1_0000_0000
    requires size <= |left| && chunk == left[..size] && (isLast <==> |left| == size)
    ensures ToWrite(address, left, size) == bytes + ToWrite(address, left[size..], size)
  {
    WireStep(address, left, size);
    assert address % 0x1_0000_0000 == address;
    var built := BuildPacket(if isLast then PID_END_DATA else PID_DATA, chunk, address);
    bytes := built.bytes;
    assert bytes + [] == bytes;
  }

  lemma {:induction false} WireStep(address: nat, data: Bytes, size: nat)
    requires 0 < size && size + 2 < 0x1_0000 && address < 0x1_0000_0000 && |data| >= size
    ensures AllSendable(DataPackets(address, data, size)) && AllSendable(DataPackets(address, data[size..], size))
    ensures Sendable(Packet(address, PID_DATA, data[..size]))
    ensures |data| > size ==>
              Wire(DataPackets(address, data, size))
              == PacketBytes(Packet(address, PID_DATA, data[..size])) + Wire(DataPackets(address, data[size..], size))
    ensures |data| == size ==>
              Wire(DataPackets(address, data, size)) == PacketBytes(Packet(address, PID_END_DATA, data[..size]))
  {
    DataPacketsSendable(address, data, size);
    DataPacketsSendable(address, data[size..], size);
    assert |data| == size ==> data[..size] == data;
  }

  datatype Received = Waiting | Unexpected | Complete(data: Bytes)

  /** Payloads joined up to and including the first flagged packet. */
  function Reassemble(packets: seq<Packet>): (r: Received) {
    if packets == [] then Waiting
    else if packets[0].pid != PID_DATA && packets[0].pid != PID_END_DATA then Unexpected
    else if packets[0].pid == PID_END_DATA then Complete(packets[0].payload)
    else Prepended(packets[0].payload, Reassemble(packets[1..]))
  }

  function Prepended(front: Bytes, r: Received): (r': Received) {
    if r.Complete? then Complete(front + r.data) else r
  }

  /** The reading loop of `uploadCharacteristic` over the packets that arrive. */
  method UploadCharacteristic(packets: seq<Packet>) returns (r: Received)
    ensures r == Reassemble(packets)
  {
    var chunks: Bytes := [];
    var i := 0;
    assert packets[0..] == packets;
    while i < |packets|
      invariant 0 <= i <= |packets|
      invariant Reassemble(packets) == Prepended(chunks, Reassemble(packets[i..]))
    {
      var pkt := packets[i];
      assert packets[i..][0] == pkt && packets[i..][1..] == packets[i + 1..];
      if pkt.pid != PID_DATA && pkt.pid != PID_END_DATA {
        return Unexpected;
      }
      if pkt.pid == PID_END_DATA {
        return Complete(chunks + pkt.payload);
      }
      PrependTwice(chunks, pkt.payload, Reassemble(packets[i + 1..]));
      chunks := chunks + pkt.payload;
      i := i + 1;
    }
    return Waiting;
  }

  lemma PrependTwice(a: Bytes, b: Bytes, r: Received)
    ensures Prepended(a, Prepended(b, r)) == Prepended(a + b, r)
  {
    if r.Complete? {
      assert a + (b + r.data) == a + b + r.data;
    }
  }

  lemma {:induction false} DataPacketsReassemble(address: nat, data: Bytes, size: nat)
    requires size > 0
    ensures Reassemble(DataPackets(address, data, size)) == Complete(data)
    decreases |data|
  {
    if |data| > size {
      DataPacketsReassemble(address, data[size..], size);
      assert data == data[..size] + data[size..];
      assert DataPackets(address, data, size)[1..] == DataPackets(address, data[size..], size);
    }
  }

  function Payloads(packets: seq<Packet>): (r: Bytes) {
    if packets == [] then [] else packets[0].payload + Payloads(packets[1..])
  }

  /** Pieces of one size in order, all flagged 02 but the last, which is flagged 08. */
  lemma {:induction false} DataPacketsAre(address: nat, data: Bytes, size: nat, count: nat)
    requires size > 0 && count > 0 && |data| == Pieces(count, size)
    ensures var packets := DataPackets(address, data, size);
            && |packets| == count && Payloads(packets) == data
            && forall i :: 0 <= i < count ==>
                 && packets[i].address == address && |packets[i].payload| == size
                 && packets[i].pid == if i == count - 1 then 0x08 else 0x02
    decreases count
  {
    var packets := DataPackets(address, data, size);
    if count > 1 {
      var rest := data[size..];
      assert Pieces(count, size) == size + Pieces(count - 1, size) && Pieces(count - 1, size) > 0;
      DataPacketsAre(address, rest, size, count - 1);
      assert packets[1..] == DataPackets(address, rest, size);
      assert data == data[..size] + rest;
      forall i | 0 < i < |packets| ensures packets[i] == DataPackets(address, rest, size)[i - 1] {
        assert packets[i] == packets[1..][i - 1];
      }
    } else {
      assert packets[1..] == [] && data + [] == data;
    }
  }

  /** The n-th packet ends the transfer: all before it are flagged 02, and it is flagged 08. */
  predicate EndsAt(packets: seq<Packet>, n: nat) {
    n < |packets| && packets[n].pid == 0x08 && forall i :: 0 <= i < n ==> packets[i].pid == 0x02
  }

  /** The n-th packet has no business there. */
  predicate StraysAt(packets: seq<Packet>, n: nat) {
    && n < |packets| && packets[n].pid != 0x02 && packets[n].pid != 0x08
    && forall i :: 0 <= i < n ==> packets[i].pid == 0x02
  }

  /** What is received: the payloads up to the last piece, or that some other packet came first, or nothing yet. */
  lemma {:induction false} ReassembleIs(packets: seq<Packet>)
    ensures match Reassemble(packets)
            case Complete(data) => exists n: nat :: EndsAt(packets, n) && Payloads(packets[..n + 1]) == data
            case Unexpected => exists n: nat :: StraysAt(packets, n)
            case Waiting => forall i :: 0 <= i < |packets| ==> packets[i].pid == 0x02
  {
    if packets != [] {
      var first, rest := packets[0], packets[1..];
      if first.pid == PID_DATA {
        ReassembleIs(rest);
        match Reassemble(rest) {
          case Complete(data) =>
            var n: nat :| EndsAt(rest, n) && data == Payloads(rest[..n + 1]);
            assert packets[..n + 2][1..] == rest[..n + 1];
            assert EndsAt(packets, n + 1);
          case Unexpected =>
            var n: nat :| StraysAt(rest, n);
            assert StraysAt(packets, n + 1);
          case Waiting =>
            assert forall i :: 0 < i < |packets| ==> packets[i] == rest[i - 1];
        }
      } else if first.pid == PID_END_DATA {
        assert packets[..1] == [first] && [first][1..] == [] && first.payload + [] == first.payload;
        assert Payloads(packets[..1]) == first.payload;
        assert EndsAt(packets, 0);
      } else {
        assert StraysAt(packets, 0);
      }
    }
  }

  lemma FirstBuiltParses(p: Packet, after: Bytes)
    requires Sendable(p)
    ensures Parse(PacketBytes(p) + after, 0) == Parsed(p, |PacketBytes(p)|)
  {
    var buf := PacketBytes(p) + after;
    assert [] + PacketBytes(p) + after == buf;
    BuiltParses([], p, after);
    assert IsHeader(buf, 0) && FindHeader(buf, 0) == 0;
  }

  lemma {:induction false} WireDrains(packets: seq<Packet>)
    requires AllSendable(packets)
    ensures Drain(Wire(packets)) == Drained(packets, [])
  {
    if packets == [] {
      DrainNone([]);
    } else {
      var bytes, after := PacketBytes(packets[0]), Wire(packets[1..]);
      WireDrains(packets[1..]);
      FirstBuiltParses(packets[0], after);
      DrainFirst(bytes + after, packets[0], |bytes|);
      assert (bytes + after)[|bytes|..] == after;
    }
  }

  /**
   * A template written by the host in data packets, cut into chunks anywhere on
   * the wire, is reassembled to the same template.
   */
  lemma {:induction false} TemplateRoundTrip(address: nat, data: Bytes, size: nat, chunks: seq<Bytes>)
    requires 0 < size && size + 2 < 0x1_0000 && address < 0x1_0000_0000
    requires AllSendable(DataPackets(address, data, size))
    requires Concat(chunks) == Wire(DataPackets(address, data, size))
    ensures Reassemble(Fed([], chunks).packets) == Complete(data) && Fed([], chunks).rest == []
  {
    ChunkingIndependent(chunks);
    WireDrains(DataPackets(address, data, size));
    DataPacketsReassemble(address, data, size);
  }

  // ---- the index table -----------------------------------------------------

  /** Bit i of a byte: `(b >> i) & 1`. */
  predicate BitSet(b: nat, i: nat) {
    if i == 0 then b % 2 == 1 else BitSet(b / 2, i - 1)
  }

  lemma {:induction false} BitSetIs(b: Byte)
    ensures BitSet(b, 0) <==> b % 2 == 1
    ensures BitSet(b, 1) <==> b / 2 % 2 == 1
    ensures BitSet(b, 2) <==> b / 4 % 2 == 1
    ensures BitSet(b, 3) <==> b / 8 % 2 == 1
    ensures BitSet(b, 4) <==> b / 16 % 2 == 1
    ensures BitSet(b, 5) <==> b / 32 % 2 == 1
    ensures BitSet(b, 6) <==> b / 64 % 2 == 1
    ensures BitSet(b, 7) <==> b / 128 == 1
  {
    var b1, b2, b3, b4, b5, b6, b7 := b / 2, b / 4, b / 8, b / 16, b / 32, b / 64, b / 128;
    assert b1 / 2 == b2 && b2 / 2 == b3 && b3 / 2 == b4 && b4 / 2 == b5 && b5 / 2 == b6 && b6 / 2 == b7;
    assert BitSet(b, 1) == BitSet(b1, 0);
    assert BitSet(b, 2) == BitSet(b1, 1) == BitSet(b2, 0);
    assert BitSet(b, 3) == BitSet(b1, 2) == BitSet(b2, 1) == BitSet(b3, 0);
    assert BitSet(b, 4) == BitSet(b1, 3) == BitSet(b2, 2) == BitSet(b3, 1) == BitSet(b4, 0);
    assert BitSet(b, 5) == BitSet(b1, 4) == BitSet(b2, 3) == BitSet(b3, 2) == BitSet(b4, 1) == BitSet(b5, 0);
    assert BitSet(b, 6) == BitSet(b1, 5) == BitSet(b2, 4) == BitSet(b3, 3) == BitSet(b4, 2) == BitSet(b5, 1);
    assert BitSet(b5, 1) == BitSet(b6, 0);
    assert BitSet(b, 7) == BitSet(b1, 6) == BitSet(b2, 5) == BitSet(b3, 4) == BitSet(b4, 3) == BitSet(b5, 2);
    assert BitSet(b5, 2) == BitSet(b6, 1) == BitSet(b7, 0);
  }

  /** Slot s is marked in the pages read so far: 256 slots a page, 8 a byte, lowest bit first. */
  predicate Marked(pages: seq<Bytes>, s: nat) {
    var page, byteIdx, bitIdx := s / 256, s % 256 / 8, s % 8;
    page < |pages| && byteIdx < |pages[page]| && BitSet(pages[page][byteIdx], bitIdx)
  }

  predicate Ascending(s: seq<nat>) { forall i, j :: 0 <= i < j < |s| ==> s[i] < s[j] }

  /** Position i of a bitmap is set. */
  predicate BitAt(bitmap: Bytes, i: nat)
    requires i < 8 * |bitmap|
  {
    BitSet(bitmap[i / 8], i % 8)
  }

  /** The set positions below n, counted from `base`. */
  function MarksBelow(bitmap: Bytes, base: nat, n: nat): (r: seq<nat>)
    requires n <= 8 * |bitmap|
  {
    if n == 0 then [] else MarksBelow(bitmap, base, n - 1) + (if BitAt(bitmap, n - 1) then [base + n - 1] else [])
  }

  /** Page after page; a bitmap of more than 32 bytes runs over into the numbers of the next page. */
  function SlotsOf(pages: seq<Bytes>): (r: seq<nat>) {
    if pages == [] then []
    else
      var last := pages[|pages| - 1];
      SlotsOf(pages[..|pages| - 1]) + MarksBelow(last, 256 * (|pages| - 1), 8 * |last|)
  }

  /** The innermost loop: the eight bits of one byte, behind what was found before. */
  method DecodeByte(bitmap: Bytes, byteIdx: nat, page: nat, before: seq<nat>, ghost head: seq<nat>)
    returns (slots: seq<nat>)
    requires byteIdx < |bitmap| && before == head + MarksBelow(bitmap, 256 * page, 8 * byteIdx)
    ensures slots == head + MarksBelow(bitmap, 256 * page, 8 * byteIdx + 8)
  {
    slots := before;
    var bitIdx := 0;
    while bitIdx < 8
      invariant 0 <= bitIdx <= 8
      invariant slots == head + MarksBelow(bitmap, 256 * page, 8 * byteIdx + bitIdx)
    {
      assert (8 * byteIdx + bitIdx) / 8 == byteIdx && (8 * byteIdx + bitIdx) % 8 == bitIdx;
      if BitSet(bitmap[byteIdx], bitIdx) {
        slots := slots + [page * 256 + byteIdx * 8 + bitIdx];
      }
      bitIdx := bitIdx + 1;
    }
  }

  /** The loop over the bytes of one bitmap. */
  method DecodePage(bitmap: Bytes, page: nat, before: seq<nat>) returns (slots: seq<nat>)
    ensures slots == before + MarksBelow(bitmap, 256 * page, 8 * |bitmap|)
  {
    slots := before;
    var byteIdx := 0;
    while byteIdx < |bitmap|
      invariant 0 <= byteIdx <= |bitmap|
      invariant slots == before + MarksBelow(bitmap, 256 * page, 8 * byteIdx)
    {
      slots := DecodeByte(bitmap, byteIdx, page, slots, before);
      byteIdx := byteIdx + 1;
    }
  }

  lemma SlotsOfMore(pages: seq<Bytes>, page: nat)
    requires page < |pages|
    ensures SlotsOf(pages[..page + 1])
         == SlotsOf(pages[..page]) + MarksBelow(pages[page], 256 * page, 8 * |pages[page]|)
  {
    assert pages[..page + 1][..page] == pages[..page];
  }

  /** The three loops of `readIndexTable` over the bitmaps the sensor returns, whatever their lengths. */
  method DecodeBitmaps(pages: seq<Bytes>) returns (slots: seq<nat>)
    ensures slots == SlotsOf(pages)
  {
    slots := [];
    var page := 0;
    while page < |pages|
      invariant 0 <= page <= |pages|
      invariant slots == SlotsOf(pages[..page])
    {
      slots := DecodePage(pages[page], page, slots);
      SlotsOfMore(pages, page);
      page := page + 1;
    }
    assert pages[..page] == pages;
  }

  lemma {:induction false} MarksExact(bitmap: Bytes, base: nat, n: nat)
    requires n <= 8 * |bitmap|
    ensures Ascending(MarksBelow(bitmap, base, n))
    ensures forall s: nat :: s in MarksBelow(bitmap, base, n) <==> base <= s < base + n && BitAt(bitmap, s - base)
  {
    if n > 0 {
      MarksExact(bitmap, base, n - 1);
      var before := MarksBelow(bitmap, base, n - 1);
      forall i | 0 <= i < |before| ensures before[i] < base + n - 1 {
        assert before[i] in before;
      }
    }
  }

  /** On 32-byte pages the list holds exactly the marked slots, in ascending order. */
  lemma {:induction false} IndexTableExact(pages: seq<Bytes>)
    requires forall p :: 0 <= p < |pages| ==> |pages[p]| <= 32
    ensures Ascending(SlotsOf(pages))
    ensures forall s: nat :: s in SlotsOf(pages) <==> Marked(pages, s)
    decreases |pages|
  {
    if pages != [] {
      var front, last, base := pages[..|pages| - 1], pages[|pages| - 1], 256 * (|pages| - 1);
      IndexTableExact(front);
      MarksExact(last, base, 8 * |last|);
      var before, marks := SlotsOf(front), MarksBelow(last, base, 8 * |last|);
      forall s: nat ensures s in SlotsOf(pages) <==> Marked(pages, s) {
        PageOfSlot(pages, s);
      }
      forall i, j | 0 <= i < |before| && 0 <= j < |marks| ensures before[i] < marks[j] {
        assert before[i] in before && marks[j] in marks;
      }
    }
  }

  lemma PageOfSlot(pages: seq<Bytes>, s: nat)
    requires pages != [] && forall p :: 0 <= p < |pages| ==> |pages[p]| <= 32
    ensures var front, last, base := pages[..|pages| - 1], pages[|pages| - 1], 256 * (|pages| - 1);
            && (Marked(front, s) ==> s < base)
            && (Marked(pages, s) <==> Marked(front, s) || (base <= s < base + 8 * |last| && BitAt(last, s - base)))
  {
    if s / 256 == |pages| - 1 {
      var i := s - 256 * (|pages| - 1);
      assert i == s % 256 && i % 8 == s % 8;
    }
  }
}
