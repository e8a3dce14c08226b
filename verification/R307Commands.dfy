/**
 * The commands of iot/src/sensor.ts around the codec of R307.dfy: a command
 * packet, its acknowledgement with a confirmation code, and for two of them the
 * transfer that follows. What the sensor answers is an input; no answer in time
 * is None.
 */
module R307Commands {
  import opened JsText
  import opened Octets
  import opened R307

  const PID_COMMAND: Byte := 0x01
  const PID_ACK: Byte := 0x07
  const DOWN_CHAR: Byte := 0x09
  const READ_INDEX_TABLE: Byte := 0x1F
  const CONF_OK: Byte := 0x00

  datatype Reply =
    | Acked(payload: Bytes)
    | TimedOut
    | NotAnAck(pid: Byte)
    | NoConfirmation
    | Refused(confirmation: Byte)

  /** `cmd` and the test of the confirmation code that follows each call of it. */
  function Judged(ack: Option<Packet>): (r: Reply) {
    if ack.None? then TimedOut
    else if ack.value.pid != PID_ACK then NotAnAck(ack.value.pid)
    else if ack.value.payload == [] then NoConfirmation
    else if ack.value.payload[0] != CONF_OK then Refused(ack.value.payload[0])
    else Acked(ack.value.payload)
  }

  /** The packet of a command with one argument byte. */
  function CommandPacket(address: nat, opcode: Byte, arg: Byte): (p: Packet) {
    Packet(address, PID_COMMAND, [opcode, arg])
  }

  lemma CommandBytesAre(address: nat, opcode: Byte, arg: Byte)
    requires address < 0x1_0000_0000
    ensures IsPacket(PacketBytes(CommandPacket(address, opcode, arg)), address, 0x01, [opcode, arg])
  {
    PacketBytesAre(CommandPacket(address, opcode, arg));
  }

  method Cmd(address: nat, opcode: Byte, arg: Byte, ack: Option<Packet>) returns (sent: Bytes, r: Reply)
    requires address < 0x1_0000_0000
    ensures sent == PacketBytes(CommandPacket(address, opcode, arg)) && r == Judged(ack)
    ensures match r
            case TimedOut => ack == None
            case NotAnAck(pid) => ack.Some? && pid == ack.value.pid && pid != 0x07
            case NoConfirmation => ack.Some? && ack.value.pid == 0x07 && ack.value.payload == []
            case Refused(code) =>
              && ack.Some? && ack.value.pid == 0x07 && ack.value.payload != [] && ack.value.payload[0] == code
              && code != 0x00
            case Acked(payload) =>
              ack.Some? && ack.value.pid == 0x07 && ack.value.payload == payload && payload != [] && payload[0] == 0x00
  {
    assert address % 0x1_0000_0000 == address;
    var built := BuildPacket(PID_COMMAND, [opcode, arg], address);
    sent := built.bytes;
    if ack.None? {
      return sent, TimedOut;
    }
    var packet := ack.value;
    if packet.pid != PID_ACK {
      return sent, NotAnAck(packet.pid);
    }
    if packet.payload == [] {
      return sent, NoConfirmation;
    }
    if packet.payload[0] != CONF_OK {
      return sent, Refused(packet.payload[0]);
    }
    return sent, Acked(packet.payload);
  }

  // ---- a template to the sensor --------------------------------------------------

  datatype Transfer = Transferred | BadLength | CommandFailed(reply: Reply) | ChunkTooLong

  /**
   * `downloadCharacteristic`: lengths are checked before anything is sent; then
   * the command, and only after a positive acknowledgement the data packets.
   */
  method DownloadCharacteristic(address: nat, buffer: Byte, data: Bytes, packetSize: nat, ack: Option<Packet>)
    returns (sent: Bytes, r: Transfer)
    requires address < 0x1_0000_0000
    ensures r == BadLength <==> data == [] || !Divides(packetSize, |data|)
    ensures r == BadLength ==> sent == []
    ensures r != BadLength ==> |sent| >= 13 && IsPacket(sent[..13], address, 0x01, [0x09, buffer])
    ensures r != BadLength ==> PacketBytes(CommandPacket(address, DOWN_CHAR, buffer)) <= sent
    ensures r.CommandFailed? || r == ChunkTooLong ==> sent == PacketBytes(CommandPacket(address, DOWN_CHAR, buffer))
    ensures r.CommandFailed? ==> r.reply == Judged(ack) && !Judged(ack).Acked?
    ensures r == ChunkTooLong ==> Judged(ack).Acked? && packetSize + 2 >= 0x1_0000
    ensures r == Transferred ==>
              && Judged(ack).Acked? && AllSendable(DataPackets(address, data, packetSize))
              && sent == PacketBytes(CommandPacket(address, DOWN_CHAR, buffer))
                         + Wire(DataPackets(address, data, packetSize))
  {
    if data == [] || packetSize == 0 || |data| % packetSize != 0 {
      return [], BadLength;
    }
    var command, reply := Cmd(address, DOWN_CHAR, buffer, ack);
    CommandBytesAre(address, DOWN_CHAR, buffer);
    assert command[..13] == command;
    if !reply.Acked? {
      return command, CommandFailed(reply);
    }
    var written := WriteTemplate(address, data, packetSize);
    if written.Rejected? {
      return command, ChunkTooLong;
    }
    assert (command + written.bytes)[..13] == command;
    return command + written.bytes, Transferred;
  }

  /**
   * Whoever drains the wire of a successful transfer, in any chunks, gets the
   * command and then packets that reassemble to the template.
   */
  lemma {:induction false} TransferArrives(address: nat, buffer: Byte, data: Bytes, size: nat, chunks: seq<Bytes>)
    requires address < 0x1_0000_0000 && data != [] && 0 < size && size + 2 < 0x1_0000
    requires AllSendable(DataPackets(address, data, size))
    requires Concat(chunks)
          == PacketBytes(CommandPacket(address, DOWN_CHAR, buffer)) + Wire(DataPackets(address, data, size))
    ensures var packets := Fed([], chunks).packets;
            && packets != [] && packets[0] == CommandPacket(address, DOWN_CHAR, buffer)
            && Reassemble(packets[1..]) == Complete(data) && Fed([], chunks).rest == []
  {
    var command := CommandPacket(address, DOWN_CHAR, buffer);
    ChunkingIndependent(chunks);
    assert Concat(chunks) == Wire([command] + DataPackets(address, data, size)) by {
      assert ([command] + DataPackets(address, data, size))[1..] == DataPackets(address, data, size);
    }
    WireDrains([command] + DataPackets(address, data, size));
    DataPacketsReassemble(address, data, size);
    assert ([command] + DataPackets(address, data, size))[1..] == DataPackets(address, data, size);
  }

  // ---- the index table -----------------------------------------------------------

  /** `Math.ceil(librarySize / 256)`. */
  function Pages(librarySize: nat): (n: nat)
    ensures 256 * n >= librarySize && (n > 0 ==> 256 * (n - 1) < librarySize)
  {
    (librarySize + 255) / 256
  }

  /** The answer to the command for one page. */
  function AckFor(acks: seq<Packet>, page: nat): (a: Option<Packet>) {
    if page < |acks| then Some(acks[page]) else None
  }

  /** What follows the confirmation code in each answer. */
  function Bitmaps(acks: seq<Packet>): (r: seq<Bytes>)
    ensures |r| == |acks|
  {
    seq(|acks|, p requires 0 <= p < |acks| => if acks[p].payload == [] then [] else acks[p].payload[1..])
  }

  /** The commands for the first n pages; `Buffer.from` keeps a page number's low byte. */
  function PageCommands(address: nat, n: nat): (r: seq<Packet>)
    requires address < 0x1_0000_0000
    ensures |r| == n && AllSendable(r)
    ensures forall p :: 0 <= p < n ==> r[p] == CommandPacket(address, READ_INDEX_TABLE, p % 256)
  {
    if n == 0 then [] else PageCommands(address, n - 1) + [CommandPacket(address, READ_INDEX_TABLE, (n - 1) % 256)]
  }

  lemma {:induction false} PageCommandsAre(address: nat, n: nat, page: nat)
    requires address < 0x1_0000_0000 && page < n
    ensures PageCommands(address, n)[page] == Packet(address, 0x01, [0x1F, page % 256])
  {
  }

  lemma {:induction false} WireLast(packets: seq<Packet>, last: Packet)
    requires AllSendable(packets) && Sendable(last)
    ensures AllSendable(packets + [last]) && Wire(packets + [last]) == Wire(packets) + PacketBytes(last)
  {
    if packets == [] {
      assert packets + [last] == [last];
    } else {
      assert (packets + [last])[1..] == packets[1..] + [last];
      WireLast(packets[1..], last);
    }
  }

  datatype Table = Slots(slots: seq<nat>) | PageFailed(page: nat, reply: Reply)

  /**
   * `readIndexTable`: one command a page, stopping at the first that is not
   * confirmed; the slots are those of all the bitmaps received.
   */
  method ReadIndexTable(address: nat, librarySize: nat, acks: seq<Packet>) returns (sent: Bytes, r: Table)
    requires address < 0x1_0000_0000
    ensures sent == Wire(PageCommands(address, if r.PageFailed? then r.page + 1 else Pages(librarySize)))
    ensures r.PageFailed? ==>
              && r.page < Pages(librarySize) && r.reply == Judged(AckFor(acks, r.page)) && !r.reply.Acked?
              && forall p :: 0 <= p < r.page ==> Judged(AckFor(acks, p)).Acked?
    ensures r.Slots? <==> forall p :: 0 <= p < Pages(librarySize) ==> Judged(AckFor(acks, p)).Acked?
    ensures r.Slots? ==> Pages(librarySize) <= |acks| && r.slots == SlotsOf(Bitmaps(acks[..Pages(librarySize)]))
  {
    var pages := Pages(librarySize);
    var bitmaps: seq<Bytes> := [];
    sent := [];
    for page := 0 to pages
      invariant page <= |acks| && |bitmaps| == page
      invariant forall p :: 0 <= p < page ==> Judged(AckFor(acks, p)).Acked? && bitmaps[p] == acks[p].payload[1..]
      invariant sent == Wire(PageCommands(address, page))
    {
      var command, reply := Cmd(address, READ_INDEX_TABLE, page % 256, AckFor(acks, page));
      WireLast(PageCommands(address, page), CommandPacket(address, READ_INDEX_TABLE, page % 256));
      sent := sent + command;
      if !reply.Acked? {
        return sent, PageFailed(page, reply);
      }
      bitmaps := bitmaps + [reply.payload[1..]];
    }
    assert bitmaps == Bitmaps(acks[..pages]);
    var slots := DecodeBitmaps(bitmaps);
    return sent, Slots(slots);
  }
}
