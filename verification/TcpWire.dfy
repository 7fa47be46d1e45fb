/** TCP segments as bytes: how they are read, how they are written, and that reading undoes writing. Fields have the
    byte order of the processor, as the code's struct has. */
module TcpWire {
  import opened Words
  import opened TcpConnection

  const HEADER_SIZE := 20

  datatype Endpoints = Endpoints(localIp: Word, remoteIp: Word, localPort: Port, remotePort: Port)

  /** The same connection as the peer sees it. */
  function Mirrored(e: Endpoints): Endpoints { Endpoints(e.remoteIp, e.localIp, e.remotePort, e.localPort) }

  // ----- reading

  function Field16(data: seq<Byte>, i: nat): Port
    requires i + 1 < |data|
  {
    var low: nat, high: nat := data[i], data[i + 1];
    low + 0x100 * high
  }

  function Field32(data: seq<Byte>, i: nat): Word
    requires i + 3 < |data|
  {
    var low: nat, high: nat := Field16(data, i), Field16(data, i + 2);
    low + 0x1_0000 * high
  }

  function DataOffset(data: seq<Byte>): nat
    requires HEADER_SIZE <= |data|
  {
    data[12] / 0x10 * 4
  }

  function FlagsIn(b: Byte): Flags {
    Flags(And(b, 0x01) != 0, And(b, 0x02) != 0, And(b, 0x08) != 0, And(b, 0x10) != 0)
  }

  /** The code takes the payload to reach from the data offset to the end of the segment, in 32-bit arithmetic: where
      the offset lies beyond the end, it takes what comes after the segment in memory. */
  function Payload(data: seq<Byte>, beyond: nat -> Byte): (payload: seq<Byte>)
    requires HEADER_SIZE <= |data| < 0x1_0000_0000
    ensures |payload| == Wrap(|data| - DataOffset(data))
    ensures DataOffset(data) <= |data| ==> payload == data[DataOffset(data)..]
  {
    var offset := DataOffset(data);
    if offset <= |data| then data[offset..]
    else seq(Wrap(|data| - offset), k requires k >= 0 => beyond(offset - |data| + k))
  }

  function Parse(data: seq<Byte>, beyond: nat -> Byte): Packet
    requires HEADER_SIZE <= |data| < 0x1_0000_0000
  {
    Packet(Field16(data, 0), Field16(data, 2), Field32(data, 4), Field32(data, 8), FlagsIn(data[13]),
      Payload(data, beyond))
  }

  // ----- writing

  /** The bytes at i and after hold x, lowest byte first. */
  predicate Holds16(data: seq<Byte>, i: nat, x: nat)
    requires i + 1 < |data| && x < 0x1_0000
  {
    data[i] == x % 0x100 && data[i + 1] == x / 0x100
  }

  predicate Holds32(data: seq<Byte>, i: nat, x: Word)
    requires i + 3 < |data|
  {
    Holds16(data, i, x % 0x1_0000) && Holds16(data, i + 2, x / 0x1_0000)
  }

  /** The flag bits of section 3.1 of RFC 9293. */
  function FlagByte(f: Flags): Byte {
    (if f.fin then 0x01 else 0) + (if f.syn then 0x02 else 0) + (if f.psh then 0x08 else 0)
      + (if f.ack then 0x10 else 0)
  }

  /** data is the segment s of the connection with endpoints e, laid out as in section 3.1 of RFC 9293 but for the byte
      order, with the given options before the data. Window, checksum and urgent pointer are left open. */
  predicate WrittenWith(data: seq<Byte>, e: Endpoints, s: Segment, options: seq<Byte>) {
    && |data| == 20 + |options| + |s.data| && |options| % 4 == 0 && |options| <= 40
    && Holds16(data, 0, e.localPort) && Holds16(data, 2, e.remotePort)
    && Holds32(data, 4, s.seqNumber) && Holds32(data, 8, s.ackNumber)
    && data[12] == (5 + |options| / 4) * 0x10 && data[13] == FlagByte(s.flags)
    && data[20..20 + |options|] == options && data[20 + |options|..] == s.data
  }

  /** What send_packet makes of it: no options, the window it always offers, and the checksum left open. */
  predicate Written(data: seq<Byte>, e: Endpoints, s: Segment) {
    WrittenWith(data, e, s, []) && Holds16(data, 14, 8192) && Holds16(data, 18, 0)
  }

  /** Writes x at i and after. */
  method Put16(packet: array<Byte>, i: nat, x: nat)
    requires i + 1 < packet.Length && x < 0x1_0000
    modifies packet
    ensures packet[..] == old(packet[..])[i := x % 0x100][i + 1 := x / 0x100]
  {
    packet[i], packet[i + 1] := x % 0x100, x / 0x100;
  }

  method Put32(packet: array<Byte>, i: nat, x: Word)
    requires i + 3 < packet.Length
    modifies packet
    ensures Holds32(packet[..], i, x)
    ensures forall k: nat :: k < packet.Length && !(i <= k < i + 4) ==> packet[k] == old(packet[k])
  {
    Put16(packet, i, x % 0x1_0000);
    Put16(packet, i + 2, x / 0x1_0000);
  }

  method PutPorts(packet: array<Byte>, e: Endpoints)
    requires packet.Length >= HEADER_SIZE
    modifies packet
    ensures Holds16(packet[..], 0, e.localPort) && Holds16(packet[..], 2, e.remotePort)
  {
    Put16(packet, 0, e.localPort);
    Put16(packet, 2, e.remotePort);
  }

  method PutNumbers(packet: array<Byte>, s: Segment)
    requires packet.Length >= HEADER_SIZE
    modifies packet
    ensures Holds32(packet[..], 4, s.seqNumber) && Holds32(packet[..], 8, s.ackNumber)
    ensures forall k: nat :: k < 4 || 12 <= k < packet.Length ==> packet[k] == old(packet[k])
  {
    Put32(packet, 4, s.seqNumber);
    Put32(packet, 8, s.ackNumber);
  }

  method PutRest(packet: array<Byte>, s: Segment)
    requires packet.Length >= HEADER_SIZE
    modifies packet
    ensures packet[12] == 0x50 && packet[13] == FlagByte(s.flags)
    ensures Holds16(packet[..], 14, 8192) && Holds16(packet[..], 18, 0)
    ensures forall k: nat :: k < 12 || HEADER_SIZE <= k < packet.Length ==> packet[k] == old(packet[k])
  {
    hide FlagByte;
    packet[12] := HEADER_SIZE / 4 * 0x10;
    packet[13] := FlagByte(s.flags);
    Put16(packet, 14, WINDOW);
    Put16(packet, 16, 0);
    Put16(packet, 18, 0);
  }

  method PutData(packet: array<Byte>, data: seq<Byte>)
    requires packet.Length == HEADER_SIZE + |data|
    modifies packet
    ensures packet[HEADER_SIZE..] == data && packet[..HEADER_SIZE] == old(packet[..HEADER_SIZE])
  {
    var i := 0;
    while i < |data|
      invariant i <= |data| && packet[..HEADER_SIZE] == old(packet[..HEADER_SIZE])
      invariant packet[HEADER_SIZE..HEADER_SIZE + i] == data[..i]
    {
      packet[HEADER_SIZE + i] := data[i];
      i := i + 1;
    }
    assert packet[HEADER_SIZE..] == packet[HEADER_SIZE..HEADER_SIZE + |data|] && data[..|data|] == data;
  }

  /** The part of send_packet that fills the packet in. */
  method Fill(packet: array<Byte>, e: Endpoints, s: Segment)
    requires packet.Length == HEADER_SIZE + |s.data|
    modifies packet
    ensures Written(packet[..], e, s)
  {
    hide FlagByte;
    PutPorts(packet, e);
    PutNumbers(packet, s);
    PutRest(packet, s);
    ghost var header := packet[..HEADER_SIZE];
    PutData(packet, s.data);
    assert forall k: nat :: k < HEADER_SIZE ==> packet[k] == header[k];
  }

  // ----- reading undoes writing

  lemma FlagsBack(f: Flags)
    ensures FlagsIn(FlagByte(f)) == f
  {
    hide FlagsIn, BitAt;
    FlagsInBits(FlagByte(f));
    LowBits(FlagByte(f));
  }

  lemma FlagsInBits(b: Byte)
    ensures FlagsIn(b) == Flags(BitAt(b, 0), BitAt(b, 1), BitAt(b, 3), BitAt(b, 4))
  {
    hide And, BitAt;
    assert Pow2(0) == 0x01 && Pow2(1) == 0x02 && Pow2(3) == 0x08 && Pow2(4) == 0x10;
    TestBit(b, 0);
    TestBit(b, 1);
    TestBit(b, 3);
    TestBit(b, 4);
  }

  lemma LowBits(b: Byte)
    ensures BitAt(b, 0) == (b % 2 == 1) && BitAt(b, 1) == (b / 2 % 2 == 1)
    ensures BitAt(b, 3) == (b / 8 % 2 == 1) && BitAt(b, 4) == (b / 0x10 % 2 == 1)
  {
    assert b / 2 / 2 / 2 == b / 8 && b / 2 / 2 / 2 / 2 == b / 0x10;
  }

  /** What send_packet, or a peer that adds options, writes is what handle_packet reads, whatever follows the segment in
      memory. */
  lemma ParseWrittenWith(data: seq<Byte>, e: Endpoints, s: Segment, options: seq<Byte>, beyond: nat -> Byte)
    requires WrittenWith(data, e, s, options) && |data| < 0x1_0000_0000
    ensures Parse(data, beyond) == Packet(e.localPort, e.remotePort, s.seqNumber, s.ackNumber, s.flags, s.data)
  {
    hide FlagsIn, FlagByte;
    FlagsBack(s.flags);
    FieldBack(data, 4, s.seqNumber);
    FieldBack(data, 8, s.ackNumber);
  }

  lemma ParseWritten(data: seq<Byte>, e: Endpoints, s: Segment, beyond: nat -> Byte)
    requires Written(data, e, s) && |data| < 0x1_0000_0000
    ensures Parse(data, beyond) == Packet(e.localPort, e.remotePort, s.seqNumber, s.ackNumber, s.flags, s.data)
  {
    hide WrittenWith, Parse;
    ParseWrittenWith(data, e, s, [], beyond);
  }

  lemma FieldBack(data: seq<Byte>, i: nat, x: Word)
    requires i + 3 < |data| && Holds32(data, i, x)
    ensures Field32(data, i) == x
  {}
}
