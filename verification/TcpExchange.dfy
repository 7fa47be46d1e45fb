/** What connections say to each other: which segments a packet or call draws, what they acknowledge, and that what one
    end sends is what the other end accepts and acknowledges. */
module TcpExchange {
  import opened Words
  import ReceiveRing
  import opened TcpConnection
  import opened TcpRuns
  import opened TcpWire

  /** The segment, if it is sent. */
  function If(b: bool, s: Segment): seq<Segment> { if b then [s] else [] }

  /** The number after a packet's last one, which acknowledges it. */
  function NumberAfter(p: Packet): Word {
    (p.seqNumber + |p.payload| + (if p.flags.syn then 1 else 0) + (if p.flags.fin then 1 else 0)) % 0x1_0000_0000
  }

  /** A segment without data: fin, syn and ack say which flags it has. */
  function Bare(fin: bool, syn: bool, ack: bool, seqNumber: Word, ackNumber: Word): Segment {
    Segment(Flags(fin, syn, false, ack), seqNumber, ackNumber, [])
  }

  /** The answer in state s to packet p: SYN-ACK to a SYN, ACK to data or FIN, and after the ACK of the first FIN the
      connection's own; m and n say whether the packets can be allocated. */
  function Answer(s: State, seqNumber: Word, p: Packet, m: bool, n: bool): seq<Segment> {
    var a := NumberAfter(p);
    if s == LISTEN && p.flags.syn then If(m, Bare(false, true, true, seqNumber, a))
    else if s == SYN_SENT && p.flags.syn && p.flags.ack then If(m, Bare(false, false, true, seqNumber, a))
    else if s == ESTABLISHED && p.flags.fin then
      If(m, Bare(false, false, true, seqNumber, a)) + If(n, Bare(true, false, true, seqNumber, a))
    else if s == ESTABLISHED && |p.payload| > 0 then If(m, Bare(false, false, true, seqNumber, a))
    else if s == FIN_WAIT_2 && p.flags.fin then If(m, Bare(false, false, true, seqNumber, a))
    else []
  }

  /** What a packet draws, whatever the state, and that the connection now acknowledges it. */
  lemma ArriveAnswers(c: Conn, p: Packet, m: bool, n: bool)
    requires ReceiveRing.Sound(c.ring)
    ensures Arrive(c, p, m, n).sent == c.sent + Answer(StateOf(c), c.seqNumber, p, m, n)
    ensures Arrive(c, p, m, n).ackNumber == NumberAfter(p)
  {
    hide Transmit, ReceiveRing.Sound, ReceiveRing.Put;
    var a, b := Acknowledged(c, p), Buffered(Acknowledged(c, p), p.payload);
    BareSent(Enter(a, SYN_RECEIVED), SYN_ACK, m);
    BareSent(Enter(a, ESTABLISHED), ACK, m);
    BareSent(b, ACK, m);
    BareSent(Enter(a, TIME_WAIT), ACK, m);
    BareSent(Enter(a, CLOSE_WAIT), ACK, m);
    BareSent(Enter(Transmit(Enter(a, CLOSE_WAIT), ACK, [], m), LAST_ACK), FIN_ACK, n);
  }

  lemma BareSent(c: Conn, flags: Flags, m: bool)
    ensures var d := Transmit(c, flags, [], m);
      && d.sent == c.sent + If(m, Segment(flags, c.seqNumber, c.ackNumber, []))
      && d.ackNumber == c.ackNumber
      && (!flags.syn && !flags.fin ==> d.seqNumber == c.seqNumber)
  {
    WrapWord(c.seqNumber);
  }

  /** What send, close and connect put on the wire. */
  lemma SendingSends(c: Conn, data: seq<Byte>, m: bool)
    requires Sound(c)
    ensures var left := 8192 - |DataSent(c.sent)|;
      Sending(c, data, m).sent == c.sent + If(StateOf(c) == ESTABLISHED && m && (data == [] || left > 0),
        Segment(Flags(false, false, true, true), c.seqNumber, c.ackNumber,
          if |data| <= left then data else data[..left]))
  {
    hide Follows, Queued, DataSent, Syns, Fins, Numbered, FinLast;
    assert data[..|data|] == data;
  }

  lemma ClosingSends(c: Conn, m: bool)
    requires StateOf(c) == ESTABLISHED
    ensures Closing(c, m).sent == c.sent + If(m, Bare(true, false, true, c.seqNumber, c.ackNumber))
    ensures StateOf(Closing(c, m)) == FIN_WAIT_1
  {}

  lemma ConnectedSends(cells: seq<Byte>, m: bool)
    ensures Connected(cells, m).sent == If(m, Bare(false, true, false, 0x1234_5678, 0))
    ensures Connected(cells, m).visited == [CLOSED, SYN_SENT, ESTABLISHED]
  {}

  // ----- what is acknowledged

  /** The number after the last packet met, 0 before any. */
  function LastMet(es: seq<Event>): Word {
    if es == [] then 0
    else match es[|es| - 1]
      case Arrival(p, _, _) => NumberAfter(p)
      case _ => LastMet(es[..|es| - 1])
  }

  /** An event keeps what was sent, and what it sends acknowledges the last packet. */
  lemma NextAcknowledges(c: Conn, e: Event)
    requires Sound(c) && Survives(c, e)
    ensures Next(c, e).ackNumber == (if e.Arrival? then NumberAfter(e.packet) else c.ackNumber)
    ensures |c.sent| <= |Next(c, e).sent|
    ensures forall k: nat {:trigger Next(c, e).sent[k]} :: |c.sent| <= k < |Next(c, e).sent| ==>
      Next(c, e).sent[k].ackNumber == Next(c, e).ackNumber
  {
    hide Sound, Arrive;
    if e.Arrival? {
      SoundParts(c);
      ArriveAnswers(c, e.packet, e.first, e.second);
    }
  }

  lemma SoundParts(c: Conn)
    requires Sound(c)
    ensures ReceiveRing.Sound(c.ring)
  {}

  lemma OpenedAcknowledges(c: Conn)
    requires Opened(c)
    ensures c.ackNumber == 0 && forall k: nat {:trigger c.sent[k]} :: k < |c.sent| ==> c.sent[k].ackNumber == 0
  {}

  lemma {:induction false} AckIsLastMet(c: Conn, es: seq<Event>)
    requires Sound(c) && Survived(c, es) && c.ackNumber == 0
    ensures After(c, es).ackNumber == LastMet(es)
    decreases |es|
  {
    hide Sound, Next;
    if es != [] {
      AckIsLastMet(c, es[..|es| - 1]);
      NextAcknowledges(After(c, es[..|es| - 1]), es[|es| - 1]);
    }
  }

  /** Over a whole life every segment acknowledges the last packet met when it was sent: those that event n sent, the
      last one among the events up to n; those sent on opening, nothing. */
  lemma LifeAcknowledges(c: Conn, es: seq<Event>, n: nat, k: nat)
    requires Lives(c, es) && n < |es|
    ensures Sound(c) && Survived(c, es[..n]) && Survived(c, es[..n + 1])
    ensures var before, now, sent := After(c, es[..n]).sent, After(c, es[..n + 1]).sent, Life(c, es).sent;
      && |before| <= |now| <= |sent|
      && (|before| <= k < |now| ==> sent[k].ackNumber == LastMet(es[..n + 1]))
      && (k < |c.sent| ==> k < |sent| && sent[k].ackNumber == 0)
  {
    hide Sound, Next, Survives, Opened;
    OpenedSound(c);
    OpenedAcknowledges(c);
    LifeGrows(c, es, 0);
    LifeGrows(c, es, n);
    LifeGrows(c, es, n + 1);
    AckIsLastMet(c, es[..n + 1]);
    assert es[..n + 1][..n] == es[..n] && es[..0] == [];
    NextAcknowledges(After(c, es[..n]), es[n]);
  }

  // ----- from one end to the other

  /** The packet a segment arrives as. */
  function PacketOf(e: Endpoints, s: Segment): Packet {
    Packet(e.localPort, e.remotePort, s.seqNumber, s.ackNumber, s.flags, s.data)
  }

  /** Data sent on an established connection enters the other end's buffer as far as there is space, and the ACK it
      draws acknowledges exactly the number the sender goes on with. */
  lemma DataMet(c: Conn, data: seq<Byte>, d: Conn, e: Endpoints, n: bool)
    requires Sound(c) && StateOf(c) == ESTABLISHED && Sound(d) && StateOf(d) == ESTABLISHED
    requires 0 < |data| <= 8192 - |DataSent(c.sent)|
    ensures var c' := Sending(c, data, true);
      |c'.sent| > 0 && var r := Arrive(d, PacketOf(e, c'.sent[|c'.sent| - 1]), true, n);
      && r.accepted == d.accepted + (if |data| <= 4096 - d.ring.count then data else data[..4096 - d.ring.count])
      && r.sent == d.sent + [Bare(false, false, true, d.seqNumber, c'.seqNumber)]
      && r.ackNumber == c'.seqNumber
  {
    hide Sending, Arrive, Space;
    SendingSends(c, data, true);
    var p := PacketOf(e, Sending(c, data, true).sent[|c.sent|]);
    SoundParts(d);
    ArriveAnswers(d, p, true, n);
    ArrivalAccepts(d, p, true, n);
    NextNumber(c, data);
  }

  /** The same for the bytes on the wire. */
  lemma DataArrives(c: Conn, data: seq<Byte>, d: Conn, e: Endpoints, wire: seq<Byte>, beyond: nat -> Byte, n: bool)
    requires Sound(c) && StateOf(c) == ESTABLISHED && Sound(d) && StateOf(d) == ESTABLISHED
    requires 0 < |data| <= 8192 - |DataSent(c.sent)|
    requires var s := Sending(c, data, true).sent; |s| > 0 && Written(wire, e, s[|s| - 1])
    ensures 20 <= |wire| < 0x1_0000_0000
    ensures var r := Arrive(d, Parse(wire, beyond), true, n);
      && r.accepted == d.accepted + (if |data| <= 4096 - d.ring.count then data else data[..4096 - d.ring.count])
      && r.sent == d.sent + [Bare(false, false, true, d.seqNumber, Sending(c, data, true).seqNumber)]
  {
    hide Written, Parse, Sending, Arrive, Space;
    SentLength(c, data, e, wire);
    var s := Sending(c, data, true).sent;
    ParseWritten(wire, e, s[|s| - 1], beyond);
    DataMet(c, data, d, e, n);
  }

  function Joined(chunks: seq<seq<Byte>>): seq<Byte> {
    if chunks == [] then [] else Joined(chunks[..|chunks| - 1]) + chunks[|chunks| - 1]
  }

  /** Both ends after c has sent the chunks and d has met each segment. */
  ghost function Streamed(c: Conn, d: Conn, e: Endpoints, chunks: seq<seq<Byte>>): (r: (Conn, Conn))
    requires Sound(c) && Sound(d)
    ensures Sound(r.0) && Sound(r.1)
    decreases |chunks|
  {
    if chunks == [] then (c, d)
    else
      var r := Streamed(c, d, e, chunks[..|chunks| - 1]);
      var c' := Sending(r.0, chunks[|chunks| - 1], true);
      SendingKeeps(r.0, chunks[|chunks| - 1], true);
      if c'.sent == [] then (c', r.1)
      else
        var p := PacketOf(e, c'.sent[|c'.sent| - 1]);
        ArriveKeeps(r.1, p, true, true);
        (c', Arrive(r.1, p, true, true))
  }

  /** The last segment d has sent acknowledges everything before x. */
  ghost predicate Acknowledges(d: Conn, x: Word) {
    |d.sent| > 0 && d.sent[|d.sent| - 1].ackNumber == d.ackNumber == x
  }

  /** A stream within the window and the space at the other end arrives whole and in order, and the last ACK
      acknowledges all of it. */
  lemma {:induction false} StreamArrives(c: Conn, d: Conn, e: Endpoints, chunks: seq<seq<Byte>>)
    requires Sound(c) && StateOf(c) == ESTABLISHED && Sound(d) && StateOf(d) == ESTABLISHED
    requires forall k: nat :: k < |chunks| ==> chunks[k] != []
    requires |DataSent(c.sent)| + |Joined(chunks)| <= 8192 && d.ring.count + |Joined(chunks)| <= 4096
    ensures var r := Streamed(c, d, e, chunks);
      && StateOf(r.0) == ESTABLISHED && StateOf(r.1) == ESTABLISHED
      && DataSent(r.0.sent) == DataSent(c.sent) + Joined(chunks)
      && r.1.accepted == d.accepted + Joined(chunks)
      && r.1.ring.count == d.ring.count + |Joined(chunks)|
      && (chunks != [] ==> Acknowledges(r.1, r.0.seqNumber))
    decreases |chunks|
  {
    hide Sound, Sending, Arrive, DataSent;
    if chunks != [] {
      var front, data := chunks[..|chunks| - 1], chunks[|chunks| - 1];
      StreamArrives(c, d, e, front);
      var r := Streamed(c, d, e, front);
      assert |Joined(chunks)| == |Joined(front)| + |data| && data[..|data|] == data;
      SendingSends(r.0, data, true);
      SendMoves(r.0, data, true);
      DataMet(r.0, data, r.1, e, true);
      var p := PacketOf(e, Sending(r.0, data, true).sent[|r.0.sent|]);
      StaysEstablished(r.0, data, r.1, p);
    }
  }

  lemma StaysEstablished(c: Conn, data: seq<Byte>, d: Conn, p: Packet)
    requires Sound(c) && StateOf(c) == ESTABLISHED && Sound(d) && StateOf(d) == ESTABLISHED
    requires !p.flags.fin && |p.payload| <= 4096 - d.ring.count
    ensures StateOf(Sending(c, data, true)) == ESTABLISHED
    ensures StateOf(Arrive(d, p, true, true)) == ESTABLISHED
    ensures Arrive(d, p, true, true).ring.count == d.ring.count + |p.payload|
  {
    hide Follows, Accounted, Fitting;
  }

  lemma SentLength(c: Conn, data: seq<Byte>, e: Endpoints, wire: seq<Byte>)
    requires Sound(c) && StateOf(c) == ESTABLISHED && 0 < |data| <= 8192 - |DataSent(c.sent)|
    requires var s := Sending(c, data, true).sent; |s| > 0 && Written(wire, e, s[|s| - 1])
    ensures 20 <= |wire| < 0x1_0000_0000
  {
    hide Sound, Sending;
    SendingSends(c, data, true);
  }

  lemma NextNumber(c: Conn, data: seq<Byte>)
    requires Sound(c) && StateOf(c) == ESTABLISHED && 0 < |data| <= 8192 - |DataSent(c.sent)|
    ensures Sending(c, data, true).seqNumber == (c.seqNumber + |data|) % 0x1_0000_0000
  {
    hide Follows, Queued, DataSent, Syns, Fins, Numbered, FinLast;
  }

  /** connect's SYN opens the peer, whose SYN-ACK acknowledges exactly the number connect goes on with. */
  lemma Handshake(cells: seq<Byte>, cells': seq<Byte>, e: Endpoints, wire: seq<Byte>, beyond: nat -> Byte)
    requires |cells'| == ReceiveRing.SIZE
    requires var s := Connected(cells, true).sent; |s| > 0 && Written(wire, e, s[|s| - 1])
    ensures 20 <= |wire| < 0x1_0000_0000 && ReceiveRing.Sound(Listening(cells').ring)
    ensures var c, r := Connected(cells, true), Arrive(Listening(cells'), Parse(wire, beyond), true, true);
      && StateOf(r) == SYN_RECEIVED
      && r.sent == [Bare(false, true, true, 0x1234_5678, c.seqNumber)]
  {
    hide Written, Parse, ReceiveRing.Sound;
    ListeningSound(cells');
    SoundParts(Listening(cells'));
    ConnectedSends(cells, true);
    SynLength(e, Connected(cells, true).sent[0], wire);
    ParseWritten(wire, e, Connected(cells, true).sent[0], beyond);
    ArriveAnswers(Listening(cells'), Parse(wire, beyond), true, true);
  }

  /** When one end of an established connection closes and every packet arrives, both ends see it through: the one that
      closed ends in TIME_WAIT and the other is dropped, by an ACK for its own FIN. */
  lemma CloseExchange(c: Conn, d: Conn, e: Endpoints)
    requires Sound(c) && StateOf(c) == ESTABLISHED && Sound(d) && StateOf(d) == ESTABLISHED
    ensures var c1, e' := Closing(c, true), Mirrored(e);
      |c1.sent| == |c.sent| + 1 && ReceiveRing.Sound(c1.ring)
      && var d1 := Arrive(d, PacketOf(e, c1.sent[|c.sent|]), true, true);
         |d1.sent| == |d.sent| + 2 && StateOf(d1) == LAST_ACK
         && var c2 := Arrive(c1, PacketOf(e', d1.sent[|d.sent|]), true, true);
            ReceiveRing.Sound(c2.ring) && StateOf(c2) == FIN_WAIT_2
            && var c3 := Arrive(c2, PacketOf(e', d1.sent[|d.sent| + 1]), true, true);
               && StateOf(c3) == TIME_WAIT && |c3.sent| == |c1.sent| + 1
               && DroppedBy(d1, PacketOf(e, c3.sent[|c1.sent|])) && c3.sent[|c1.sent|].ackNumber == d1.seqNumber
  {
    hide Sound, Arrive;
    SoundParts(c);
    SoundParts(d);
    ClosingSends(c, true);
    ClosingKeeps(c, true);
    var c1, e' := Closing(c, true), Mirrored(e);
    SoundParts(c1);
    var p1 := PacketOf(e, c1.sent[|c.sent|]);
    ArriveAnswers(d, p1, true, true);
    FinMet(d, p1);
    var d1 := Arrive(d, p1, true, true);
    var p2, p3 := PacketOf(e', d1.sent[|d.sent|]), PacketOf(e', d1.sent[|d.sent| + 1]);
    AckMet(c1, p2);
    ArriveAnswers(c1, p2, true, true);
    var c2 := Arrive(c1, p2, true, true);
    ArriveAnswers(c2, p3, true, true);
    LastFinMet(c2, p3);
  }

  lemma FinMet(d: Conn, p: Packet)
    requires Sound(d) && StateOf(d) == ESTABLISHED && p.flags.fin
    ensures ReceiveRing.Sound(d.ring)
    ensures var r := Arrive(d, p, true, true); StateOf(r) == LAST_ACK && r.seqNumber == (d.seqNumber + 1) % 0x1_0000_0000
  {
    hide Follows, Accounted;
  }

  lemma AckMet(c: Conn, p: Packet)
    requires ReceiveRing.Sound(c.ring) && StateOf(c) == FIN_WAIT_1 && p.flags.ack
    ensures var r := Arrive(c, p, true, true); StateOf(r) == FIN_WAIT_2 && r.ring == c.ring
  {}

  lemma LastFinMet(c: Conn, p: Packet)
    requires ReceiveRing.Sound(c.ring) && StateOf(c) == FIN_WAIT_2 && p.flags.fin
    ensures StateOf(Arrive(c, p, true, true)) == TIME_WAIT
  {}

  lemma SynLength(e: Endpoints, s: Segment, wire: seq<Byte>)
    requires Written(wire, e, s) && s.data == []
    ensures 20 <= |wire| < 0x1_0000_0000
  {}
}
