/** TCP: connections as objects with mutable fields, and the list they are kept in. */
module Tcp {
  import opened Words
  import ReceiveRing
  import opened TcpConnection
  import opened TcpRuns
  import opened TcpWire

  const SYN_LIMIT := 10

  class Connection {
    const endpoints: Endpoints
    var state: State
    var seqNumber: Word
    var ackNumber: Word
    var sendWindowStart: Word
    var sendWindowEnd: Word
    const recvBuffer: array<Byte>
    var recvStart: nat
    var recvEnd: nat
    var recvCount: nat
    ghost var visited: seq<State>
    ghost var sent: seq<Segment>
    ghost var accepted: seq<Byte>
    ghost var delivered: seq<Byte>
    ghost var origin: Conn  // the connection as it was opened
    ghost var events: seq<Event>  // the packets and calls since then

    ghost function RingView(): ReceiveRing.Ring
      reads this, recvBuffer
    {
      ReceiveRing.Ring(recvBuffer[..], recvStart, recvEnd, recvCount)
    }

    ghost function View(): Conn
      reads this, recvBuffer
    {
      Conn(visited, seqNumber, ackNumber, sendWindowStart, sendWindowEnd, RingView(), sent, accepted, delivered)
    }

    /** The fields fit together. */
    ghost predicate Consistent()
      reads this, recvBuffer
    {
      && recvBuffer.Length == ReceiveRing.SIZE
      && visited != [] && state == visited[|visited| - 1]
      && ReceiveRing.Sound(RingView())
    }

    /** The connection is where its history of packets and calls has led. */
    ghost predicate Valid()
      reads this, recvBuffer
    {
      Consistent() && Lives(origin, events) && View() == Life(origin, events)
    }

    constructor (endpoints: Endpoints)
      ensures Consistent() && fresh(recvBuffer)
      ensures this.endpoints == endpoints
      ensures View() == Fresh(recvBuffer[..])
    {
      this.endpoints := endpoints;
      state := CLOSED;
      seqNumber := INITIAL;
      ackNumber := 0;
      sendWindowStart := INITIAL;
      sendWindowEnd := Wrap(INITIAL + WINDOW);
      recvBuffer := new Byte[ReceiveRing.SIZE];
      recvStart, recvEnd, recvCount := 0, 0, 0;
      visited, sent, accepted, delivered := [CLOSED], [], [], [];
    }

    /** History only: the connection has been opened. */
    ghost method Begin()
      requires Consistent() && Opened(View())
      modifies this`origin, this`events
      ensures Valid() && origin == View() == old(View()) && events == []
    {
      hide Lives, Life, Opened;
      LifeBegins(View());
      origin, events := View(), [];
    }

    /** History only: e has brought the connection to its present state. */
    ghost method Record(e: Event)
      requires Consistent() && Lives(origin, events) && Survives(Life(origin, events), e)
      requires View() == Next(Life(origin, events), e)
      modifies this`events
      ensures Valid() && View() == old(View()) && events == old(events) + [e]
    {
      hide Lives, Life, Survives, Next;
      LifeExtends(origin, events, e);
      events := events + [e];
    }

    method SetState(s: State)
      requires Consistent()
      modifies this`state, this`visited
      ensures Consistent() && View() == Enter(old(View()), s)
    {
      state := s;
      visited := visited + [s];
    }

    /** The packet handed to IPv4 for the remote address, null when none is. */
    method SendPacket(flags: Flags, data: seq<Byte>, memory: bool) returns (packet: array?<Byte>)
      requires Consistent()
      modifies this`sent, this`seqNumber, this`sendWindowStart
      ensures Consistent() && View() == Transmit(old(View()), flags, data, memory)
      ensures packet == null <==> sent == old(sent)
      ensures packet != null ==>
        fresh(packet) && |sent| == |old(sent)| + 1 && Written(packet[..], endpoints, sent[|sent| - 1])
    {
      hide Wrap, Written, ReceiveRing.Sound;
      WrapWord(seqNumber);
      WrapWord(sendWindowStart);
      var dataSize := |data|;
      if dataSize > 0 && state == ESTABLISHED {
        var available := Wrap(sendWindowEnd - sendWindowStart);
        if dataSize > available { dataSize := available; }
        if dataSize == 0 { return null; }
      }
      if !memory { return null; }
      var segment := Segment(flags, seqNumber, ackNumber, data[..dataSize]);
      packet := new Byte[HEADER_SIZE + dataSize];
      Fill(packet, endpoints, segment);
      sent := sent + [segment];
      CountSent(flags, dataSize);
    }

    /** Sequence number and send window after a segment. */
    method CountSent(flags: Flags, dataSize: nat)
      requires Consistent()
      modifies this`seqNumber, this`sendWindowStart
      ensures Consistent()
      ensures seqNumber == Wrap(old(seqNumber) + dataSize + One(flags.syn) + One(flags.fin))
      ensures sendWindowStart ==
        if state == ESTABLISHED then Wrap(old(sendWindowStart) + dataSize) else old(sendWindowStart)
    {
      hide Wrap, ReceiveRing.Sound;
      WrapWord(seqNumber);
      WrapWord(sendWindowStart);
      if dataSize > 0 || flags.syn || flags.fin {
        WrapTwice(seqNumber + dataSize, One(flags.syn));
        WrapTwice(seqNumber + dataSize + One(flags.syn), One(flags.fin));
        seqNumber := Wrap(seqNumber + dataSize);
        if flags.syn { seqNumber := Wrap(seqNumber + 1); }
        if flags.fin { seqNumber := Wrap(seqNumber + 1); }
        if dataSize > 0 && state == ESTABLISHED {
          sendWindowStart := Wrap(sendWindowStart + dataSize);
        }
      }
    }

    /** The update of the acknowledgment number in handle_packet. */
    method Acknowledge(p: Packet)
      requires Consistent()
      modifies this`ackNumber
      ensures Consistent() && View() == Acknowledged(old(View()), p) && state == old(state)
    {
      ackNumber := Wrap(p.seqNumber + |p.payload|);
      if p.flags.syn { ackNumber := Wrap(ackNumber + 1); }
      if p.flags.fin { ackNumber := Wrap(ackNumber + 1); }
      WrapTwice(p.seqNumber + |p.payload|, One(p.flags.syn));
      WrapTwice(p.seqNumber + |p.payload| + One(p.flags.syn), One(p.flags.fin));
    }

    /** The copying loop of handle_packet. */
    method PutBytes(payload: seq<Byte>, n: nat)
      requires Consistent() && n <= |payload| && recvCount + n <= ReceiveRing.SIZE
      modifies this`recvEnd, this`recvCount, recvBuffer
      ensures Consistent() && RingView() == ReceiveRing.Put(old(RingView()), payload[..n])
    {
      ghost var ring := RingView();
      var i := 0;
      while i < n
        modifies this`recvEnd, recvBuffer
        invariant i <= n
        invariant ReceiveRing.Ring(recvBuffer[..], recvStart, recvEnd, recvCount + i)
          == ReceiveRing.Put(ring, payload[..i])
      {
        assert payload[..i + 1][..i] == payload[..i];
        recvBuffer[recvEnd] := payload[i];
        recvEnd := (recvEnd + 1) % ReceiveRing.SIZE;
        i := i + 1;
      }
      recvCount := recvCount + n;
    }

    /** A payload enters the buffer as far as there is space. */
    method BufferPayload(payload: seq<Byte>)
      requires Consistent()
      modifies this`recvEnd, this`recvCount, this`accepted, recvBuffer
      ensures Consistent() && View() == Buffered(old(View()), payload)
    {
      hide ReceiveRing.Put;
      var spaceAvailable := ReceiveRing.SIZE - recvCount;
      var bytesToCopy := if |payload| < spaceAvailable then |payload| else spaceAvailable;
      PutBytes(payload, bytesToCopy);
      accepted := accepted + payload[..bytesToCopy];
    }

    /** One incoming packet: its segments are answered, its data buffered, its state moved on. */
    method Advance(p: Packet, first: bool, second: bool)
      requires Consistent() && !DroppedBy(View(), p)
      modifies this`state, this`visited, this`ackNumber, this`sent, this`seqNumber, this`sendWindowStart
      modifies this`recvEnd, this`recvCount, this`accepted, recvBuffer
      ensures Consistent() && View() == Arrive(old(View()), p, first, second)
    {
      hide Transmit, Buffered, Enter, Acknowledged, ReceiveRing.Sound;
      Acknowledge(p);
      match state {
        case LISTEN =>
          if p.flags.syn {
            SetState(SYN_RECEIVED);
            var packet := SendPacket(SYN_ACK, [], first);
          }
        case SYN_SENT =>
          if p.flags.syn && p.flags.ack {
            SetState(ESTABLISHED);
            var packet := SendPacket(ACK, [], first);
          }
        case SYN_RECEIVED =>
          if p.flags.ack { SetState(ESTABLISHED); }
        case ESTABLISHED =>
          if p.flags.fin {
            SetState(CLOSE_WAIT);
            var packet := SendPacket(ACK, [], first);
            SetState(LAST_ACK);
            packet := SendPacket(FIN_ACK, [], second);
          } else if |p.payload| > 0 {
            BufferPayload(p.payload);
            var packet := SendPacket(ACK, [], first);
          }
        case FIN_WAIT_1 =>
          if p.flags.ack { SetState(FIN_WAIT_2); }
        case FIN_WAIT_2 =>
          if p.flags.fin {
            SetState(TIME_WAIT);
            var packet := SendPacket(ACK, [], first);
          }
        case _ =>
      }
    }

    /** The states and flags for which handle_packet drops the connection. */
    method IsDroppedBy(p: Packet) returns (dropped: bool)
      requires Valid()
      ensures dropped == DroppedBy(View(), p)
    {
      return (state == LAST_ACK && p.flags.ack) || state == TIME_WAIT;
    }

    /** The part of handle_packet that follows the lookup, for a packet that does not drop the connection. */
    method Meet(p: Packet, first: bool, second: bool)
      requires Valid() && !DroppedBy(View(), p)
      modifies this, recvBuffer
      ensures Valid() && View() == Arrive(old(View()), p, first, second)
      ensures origin == old(origin) && events == old(events) + [Arrival(p, first, second)]
    {
      hide Lives, Life, Arrive, ReceiveRing.Sound;
      Advance(p, first, second);
      Record(Arrival(p, first, second));
    }

    /** The part of connect that follows create_connection. */
    method Connect(buffer: bool)
      requires Consistent() && View() == Fresh(recvBuffer[..])
      modifies this
      ensures Valid() && View() == origin == Connected(recvBuffer[..], buffer) && events == []
    {
      hide Lives, Life, Opened, Transmit, Enter, Fresh, ReceiveRing.Sound;
      SetState(SYN_SENT);
      var packet := SendPacket(SYN, [], buffer);
      SetState(ESTABLISHED);
      ConnectedOpened(recvBuffer[..], buffer);
      Begin();
    }

    /** The part of listen and handle_packet that follows create_connection. */
    method Listen()
      requires Consistent() && View() == Fresh(recvBuffer[..])
      modifies this
      ensures Valid() && View() == origin == Listening(recvBuffer[..]) && events == []
    {
      hide Lives, Life, Opened, Enter, Fresh, ReceiveRing.Sound;
      SetState(LISTEN);
      ListeningOpened(recvBuffer[..]);
      Begin();
    }

    method Send(data: seq<Byte>, memory: bool) returns (count: int)
      requires Valid() && |data| < 0x1_0000_0000
      modifies this
      ensures Valid() && View() == Sending(old(View()), data, memory)
      ensures origin == old(origin) && events == old(events) + [SendCall(data, memory)]
      ensures count == if old(state) == ESTABLISHED then Signed(|data|) else -1
    {
      hide Lives, Life, Transmit, ReceiveRing.Sound;
      count := -1;
      if state == ESTABLISHED {
        var packet := SendPacket(PSH_ACK, data, memory);
        count := Signed(|data|);
      }
      Record(SendCall(data, memory));
    }

    /** close in state ESTABLISHED. */
    method Close(memory: bool)
      requires Valid() && state == ESTABLISHED
      modifies this
      ensures Valid() && View() == Closing(old(View()), memory)
      ensures origin == old(origin) && events == old(events) + [CloseCall(memory)]
    {
      hide Lives, Life, Transmit, Enter, ReceiveRing.Sound;
      SetState(FIN_WAIT_1);
      var packet := SendPacket(FIN_ACK, [], memory);
      Record(CloseCall(memory));
    }

    /** The copying loop of recv. */
    method TakeBytes(buffer: array<Byte>, n: nat)
      requires Consistent() && n <= recvCount && n <= buffer.Length && buffer != recvBuffer
      modifies this`recvStart, this`recvCount, buffer
      ensures Consistent() && RingView() == ReceiveRing.Taken(old(RingView()), n)
      ensures forall j :: 0 <= j < n ==> buffer[j] == ReceiveRing.Queue(old(RingView()))[j]
      ensures forall j :: n <= j < buffer.Length ==> buffer[j] == old(buffer[j])
    {
      hide ReceiveRing.Queue, ReceiveRing.Sound;
      ReceiveRing.Bounds(RingView());
      ghost var ring := RingView();
      ghost var q := ReceiveRing.Queue(ring);
      var i := 0;
      while i < n
        modifies this`recvStart, buffer
        invariant i <= n && recvStart == ReceiveRing.Ahead(ring.start, i)
        invariant forall j :: 0 <= j < i ==> buffer[j] == q[j]
        invariant forall j :: i <= j < buffer.Length ==> buffer[j] == old(buffer[j])
      {
        ReceiveRing.AheadTwice(ring.start, i, 1);
        ReceiveRing.QueueAt(ring, i);
        buffer[i] := recvBuffer[recvStart];
        recvStart := (recvStart + 1) % ReceiveRing.SIZE;
        i := i + 1;
      }
      recvCount := recvCount - n;
      ReceiveRing.TakenSound(ring, n);
    }

    method HandOut(buffer: array<Byte>, size: nat) returns (count: int)
      requires Consistent() && |Readout(View(), size)| <= buffer.Length && buffer != recvBuffer
      modifies this`recvStart, this`recvCount, this`delivered, buffer
      ensures Consistent() && View() == Receiving(old(View()), size)
      ensures count == if state == ESTABLISHED then |Readout(old(View()), size)| else -1
      ensures buffer[..] == Readout(old(View()), size) + old(buffer[..])[|Readout(old(View()), size)|..]
      ensures state != ESTABLISHED ==> buffer[..] == old(buffer[..])
    {
      hide ReceiveRing.Queue, ReceiveRing.Sound, ReceiveRing.Taken;
      ghost var read := Readout(View(), size);
      if state != ESTABLISHED { return -1; }
      count := if size < recvCount then size else recvCount;
      TakeBytes(buffer, count);
      delivered := delivered + read;
    }

    /** There must be room for what is handed out, however much is asked for. */
    method Recv(buffer: array<Byte>, size: nat) returns (count: int)
      requires Valid() && |Readout(View(), size)| <= buffer.Length && buffer != recvBuffer
      modifies this, buffer
      ensures Valid() && View() == Receiving(old(View()), size)
      ensures origin == old(origin) && events == old(events) + [RecvCall(size)]
      ensures count == if old(state) == ESTABLISHED then |Readout(old(View()), size)| else -1
      ensures buffer[..] == Readout(old(View()), size) + old(buffer[..])[|Readout(old(View()), size)|..]
      ensures old(state) != ESTABLISHED ==> buffer[..] == old(buffer[..])
    {
      hide Lives, Life, Receiving, Readout, ReceiveRing.Sound;
      count := HandOut(buffer, size);
      Record(RecvCall(size));
    }
  }

  /** A 32-bit number as the code's int. */
  function Signed(n: Word): int {
    if n < 0x8000_0000 then n else n - 0x1_0000_0000
  }

  // ----- the list of connections

  /** The newest connection with the given endpoints. */
  function Find(connections: seq<Connection>, e: Endpoints): (c: Connection?)
    ensures c != null ==> c in connections && c.endpoints == e
    ensures c == null ==> forall d :: d in connections ==> d.endpoints != e
  {
    if connections == [] then null
    else if connections[0].endpoints == e then connections[0]
    else Find(connections[1..], e)
  }

  /** No newer connection has the endpoints. */
  lemma {:induction false} FindsNewest(connections: seq<Connection>, e: Endpoints)
    ensures Find(connections, e) == null ||
      exists i: nat {:trigger connections[i]} :: i < |connections| && connections[i] == Find(connections, e)
        && forall j: nat :: j < i ==> connections[j].endpoints != e
  {
    if connections != [] && connections[0].endpoints != e && Find(connections, e) != null {
      var rest := connections[1..];
      FindsNewest(rest, e);
      var i: nat :| i < |rest| && rest[i] == Find(rest, e) && forall j: nat :: j < i ==> rest[j].endpoints != e;
      assert connections[i + 1] == rest[i];
      assert forall j: nat :: 0 < j < i + 1 ==> connections[j] == rest[j - 1];
    }
  }

  function Without(connections: seq<Connection>, c: Connection): seq<Connection> {
    if connections == [] then []
    else if connections[0] == c then connections[1..]
    else [connections[0]] + Without(connections[1..], c)
  }

  lemma {:induction false} WithoutAt(connections: seq<Connection>, c: Connection, i: nat)
    requires i < |connections| && connections[i] == c
    requires forall j: nat :: j < i ==> connections[j] != c
    ensures Without(connections, c) == connections[..i] + connections[i + 1..]
    decreases i
  {
    if i > 0 {
      WithoutAt(connections[1..], c, i - 1);
      assert connections[..i] == [connections[0]] + connections[1..][..i - 1];
    }
  }

  lemma {:induction false} WithoutAbsent(connections: seq<Connection>, c: Connection)
    requires c !in connections
    ensures Without(connections, c) == connections
  {
    if connections != [] {
      WithoutAbsent(connections[1..], c);
    }
  }

  ghost predicate Distinct(connections: seq<Connection>) {
    forall i: nat, j: nat :: i < j < |connections| ==>
      connections[i] != connections[j] && connections[i].recvBuffer != connections[j].recvBuffer
  }

  ghost predicate AllValid(connections: seq<Connection>)
    reads set c | c in connections
    reads set c | c in connections :: c.recvBuffer
  {
    forall c :: c in connections ==> c.Valid()
  }

  /** The connections other than the given one are, and have lived, as before. */
  twostate predicate Untouched(connections: seq<Connection>, c: Connection?)
    reads set d | d in connections
    reads set d | d in connections :: d.recvBuffer
  {
    forall d :: d in connections && d != c ==>
      d.View() == old(d.View()) && d.origin == old(d.origin) && d.events == old(d.events)
  }

  /** The connection started out listening, and all that has happened to it is the packet. */
  ghost predicate Met(c: Connection, p: Packet, first: bool, second: bool)
    reads c
  {
    c.origin == Listening(c.origin.ring.cells) && c.events == [Arrival(p, first, second)]
  }

  lemma ListeningOpened(cells: seq<Byte>)
    requires |cells| == ReceiveRing.SIZE
    ensures Opened(Listening(cells))
  {
    assert OpenedWith(Listening(cells), cells);
  }

  lemma ConnectedOpened(cells: seq<Byte>, packet: bool)
    requires |cells| == ReceiveRing.SIZE
    ensures Opened(Connected(cells, packet))
  {
    assert OpenedWith(Connected(cells, packet), cells);
  }

  /** A segment written by a connection with endpoints e finds, at the other end, the newest connection that has them
      mirrored, and finds one whenever there is one. */
  lemma SegmentFindsPeer(connections: seq<Connection>, e: Endpoints, s: Segment, data: seq<Byte>, beyond: nat -> Byte)
    requires Written(data, e, s) && |data| < 0x1_0000_0000
    ensures var p := Parse(data, beyond);
      var peer := Find(connections, Endpoints(e.remoteIp, e.localIp, p.destPort, p.srcPort));
      && (peer != null <==> exists d :: d in connections && d.endpoints == Mirrored(e))
      && (peer != null ==> peer in connections && peer.endpoints == Mirrored(e))
  {
    ParseWritten(data, e, s, beyond);
  }

  class Stack {
    var connections: seq<Connection>
    var nextEphemeralPort: Port
    var synCount: Word

    ghost predicate Valid()
      reads this
      reads set c | c in connections
      reads set c | c in connections :: c.recvBuffer
    {
      Distinct(connections) && AllValid(connections)
    }

    constructor ()
      ensures Valid() && connections == [] && nextEphemeralPort == 49152 && synCount == 0
    {
      connections := [];
      nextEphemeralPort := 49152;
      synCount := 0;
    }

    method FindConnection(e: Endpoints) returns (conn: Connection?)
      ensures conn == Find(connections, e)
    {
      var i := 0;
      while i < |connections|
        invariant i <= |connections| && Find(connections, e) == Find(connections[i..], e)
      {
        if connections[i].endpoints == e { return connections[i]; }
        i := i + 1;
      }
      return null;
    }

    /** The new connection has not been opened yet. */
    method CreateConnection(e: Endpoints, memory: bool) returns (conn: Connection?)
      requires Valid()
      modifies this`connections
      ensures Distinct(connections) && AllValid(old(connections)) && (conn == null <==> !memory)
      ensures conn == null ==> connections == old(connections)
      ensures conn != null ==> fresh(conn) && fresh(conn.recvBuffer) && connections == [conn] + old(connections)
      ensures conn != null ==> conn.Consistent() && conn.endpoints == e && conn.View() == Fresh(conn.recvBuffer[..])
    {
      if !memory { return null; }
      conn := new Connection(e);
      connections := [conn] + connections;
    }

    /** A new connection that waits for packets. */
    method CreateListening(e: Endpoints, memory: bool) returns (conn: Connection?)
      requires Valid()
      modifies this`connections
      ensures Valid() && (conn == null <==> !memory)
      ensures conn == null ==> connections == old(connections)
      ensures conn != null ==> fresh(conn) && fresh(conn.recvBuffer) && connections == [conn] + old(connections)
      ensures conn != null ==> conn.endpoints == e && conn.View() == Listening(conn.recvBuffer[..]) == conn.origin
      ensures conn != null ==> conn.events == []
    {
      hide Connection.Valid, Connection.Consistent, Connection.View, Connection.RingView;
      conn := CreateConnection(e, memory);
      if conn == null { return; }
      conn.Listen();
    }

    method RemoveConnection(conn: Connection?)
      requires Distinct(connections)
      requires forall c :: c in connections && c != conn ==> c.Valid()
      modifies this`connections
      ensures Valid()
      ensures connections == if conn == null then old(connections) else Without(old(connections), conn)
    {
      hide Connection.Valid;
      if conn == null { return; }
      var i := 0;
      while i < |connections| && connections[i] != conn
        invariant i <= |connections| && forall j: nat :: j < i ==> connections[j] != conn
      {
        i := i + 1;
      }
      if i < |connections| {
        WithoutAt(connections, conn, i);
        connections := connections[..i] + connections[i + 1..];
      } else {
        WithoutAbsent(connections, conn);
      }
    }

    /** The part of handle_packet that drops a connection. */
    method Drop(conn: Connection, p: Packet)
      requires Valid() && conn in connections
      modifies this`connections, conn`ackNumber
      ensures Valid() && Untouched(old(connections), conn) && connections == Without(old(connections), conn)
    {
      hide Lives, Life, Acknowledged, ReceiveRing.Sound;
      conn.Acknowledge(p);
      RemoveConnection(conn);
    }

    /** The part of handle_packet that follows the lookup. */
    method Deliver(conn: Connection, p: Packet, first: bool, second: bool)
      requires Valid() && conn in connections
      modifies this`connections, conn, conn.recvBuffer
      ensures Valid() && Untouched(old(connections), conn)
      ensures Delivered(old(connections), conn, p, first, second)
    {
      hide Connection.Valid, Connection.Consistent, Connection.View, Connection.RingView, Arrive, DroppedBy;
      var dropped := conn.IsDroppedBy(p);
      if dropped {
        Drop(conn, p);
      } else {
        conn.Meet(p, first, second);
      }
    }

    /** The packet has dropped the connection from the list or moved it on. */
    twostate predicate Delivered(before: seq<Connection>, conn: Connection, p: Packet, first: bool, second: bool)
      requires old(conn.Valid())
      reads this`connections, conn, conn.recvBuffer
    {
      if DroppedBy(old(conn.View()), p) then connections == Without(before, conn)
      else
        && connections == before && conn.View() == Arrive(old(conn.View()), p, first, second)
        && conn.origin == old(conn.origin) && conn.events == old(conn.events) + [Arrival(p, first, second)]
    }

    /** The part of handle_packet that meets a packet from an unknown peer. */
    method Admit(e: Endpoints, p: Packet, mayCreate: bool) returns (conn: Connection?)
      requires Valid()
      modifies this`connections, this`synCount
      ensures Valid()
      ensures synCount == if p.flags.syn then Wrap(old(synCount) + 1) else old(synCount)
      ensures conn != null <==> p.flags.syn && mayCreate && synCount <= SYN_LIMIT
      ensures conn == null ==> connections == old(connections)
      ensures conn != null ==> fresh(conn) && fresh(conn.recvBuffer) && connections == [conn] + old(connections)
      ensures conn != null ==> conn.endpoints == e && conn.View() == Listening(conn.recvBuffer[..]) == conn.origin
      ensures conn != null ==> conn.events == []
    {
      if !p.flags.syn { return null; }
      synCount := Wrap(synCount + 1);
      if synCount > SYN_LIMIT { return null; }
      conn := CreateListening(e, mayCreate);
    }

    /** beyond is what follows the segment in memory; mayCreate, first and second say whether a new connection and
        the two packets that may have to be sent can be allocated. A segment leads to its connection, and no other,
        being dropped or moved on; one from an unknown peer opens a connection when it carries SYN, the limit is not
        reached and there is memory. */
    method HandlePacket(localIp: Word, srcIp: Word, data: seq<Byte>, beyond: nat -> Byte, mayCreate: bool,
                        first: bool, second: bool)
      requires Valid() && |data| < 0x1_0000_0000
      modifies this`connections, this`synCount
      modifies set c | c in connections
      modifies set c | c in connections :: c.recvBuffer
      ensures Valid()
      ensures |data| < HEADER_SIZE ==> connections == old(connections) && Untouched(old(connections), null)
      ensures HEADER_SIZE <= |data| ==>
        var p := Parse(data, beyond);
        var known := Find(old(connections), Endpoints(localIp, srcIp, p.destPort, p.srcPort));
        && Untouched(old(connections), known)
        && if known != null then synCount == old(synCount) && Delivered(old(connections), known, p, first, second)
           else
             && synCount == (if p.flags.syn then Wrap(old(synCount) + 1) else old(synCount))
             && if !p.flags.syn || synCount > 10 || !mayCreate then connections == old(connections)
                else
                  && |connections| > 0 && connections[1..] == old(connections)
                  && connections[0].endpoints == Endpoints(localIp, srcIp, p.destPort, p.srcPort)
                  && Met(connections[0], p, first, second)
    {
      hide Connection.Valid, Connection.Consistent, Connection.View, Connection.RingView;
      hide Arrive, Parse, Find, Wrap, Distinct;
      if |data| < HEADER_SIZE { return; }
      var p := Parse(data, beyond);
      var conn := FindConnection(Endpoints(localIp, srcIp, p.destPort, p.srcPort));
      if conn == null {
        conn := Admit(Endpoints(localIp, srcIp, p.destPort, p.srcPort), p, mayCreate);
      }
      if conn == null { return; }
      Deliver(conn, p, first, second);
    }

    method Listen(localIp: Word, port: Port, memory: bool) returns (conn: Connection?)
      requires Valid()
      modifies this`connections
      ensures Valid() && (conn == null <==> !memory)
      ensures conn == null ==> connections == old(connections)
      ensures conn != null ==> fresh(conn) && connections == [conn] + old(connections)
      ensures conn != null ==>
        conn.endpoints == Endpoints(localIp, 0, port, 0) && conn.View() == Listening(conn.recvBuffer[..])
    {
      conn := CreateListening(Endpoints(localIp, 0, port, 0), memory);
    }

    method Connect(localIp: Word, destIp: Word, destPort: Port, memory: bool, packet: bool) returns (conn: Connection?)
      requires Valid()
      modifies this`connections, this`nextEphemeralPort
      ensures Valid() && (conn == null <==> !memory)
      ensures nextEphemeralPort == (old(nextEphemeralPort) + 1) % 0x1_0000
      ensures conn == null ==> connections == old(connections)
      ensures conn != null ==> fresh(conn) && connections == [conn] + old(connections)
      ensures conn != null ==> conn.endpoints == Endpoints(localIp, destIp, old(nextEphemeralPort), destPort)
      ensures conn != null ==> conn.View() == Connected(conn.recvBuffer[..], packet)
    {
      hide Connection.Valid, Connection.Consistent, Connection.View, Connection.RingView;
      var localPort := nextEphemeralPort;
      nextEphemeralPort := (nextEphemeralPort + 1) % 0x1_0000;
      conn := CreateConnection(Endpoints(localIp, destIp, localPort, destPort), memory);
      if conn == null { return; }
      conn.Connect(packet);
    }

    /** The handle is a connection that has not been removed; the code's size is a uint32_t, its result an int. */
    method Send(conn: Connection?, data: seq<Byte>, memory: bool) returns (count: int)
      requires Valid() && (conn != null ==> conn in connections) && |data| < 0x1_0000_0000
      modifies if conn != null then {conn} else {}
      ensures Valid() && Untouched(connections, conn)
      ensures conn == null ==> count == -1
      ensures conn != null ==> conn.View() == Sending(old(conn.View()), data, memory)
      ensures conn != null ==> conn.events == old(conn.events) + [SendCall(data, memory)]
      ensures conn != null ==> count == if old(conn.state) == ESTABLISHED then Signed(|data|) else -1
    {
      hide Connection.Valid, Connection.Consistent, Connection.View, Connection.RingView;
      if conn == null { return -1; }
      count := conn.Send(data, memory);
    }

    /** The handle is a connection that has not been removed. */
    method Recv(conn: Connection?, buffer: array<Byte>, size: nat) returns (count: int)
      requires Valid() && (conn != null ==> conn in connections && |Readout(conn.View(), size)| <= buffer.Length)
      requires forall c :: c in connections ==> c.recvBuffer != buffer
      modifies buffer
      modifies if conn != null then {conn} else {}
      ensures Valid() && Untouched(connections, conn)
      ensures conn == null || old(conn.state) != ESTABLISHED ==> count == -1 && buffer[..] == old(buffer[..])
      ensures conn != null ==> conn.View() == Receiving(old(conn.View()), size)
      ensures conn != null ==> conn.events == old(conn.events) + [RecvCall(size)]
      ensures conn != null ==> var read := Readout(old(conn.View()), size);
        && count == (if old(conn.state) == ESTABLISHED then |read| else -1)
        && buffer[..] == read + old(buffer[..])[|read|..]
    {
      hide Connection.Valid, Connection.Consistent, Connection.View, Connection.RingView;
      if conn == null { return -1; }
      count := conn.Recv(buffer, size);
    }

    method Close(conn: Connection?, memory: bool)
      requires Valid() && (conn != null ==> conn in connections)
      modifies this`connections
      modifies if conn != null then {conn} else {}
      ensures Valid() && Untouched(old(connections), conn)
      ensures conn == null ==> connections == old(connections)
      ensures conn != null && old(conn.state) == ESTABLISHED ==>
        connections == old(connections) && conn.View() == Closing(old(conn.View()), memory)
        && conn.events == old(conn.events) + [CloseCall(memory)]
      ensures conn != null && old(conn.state) != ESTABLISHED ==>
        connections == Without(old(connections), conn) && conn.View() == old(conn.View())
    {
      hide Connection.Valid, Connection.Consistent, Connection.View, Connection.RingView;
      if conn == null { return; }
      if conn.state == ESTABLISHED {
        conn.Close(memory);
      } else {
        RemoveConnection(conn);
      }
    }
  }
}
