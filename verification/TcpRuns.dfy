/** Whole lives of a TCP connection: any sequence of packets and calls it survives. */
module TcpRuns {
  import opened Words
  import ReceiveRing
  import opened TcpConnection

  datatype Event =
    | Arrival(packet: Packet, first: bool, second: bool)
    | SendCall(data: seq<Byte>, memory: bool)
    | RecvCall(size: nat)
    | CloseCall(memory: bool)

  /** A connection as listen, a SYN to an unknown connection, or connect leaves it. */
  ghost predicate Opened(c: Conn) {
    exists cells: seq<Byte> :: OpenedWith(c, cells)
  }

  predicate OpenedWith(c: Conn, cells: seq<Byte>) {
    |cells| == ReceiveRing.SIZE
      && (c == Listening(cells) || c == Connected(cells, false) || c == Connected(cells, true))
  }

  /** The event does not remove the connection. */
  predicate Survives(c: Conn, e: Event) {
    match e
    case Arrival(p, _, _) => !DroppedBy(c, p)
    case CloseCall(_) => StateOf(c) == ESTABLISHED
    case _ => true
  }

  ghost function Next(c: Conn, e: Event): Conn
    requires ReceiveRing.Sound(c.ring)
  {
    match e
    case Arrival(p, m, n) => Arrive(c, p, m, n)
    case SendCall(data, m) => Sending(c, data, m)
    case RecvCall(size) => Receiving(c, size)
    case CloseCall(m) => Closing(c, m)
  }

  lemma NextKeeps(c: Conn, e: Event)
    requires Sound(c) && Survives(c, e)
    ensures Sound(Next(c, e))
  {
    hide Sound, Arrive, Sending, Receiving, Closing;
    match e
    case Arrival(p, m, n) => ArriveKeeps(c, p, m, n);
    case SendCall(data, m) => SendingKeeps(c, data, m);
    case RecvCall(size) => ReceivingKeeps(c, size);
    case CloseCall(m) => ClosingKeeps(c, m);
  }

  ghost predicate Survived(c: Conn, es: seq<Event>)
    requires Sound(c)
    decreases |es|, 0
  {
    es == [] || (Survived(c, es[..|es| - 1]) && Survives(After(c, es[..|es| - 1]), es[|es| - 1]))
  }

  /** The connection after the events es, all survived. */
  ghost function After(c: Conn, es: seq<Event>): (d: Conn)
    requires Sound(c) && Survived(c, es)
    ensures Sound(d)
    decreases |es|, 1
  {
    if es == [] then c
    else
      var d := After(c, es[..|es| - 1]);
      NextKeeps(d, es[|es| - 1]);
      Next(d, es[|es| - 1])
  }

  lemma OpenedSound(c: Conn)
    requires Opened(c)
    ensures Sound(c)
  {
    hide Sound, Listening, Connected;
    var cells: seq<Byte> :| OpenedWith(c, cells);
    ListeningSound(cells);
    ConnectedSound(cells, false);
    ConnectedSound(cells, true);
  }

  /** A life: the events es, all survived, of a connection opened as c. */
  ghost predicate Lives(c: Conn, es: seq<Event>) {
    Opened(c) && (OpenedSound(c); Survived(c, es))
  }

  ghost function Life(c: Conn, es: seq<Event>): (d: Conn)
    requires Lives(c, es)
    ensures Sound(d)
  {
    OpenedSound(c);
    After(c, es)
  }

  lemma LifeBegins(c: Conn)
    requires Opened(c)
    ensures Lives(c, []) && Life(c, []) == c
  {
    OpenedSound(c);
  }

  lemma LifeExtends(c: Conn, es: seq<Event>, e: Event)
    requires Lives(c, es) && Survives(Life(c, es), e)
    ensures Lives(c, es + [e]) && Life(c, es + [e]) == Next(Life(c, es), e)
  {
    hide Sound, Next, Survives;
    OpenedSound(c);
    assert (es + [e])[..|es|] == es;
  }

  // ----- safety over whole lives

  /** At most one SYN and one FIN are ever sent and at most 8192 bytes of data; the sequence number is the
      initial one plus what was sent, without wrapping; the window's start never passes its end. */
  lemma LifeAccounts(c: Conn, es: seq<Event>)
    requires Lives(c, es)
    ensures var d := Life(c, es);
      && Syns(d.sent) <= 1 && Fins(d.sent) <= 1
      && |DataSent(d.sent)| <= 8192
      && d.seqNumber == 0x1234_5678 + |DataSent(d.sent)| + Syns(d.sent) + Fins(d.sent)
      && d.windowStart == 0x1234_5678 + |DataSent(d.sent)| <= d.windowEnd == 0x1234_5678 + 8192
  {
    hide Life, Lives, Syns, Fins, DataSent;
  }

  /** The reader gets the accepted bytes in order: those handed out, then those still buffered. */
  lemma LifeIsFifo(c: Conn, es: seq<Event>)
    requires Lives(c, es)
    ensures var d := Life(c, es);
      && d.accepted == d.delivered + ReceiveRing.Queue(d.ring)
      && d.ring.end == (d.ring.start + d.ring.count) % 4096
      && d.ring.count <= 4096
  {
    hide Life, Lives, Follows, Accounted, ReceiveRing.Queue;
  }

  /** The states of a connection form a path of the diagram of RFC 9293 that never goes back. */
  lemma LifeFollowsDiagram(c: Conn, es: seq<Event>)
    requires Lives(c, es)
    ensures Follows(Life(c, es).visited)
  {
    hide Life, Lives;
  }

  // ----- histories only grow

  ghost predicate Grown(c: Conn, d: Conn) {
    c.visited <= d.visited && c.sent <= d.sent && c.accepted <= d.accepted && c.delivered <= d.delivered
  }

  lemma TransmitGrows(c: Conn, flags: Flags, data: seq<Byte>, m: bool)
    ensures Grown(c, Transmit(c, flags, data, m))
  {}

  lemma EnterGrows(c: Conn, s: State)
    ensures Grown(c, Enter(c, s))
  {}

  lemma GrownTwice(b: Conn, c: Conn, d: Conn)
    requires Grown(b, c) && Grown(c, d)
    ensures Grown(b, d)
  {}

  lemma EnterTransmitGrows(c: Conn, s: State, flags: Flags, m: bool)
    ensures Grown(c, Transmit(Enter(c, s), flags, [], m))
  {}

  lemma ArriveGrows(c: Conn, p: Packet, m: bool, n: bool)
    requires Sound(c)
    ensures Grown(c, Arrive(c, p, m, n))
  {
    hide Sound, Transmit, Grown, Enter, Buffered;
    var a := Acknowledged(c, p);
    AcknowledgedGrows(c, p);
    EnterGrows(a, ESTABLISHED);
    EnterGrows(a, FIN_WAIT_2);
    EnterTransmitGrows(a, SYN_RECEIVED, SYN_ACK, m);
    EnterTransmitGrows(a, ESTABLISHED, ACK, m);
    EnterTransmitGrows(a, TIME_WAIT, ACK, m);
    EnterTransmitGrows(a, CLOSE_WAIT, ACK, m);
    var b := Transmit(Enter(a, CLOSE_WAIT), ACK, [], m);
    EnterTransmitGrows(b, LAST_ACK, FIN_ACK, n);
    GrownTwice(a, b, Transmit(Enter(b, LAST_ACK), FIN_ACK, [], n));
    AcknowledgedKeeps(c, p);
    BufferedGrows(a, p.payload);
    TransmitGrows(Buffered(a, p.payload), ACK, [], m);
    GrownTwice(a, Buffered(a, p.payload), Transmit(Buffered(a, p.payload), ACK, [], m));
    GrownTwice(c, a, Arrive(c, p, m, n));
  }

  lemma AcknowledgedGrows(c: Conn, p: Packet)
    ensures Grown(c, Acknowledged(c, p)) && Grown(Acknowledged(c, p), Acknowledged(c, p))
  {}

  lemma BufferedGrows(c: Conn, data: seq<Byte>)
    requires ReceiveRing.Sound(c.ring)
    ensures Grown(c, Buffered(c, data))
  {}

  lemma NextGrows(c: Conn, e: Event)
    requires Sound(c)
    ensures Grown(c, Next(c, e))
  {
    match e
    case Arrival(p, m, n) => ArriveGrows(c, p, m, n);
    case SendCall(data, m) => TransmitGrows(c, PSH_ACK, data, m);
    case RecvCall(size) =>
    case CloseCall(m) => EnterTransmitGrows(c, FIN_WAIT_1, FIN_ACK, m);
  }

  /** The life up to some event is the start of the whole life: nothing sent, accepted or handed out is taken back. */
  lemma {:induction false} LifeGrows(c: Conn, es: seq<Event>, n: nat)
    requires Sound(c) && Survived(c, es) && n <= |es|
    ensures Survived(c, es[..n]) && Grown(After(c, es[..n]), After(c, es))
    decreases |es|
  {
    hide Sound, Grown, Next;
    if n == |es| {
      assert es[..n] == es;
      GrownSelf(After(c, es));
    } else {
      var front := es[..|es| - 1];
      LifeGrows(c, front, n);
      assert front[..n] == es[..n];
      NextGrows(After(c, front), es[|es| - 1]);
      GrownTwice(After(c, es[..n]), After(c, front), After(c, es));
    }
  }

  lemma GrownSelf(c: Conn)
    ensures Grown(c, c)
  {}

  /** States only move forward. */
  lemma {:induction false} RanksGrow(visited: seq<State>, i: nat, j: nat)
    requires Follows(visited) && i <= j < |visited|
    ensures Rank(visited[i]) <= Rank(visited[j])
    ensures i < j ==> Rank(visited[i]) < Rank(visited[j])
    decreases j
  {
    if i < j { RanksGrow(visited, i, j - 1); }
  }

  lemma LifeForward(c: Conn, es: seq<Event>, n: nat)
    requires Sound(c) && Survived(c, es) && n <= |es|
    ensures Survived(c, es[..n]) && Rank(StateOf(After(c, es[..n]))) <= Rank(StateOf(After(c, es)))
  {
    hide After, Survived, Rank, Accounted, Queued;
    LifeGrows(c, es, n);
    var b, d := After(c, es[..n]), After(c, es);
    RanksGrow(d.visited, |b.visited| - 1, |d.visited| - 1);
  }

  // ----- the window never opens again

  lemma {:induction false} DataGrows(s: seq<Segment>, t: seq<Segment>)
    requires s <= t
    ensures DataSent(s) <= DataSent(t)
    decreases |t|
  {
    if |s| < |t| {
      DataGrows(s, t[..|t| - 1]);
    } else {
      assert s == t;
    }
  }

  /** A connection that has sent 8192 bytes of data never sends another. */
  lemma WindowStaysShut(c: Conn, es: seq<Event>, n: nat)
    requires Sound(c) && Survived(c, es) && n <= |es|
    requires Survived(c, es[..n]) && |DataSent(After(c, es[..n]).sent)| == 8192
    ensures DataSent(After(c, es).sent) == DataSent(After(c, es[..n]).sent)
  {
    hide After, Survived;
    LifeGrows(c, es, n);
    DataGrows(After(c, es[..n]).sent, After(c, es).sent);
  }

  // ----- the handshake states a connection never rests in

  ghost predicate Resting(c: Conn) {
    StateOf(c) in {LISTEN, SYN_RECEIVED, ESTABLISHED, FIN_WAIT_1, FIN_WAIT_2, LAST_ACK, TIME_WAIT}
  }

  lemma NextRests(c: Conn, e: Event)
    requires Sound(c) && Resting(c) && Survives(c, e)
    ensures Resting(Next(c, e))
  {
    hide Sound, Fitting;
  }

  /** connect forces ESTABLISHED and a peer's FIN leads straight on to LAST_ACK: no packet or call ever finds
      a connection in SYN_SENT or CLOSE_WAIT. */
  lemma LifeRests(c: Conn, es: seq<Event>)
    requires Lives(c, es)
    ensures Resting(Life(c, es))
  {
    OpenedSound(c);
    OpenedRests(c);
    StaysResting(c, es);
  }

  lemma {:induction false} StaysResting(c: Conn, es: seq<Event>)
    requires Sound(c) && Resting(c) && Survived(c, es)
    ensures Resting(After(c, es))
    decreases |es|
  {
    hide Sound, Next, Resting;
    if es != [] {
      StaysResting(c, es[..|es| - 1]);
      NextRests(After(c, es[..|es| - 1]), es[|es| - 1]);
    }
  }

  lemma OpenedRests(c: Conn)
    requires Opened(c)
    ensures Resting(c)
  {}

  /** handle_packet drops connections only where the diagram has an arrow to CLOSED. */
  lemma DropsFollowDiagram(c: Conn, es: seq<Event>, p: Packet)
    requires Lives(c, es) && DroppedBy(Life(c, es), p)
    ensures Arrow(StateOf(Life(c, es)), CLOSED)
  {
    hide Life, Lives;
  }

  /** close drops every connection that is not established. The diagram has an arrow to CLOSED for that exactly
      when the connection never got beyond listening or the peer's FIN has been met. */
  lemma CloseFollowsDiagramIff(c: Conn, es: seq<Event>)
    requires Lives(c, es) && StateOf(Life(c, es)) != ESTABLISHED
    ensures var d := Life(c, es);
      Arrow(StateOf(d), CLOSED) <==> d.visited == [CLOSED, LISTEN] || CLOSE_WAIT in d.visited || TIME_WAIT in d.visited
  {
    hide Life, Lives;
    LifeRests(c, es);
    PeerFinished(Life(c, es).visited);
  }

  /** What the last state of a path says about the states before it. */
  lemma PeerFinished(visited: seq<State>)
    requires Follows(visited)
    ensures var last := visited[|visited| - 1];
      && (last == LISTEN <==> visited == [CLOSED, LISTEN])
      && (last == LAST_ACK ==> CLOSE_WAIT in visited)
      && (CLOSE_WAIT in visited ==> last in {CLOSE_WAIT, LAST_ACK})
      && (last == TIME_WAIT <==> TIME_WAIT in visited)
  {
    var n := |visited| - 1;
    var last := visited[n];
    if last == LISTEN || last == LAST_ACK {
      assert n > 0 && Arrow(visited[n - 1], visited[n]);
      if last == LISTEN && n > 1 { RanksGrow(visited, 0, n - 1); }
    }
    forall i: nat | i < n
      ensures visited[i] != TIME_WAIT && (visited[i] == CLOSE_WAIT ==> last in {CLOSE_WAIT, LAST_ACK})
    {
      AfterFin(visited, i);
    }
  }

  lemma AfterFin(visited: seq<State>, i: nat)
    requires Follows(visited) && i + 1 < |visited|
    ensures visited[i] != TIME_WAIT
    ensures visited[i] == CLOSE_WAIT ==> visited[|visited| - 1] == LAST_ACK
  {
    RanksGrow(visited, i, |visited| - 1);
    RanksGrow(visited, i + 1, |visited| - 1);
    assert Arrow(visited[i], visited[i + 1]);
    if i + 2 < |visited| { NothingAfterLastAck(visited, i + 1); }
  }

  lemma NothingAfterLastAck(visited: seq<State>, i: nat)
    requires Follows(visited) && i + 1 < |visited|
    ensures visited[i] != LAST_ACK
  {
    assert Arrow(visited[i], visited[i + 1]) && Rank(visited[i]) < Rank(visited[i + 1]);
  }

  // ----- what one call or packet moves

  /** The data put on the wire by send: what the window still takes, or nothing without memory. */
  lemma SendMoves(c: Conn, data: seq<Byte>, memory: bool)
    requires Sound(c) && StateOf(c) == ESTABLISHED
    ensures var left := 8192 - |DataSent(c.sent)|;
      DataSent(Sending(c, data, memory).sent) == DataSent(c.sent)
        + (if !memory then [] else if |data| <= left then data else data[..left])
  {
    hide Follows, Queued, DataSent, Syns, Fins, Rank;
    var n := Fitting(c, data);
    SentCounts(c.sent, Segment(PSH_ACK, c.seqNumber, c.ackNumber, data[..n]));
    assert data[..|data|] == data;
  }

  /** send reports the full size; it has sent that much exactly when there was memory and room, or nothing to send. */
  lemma SendHonestIff(c: Conn, data: seq<Byte>, memory: bool)
    requires Sound(c) && StateOf(c) == ESTABLISHED
    ensures DataSent(Sending(c, data, memory).sent) == DataSent(c.sent) + data
      <==> data == [] || (memory && |data| <= 8192 - |DataSent(c.sent)|)
  {
    hide Sending, DataSent;
    SendMoves(c, data, memory);
  }

  /** A packet reaching an established connection is acknowledged in full, but only what fits the buffer, and
      nothing of a packet with FIN, is accepted. */
  lemma ArrivalAccepts(c: Conn, p: Packet, m: bool, n: bool)
    requires Sound(c) && StateOf(c) == ESTABLISHED
    ensures var d := Arrive(c, p, m, n);
      && d.ackNumber == Wrap(p.seqNumber + |p.payload| + One(p.flags.syn) + One(p.flags.fin))
      && d.accepted == c.accepted + (if p.flags.fin then []
           else if |p.payload| <= 4096 - c.ring.count then p.payload else p.payload[..4096 - c.ring.count])
      && (d.accepted == c.accepted + p.payload
        <==> p.payload == [] || (!p.flags.fin && |p.payload| <= 4096 - c.ring.count))
  {
    assert p.payload[..|p.payload|] == p.payload;
  }
}
