/** One TCP connection as a value, with the history of what it sent, accepted and handed out. */
module TcpConnection {
  import opened Words
  import ReceiveRing

  datatype State =
    | CLOSED | LISTEN | SYN_SENT | SYN_RECEIVED | ESTABLISHED | FIN_WAIT_1
    | FIN_WAIT_2 | CLOSE_WAIT | CLOSING | LAST_ACK | TIME_WAIT

  /** The flag bits the code sets or tests. */
  datatype Flags = Flags(fin: bool, syn: bool, psh: bool, ack: bool)

  const SYN := Flags(false, true, false, false)
  const SYN_ACK := Flags(false, true, false, true)
  const ACK := Flags(false, false, false, true)
  const FIN_ACK := Flags(true, false, false, true)
  const PSH_ACK := Flags(false, false, true, true)

  /** A segment handed to IPv4. */
  datatype Segment = Segment(flags: Flags, seqNumber: Word, ackNumber: Word, data: seq<Byte>)

  type Port = x: nat | x < 0x1_0000

  /** An incoming segment, its header read and its payload cut off at the data offset. */
  datatype Packet = Packet(
    srcPort: Port, destPort: Port, seqNumber: Word, ackNumber: Word, flags: Flags, payload: seq<Byte>)

  /** visited holds every value the state field has had, the last being the current one; sent, accepted and
      delivered hold the segments sent, the bytes put in the receive buffer and those handed to the reader. */
  datatype Conn = Conn(
    visited: seq<State>,
    seqNumber: Word,
    ackNumber: Word,
    windowStart: Word,
    windowEnd: Word,
    ring: ReceiveRing.Ring,
    sent: seq<Segment>,
    accepted: seq<Byte>,
    delivered: seq<Byte>)

  const INITIAL: Word := 0x1234_5678
  const WINDOW := 8192

  function Wrap(x: int): Word {
    x % 0x1_0000_0000
  }

  lemma WrapTwice(a: int, b: int)
    ensures Wrap(Wrap(a) + b) == Wrap(a + b)
  {}

  lemma WrapWord(a: Word)
    ensures Wrap(a) == a
  {}

  function One(b: bool): nat {
    if b then 1 else 0
  }

  /** The current state; CLOSED stands in for an empty history, which no connection has. */
  function StateOf(c: Conn): State {
    if c.visited == [] then CLOSED else c.visited[|c.visited| - 1]
  }

  function Enter(c: Conn, s: State): Conn {
    c.(visited := c.visited + [s])
  }

  /** A connection fresh from create_connection; the cells of its buffer hold whatever was there. */
  function Fresh(cells: seq<Byte>): Conn {
    Conn([CLOSED], INITIAL, 0, INITIAL, Wrap(INITIAL + WINDOW), ReceiveRing.EmptyRing(cells), [], [], [])
  }

  // ----- sending

  /** How much of data fits the send window. */
  function Fitting(c: Conn, data: seq<Byte>): (n: nat)
    ensures n <= |data|
  {
    var available := Wrap(c.windowEnd - c.windowStart);
    if StateOf(c) == ESTABLISHED && |data| > available then available else |data|
  }

  /** memory says whether the packet buffer could be allocated. */
  function Transmit(c: Conn, flags: Flags, data: seq<Byte>, memory: bool): Conn {
    var n := Fitting(c, data);
    if (|data| > 0 && n == 0) || !memory then c
    else
      c.(seqNumber := Wrap(c.seqNumber + n + One(flags.syn) + One(flags.fin)),
         windowStart := if StateOf(c) == ESTABLISHED then Wrap(c.windowStart + n) else c.windowStart,
         sent := c.sent + [Segment(flags, c.seqNumber, c.ackNumber, data[..n])])
  }

  // ----- the events of a connection

  function Acknowledged(c: Conn, p: Packet): Conn {
    c.(ackNumber := Wrap(p.seqNumber + |p.payload| + One(p.flags.syn) + One(p.flags.fin)))
  }

  /** How many bytes of data the receive buffer has space for. */
  function Space(c: Conn, data: seq<Byte>): (n: nat)
    requires c.ring.count <= ReceiveRing.SIZE
    ensures n <= |data| && c.ring.count + n <= ReceiveRing.SIZE
  {
    if |data| < ReceiveRing.SIZE - c.ring.count then |data| else ReceiveRing.SIZE - c.ring.count
  }

  ghost function Buffered(c: Conn, data: seq<Byte>): Conn
    requires ReceiveRing.Sound(c.ring)
  {
    var taken := data[..Space(c, data)];
    c.(ring := ReceiveRing.Put(c.ring, taken), accepted := c.accepted + taken)
  }

  /** handle_packet on an existing connection; m and n say whether its first and second packet could be allocated. */
  ghost function Arrive(c: Conn, p: Packet, m: bool, n: bool): Conn
    requires ReceiveRing.Sound(c.ring)
  {
    var a := Acknowledged(c, p);
    match StateOf(c)
    case LISTEN =>
      if p.flags.syn then Transmit(Enter(a, SYN_RECEIVED), SYN_ACK, [], m) else a
    case SYN_SENT =>
      if p.flags.syn && p.flags.ack then Transmit(Enter(a, ESTABLISHED), ACK, [], m) else a
    case SYN_RECEIVED =>
      if p.flags.ack then Enter(a, ESTABLISHED) else a
    case ESTABLISHED =>
      if p.flags.fin then Transmit(Enter(Transmit(Enter(a, CLOSE_WAIT), ACK, [], m), LAST_ACK), FIN_ACK, [], n)
      else if p.payload != [] then Transmit(Buffered(a, p.payload), ACK, [], m)
      else a
    case FIN_WAIT_1 =>
      if p.flags.ack then Enter(a, FIN_WAIT_2) else a
    case FIN_WAIT_2 =>
      if p.flags.fin then Transmit(Enter(a, TIME_WAIT), ACK, [], m) else a
    case _ => a
  }

  /** handle_packet drops the connection instead. */
  predicate DroppedBy(c: Conn, p: Packet) {
    (StateOf(c) == LAST_ACK && p.flags.ack) || StateOf(c) == TIME_WAIT
  }

  function Sending(c: Conn, data: seq<Byte>, memory: bool): Conn {
    if StateOf(c) == ESTABLISHED then Transmit(c, PSH_ACK, data, memory) else c
  }

  /** What recv hands out: the front of the queue, nothing unless the connection is established. */
  ghost function Readout(c: Conn, size: nat): (bytes: seq<Byte>)
    requires ReceiveRing.Sound(c.ring)
    ensures |bytes| <= size && |bytes| <= c.ring.count
  {
    if StateOf(c) != ESTABLISHED then []
    else ReceiveRing.Queue(c.ring)[..if size < c.ring.count then size else c.ring.count]
  }

  ghost function Receiving(c: Conn, size: nat): Conn
    requires ReceiveRing.Sound(c.ring)
  {
    if StateOf(c) != ESTABLISHED then c
    else
      var bytes := Readout(c, size);
      c.(ring := ReceiveRing.Taken(c.ring, |bytes|), delivered := c.delivered + bytes)
  }

  /** close in state ESTABLISHED; in any other state it drops the connection. */
  function Closing(c: Conn, memory: bool): Conn {
    Transmit(Enter(c, FIN_WAIT_1), FIN_ACK, [], memory)
  }

  function Listening(cells: seq<Byte>): Conn {
    Enter(Fresh(cells), LISTEN)
  }

  function Connected(cells: seq<Byte>, memory: bool): Conn {
    Enter(Transmit(Enter(Fresh(cells), SYN_SENT), SYN, [], memory), ESTABLISHED)
  }

  // ----- accounting

  function Syns(sent: seq<Segment>): nat {
    if sent == [] then 0 else Syns(sent[..|sent| - 1]) + One(sent[|sent| - 1].flags.syn)
  }

  function Fins(sent: seq<Segment>): nat {
    if sent == [] then 0 else Fins(sent[..|sent| - 1]) + One(sent[|sent| - 1].flags.fin)
  }

  function DataSent(sent: seq<Segment>): seq<Byte> {
    if sent == [] then [] else DataSent(sent[..|sent| - 1]) + sent[|sent| - 1].data
  }

  /** How far a connection has got; no state is entered again. */
  function Rank(s: State): nat {
    match s
    case CLOSED => 0
    case LISTEN => 1
    case SYN_SENT => 2
    case SYN_RECEIVED => 2
    case ESTABLISHED => 3
    case FIN_WAIT_1 => 4
    case CLOSE_WAIT => 4
    case FIN_WAIT_2 => 5
    case CLOSING => 5
    case LAST_ACK => 5
    case TIME_WAIT => 6
  }

  /** The arrows of the state diagram in section 3.3.2 of RFC 9293 between states of one connection. */
  predicate Arrow(s: State, t: State) {
    match s
    case CLOSED => t == LISTEN || t == SYN_SENT
    case LISTEN => t == SYN_RECEIVED || t == SYN_SENT || t == CLOSED
    case SYN_SENT => t == SYN_RECEIVED || t == ESTABLISHED || t == CLOSED
    case SYN_RECEIVED => t == ESTABLISHED || t == FIN_WAIT_1 || t == LISTEN
    case ESTABLISHED => t == FIN_WAIT_1 || t == CLOSE_WAIT
    case FIN_WAIT_1 => t == FIN_WAIT_2 || t == CLOSING
    case FIN_WAIT_2 => t == TIME_WAIT
    case CLOSE_WAIT => t == LAST_ACK
    case CLOSING => t == TIME_WAIT
    case LAST_ACK => t == CLOSED
    case TIME_WAIT => t == CLOSED
  }

  /** A path of the diagram from CLOSED that never goes back. */
  ghost predicate Follows(visited: seq<State>) {
    && |visited| > 0 && visited[0] == CLOSED
    && forall i: nat :: i + 1 < |visited| ==>
      Arrow(visited[i], visited[i + 1]) && Rank(visited[i]) < Rank(visited[i + 1])
  }

  /** The sent segments are numbered without gaps. */
  ghost predicate Numbered(sent: seq<Segment>) {
    forall k: nat {:trigger sent[k]} :: k < |sent| ==>
      sent[k].seqNumber == INITIAL + |DataSent(sent[..k])| + Syns(sent[..k]) + Fins(sent[..k])
  }

  /** A FIN is the last thing numbered. */
  ghost predicate FinLast(sent: seq<Segment>, next: Word) {
    forall k: nat {:trigger sent[k]} :: k < |sent| && sent[k].flags.fin ==>
      sent[k].seqNumber + |sent[k].data| + One(sent[k].flags.syn) + 1 == next
  }

  /** Sequence number, window and segment counts are those the sent segments call for. */
  ghost predicate Accounted(c: Conn) {
    && c.seqNumber == INITIAL + |DataSent(c.sent)| + Syns(c.sent) + Fins(c.sent)
    && c.windowStart == INITIAL + |DataSent(c.sent)|
    && c.windowEnd == INITIAL + WINDOW
    && |DataSent(c.sent)| <= WINDOW
    && Syns(c.sent) <= 1
    && Fins(c.sent) <= 1
    && (Rank(StateOf(c)) <= 1 ==> Syns(c.sent) == 0)
    && (Rank(StateOf(c)) <= 2 ==> DataSent(c.sent) == [])
    && (Rank(StateOf(c)) <= 3 ==> Fins(c.sent) == 0)
    && Numbered(c.sent) && FinLast(c.sent, c.seqNumber)
  }

  /** What was accepted is what was handed out and what is still buffered, in order. */
  ghost predicate Queued(c: Conn) {
    && ReceiveRing.Sound(c.ring)
    && c.accepted == c.delivered + ReceiveRing.Queue(c.ring)
  }

  ghost predicate Sound(c: Conn) {
    Follows(c.visited) && Accounted(c) && Queued(c)
  }

  // ----- each event keeps the invariant

  lemma SentCounts(sent: seq<Segment>, s: Segment)
    ensures Syns(sent + [s]) == Syns(sent) + One(s.flags.syn)
    ensures Fins(sent + [s]) == Fins(sent) + One(s.flags.fin)
    ensures DataSent(sent + [s]) == DataSent(sent) + s.data
  {}

  lemma EnterKeeps(c: Conn, s: State)
    requires Sound(c) && Arrow(StateOf(c), s) && Rank(StateOf(c)) < Rank(s)
    ensures Sound(Enter(c, s)) && StateOf(Enter(c, s)) == s
  {
    var v := Enter(c, s).visited;
    forall i: nat | i + 1 < |v| ensures Arrow(v[i], v[i + 1]) && Rank(v[i]) < Rank(v[i + 1]) {
      if i + 1 == |v| - 1 { assert v[i] == StateOf(c); }
    }
  }

  /** Sending keeps the accounts when a SYN or FIN is the first and only an established connection sends data. */
  lemma TransmitKeeps(c: Conn, flags: Flags, data: seq<Byte>, memory: bool)
    requires Sound(c)
    requires flags.syn ==> Syns(c.sent) == 0 && Rank(StateOf(c)) == 2
    requires flags.fin ==> Fins(c.sent) == 0 && Rank(StateOf(c)) >= 4
    requires data != [] ==> StateOf(c) == ESTABLISHED
    ensures Sound(Transmit(c, flags, data, memory))
    ensures StateOf(Transmit(c, flags, data, memory)) == StateOf(c)
  {
    hide Follows, Accounted, Fitting, Wrap;
    AccountsKept(c, flags, data, memory);
  }

  lemma AccountsKept(c: Conn, flags: Flags, data: seq<Byte>, memory: bool)
    requires Accounted(c)
    requires flags.syn ==> Syns(c.sent) == 0 && Rank(StateOf(c)) == 2
    requires flags.fin ==> Fins(c.sent) == 0 && Rank(StateOf(c)) >= 4
    requires data != [] ==> StateOf(c) == ESTABLISHED
    ensures Accounted(Transmit(c, flags, data, memory))
  {
    hide Syns, Fins, DataSent, Numbered, FinLast, Rank;
    EstablishedRank();
    var n, c' := Fitting(c, data), Transmit(c, flags, data, memory);
    if c' != c { SegmentKept(c, c', Segment(flags, c.seqNumber, c.ackNumber, data[..n])); }
  }

  lemma SegmentKept(c: Conn, c': Conn, s: Segment)
    requires Accounted(c) && s.seqNumber == c.seqNumber && c'.sent == c.sent + [s] && StateOf(c') == StateOf(c)
    requires s.flags.syn ==> Syns(c.sent) == 0 && Rank(StateOf(c)) == 2
    requires s.flags.fin ==> Fins(c.sent) == 0 && Rank(StateOf(c)) >= 4
    requires s.data != [] ==> Rank(StateOf(c)) == 3 && |s.data| <= c.windowEnd - c.windowStart
    requires c'.seqNumber == c.seqNumber + |s.data| + One(s.flags.syn) + One(s.flags.fin)
    requires c'.windowStart == c.windowStart + |s.data| && c'.windowEnd == c.windowEnd
    ensures Accounted(c')
  {
    hide Syns, Fins, DataSent, Numbered, FinLast, Rank, StateOf;
    SentCounts(c.sent, s);
    NumberedMore(c.sent, s);
    if Fins(c.sent) == 0 { NoFins(c.sent); }
    FinLastMore(c.sent, s, c.seqNumber);
  }

  lemma EstablishedRank()
    ensures Rank(ESTABLISHED) == 3
  {}

  lemma NumberedMore(sent: seq<Segment>, s: Segment)
    requires Numbered(sent) && s.seqNumber == INITIAL + |DataSent(sent)| + Syns(sent) + Fins(sent)
    ensures Numbered(sent + [s])
  {
    var t := sent + [s];
    forall k: nat | k < |t| ensures t[k].seqNumber == INITIAL + |DataSent(t[..k])| + Syns(t[..k]) + Fins(t[..k]) {
      if k < |sent| {
        assert t[..k] == sent[..k] && t[k] == sent[k];
      } else {
        assert t[..k] == sent;
      }
    }
  }

  lemma {:induction false} NoFins(sent: seq<Segment>)
    requires Fins(sent) == 0
    ensures forall k: nat {:trigger sent[k]} :: k < |sent| ==> !sent[k].flags.fin
  {
    if sent != [] {
      var front := sent[..|sent| - 1];
      NoFins(front);
      forall k: nat | k < |sent| ensures !sent[k].flags.fin {
        if k < |front| { assert sent[k] == front[k]; }
      }
    }
  }

  /** Sending more keeps the FIN last when there is none yet or nothing is numbered. */
  lemma FinLastMore(sent: seq<Segment>, s: Segment, next: Word)
    requires FinLast(sent, next) && s.seqNumber == next
    requires (s.data == [] && !s.flags.syn && !s.flags.fin) || forall k: nat :: k < |sent| ==> !sent[k].flags.fin
    requires next + |s.data| + One(s.flags.syn) + One(s.flags.fin) < 0x1_0000_0000
    ensures FinLast(sent + [s], next + |s.data| + One(s.flags.syn) + One(s.flags.fin))
  {
    var t := sent + [s];
    forall k: nat | k < |t| && t[k].flags.fin
      ensures t[k].seqNumber + |t[k].data| + One(t[k].flags.syn) + 1
        == next + |s.data| + One(s.flags.syn) + One(s.flags.fin)
    {
      if k < |sent| { assert t[k] == sent[k]; }
    }
  }

  lemma AcknowledgedKeeps(c: Conn, p: Packet)
    requires Sound(c)
    ensures Sound(Acknowledged(c, p)) && StateOf(Acknowledged(c, p)) == StateOf(c)
    ensures ReceiveRing.Sound(c.ring) && Acknowledged(c, p).ring == c.ring
  {}

  lemma BufferedKeeps(c: Conn, data: seq<Byte>)
    requires Sound(c)
    ensures Sound(Buffered(c, data)) && StateOf(Buffered(c, data)) == StateOf(c)
  {
    hide Follows, Accounted, ReceiveRing.Queue, ReceiveRing.Put;
    var taken := data[..Space(c, data)];
    ReceiveRing.PutQueue(c.ring, taken);
    SameAccounts(c, Buffered(c, data));
  }

  lemma ArriveKeeps(c: Conn, p: Packet, m: bool, n: bool)
    requires Sound(c)
    ensures Sound(Arrive(c, p, m, n))
  {
    hide Sound, Transmit, Enter, Buffered, Acknowledged;
    AcknowledgedKeeps(c, p);
    var a := Acknowledged(c, p);
    match StateOf(c)
    case LISTEN =>
      NoSynYet(a);
      EnterKeeps(a, SYN_RECEIVED);
      SameSent(a, SYN_RECEIVED);
      TransmitKeeps(Enter(a, SYN_RECEIVED), SYN_ACK, [], m);
    case SYN_SENT =>
      EnterKeeps(a, ESTABLISHED);
      TransmitKeeps(Enter(a, ESTABLISHED), ACK, [], m);
    case SYN_RECEIVED =>
      EnterKeeps(a, ESTABLISHED);
    case ESTABLISHED =>
      if p.flags.fin {
        NoFinYet(a);
        EnterKeeps(a, CLOSE_WAIT);
        SameSent(a, CLOSE_WAIT);
        var b := Enter(a, CLOSE_WAIT);
        TransmitKeeps(b, ACK, [], m);
        AckAddsNoFin(b, m);
        var d := Transmit(b, ACK, [], m);
        EnterKeeps(d, LAST_ACK);
        SameSent(d, LAST_ACK);
        TransmitKeeps(Enter(d, LAST_ACK), FIN_ACK, [], n);
      } else if p.payload != [] {
        BufferedKeeps(a, p.payload);
        TransmitKeeps(Buffered(a, p.payload), ACK, [], m);
      }
    case FIN_WAIT_1 =>
      EnterKeeps(a, FIN_WAIT_2);
    case FIN_WAIT_2 =>
      EnterKeeps(a, TIME_WAIT);
      TransmitKeeps(Enter(a, TIME_WAIT), ACK, [], m);
    case _ =>
  }

  lemma NoSynYet(c: Conn)
    requires Sound(c) && Rank(StateOf(c)) <= 1
    ensures Syns(c.sent) == 0
  {}

  lemma NoFinYet(c: Conn)
    requires Sound(c) && Rank(StateOf(c)) <= 3
    ensures Fins(c.sent) == 0
  {}

  lemma SameSent(c: Conn, s: State)
    ensures Enter(c, s).sent == c.sent
  {}

  lemma AckAddsNoFin(c: Conn, m: bool)
    ensures Fins(Transmit(c, ACK, [], m).sent) == Fins(c.sent)
  {}

  lemma SendingKeeps(c: Conn, data: seq<Byte>, m: bool)
    requires Sound(c)
    ensures Sound(Sending(c, data, m))
  {
    if StateOf(c) == ESTABLISHED { TransmitKeeps(c, PSH_ACK, data, m); }
  }

  lemma ReceivingKeeps(c: Conn, size: nat)
    requires Sound(c)
    ensures Sound(Receiving(c, size))
  {
    hide Follows, Accounted, ReceiveRing.Queue, ReceiveRing.Taken;
    var n := |Readout(c, size)|;
    var q := ReceiveRing.Queue(c.ring);
    ReceiveRing.TakenQueue(c.ring, n);
    assert q == q[..n] + q[n..];
    if StateOf(c) == ESTABLISHED { SameAccounts(c, Receiving(c, size)); }
  }

  lemma SameAccounts(c: Conn, d: Conn)
    requires Follows(c.visited) && Accounted(c) && d.visited == c.visited && d.sent == c.sent
    requires d.seqNumber == c.seqNumber && d.windowStart == c.windowStart && d.windowEnd == c.windowEnd
    ensures Follows(d.visited) && Accounted(d)
  {}

  lemma ClosingKeeps(c: Conn, m: bool)
    requires Sound(c) && StateOf(c) == ESTABLISHED
    ensures Sound(Closing(c, m))
  {
    EnterKeeps(c, FIN_WAIT_1);
    TransmitKeeps(Enter(c, FIN_WAIT_1), FIN_ACK, [], m);
  }

  lemma FreshSound(cells: seq<Byte>)
    requires |cells| == ReceiveRing.SIZE
    ensures Sound(Fresh(cells)) && StateOf(Fresh(cells)) == CLOSED
  {}

  lemma ListeningSound(cells: seq<Byte>)
    requires |cells| == ReceiveRing.SIZE
    ensures Sound(Listening(cells))
  {}

  lemma ConnectedSound(cells: seq<Byte>, m: bool)
    requires |cells| == ReceiveRing.SIZE
    ensures Sound(Connected(cells, m))
  {
    FreshSound(cells);
    EnterKeeps(Fresh(cells), SYN_SENT);
    var c := Enter(Fresh(cells), SYN_SENT);
    TransmitKeeps(c, SYN, [], m);
    EnterKeeps(Transmit(c, SYN, [], m), ESTABLISHED);
  }
}
