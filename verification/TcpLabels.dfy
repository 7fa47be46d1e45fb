/** The labels of the state diagram: which arrows are taken on the event their label names. */
module TcpLabels {
  import opened Words
  import ReceiveRing
  import opened TcpConnection
  import opened TcpRuns

  /** The first number after a segment. */
  function After(s: Segment): nat {
    s.seqNumber + |s.data| + One(s.flags.syn) + One(s.flags.fin)
  }

  /** p acknowledges all of the segment s and nothing that has not been sent. */
  predicate Covers(c: Conn, p: Packet, s: Segment) {
    p.flags.ack && After(s) <= p.ackNumber <= c.seqNumber
  }

  /** "ACK of SYN": p acknowledges a segment with the connection's SYN. */
  ghost predicate AcksSyn(c: Conn, p: Packet) {
    exists k: nat {:trigger c.sent[k]} :: k < |c.sent| && c.sent[k].flags.syn && Covers(c, p, c.sent[k])
  }

  /** "ACK of FIN". */
  ghost predicate AcksFin(c: Conn, p: Packet) {
    exists k: nat {:trigger c.sent[k]} :: k < |c.sent| && c.sent[k].flags.fin && Covers(c, p, c.sent[k])
  }

  /** The label of the arrow from s to t in section 3.3.2 of RFC 9293 names the arrival of p. Other arrows are for calls
      and, from TIME_WAIT, for a timeout. */
  ghost predicate Labelled(c: Conn, s: State, t: State, p: Packet) {
    match (s, t)
    case (LISTEN, SYN_RECEIVED) => p.flags.syn
    case (SYN_SENT, ESTABLISHED) => p.flags.syn && AcksSyn(c, p)
    case (SYN_RECEIVED, ESTABLISHED) => AcksSyn(c, p)
    case (ESTABLISHED, CLOSE_WAIT) => p.flags.fin
    case (FIN_WAIT_1, FIN_WAIT_2) => AcksFin(c, p)
    case (FIN_WAIT_2, TIME_WAIT) => p.flags.fin
    case (LAST_ACK, CLOSED) => AcksFin(c, p)
    case _ => false
  }

  /** The state the packet takes the connection to first, CLOSED when it drops it. */
  ghost function Target(c: Conn, p: Packet, m: bool, n: bool): State
    requires ReceiveRing.Sound(c.ring)
  {
    var d := Arrive(c, p, m, n);
    if DroppedBy(c, p) then CLOSED
    else if |c.visited| < |d.visited| then d.visited[|c.visited|] else StateOf(c)
  }

  lemma {:induction false} SynSent(sent: seq<Segment>)
    requires Syns(sent) > 0
    ensures exists k: nat {:trigger sent[k]} :: k < |sent| && sent[k].flags.syn
  {
    var front := sent[..|sent| - 1];
    if sent[|sent| - 1].flags.syn {
    } else {
      SynSent(front);
      var k: nat :| k < |front| && front[k].flags.syn;
      assert sent[k].flags.syn;
    }
  }

  lemma {:induction false} FinSent(sent: seq<Segment>)
    requires Fins(sent) > 0
    ensures exists k: nat {:trigger sent[k]} :: k < |sent| && sent[k].flags.fin
  {
    var front := sent[..|sent| - 1];
    if sent[|sent| - 1].flags.fin {
    } else {
      FinSent(front);
      var k: nat :| k < |front| && front[k].flags.fin;
      assert sent[k].flags.fin;
    }
  }

  lemma {:induction false} CountsGrow(sent: seq<Segment>, k: nat)
    requires k < |sent|
    ensures |DataSent(sent[..k])| + |sent[k].data| <= |DataSent(sent)|
    ensures Syns(sent[..k]) + One(sent[k].flags.syn) <= Syns(sent)
    ensures Fins(sent[..k]) + One(sent[k].flags.fin) <= Fins(sent)
    decreases |sent|
  {
    var front := sent[..|sent| - 1];
    if k < |front| {
      CountsGrow(front, k);
      assert sent[..k] == front[..k] && sent[k] == front[k];
    }
  }

  /** While the connection is being opened, the ACK of SYN is the one for the next number, once the SYN was sent. */
  lemma AcksSynIff(c: Conn, p: Packet)
    requires Sound(c) && Rank(StateOf(c)) <= 2
    ensures AcksSyn(c, p) <==> p.flags.ack && Syns(c.sent) == 1 && p.ackNumber == c.seqNumber
  {
    hide Syns, Fins, DataSent, Follows, Queued;
    forall k: nat | k < |c.sent| && c.sent[k].flags.syn ensures After(c.sent[k]) == c.seqNumber && Syns(c.sent) == 1 {
      CountsGrow(c.sent, k);
    }
    if Syns(c.sent) == 1 { SynSent(c.sent); }
  }

  /** The ACK of FIN is the one for the next number, once the FIN was sent. */
  lemma AcksFinIff(c: Conn, p: Packet)
    requires Sound(c)
    ensures AcksFin(c, p) <==> p.flags.ack && Fins(c.sent) == 1 && p.ackNumber == c.seqNumber
  {
    hide Syns, Fins, DataSent, Follows, Queued;
    forall k: nat | k < |c.sent| && c.sent[k].flags.fin ensures After(c.sent[k]) == c.seqNumber && Fins(c.sent) == 1 {
      CountsGrow(c.sent, k);
    }
    if Fins(c.sent) == 1 { FinSent(c.sent); }
  }

  /** What the labels ask of a packet beyond its flags. */
  predicate Heeded(c: Conn, p: Packet) {
    && StateOf(c) != TIME_WAIT
    && (StateOf(c) == SYN_RECEIVED ==> Syns(c.sent) == 1 && p.ackNumber == c.seqNumber)
    && (StateOf(c) == FIN_WAIT_1 || StateOf(c) == LAST_ACK ==> Fins(c.sent) == 1 && p.ackNumber == c.seqNumber)
  }

  /** A packet that moves a connection takes the arrow its label names exactly when, in the states that wait for an
      acknowledgment, the SYN or FIN was sent and the packet acknowledges the next number, and never from TIME_WAIT:
      the code looks at the flags alone. */
  lemma ArrowLabelledIff(c: Conn, es: seq<Event>, p: Packet, m: bool, n: bool)
    requires Lives(c, es)
    ensures var d := Life(c, es);
      var s, t := StateOf(d), Target(d, p, m, n);
      s != t ==> Arrow(s, t) && (Labelled(d, s, t, p) <==> Heeded(d, p))
  {
    hide Life, Lives, Arrive, Sound, AcksSyn, AcksFin;
    LifeRests(c, es);
    var d := Life(c, es);
    FirstMove(d, p, m, n);
    if StateOf(d) == SYN_RECEIVED { AcksSynIff(d, p); }
    if StateOf(d) == FIN_WAIT_1 || StateOf(d) == LAST_ACK { AcksFinIff(d, p); }
  }

  /** A listening connection that meets a SYN and then an ACK with acknowledgment number 0 is taken to ESTABLISHED,
      although nothing of it was acknowledged. */
  lemma BlindAck(cells: seq<Byte>, port: Port)
    requires |cells| == ReceiveRing.SIZE
    ensures var syn, ack := Packet(port, port, 0, 0, SYN, []), Packet(port, port, 1, 0, ACK, []);
      ReceiveRing.Sound(Listening(cells).ring)
      && var c := Arrive(Listening(cells), syn, true, true);
         && ReceiveRing.Sound(c.ring) && Target(c, ack, true, true) == ESTABLISHED
         && !Labelled(c, SYN_RECEIVED, ESTABLISHED, ack)
  {
    hide Sound;
    ListeningSound(cells);
    var syn, ack := Packet(port, port, 0, 0, SYN, []), Packet(port, port, 1, 0, ACK, []);
    SoundRing(Listening(cells));
    var c := Arrive(Listening(cells), syn, true, true);
    ArriveKeeps(Listening(cells), syn, true, true);
    SoundRing(c);
    FirstMove(c, ack, true, true);
    AcksSynIff(c, ack);
  }

  lemma SoundRing(c: Conn)
    requires Sound(c)
    ensures ReceiveRing.Sound(c.ring) && c.seqNumber >= INITIAL
  {}

  /** Where a packet takes each state a connection can rest in. */
  lemma FirstMove(d: Conn, p: Packet, m: bool, n: bool)
    requires Sound(d) && Resting(d)
    ensures ReceiveRing.Sound(d.ring)
    ensures Target(d, p, m, n) ==
      match StateOf(d)
      case LISTEN => if p.flags.syn then SYN_RECEIVED else LISTEN
      case SYN_RECEIVED => if p.flags.ack then ESTABLISHED else SYN_RECEIVED
      case ESTABLISHED => if p.flags.fin then CLOSE_WAIT else ESTABLISHED
      case FIN_WAIT_1 => if p.flags.ack then FIN_WAIT_2 else FIN_WAIT_1
      case FIN_WAIT_2 => if p.flags.fin then TIME_WAIT else FIN_WAIT_2
      case LAST_ACK => if p.flags.ack then CLOSED else LAST_ACK
      case _ => CLOSED
  {
    hide Follows, Accounted;
  }
}
