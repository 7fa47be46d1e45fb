/** The receive buffer of a TCP connection: 4096 cells used as a ring. */
module ReceiveRing {
  import opened Words

  const SIZE := 4096

  datatype Ring = Ring(cells: seq<Byte>, start: nat, end: nat, count: nat)

  ghost predicate Sound(r: Ring) {
    && |r.cells| == SIZE
    && r.start < SIZE
    && r.count <= SIZE
    && r.end == (r.start + r.count) % SIZE
  }

  lemma Bounds(r: Ring)
    requires Sound(r)
    ensures |r.cells| == SIZE && r.start < SIZE && r.count <= SIZE
  {}

  function EmptyRing(cells: seq<Byte>): Ring {
    Ring(cells, 0, 0, 0)
  }

  /** The cell n places on from i. */
  function Ahead(i: nat, n: nat): (j: nat)
    ensures j < SIZE
  {
    (i + n) % SIZE
  }

  /** The buffered bytes, oldest first. */
  ghost function Queue(r: Ring): (q: seq<Byte>)
    requires Sound(r)
    ensures |q| == r.count
  {
    seq(r.count, i requires 0 <= i < r.count => r.cells[Ahead(r.start, i)])
  }

  lemma QueueAt(r: Ring, i: nat)
    requires Sound(r) && i < r.count
    ensures Queue(r)[i] == r.cells[Ahead(r.start, i)]
  {}

  /** One byte stored at the end. */
  function PutByte(r: Ring, b: Byte): Ring
    requires r.end < |r.cells|
  {
    Ring(r.cells[r.end := b], r.start, (r.end + 1) % SIZE, r.count + 1)
  }

  /** Storing bytes one after the other. */
  ghost function Put(r: Ring, data: seq<Byte>): (s: Ring)
    requires Sound(r) && r.count + |data| <= SIZE
    ensures Sound(s) && s.start == r.start && s.count == r.count + |data|
    decreases |data|
  {
    if data == [] then r
    else
      var s := Put(r, data[..|data| - 1]);
      PutSound(s, data[|data| - 1]);
      PutByte(s, data[|data| - 1])
  }

  lemma PutSound(r: Ring, b: Byte)
    requires Sound(r) && r.count < SIZE
    ensures Sound(PutByte(r, b))
  {}

  /** Distinct places of the queue are distinct cells. */
  lemma AheadDistinct(start: nat, i: nat, j: nat)
    requires start < SIZE && i < j < SIZE
    ensures Ahead(start, i) != Ahead(start, j)
  {}

  lemma PutByteQueue(r: Ring, b: Byte)
    requires Sound(r) && r.count < SIZE
    ensures Sound(PutByte(r, b))
    ensures Queue(PutByte(r, b)) == Queue(r) + [b]
  {
    PutSound(r, b);
    var s := PutByte(r, b);
    forall i | 0 <= i < s.count ensures Queue(s)[i] == (Queue(r) + [b])[i] {
      if i < r.count { AheadDistinct(r.start, i, r.count); }
    }
  }

  /** Storing bytes appends them to the queue. */
  lemma {:induction false} PutQueue(r: Ring, data: seq<Byte>)
    requires Sound(r) && r.count + |data| <= SIZE
    ensures Queue(Put(r, data)) == Queue(r) + data
    decreases |data|
  {
    if data != [] {
      var front, b := data[..|data| - 1], data[|data| - 1];
      PutQueue(r, front);
      PutByteQueue(Put(r, front), b);
      assert data == front + [b];
      assert Queue(r) + data == Queue(r) + front + [b];
    } else {
      assert Queue(r) + data == Queue(r);
    }
  }

  /** What is left when n bytes have been taken from the start. */
  function Taken(r: Ring, n: nat): Ring
    requires n <= r.count
  {
    Ring(r.cells, Ahead(r.start, n), r.end, r.count - n)
  }

  lemma TakenSound(r: Ring, n: nat)
    requires Sound(r) && n <= r.count
    ensures Sound(Taken(r, n))
  {}

  lemma AheadTwice(i: nat, n: nat, m: nat)
    ensures Ahead(Ahead(i, n), m) == Ahead(i, n + m)
  {}

  /** Taking bytes removes them from the front of the queue. */
  lemma TakenQueue(r: Ring, n: nat)
    requires Sound(r) && n <= r.count
    ensures Sound(Taken(r, n))
    ensures Queue(Taken(r, n)) == Queue(r)[n..]
  {
    TakenSound(r, n);
    forall i | 0 <= i < r.count - n ensures Queue(Taken(r, n))[i] == Queue(r)[n..][i] {
      AheadTwice(r.start, n, i);
    }
  }
}
