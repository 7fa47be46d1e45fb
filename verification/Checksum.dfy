/** The Internet checksum of RFC 1071, as the IPv4 and ICMP code computes it. */
module Checksum {
  import opened Words

  /** Word k of a buffer, read low byte first; an odd last byte stands alone. */
  function WordAt(data: seq<Byte>, k: nat): (w: nat)
    requires 2 * k < |data|
    ensures w < 0x1_0000
  {
    var low: nat := data[2 * k];
    var high: nat := if 2 * k + 1 < |data| then data[2 * k + 1] else 0;
    low + 0x100 * high
  }

  /** The sum of the first n words. */
  function Sum(data: seq<Byte>, n: nat): nat
    requires 2 * n <= |data| + 1
  {
    if n == 0 then 0 else Sum(data, n - 1) + WordAt(data, n - 1)
  }

  function Words16(data: seq<Byte>): (n: nat)
    ensures 2 * n <= |data| + 1
  {
    (|data| + 1) / 2
  }

  function Total(data: seq<Byte>): nat {
    Sum(data, Words16(data))
  }

  /** The sum goes on with two bytes as a word, low byte first, and with a last byte alone. */
  lemma TotalGrows(data: seq<Byte>, low: Byte, high: Byte)
    requires |data| % 2 == 0
    ensures Total([]) == 0
    ensures Total(data + [low, high]) == Total(data) + low + 0x100 * high
    ensures Total(data + [low]) == Total(data) + low
  {
    SumOfFront(data, [low, high], |data| / 2);
    SumOfFront(data, [low], |data| / 2);
  }

  lemma {:induction false} SumOfFront(data: seq<Byte>, more: seq<Byte>, n: nat)
    requires 2 * n <= |data|
    ensures Sum(data + more, n) == Sum(data, n)
  {
    if n > 0 { SumOfFront(data, more, n - 1); }
  }

  /** Adding the carries back in until none are left. */
  function Fold(sum: nat): (f: nat)
    ensures f < 0x1_0000
  {
    if sum < 0x1_0000 then sum else Fold(sum % 0x1_0000 + sum / 0x1_0000)
  }

  function Checksum(data: seq<Byte>): (c: nat)
    ensures c < 0x1_0000
  {
    0xFFFF - Fold(Total(data) % 0x1_0000_0000)
  }

  method CalculateChecksum(data: seq<Byte>) returns (checksum: nat)
    ensures checksum == Checksum(data)
  {
    var count: nat := |data|;
    var at: nat := 0;
    var sum: nat := 0;
    while count > 1
      invariant count + 2 * at == |data|
      invariant sum == Sum(data, at) % 0x1_0000_0000
    {
      AddWraps(Sum(data, at), WordAt(data, at));
      sum := (sum + WordAt(data, at)) % 0x1_0000_0000;
      at := at + 1;
      count := count - 2;
    }
    if count > 0 {
      AddWraps(Sum(data, at), WordAt(data, at));
      sum := (sum + data[|data| - 1]) % 0x1_0000_0000;
    }
    assert sum == Total(data) % 0x1_0000_0000;
    ghost var whole: nat := sum;
    while sum >= 0x1_0000
      invariant Fold(sum) == Fold(whole)
      decreases sum
    {
      sum := sum % 0x1_0000 + sum / 0x1_0000;
    }
    return 0xFFFF - sum;
  }

  lemma AddWraps(a: nat, b: nat)
    ensures (a % 0x1_0000_0000 + b) % 0x1_0000_0000 == (a + b) % 0x1_0000_0000
  {}

  // ----- folding is reduction modulo 2^16 - 1, with 2^16 - 1 in the place of 0 for sums that are not 0

  lemma {:induction false} FoldIs(sum: nat)
    ensures Fold(sum) == if sum == 0 then 0 else (sum - 1) % 0xFFFF + 1
    decreases sum
  {
    if sum >= 0x1_0000 {
      var q, r := sum / 0x1_0000, sum % 0x1_0000;
      FoldIs(q + r);
      assert sum - 1 == q * 0xFFFF + (q + r - 1);
      ModShift(q + r - 1, 0xFFFF, q);
    } else if sum == 0xFFFF {
    } else if sum > 0 {
    }
  }

  lemma ModShift(a: nat, d: nat, q: nat)
    requires d > 0
    ensures (q * d + a) % d == a % d
  {
    assert a == a / d * d + a % d;
    assert (q + a / d) * d == q * d + a / d * d;
    EuclidUnique(q * d + a, d, q + a / d, a % d);
  }

  /** Sums that differ by multiples of 2^16 - 1, neither of them 0, fold to the same word. */
  lemma FoldCongruent(a: nat, b: nat, q: nat)
    requires a > 0 && b == a + q * 0xFFFF
    ensures Fold(b) == Fold(a)
  {
    FoldIs(a);
    FoldIs(b);
    ModShift(a - 1, 0xFFFF, q);
  }

  // ----- the bound on the 32-bit sum

  lemma {:induction false} SumBound(data: seq<Byte>, n: nat)
    requires 2 * n <= |data| + 1
    ensures Sum(data, n) <= n * 0xFFFF
  {
    if n > 0 { SumBound(data, n - 1); }
  }

  /** Up to 65537 words the 32-bit sum cannot overflow. */
  lemma NoOverflow(data: seq<Byte>)
    requires |data| <= 2 * 65537
    ensures Total(data) < 0x1_0000_0000
    ensures Checksum(data) == 0xFFFF - Fold(Total(data))
  {
    SumBound(data, Words16(data));
  }

  // ----- section 1 of RFC 1071: checking

  /** c stored low byte first in the two bytes at f. */
  function WithField(data: seq<Byte>, f: nat, c: nat): (d: seq<Byte>)
    requires f + 1 < |data| && c < 0x1_0000
    ensures |d| == |data|
  {
    data[f := c % 0x100][f + 1 := c / 0x100]
  }

  lemma {:induction false} FieldAdds(data: seq<Byte>, k: nat, c: nat, n: nat)
    requires |data| % 2 == 0 && 2 * k + 1 < |data| && c < 0x1_0000 && 2 * n <= |data|
    requires WordAt(data, k) == 0
    ensures Sum(WithField(data, 2 * k, c), n) == Sum(data, n) + (if k < n then c else 0)
  {
    if n > 0 { FieldAdds(data, k, c, n - 1); }
  }

  /** Storing the checksum in its zeroed field makes the whole buffer check to 0. */
  lemma StoredChecksumVerifies(data: seq<Byte>, k: nat)
    requires |data| % 2 == 0 && |data| <= 2 * 65537 && 2 * k + 1 < |data|
    requires WordAt(data, k) == 0
    ensures Checksum(WithField(data, 2 * k, Checksum(data))) == 0
  {
    var total := Total(data);
    var c := Checksum(data);
    var stored := WithField(data, 2 * k, c);
    NoOverflow(data);
    NoOverflow(stored);
    FieldAdds(data, k, c, |data| / 2);
    FoldIs(total);
    if total == 0 {
      assert Total(stored) == 0xFFFF;
    } else {
      var q := (total - 1) / 0xFFFF;
      assert total == q * 0xFFFF + Fold(total);
      assert Total(stored) == 0xFFFF + q * 0xFFFF;
      FoldCongruent(0xFFFF, Total(stored), q);
    }
  }

  /** A buffer that checks to 0 is one whose words add up to a multiple of 2^16 - 1 that is not 0. */
  lemma VerifiesIff(data: seq<Byte>)
    requires |data| <= 2 * 65537
    ensures Checksum(data) == 0 <==> Total(data) > 0 && Total(data) % 0xFFFF == 0
  {
    NoOverflow(data);
    var total := Total(data);
    FoldIs(total);
    if total > 0 {
      var q, r := (total - 1) / 0xFFFF, (total - 1) % 0xFFFF;
      assert total == q * 0xFFFF + (r + 1);
      if r == 0xFFFF - 1 { EuclidUnique(total, 0xFFFF, q + 1, 0); } else { EuclidUnique(total, 0xFFFF, q, r + 1); }
    }
  }

  // ----- section 2(B) of RFC 1071: byte order

  function SwapWord(w: nat): (s: nat)
    requires w < 0x1_0000
    ensures s < 0x1_0000
  {
    w % 0x100 * 0x100 + w / 0x100
  }

  /** The buffer with the bytes of every word exchanged. */
  function Swapped(data: seq<Byte>): (d: seq<Byte>)
    requires |data| % 2 == 0
    ensures |d| == |data|
  {
    seq(|data|, i requires 0 <= i < |data| => if i % 2 == 0 then data[i + 1] else data[i - 1])
  }

  lemma SwappedWord(data: seq<Byte>, k: nat)
    requires |data| % 2 == 0 && 2 * k < |data|
    ensures WordAt(Swapped(data), k) == SwapWord(WordAt(data, k))
  {}

  lemma SwapIsShift(w: nat)
    requires w < 0x1_0000
    ensures 0x100 * w == SwapWord(w) + 0xFFFF * (w / 0x100)
    ensures w > 0 ==> SwapWord(w) > 0
  {}

  /** 256 times the sum is the sum of the swapped words, up to a multiple of 2^16 - 1. */
  lemma {:induction false} SwappedSum(data: seq<Byte>, n: nat) returns (q: nat)
    requires |data| % 2 == 0 && 2 * n <= |data|
    ensures 0x100 * Sum(data, n) == Sum(Swapped(data), n) + 0xFFFF * q
    ensures Sum(data, n) > 0 ==> Sum(Swapped(data), n) > 0
  {
    hide SwapWord, Swapped, WordAt;
    if n == 0 {
      q := 0;
    } else {
      q := SwappedSum(data, n - 1);
      SwappedWord(data, n - 1);
      SwapIsShift(WordAt(data, n - 1));
      q := q + WordAt(data, n - 1) / 0x100;
    }
  }

  /** Words between 1 and 2^16 - 1 that fold from the same class are equal. */
  lemma FoldUnique(sum: nat, w: nat, q: int)
    requires 0 < w < 0x1_0000 && sum > 0 && sum == w + q * 0xFFFF
    ensures Fold(sum) == w
  {
    FoldIs(sum);
    EuclidUnique(sum - 1, 0xFFFF, q, w - 1);
  }

  /** Exchanging the bytes of all words exchanges the bytes of the checksum. */
  lemma ByteOrderIndependent(data: seq<Byte>)
    requires |data| % 2 == 0 && |data| <= 2 * 65537
    ensures Checksum(Swapped(data)) == SwapWord(Checksum(data))
  {
    hide Fold, Total, Sum, Checksum, SwapWord;
    NoOverflow(data);
    NoOverflow(Swapped(data));
    var q := SwappedTotal(data);
    SwappedFold(Total(data), Total(Swapped(data)), q);
    SwapComplement(Fold(Total(data)));
  }

  lemma SwappedTotal(data: seq<Byte>) returns (q: nat)
    requires |data| % 2 == 0
    ensures 0x100 * Total(data) == Total(Swapped(data)) + 0xFFFF * q
    ensures Total(data) > 0 ==> Total(Swapped(data)) > 0
  {
    q := SwappedSum(data, |data| / 2);
  }

  lemma SwapComplement(f: nat)
    requires f < 0x1_0000
    ensures SwapWord(0xFFFF - f) == 0xFFFF - SwapWord(f)
  {}

  lemma SwappedFold(total: nat, other: nat, q: nat)
    requires 0x100 * total == other + 0xFFFF * q
    requires total > 0 ==> other > 0
    ensures Fold(other) == SwapWord(Fold(total))
  {
    FoldIs(total);
    if total == 0 {
      assert other == 0;
    } else {
      var f, p := (total - 1) % 0xFFFF + 1, (total - 1) / 0xFFFF;
      assert total == p * 0xFFFF + f;
      SwapIsShift(f);
      FoldUnique(other, SwapWord(f), 0x100 * p + f / 0x100 - q);
    }
  }

  // ----- the headers that carry it

  /** A 16-bit field stored low byte first, as the processor does. */
  method PutWord(packet: array<Byte>, at: nat, w: nat)
    requires at + 1 < packet.Length && w < 0x1_0000
    modifies packet
    ensures packet[..] == WithField(old(packet[..]), at, w)
  {
    packet[at] := w % 0x100;
    packet[at + 1] := w / 0x100;
  }

  /** A field whose bytes were exchanged first goes out high byte first. */
  method PutSwapped(packet: array<Byte>, at: nat, w: nat)
    requires at + 1 < packet.Length && w < 0x1_0000
    modifies packet
    ensures packet[at] == w / 0x100 && packet[at + 1] == w % 0x100
    ensures forall i :: 0 <= i < packet.Length && i != at && i != at + 1 ==> packet[i] == old(packet[i])
  {
    PutWord(packet, at, SwapWord(w));
    assert SwapWord(w) % 0x100 == w / 0x100 && SwapWord(w) / 0x100 == w % 0x100;
  }

  method PutAddress(packet: array<Byte>, at: nat, ip: Word)
    requires at + 3 < packet.Length
    modifies packet
    ensures packet[..at] == old(packet[..at]) && packet[at..at + 4] == AddressBytes(ip)
    ensures packet[at + 4..] == old(packet[at + 4..])
  {
    PutWord(packet, at, ip % 0x1_0000);
    PutWord(packet, at + 2, ip / 0x1_0000);
    AddressHalves(ip);
  }

  lemma AddressHalves(ip: Word)
    ensures ip % 0x1_0000 % 0x100 == ip % 0x100 && ip % 0x1_0000 / 0x100 == ip / 0x100 % 0x100
    ensures ip / 0x1_0000 / 0x100 == ip / 0x100_0000
  {}

  /** The twenty bytes of the IPv4 header, with 0 for the checksum: multi-byte numbers high byte first, addresses
      as they are kept. */
  function HeaderBytes(length: nat, id: nat, protocol: Byte, src: Word, dest: Word): (h: seq<Byte>)
    requires length < 0x1_0000 && id < 0x1_0000
    ensures |h| == 20 && WordAt(h, 5) == 0
  {
    HeaderNumbers(length, id, protocol) + AddressBytes(src) + AddressBytes(dest)
  }

  function HeaderNumbers(length: nat, id: nat, protocol: Byte): (h: seq<Byte>)
    requires length < 0x1_0000 && id < 0x1_0000
    ensures |h| == 12 && WordAt(h, 5) == 0
  {
    [0x45, 0, length / 0x100, length % 0x100, id / 0x100, id % 0x100, 0, 0, 64, protocol, 0, 0]
  }

  function AddressBytes(ip: Word): (b: seq<Byte>)
    ensures |b| == 4
  {
    [ip % 0x100, ip / 0x100 % 0x100, ip / 0x1_0000 % 0x100, ip / 0x100_0000]
  }

  /** A number stored high byte first, and an address with its first number first. */
  function High(data: seq<Byte>, i: nat): nat
    requires i + 1 < |data|
  {
    var high: nat, low: nat := data[i], data[i + 1];
    0x100 * high + low
  }

  function AddressIn(data: seq<Byte>, i: nat): nat
    requires i + 3 < |data|
  {
    var a: nat, b: nat, c: nat, d: nat := data[i], data[i + 1], data[i + 2], data[i + 3];
    a + 0x100 * b + 0x1_0000 * c + 0x100_0000 * d
  }

  /** The fields at their places in section 3.1 of RFC 791: version 4 with five words of header, no fragments,
      sixty-four hops. */
  predicate HeaderFields(h: seq<Byte>, length: nat, id: nat, protocol: Byte, src: Word, dest: Word) {
    && |h| >= 20 && h[0] == 0x45 && h[1] == 0 && High(h, 2) == length && High(h, 4) == id && High(h, 6) == 0
    && h[8] == 64 && h[9] == protocol && AddressIn(h, 12) == src && AddressIn(h, 16) == dest
  }

  lemma HeaderPlaces(length: nat, id: nat, protocol: Byte, src: Word, dest: Word, checksum: nat)
    requires length < 0x1_0000 && id < 0x1_0000 && checksum < 0x1_0000
    ensures HeaderFields(WithField(HeaderBytes(length, id, protocol, src, dest), 10, checksum),
      length, id, protocol, src, dest)
  {
    hide AddressBytes;
    AddressBack(src);
    AddressBack(dest);
    var h := HeaderBytes(length, id, protocol, src, dest);
    assert h[12..16] == AddressBytes(src) && h[16..20] == AddressBytes(dest);
  }

  lemma AddressBack(ip: Word)
    ensures AddressIn(AddressBytes(ip), 0) == ip
  {
    var x, y, z := ip / 0x100, ip / 0x1_0000, ip / 0x100_0000;
    assert ip == 0x100 * x + ip % 0x100;
    assert x == 0x100 * y + x % 0x100;
    assert y == 0x100 * z + y % 0x100;
  }

  /** What IPv4's handle_packet takes from a packet: the protocol, the sender, and where the payload is. */
  datatype Arrived = Arrived(protocol: Byte, src: nat, payload: nat, size: int)

  function Arriving(data: seq<Byte>): Arrived
    requires |data| >= 20
  {
    var header := data[0] % 0x10 * 4;
    Arrived(data[9], AddressIn(data, 12), header, (High(data, 2) - header) % 0x1_0000_0000)
  }

  /** The receiver finds protocol, sender and payload where the sender put them, and the payload's size exactly when
      the packet's own has sixteen bits. */
  lemma HeaderArrives(packet: seq<Byte>, size: nat, id: nat, protocol: Byte, src: Word, dest: Word)
    requires |packet| == 20 + size < 0x1_0000_0000
    requires HeaderFields(packet, (20 + size) % 0x1_0000, id, protocol, src, dest)
    ensures var a := Arriving(packet);
      && a.protocol == protocol && a.src == src && a.payload == 20
      && (a.size == size <==> 20 + size < 0x1_0000)
  {}

  /** The header up to the addresses. */
  method PutNumbers(packet: array<Byte>, length: nat, id: nat, protocol: Byte)
    requires 20 <= packet.Length && length < 0x1_0000 && id < 0x1_0000
    modifies packet
    ensures packet[..12] == HeaderNumbers(length, id, protocol)
    ensures packet[20..] == old(packet[20..])
  {
    packet[0] := 0x45;
    packet[1] := 0;
    PutSwapped(packet, 2, length);
    PutSwapped(packet, 4, id);
    PutSwapped(packet, 6, 0);
    packet[8] := 64;
    packet[9] := protocol;
    PutSwapped(packet, 10, 0);
    assert packet[0] == 0x45 && packet[1] == 0 && packet[2] == length / 0x100 && packet[3] == length % 0x100;
    assert packet[4] == id / 0x100 && packet[5] == id % 0x100 && packet[6] == 0 && packet[7] == 0;
  }

  class Ipv4 {
    var myIp: Word
    var nextId: nat

    ghost predicate Valid()
      reads this
    {
      nextId < 0x1_0000
    }

    constructor ()
      ensures Valid() && nextId == 0x1234 && myIp == 0
    {
      myIp := 0;
      nextId := 0x1234;
    }

    /** The fields of the header, the checksum still 0; the length field has sixteen bits. */
    method FillFields(packet: array<Byte>, destIp: Word, protocol: Byte, size: nat)
      requires Valid() && packet.Length == 20 + size < 0x1_0000_0000
      modifies this`nextId, packet
      ensures Valid() && nextId == (old(nextId) + 1) % 0x1_0000
      ensures packet[..20] == HeaderBytes((20 + size) % 0x1_0000, old(nextId), protocol, myIp, destIp)
      ensures packet[20..] == old(packet[20..])
    {
      hide AddressBytes;
      PutNumbers(packet, (20 + size) % 0x1_0000, nextId, protocol);
      PutAddress(packet, 12, myIp);
      assert packet[..16] == packet[..12] + packet[12..16];
      PutAddress(packet, 16, destIp);
      assert packet[..20] == packet[..16] + packet[16..20];
      nextId := (nextId + 1) % 0x1_0000;
    }

    /** The header fill of send_packet: every header sent out checks to 0. */
    method FillHeader(packet: array<Byte>, destIp: Word, protocol: Byte, size: nat)
      requires Valid() && packet.Length == 20 + size < 0x1_0000_0000
      modifies this`nextId, packet
      ensures Valid() && nextId == (old(nextId) + 1) % 0x1_0000
      ensures var h := HeaderBytes((20 + size) % 0x1_0000, old(nextId), protocol, myIp, destIp);
        packet[..20] == WithField(h, 10, Checksum(h))
      ensures HeaderFields(packet[..], (20 + size) % 0x1_0000, old(nextId), protocol, myIp, destIp)
      ensures Checksum(packet[..20]) == 0
      ensures packet[20..] == old(packet[20..])
    {
      hide Checksum, AddressBytes;
      ghost var h := HeaderBytes((20 + size) % 0x1_0000, nextId, protocol, myIp, destIp);
      FillFields(packet, destIp, protocol, size);
      var checksum := CalculateChecksum(packet[..20]);
      StoredChecksumVerifies(h, 5);
      StoreChecksum(packet, h, 10, checksum);
      HeaderPlaces((20 + size) % 0x1_0000, old(nextId), protocol, myIp, destIp, checksum);
      FieldsOfPrefix(packet[..], (20 + size) % 0x1_0000, old(nextId), protocol, myIp, destIp);
    }
  }

  lemma FieldsOfPrefix(packet: seq<Byte>, length: nat, id: nat, protocol: Byte, src: Word, dest: Word)
    requires |packet| >= 20 && HeaderFields(packet[..20], length, id, protocol, src, dest)
    ensures HeaderFields(packet, length, id, protocol, src, dest)
  {}

  method StoreChecksum(packet: array<Byte>, ghost head: seq<Byte>, at: nat, checksum: nat)
    requires at + 1 < |head| <= packet.Length && checksum < 0x1_0000 && packet[..|head|] == head
    modifies packet
    ensures packet[..|head|] == WithField(head, at, checksum)
    ensures packet[|head|..] == old(packet[|head|..])
  {
    PutWord(packet, at, checksum);
  }

  /** The echo request with 0 for the checksum: type 8, identifier and sequence number high byte first, letters. */
  function EchoBytes(id: nat, sequence: nat): (p: seq<Byte>)
    requires id < 0x1_0000 && sequence < 0x1_0000
    ensures |p| == 40 && WordAt(p, 1) == 0
  {
    [8, 0, 0, 0, id / 0x100, id % 0x100, sequence / 0x100, sequence % 0x100]
      + seq(32, i requires 0 <= i < 32 => 97 + i % 26)
  }

  /** The fields at their places in RFC 792: an echo request with its identifier and sequence number, and
      the alphabet. */
  predicate EchoFields(p: seq<Byte>, id: nat, sequence: nat) {
    && |p| == 8 + 32 && p[0] == 8 && p[1] == 0 && High(p, 4) == id && High(p, 6) == sequence
    && forall i: nat :: i < 32 ==> p[8 + i] == 'a' as nat + i % 26
  }

  lemma EchoPlaces(id: nat, sequence: nat, checksum: nat)
    requires id < 0x1_0000 && sequence < 0x1_0000 && checksum < 0x1_0000
    ensures EchoFields(WithField(EchoBytes(id, sequence), 2, checksum), id, sequence)
  {}

  /** The header of an echo request, its checksum still 0. */
  method FillEchoHeader(packet: array<Byte>, id: nat, sequence: nat)
    requires packet.Length == 40 && id < 0x1_0000 && sequence < 0x1_0000
    modifies packet
    ensures packet[..8] == EchoBytes(id, sequence)[..8]
  {
    packet[0] := 8;
    packet[1] := 0;
    PutSwapped(packet, 4, id);
    PutSwapped(packet, 6, sequence);
    PutSwapped(packet, 2, 0);
  }

  method FillLetters(packet: array<Byte>)
    requires packet.Length == 40
    modifies packet
    ensures packet[..8] == old(packet[..8])
    ensures forall j :: 0 <= j < 32 ==> packet[8 + j] == 97 + j % 26
  {
    var i := 0;
    while i < 32
      invariant i <= 32 && packet[..8] == old(packet[..8])
      invariant forall j :: 0 <= j < i ==> packet[8 + j] == 97 + j % 26
    {
      packet[8 + i] := 97 + i % 26;
      i := i + 1;
    }
  }

  /** The packet send_echo_request hands to IPv4: it checks to 0. */
  method EchoRequest(id: nat, sequence: nat) returns (packet: array<Byte>)
    requires id < 0x1_0000 && sequence < 0x1_0000
    ensures fresh(packet) && packet[..] == WithField(EchoBytes(id, sequence), 2, Checksum(EchoBytes(id, sequence)))
    ensures EchoFields(packet[..], id, sequence)
    ensures Checksum(packet[..]) == 0
  {
    hide Checksum, WithField, WordAt, EchoFields;
    packet := new Byte[40](_ => 0);
    FillEchoHeader(packet, id, sequence);
    FillLetters(packet);
    assert packet[..] == EchoBytes(id, sequence);
    var checksum := CalculateChecksum(packet[..]);
    PutWord(packet, 2, checksum);
    EchoPlaces(id, sequence, checksum);
    StoredChecksumVerifies(EchoBytes(id, sequence), 1);
  }
}
