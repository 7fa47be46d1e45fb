/** The physical frame allocator: one bit per 4096-byte block. */
module Pmm {
  import opened Words

  const BLOCK_SIZE: nat := 4096
  const BLOCKS_PER_BUCKET: nat := 32
  const FULL_BUCKET: Word := 0xFFFF_FFFF

  /** Whether block b's bit is set. */
  predicate Marked(bitmap: seq<Word>, b: nat)
    requires b < |bitmap| * 32
  {
    BitAt(bitmap[b / 32], b % 32)
  }

  /** The bitmap marks exactly the blocks of `used`. */
  ghost predicate Represents(bitmap: seq<Word>, max: nat, used: set<nat>) {
    && max <= |bitmap| * 32
    && (forall b :: b in used ==> b < max)
    && (forall b: nat {:trigger Marked(bitmap, b)} :: b < max ==> Marked(bitmap, b) == (b in used))
  }

  /** first_free_block looks at whole 32-block buckets only. */
  function Scanned(max: nat): nat {
    max / 32 * 32
  }

  /** The least block at or above k and below limit that is not used; limit when there is none. */
  function FreeFrom(used: set<nat>, k: nat, limit: nat): (b: nat)
    requires k <= limit
    ensures k <= b <= limit
    ensures b < limit ==> b !in used
    ensures forall c :: k <= c < b ==> c in used
    decreases limit - k
  {
    if k == limit || k !in used then k else FreeFrom(used, k + 1, limit)
  }

  /** What allocate_block hands out, as a block number, with 0 standing for the null pointer. */
  function Pick(used: set<nat>, max: nat): (b: nat)
    ensures b < max || b == 0
  {
    var b := FreeFrom(used, 0, Scanned(max));
    if b == Scanned(max) then 0 else b
  }

  function UsedAfterPick(used: set<nat>, max: nat): set<nat> {
    if FreeFrom(used, 0, Scanned(max)) == Scanned(max) then used else used + {Pick(used, max)}
  }

  /** Every block of the whole buckets below max is in use. */
  ghost predicate Exhausted(used: set<nat>, max: nat) {
    forall b: nat :: b / 32 < max / 32 ==> b in used
  }

  /** Allocation takes nothing exactly when every block of a whole bucket is used, and otherwise the least free
      block. */
  lemma TakesLeastFree(used: set<nat>, max: nat)
    ensures UsedAfterPick(used, max) == used <==> Exhausted(used, max)
    ensures Exhausted(used, max) ==> Pick(used, max) == 0
    ensures !Exhausted(used, max) ==>
      && Pick(used, max) !in used && Pick(used, max) < max
      && (forall b :: 0 <= b < Pick(used, max) ==> b in used)
      && UsedAfterPick(used, max) == used + {Pick(used, max)}
  {
    var f := FreeFrom(used, 0, Scanned(max));
    if f == Scanned(max) {
      forall b: nat | b / 32 < max / 32 ensures b in used { assert b < Scanned(max); }
    } else {
      assert f / 32 < max / 32 && f !in used;
    }
  }

  /** With block 0 in use, the block number 0 means that nothing was taken. */
  lemma PickLeastFree(used: set<nat>, max: nat)
    requires 0 in used
    ensures Pick(used, max) == 0 <==> forall b: nat :: b / 32 < max / 32 ==> b in used
    ensures Pick(used, max) == 0 ==> UsedAfterPick(used, max) == used
    ensures Pick(used, max) != 0 ==>
              && Pick(used, max) !in used
              && Pick(used, max) < max
              && (forall b :: 0 <= b < Pick(used, max) ==> b in used)
              && UsedAfterPick(used, max) == used + {Pick(used, max)}
  {
    TakesLeastFree(used, max);
  }

  /** Allocation fails although a block is free exactly when all free blocks are among the last max % 32. */
  lemma FailsWithFreeIff(used: set<nat>, max: nat, free: nat)
    requires 0 in used && free < max && free !in used
    ensures Pick(used, max) == 0 <==> forall b: nat :: b < max && b !in used ==> b >= max - max % 32
  {
    PickLeastFree(used, max);
    forall b: nat ensures b / 32 < max / 32 <==> b < max - max % 32 { WholeBuckets(max, b); }
  }

  lemma WholeBuckets(max: nat, b: nat)
    ensures b / 32 < max / 32 <==> b < max - max % 32
  {}

  /** One entry of the multiboot memory map, by the fields the loader reads. */
  datatype MapEntry = MapEntry(size: Word, addrLow: Word, lenLow: Word, kind: Word)

  const ENTRY_BYTES: nat := 24
  const STEP_LIMIT: nat := 0xFFFF_FFFF - 4096

  /** Where the loader looks after an entry, in 32-bit arithmetic. */
  function NextEntry(at: Word, e: MapEntry): Word {
    (at + e.size + 4) % 0x1_0000_0000
  }

  /** The entries the loader visits, each found `size + 4` bytes after the previous one,
      until one would not fit or the address fails to grow. */
  ghost function Visited(read: imap<Word, MapEntry>, at: Word, end: Word): seq<MapEntry>
    requires forall a: Word :: a in read
    decreases 0x1_0000_0000 - at
  {
    if (at + ENTRY_BYTES) % 0x1_0000_0000 > end then []
    else [read[at]] + VisitedAfter(read, at, end)
  }

  ghost function VisitedAfter(read: imap<Word, MapEntry>, at: Word, end: Word): seq<MapEntry>
    requires forall a: Word :: a in read
    decreases 0x1_0000_0000 - at, 0
  {
    var next := NextEntry(at, read[at]);
    if next <= at then [] else Visited(read, next, end)
  }

  /** The map as a boot loader writes it (section 3.3 of the Multiboot specification): entries one after the other from
      `at` up to `end`, each with a size field of four bytes that does not count itself and covers at least twenty. */
  ghost predicate LaidOut(read: imap<Word, MapEntry>, at: nat, entries: seq<MapEntry>, end: nat)
    requires forall a: Word :: a in read
    decreases |entries|
  {
    && at <= end < 0x1_0000_0000
    && if entries == [] then at == end
       else
         && read[at] == entries[0] && entries[0].size >= 20
         && LaidOut(read, at + 4 + entries[0].size, entries[1..], end)
  }

  /** The loader visits the entries of such a map and no other exactly when the map does not lie within the last
      24 bytes of the address space, where its test of the end wraps. */
  lemma {:induction false} VisitsAllIff(read: imap<Word, MapEntry>, at: Word, entries: seq<MapEntry>, end: Word)
    requires forall a: Word :: a in read
    requires LaidOut(read, at, entries, end)
    ensures |Visited(read, at, end)| >= |entries|
    ensures Visited(read, at, end) == entries <==> end + 24 < 0x1_0000_0000
    decreases |entries|
  {
    if entries == [] {
      if end + 24 >= 0x1_0000_0000 { assert (end + 24) % 0x1_0000_0000 <= end; }
    } else {
      var next := at + 4 + entries[0].size;
      VisitsAllIff(read, next, entries[1..], end);
      assert Visited(read, at, end) == [entries[0]] + Visited(read, next, end);
    }
  }

  /** Whether an available-memory entry steps onto the start of block b. */
  ghost predicate StepsOnto(e: MapEntry, b: nat) {
    && e.kind == 1
    && e.addrLow % 4096 == 0
    && e.addrLow <= b * 4096 < e.addrLow + e.lenLow
    && b * 4096 < 0xFFFF_EFFF
  }

  ghost predicate Reached(entries: seq<MapEntry>, b: nat) {
    exists e :: e in entries && StepsOnto(e, b)
  }

  ghost function FreedBy(entries: seq<MapEntry>): set<nat> {
    set b: nat | 0 < b < 0x10_0000 && Reached(entries, b)
  }

  lemma AlreadyBelow(n: nat, b: nat)
    requires b < n
    ensures Below(n) + {b} == Below(n)
  {}

  /** What freeing the entries' blocks leaves; block 0 is not among those. */
  ghost predicate EntriesFreed(before: set<nat>, now: set<nat>, entries: seq<MapEntry>) {
    now == before - FreedBy(entries)
  }

  ghost function Block0(max: nat): set<nat> {
    if max > 0 then {0} else {}
  }

  /** The numbers below n. */
  ghost function Below(n: nat): (s: set<nat>)
    ensures forall b: nat :: b in s <==> b < n
    ensures |s| == n
  {
    if n == 0 then {} else Below(n - 1) + {n - 1}
  }

  lemma Regroup<T>(a: seq<T>, x: T, b: seq<T>)
    ensures a + ([x] + b) == (a + [x]) + b
  {}

  class Allocator {
    var bitmap: array?<Word>
    var maxBlocks: Word
    var usedBlocks: Word

    ghost var used: set<nat>  // the blocks marked used

    ghost predicate Valid()
      reads this, bitmap
    {
      && usedBlocks == |used|
      && if bitmap == null then maxBlocks == 0 && used == {}
         else
           && bitmap.Length == (maxBlocks + 31) / 32
           && 0 < maxBlocks < 0x10_0000
           && Represents(bitmap[..], maxBlocks, used)
    }

    constructor ()
      ensures Valid() && bitmap == null && used == {}
    {
      bitmap, maxBlocks, usedBlocks, used := null, 0, 0, {};
    }

    method TestBlock(bit: Word) returns (r: bool)
      requires Valid()
      ensures r == (bit in used)
    {
      if bitmap == null || bit >= maxBlocks { return false; }
      assert Marked(bitmap[..], bit) == (bit in used);
      TestBit(bitmap[bit / 32], bit % 32);
      r := And(bitmap[bit / 32], Pow2(bit % 32)) != 0;
    }

    method SetBlock(bit: Word)
      requires Valid()
      modifies this`usedBlocks, this`used, bitmap
      ensures Valid()
      ensures used == old(used) + (if bit < maxBlocks then {bit as nat} else {})
    {
      if bitmap == null || bit >= maxBlocks { return; }
      var marked := TestBlock(bit);
      if !marked {
        ghost var was := bitmap[..];
        BucketBit(was[bit / 32], bit % 32);
        bitmap[bit / 32] := Or(bitmap[bit / 32], Pow2(bit % 32));
        BitMarked(was, bitmap[..], maxBlocks, used, bit, true);
        UsedFits(used + {bit}, maxBlocks);
        usedBlocks, used := usedBlocks + 1, used + {bit};
      }
    }

    method UnsetBlock(bit: Word)
      requires Valid()
      modifies this`usedBlocks, this`used, bitmap
      ensures Valid()
      ensures used == old(used) - {bit as nat}
    {
      if bitmap == null || bit >= maxBlocks { return; }
      var marked := TestBlock(bit);
      if marked {
        ghost var was := bitmap[..];
        BucketBit(was[bit / 32], bit % 32);
        bitmap[bit / 32] := And(bitmap[bit / 32], Not(Pow2(bit % 32)));
        BitMarked(was, bitmap[..], maxBlocks, used, bit, false);
        usedBlocks, used := usedBlocks - 1, used - {bit};
      }
    }

    /** The least unused block among the scanned buckets, or -1. */
    method FirstFreeBlock() returns (r: int)
      requires Valid()
      ensures var f := FreeFrom(used, 0, Scanned(maxBlocks));
              r == if f == Scanned(maxBlocks) then -1 else f
      ensures r == -1 <==> forall b: nat :: b / 32 < maxBlocks / 32 ==> b in used
      ensures r != -1 ==> 0 <= r < maxBlocks && r !in used && forall b: nat :: b < r ==> b in used
    {
      TakesLeastFree(used, maxBlocks);
      if bitmap == null || maxBlocks == 0 { return -1; }
      ghost var limit := Scanned(maxBlocks);
      var numBuckets := maxBlocks / BLOCKS_PER_BUCKET;
      var i := 0;
      while i < numBuckets
        invariant 0 <= i <= numBuckets
        invariant forall b :: 0 <= b < i * 32 ==> b in used
      {
        if bitmap[i] != FULL_BUCKET {
          var j := 0;
          while j < BLOCKS_PER_BUCKET
            invariant 0 <= j <= 32
            invariant forall b :: 0 <= b < i * 32 + j ==> b in used
          {
            var bit := Pow2(j);
            BucketMember(bitmap[..], maxBlocks, used, i, j);
            if And(bitmap[i], bit) == 0 {
              var block := i * BLOCKS_PER_BUCKET + j;
              if block < maxBlocks {
                LeastFree(used, block, limit);
                return block;
              }
            }
            j := j + 1;
          }
        } else {
          FullBucket(bitmap[..], maxBlocks, used, i);
        }
        i := i + 1;
      }
      return -1;
    }

    /** The whole bitmap starts out used. `start` is where the kernel puts the bitmap. */
    method Initialize(start: Word, size: Word)
      requires Valid()
      modifies this
      ensures Valid()
      ensures start == 0 || size < 4096 ==>
        bitmap == old(bitmap) && maxBlocks == old(maxBlocks) && usedBlocks == old(usedBlocks)
      ensures start != 0 && size >= 4096 ==>
                && fresh(bitmap)
                && maxBlocks == size / 4096
                && used == Below(maxBlocks)
                && usedBlocks == maxBlocks
    {
      hide Represents;
      if start == 0 || size < BLOCK_SIZE { return; }
      var bits := new Word[(size / BLOCK_SIZE + 31) / 32];
      bitmap, maxBlocks := bits, size / BLOCK_SIZE;
      usedBlocks, used := maxBlocks, Below(maxBlocks);
      MarkAll(bits, maxBlocks);
      ReserveBitmap(start / BLOCK_SIZE, (maxBlocks + BLOCKS_PER_BUCKET - 1) / BLOCKS_PER_BUCKET);
    }

    /** The last loop of initialize: the bitmap's own blocks, in use already, are marked. */
    method ReserveBitmap(firstBlock: nat, bitmapBlocks: nat)
      requires Valid() && bitmap != null && used == Below(maxBlocks)
      modifies this`usedBlocks, this`used, bitmap
      ensures Valid() && used == Below(maxBlocks) && usedBlocks == old(usedBlocks)
    {
      var i := 0;
      while i < bitmapBlocks
        invariant Valid() && used == Below(maxBlocks) && usedBlocks == old(usedBlocks)
      {
        if firstBlock + i < maxBlocks {
          AlreadyBelow(maxBlocks, firstBlock + i);
          SetBlock(firstBlock + i);
        }
        i := i + 1;
      }
    }

    /** Returns the address of the block taken, or 0. */
    method AllocateBlock() returns (addr: Word)
      requires Valid()
      modifies this`usedBlocks, this`used, bitmap
      ensures Valid()
      ensures addr == Pick(old(used), maxBlocks) * 4096
      ensures used == UsedAfterPick(old(used), maxBlocks)
      ensures used == old(used) <==> forall b: nat :: b / 32 < maxBlocks / 32 ==> b in old(used)
      ensures used != old(used) ==>
        && addr / 4096 !in old(used) && used == old(used) + {addr / 4096}
        && forall b: nat :: b < addr / 4096 ==> b in old(used)
    {
      TakesLeastFree(used, maxBlocks);
      if bitmap == null { return 0; }
      var freeBlock := FirstFreeBlock();
      if freeBlock == -1 || freeBlock >= maxBlocks { return 0; }
      SetBlock(freeBlock);
      addr := freeBlock * BLOCK_SIZE;
    }

    method FreeBlock(addr: Word)
      requires Valid()
      modifies this`usedBlocks, this`used, bitmap
      ensures Valid()
      ensures used == old(used) - BlockAt(addr)
    {
      if addr == 0 || bitmap == null { return; }
      if addr % BLOCK_SIZE != 0 { return; }
      var block := addr / BLOCK_SIZE;
      if block >= maxBlocks { return; }
      UnsetBlock(block);
    }

    /** Frees what the boot loader reports as available memory and keeps block 0. */
    method LoadMemoryMap(read: imap<Word, MapEntry>, mmapAddr: Word, mmapLength: Word)
      requires Valid()
      requires forall a: Word :: a in read
      modifies this`usedBlocks, this`used, bitmap
      ensures Valid()
      ensures mmapAddr == 0 || mmapLength == 0 ==> used == old(used)
      ensures mmapAddr != 0 && mmapLength != 0 ==>
                EntriesFreed(old(used) + Block0(maxBlocks), used,
                             Visited(read, mmapAddr, (mmapAddr + mmapLength) % 0x1_0000_0000))
    {
      if mmapAddr == 0 || mmapLength == 0 { return; }
      var at: Word := mmapAddr;
      var end: Word := (mmapAddr + mmapLength) % 0x1_0000_0000;
      ghost var done: seq<MapEntry> := [];
      ghost var rest := Visited(read, at, end);
      while (at + ENTRY_BYTES) % 0x1_0000_0000 <= end
        invariant Valid()
        invariant rest == Visited(read, at, end)
        invariant done + rest == Visited(read, mmapAddr, end)
        invariant EntriesFreed(old(used), used, done)
        decreases 0x1_0000_0000 - at
      {
        var e := read[at];
        ghost var before := used;
        FreeEntry(e);
        MoreFreed(old(used), before, used, done, e);
        Regroup(done, e, VisitedAfter(read, at, end));
        done, rest := done + [e], VisitedAfter(read, at, end);
        var next := NextEntry(at, e);
        if next <= at { break; }
        at := next;
      }
      assert rest == [] && done + [] == done;
      KeepBlock0(old(used), used, done, maxBlocks);
      SetBlock(0);
    }

    /** The body of the loop above: one entry. */
    method FreeEntry(e: MapEntry)
      requires Valid()
      modifies this`usedBlocks, this`used, bitmap
      ensures Valid()
      ensures used == old(used) - FreedBy([e])
    {
      if e.kind == 1 && e.lenLow > 0 {
        ghost var k := FreeRange(e.addrLow, e.lenLow);
        RangeFreed(e, k);
      } else {
        NothingFreed(e);
      }
    }

    /** Its inner loop, taking k steps. The counter and `addr + i` stay below 2^32,
        so the 32-bit additions of the kernel never wrap. */
    method FreeRange(addr: Word, len: Word) returns (ghost k: nat)
      requires Valid() && len > 0
      modifies this`usedBlocks, this`used, bitmap
      ensures Valid()
      ensures StopsAfter(addr, len, k)
      ensures Freed(old(used), used, addr, k)
    {
      hide Allocator.Valid, Freed;
      var i: Word := 0;
      k := 0;
      FreedNothing(used, addr);
      while i < len && addr + i < STEP_LIMIT
        invariant Valid()
        invariant i == 4096 * k && addr + i < 0x1_0000_0000
        invariant k == 0 || Enters(addr, len, k - 1)
        invariant Freed(old(used), used, addr, k)
        decreases 0x1_0000_0000 - i
      {
        assert Enters(addr, len, k);
        FreeStep(addr, i, old(used), k);
        k := k + 1;
        i := i + 4096;
      }
    }

    /** One pass through that loop. */
    method FreeStep(addr: Word, i: Word, ghost before: set<nat>, ghost k: nat)
      requires Valid() && i == 4096 * k && addr + i < 0x1_0000_0000
      requires Freed(before, used, addr, k)
      modifies this`usedBlocks, this`used, bitmap
      ensures Valid()
      ensures Freed(before, used, addr, k + 1)
    {
      StepFrees(before, addr, k, i);
      FreeBlock(addr + i);
    }
  }

  /** The loop condition before step k, and the number of steps after which it fails. */
  predicate Enters(addr: nat, len: nat, k: nat) {
    4096 * k < len && addr + 4096 * k < STEP_LIMIT
  }

  predicate StopsAfter(addr: nat, len: nat, k: nat) {
    !Enters(addr, len, k) && (k == 0 || Enters(addr, len, k - 1))
  }

  /** The block freeing an address concerns: none for the null pointer or inside a block. */
  ghost function BlockAt(addr: nat): set<nat> {
    if addr != 0 && addr % 4096 == 0 then {addr / 4096} else {}
  }

  /** The blocks concerned by addr, addr + 4096, ..., k addresses in all. */
  ghost function SteppedOnto(addr: nat, k: nat): set<nat> {
    if k == 0 then {} else SteppedOnto(addr, k - 1) + BlockAt(addr + 4096 * (k - 1))
  }

  /** The first k steps from addr have been freed, and nothing else has changed. */
  ghost predicate Freed(before: set<nat>, now: set<nat>, addr: nat, k: nat) {
    now == before - SteppedOnto(addr, k)
  }

  lemma FreedNothing(used: set<nat>, addr: nat)
    ensures Freed(used, used, addr, 0)
  {}

  lemma StepFrees(used: set<nat>, addr: nat, k: nat, i: nat)
    requires i == 4096 * k
    ensures used - SteppedOnto(addr, k) - BlockAt(addr + i) == used - SteppedOnto(addr, k + 1)
  {}

  lemma NthStart(addr: nat, k: nat, b: nat)
    ensures b in BlockAt(addr + 4096 * k) <==> b > 0 && addr % 4096 == 0 && b == addr / 4096 + k
  {}

  lemma {:induction false} SteppedMember(addr: nat, k: nat, b: nat)
    ensures b in SteppedOnto(addr, k) <==> b > 0 && addr % 4096 == 0 && addr / 4096 <= b < addr / 4096 + k
  {
    if k > 0 {
      SteppedMember(addr, k - 1, b);
      NthStart(addr, k - 1, b);
    }
  }

  lemma RangeFreed(e: MapEntry, k: nat)
    requires e.kind == 1 && StopsAfter(e.addrLow, e.lenLow, k)
    ensures SteppedOnto(e.addrLow, k) == FreedBy([e])
  {
    forall b: nat
      ensures b > 0 && StepsOnto(e, b) <==> b in SteppedOnto(e.addrLow, k)
      ensures Reached([e], b) == StepsOnto(e, b)
    {
      SteppedMember(e.addrLow, k, b);
      if e.addrLow % 4096 == 0 { RangeEnds(e, k, b); }
      assert e in [e];
    }
  }

  lemma RangeEnds(e: MapEntry, k: nat, b: nat)
    requires e.kind == 1 && StopsAfter(e.addrLow, e.lenLow, k) && e.addrLow % 4096 == 0
    ensures StepsOnto(e, b) <==> e.addrLow / 4096 <= b < e.addrLow / 4096 + k
  {}

  /** memset(bitmap, 0xFF, bytes): whole words, then the bytes of the last one. */
  method MemsetFull(bits: array<Word>, bytes: nat)
    requires bytes <= bits.Length * 4
    modifies bits
    ensures forall b: nat :: b < bytes * 8 ==> BitAt(bits[b / 32], b % 32)
  {
    var k := 0;
    while k < bytes
      invariant k <= bytes
      invariant forall b: nat :: b < k * 8 ==> BitAt(bits[b / 32], b % 32)
    {
      ghost var was := bits[k / 4];
      ByteOfOnes(bits[k / 4], k % 4);
      bits[k / 4] := Or(bits[k / 4], 0xFF * Pow2(8 * (k % 4)));
      forall b: nat | b < k * 8 + 8 ensures BitAt(bits[b / 32], b % 32) {
        if b / 32 == k / 4 {
          OrBit(was, 0xFF * Pow2(8 * (k % 4)), b % 32);
        }
      }
      k := k + 1;
    }
  }

  // ----- lemmas about single bits and the set they denote

  lemma BucketBit(w: Word, j: nat)
    requires j < 32
    ensures Pow2(j) < 0x1_0000_0000
    ensures Or(w, Pow2(j)) < 0x1_0000_0000 && And(w, Not(Pow2(j))) < 0x1_0000_0000
    ensures forall k: nat :: k < 32 ==> BitAt(Or(w, Pow2(j)), k) == (BitAt(w, k) || k == j)
    ensures forall k: nat :: k < 32 ==> BitAt(And(w, Not(Pow2(j))), k) == (BitAt(w, k) && k != j)
  {
    Pow2At32();
    Pow2Mono(j + 1, 32);
    OrBound(w, Pow2(j), 32);
    AndBound(w, Not(Pow2(j)));
    forall k: nat | k < 32
      ensures BitAt(Or(w, Pow2(j)), k) == (BitAt(w, k) || k == j)
      ensures BitAt(And(w, Not(Pow2(j))), k) == (BitAt(w, k) && k != j)
    {
      OrBit(w, Pow2(j), k);
      AndBit(w, Not(Pow2(j)), k);
      NotBit(Pow2(j), k);
      Pow2Bit(j, k);
    }
  }

  lemma ByteOfOnes(w: Word, q: nat)
    requires q < 4
    ensures Or(w, 0xFF * Pow2(8 * q)) < 0x1_0000_0000
    ensures forall k: nat :: 8 * q <= k < 8 * q + 8 ==> BitAt(0xFF * Pow2(8 * q), k)
  {
    Pow2At32();
    assert Pow2(8) == 256 && Pow2(16) == 0x1_0000 && Pow2(24) == 0x100_0000;
    OrBound(w, 0xFF * Pow2(8 * q), 32);
    forall k: nat | 8 * q <= k < 8 * q + 8 ensures BitAt(0xFF * Pow2(8 * q), k) {
      ShiftedBit(0xFF, 8 * q, k - 8 * q);
      ZeroBits(k - 8 * q);
      FlipBit(0, 8, k - 8 * q);
    }
  }

  lemma {:induction false} ShiftedBit(x: nat, n: nat, k: nat)
    ensures BitAt(x * Pow2(n), n + k) == BitAt(x, k)
    decreases n
  {
    if n > 0 {
      assert x * Pow2(n) == 2 * (x * Pow2(n - 1));
      ShiftedBit(x, n - 1, k);
    }
  }

  lemma BitMarked(was: seq<Word>, now: seq<Word>, max: nat, used: set<nat>, bit: nat, on: bool)
    requires Represents(was, max, used) && bit < max
    requires |now| == |was| && now == was[bit / 32 := now[bit / 32]]
    requires forall k: nat :: k < 32 ==>
               BitAt(now[bit / 32], k) == if k == bit % 32 then on else BitAt(was[bit / 32], k)
    ensures Represents(now, max, if on then used + {bit} else used - {bit})
  {
    forall b: nat | b < max
      ensures Marked(now, b) == if b == bit then on else b in used
    {
      assert Marked(was, b) == (b in used);
    }
  }

  lemma UsedFits(used: set<nat>, max: nat)
    requires forall b :: b in used ==> b < max
    ensures |used| <= max
  {
    SubsetSize(used, Below(max));
  }

  lemma {:induction false} SubsetSize(a: set<nat>, b: set<nat>)
    requires a <= b
    ensures |a| <= |b|
  {
    if a != {} {
      var x :| x in a;
      SubsetSize(a - {x}, b - {x});
    }
  }

  /** The memset of initialize: every block below max is marked. */
  method MarkAll(bits: array<Word>, max: nat)
    requires max <= bits.Length * 32
    modifies bits
    ensures Represents(bits[..], max, Below(max))
  {
    hide BitAt, Below;
    MemsetFull(bits, (max + 7) / 8);
    AllUsed(bits[..], max);
  }

  lemma AllUsed(bitmap: seq<Word>, max: nat)
    requires max <= |bitmap| * 32
    requires forall b: nat :: b < (max + 7) / 8 * 8 && b / 32 < |bitmap| ==> BitAt(bitmap[b / 32], b % 32)
    ensures Represents(bitmap, max, Below(max))
  {}

  lemma BucketMember(bitmap: seq<Word>, max: nat, used: set<nat>, i: nat, j: nat)
    requires Represents(bitmap, max, used) && i * 32 + 32 <= max && j < 32
    ensures (i * 32 + j in used) == (And(bitmap[i], Pow2(j)) != 0)
  {
    TestBit(bitmap[i], j);
    assert Marked(bitmap, i * 32 + j) == (i * 32 + j in used);
  }

  lemma FullBucket(bitmap: seq<Word>, max: nat, used: set<nat>, i: nat)
    requires Represents(bitmap, max, used) && i * 32 + 32 <= max && bitmap[i] == FULL_BUCKET
    ensures forall b: nat :: i * 32 <= b < i * 32 + 32 ==> b in used
  {
    Pow2At32();
    forall b: nat | i * 32 <= b < i * 32 + 32 ensures b in used {
      ZeroBits(b % 32);
      FlipBit(0, 32, b % 32);
      assert Marked(bitmap, b);
    }
  }

  lemma LeastFree(used: set<nat>, b: nat, limit: nat)
    requires b < limit && b !in used && forall c :: 0 <= c < b ==> c in used
    ensures FreeFrom(used, 0, limit) == b
  {}

  lemma NothingFreed(e: MapEntry)
    requires e.kind != 1 || e.lenLow == 0
    ensures FreedBy([e]) == {}
  {}

  lemma MoreFreed(start: set<nat>, before: set<nat>, now: set<nat>, done: seq<MapEntry>, e: MapEntry)
    requires EntriesFreed(start, before, done) && now == before - FreedBy([e])
    ensures EntriesFreed(start, now, done + [e])
  {}

  lemma KeepBlock0(before: set<nat>, now: set<nat>, entries: seq<MapEntry>, max: nat)
    requires EntriesFreed(before, now, entries)
    ensures EntriesFreed(before + Block0(max), now + Block0(max), entries)
  {}

  // ----- runs of the allocator

  datatype Call = AllocateCall | FreeCall(addr: Word) | LoadCall(entries: seq<MapEntry>)

  /** The used set after a call, as the methods of Allocator promise it. */
  ghost function UsedAfter(used: set<nat>, max: nat, call: Call): set<nat> {
    match call
    case AllocateCall => UsedAfterPick(used, max)
    case FreeCall(addr) => used - BlockAt(addr)
    case LoadCall(entries) => used + Block0(max) - FreedBy(entries)
  }

  ghost function UsedAfterAll(used: set<nat>, max: nat, calls: seq<Call>): set<nat> {
    if calls == [] then used else UsedAfter(UsedAfterAll(used, max, calls[..|calls| - 1]), max, calls[|calls| - 1])
  }

  /** After initialization block 0 stays in use over any run, so allocation never hands it out: the null address
      means that every block of a whole bucket is used, and any other is a block that was free. */
  lemma {:induction false} Block0NeverHandedOut(max: nat, calls: seq<Call>)
    requires max > 0
    ensures var used := UsedAfterAll(Below(max), max, calls);
      && 0 in used
      && (Pick(used, max) == 0 ==>
            UsedAfterPick(used, max) == used && forall b: nat :: b / 32 < max / 32 ==> b in used)
      && (Pick(used, max) != 0 ==> Pick(used, max) !in used)
  {
    if calls != [] {
      Block0NeverHandedOut(max, calls[..|calls| - 1]);
    }
    PickLeastFree(UsedAfterAll(Below(max), max, calls), max);
  }
}
