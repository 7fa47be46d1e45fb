/** The 32-bit entries of page directories and page tables (section 4.3 of volume 3A
    of the Intel SDM): a page frame in the upper twenty bits and twelve flag bits. */
module PageEntry {
  import opened Words

  const FRAMES: nat := 0x10_0000
  const PRESENT: Word := 0x1
  const RW: Word := 0x2
  const USER: Word := 0x4
  const COW: Word := 0x200

  predicate Present(e: Word) { And(e, PRESENT) != 0 }
  predicate Writable(e: Word) { And(e, RW) != 0 }
  predicate Cow(e: Word) { And(e, COW) != 0 }

  /** User mode may go through the entry; it reaches a page when the table's entry and the page's own both let it. */
  predicate ForUser(e: Word) { And(e, USER) != 0 }

  /** The address part, as a frame number: every pointer the kernel takes out of an
      entry is `e & ~0xFFF`, reached through the identity map. */
  function FrameOf(e: Word): (f: nat)
    ensures f < FRAMES
  {
    PageMask(e);
    And(e, Not(0xFFF)) / 0x1000
  }

  function FlagsOf(e: Word): (f: Word)
    ensures f < 0x1000
  {
    PageMask(e);
    And(e, 0xFFF)
  }

  /** `address | flags` for a page-aligned address. */
  function Pack(frame: nat, flags: Word): (e: Word)
    requires frame < FRAMES && flags < 0x1000
    ensures e == frame * 0x1000 + flags
  {
    Pow2At32();
    OrAligned(frame, flags, 12);
    Or(frame * 0x1000, flags)
  }

  /** The flags a mapping request asks for: 7 or 3, without bit 1 when read-only. */
  function MapFlags(user: bool, rw: bool): (f: Word)
    ensures f < 0x1000 && Present(f) && Writable(f) == rw && !Cow(f) && ForUser(f) == user
  {
    var f: Word := if user then 7 else 3;
    ModeFlags(user);
    if rw then f else And(f, Not(RW))
  }

  lemma ModeFlags(user: bool)
    ensures And(if user then 7 else 3, Not(RW)) == if user then 5 else 1
    ensures forall f: Word :: f in {1, 3, 5, 7} ==> Present(f) && !Cow(f)
    ensures !Writable(1) && !Writable(5) && Writable(3) && Writable(7)
    ensures !ForUser(1) && !ForUser(3) && ForUser(5) && ForUser(7)
  {
    ReadOnlyMode();
    SmallFlags();
  }

  lemma ReadOnlyMode()
    ensures And(7, Not(RW)) == 5 && And(3, Not(RW)) == 1
  {}

  lemma SmallFlags()
    ensures And(5, 1) == And(1, 1) == And(7, 1) == And(3, 1) == 1
    ensures And(5, 2) == And(1, 2) == 0 && And(7, 2) == And(3, 2) == 2
    ensures And(5, 4) == And(7, 4) == 4 && And(1, 4) == And(3, 4) == 0
    ensures And(5, 0x200) == And(1, 0x200) == And(7, 0x200) == And(3, 0x200) == 0
  {}

  /** Flags of the child's copy of an entry: write bit cleared, bit 9 set. */
  function CowFlags(e: Word): (f: Word)
    ensures f < 0x1000 && Present(f) == Present(e) && !Writable(f) && Cow(f) && ForUser(f) == ForUser(e)
  {
    FlagBits(e);
    ClearSet(FlagsOf(e), 1, 9);
    Or(And(FlagsOf(e), Not(RW)), COW)
  }

  /** Flags after a copy-on-write fault: bit 9 cleared, write bit set. */
  function BrokenFlags(e: Word): (f: Word)
    ensures f < 0x1000 && Present(f) == Present(e) && Writable(f) && !Cow(f) && ForUser(f) == ForUser(e)
  {
    FlagBits(e);
    ClearSet(FlagsOf(e), 9, 1);
    Or(And(FlagsOf(e), Not(COW)), RW)
  }

  lemma PowersOfFlags()
    ensures Pow2(0) == PRESENT && Pow2(1) == RW && Pow2(2) == USER && Pow2(9) == COW && Pow2(12) == 0x1000
  {}

  /** Clearing bit c and setting bit s of twelve flag bits touches no other bit. */
  lemma ClearSet(flags: Word, c: nat, s: nat)
    requires flags < 0x1000 && c < 12 && s < 12 && c != s
    ensures Pow2(c) <= Pow2(11) && Pow2(s) <= Pow2(11) && Pow2(11) == 0x800
    ensures var f := Or(And(flags, Not(Pow2(c))), Pow2(s));
            && f < 0x1000
            && forall k: nat :: k < 32 ==> (And(f, Pow2(k)) != 0) == (k == s || (k != c && And(flags, Pow2(k)) != 0))
  {
    PowersOfFlags();
    Pow2Mono(c, 11);
    Pow2Mono(s, 11);
    var kept := And(flags, Not(Pow2(c)));
    AndBound(flags, Not(Pow2(c)));
    OrBound(kept, Pow2(s), 12);
    var f := Or(kept, Pow2(s));
    forall k: nat | k < 32
      ensures (And(f, Pow2(k)) != 0) == (k == s || (k != c && And(flags, Pow2(k)) != 0))
    {
      TestBit(f, k);
      TestBit(flags, k);
      OrBit(kept, Pow2(s), k);
      AndBit(flags, Not(Pow2(c)), k);
      NotBit(Pow2(c), k);
      Pow2Bit(c, k);
      Pow2Bit(s, k);
    }
  }

  /** The flag bits of an entry are those of its flag part. */
  lemma FlagBits(e: Word)
    ensures Present(FlagsOf(e)) == Present(e)
    ensures Writable(FlagsOf(e)) == Writable(e)
    ensures Cow(FlagsOf(e)) == Cow(e)
    ensures ForUser(FlagsOf(e)) == ForUser(e)
  {
    PowersOfFlags();
    LowBit(e, 0);
    LowBit(e, 1);
    LowBit(e, 2);
    LowBit(e, 9);
  }

  /** Where section 4.3 of the manual has the flags, copy-on-write being one of the bits it leaves to software. */
  lemma FlagPlaces(e: Word)
    ensures Present(e) == BitAt(e, 0) && Writable(e) == BitAt(e, 1)
    ensures ForUser(e) == BitAt(e, 2) && Cow(e) == BitAt(e, 9)
  {
    hide And, BitAt;
    PowersOfFlags();
    TestBit(e, 0);
    TestBit(e, 1);
    TestBit(e, 2);
    TestBit(e, 9);
  }

  lemma LowBit(e: Word, k: nat)
    requires k < 12
    ensures (And(FlagsOf(e), Pow2(k)) != 0) == (And(e, Pow2(k)) != 0)
  {
    Pow2At32();
    TestBit(e, k);
    TestBit(FlagsOf(e), k);
    AndBit(e, 0xFFF, k);
    ZeroBits(k);
    FlipBit(0, 12, k);
  }

  /** Taking an entry apart gives back what was packed, and packing loses nothing. */
  lemma PackFields(frame: nat, flags: Word)
    requires frame < FRAMES && flags < 0x1000
    ensures FrameOf(Pack(frame, flags)) == frame && FlagsOf(Pack(frame, flags)) == flags
    ensures Present(Pack(frame, flags)) == Present(flags)
    ensures Writable(Pack(frame, flags)) == Writable(flags)
    ensures Cow(Pack(frame, flags)) == Cow(flags)
    ensures ForUser(Pack(frame, flags)) == ForUser(flags)
  {
    PackParts(frame, flags);
    FlagBits(Pack(frame, flags));
  }

  lemma PackParts(frame: nat, flags: Word)
    requires frame < FRAMES && flags < 0x1000
    ensures FrameOf(Pack(frame, flags)) == frame && FlagsOf(Pack(frame, flags)) == flags
  {
    hide And, Or;
    PageMask(Pack(frame, flags));
    FieldsOf(frame, flags);
  }

  lemma FieldsOf(frame: nat, flags: nat)
    requires flags < 0x1000
    ensures (frame * 0x1000 + flags) / 0x1000 == frame && (frame * 0x1000 + flags) % 0x1000 == flags
  {}

  lemma Unpack(e: Word)
    ensures e == Pack(FrameOf(e), FlagsOf(e))
  {
    PageMask(e);
  }

  lemma ZeroEntry()
    ensures !Present(0)
  {}
}
