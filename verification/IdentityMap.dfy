/** The identity map over runs: with at most 64 MB of memory, every frame in use stays mapped to itself in every live
    space, so the pointers the kernel takes out of entries are good whichever space runs. */
module IdentityMap {
  import opened Words
  import opened PageEntry
  import opened AddressSpaces
  import opened Invariant
  import opened Operations
  import opened UserAccess
  import opened Isolation
  import opened Privacy
  import opened Startup

  const IDENTITY_FRAMES: nat := 0x4000

  /** The first sixteen slots of d map the first 64 MB to themselves, for the kernel to read and write. */
  ghost predicate SelfMapped(w: World, d: nat)
    requires d < FRAMES
  {
    && (forall i: nat {:trigger HasTable(w.mem, d, i)} :: i < IDENTITY_TABLES ==> TableOpen(w, d, i))
    && (forall i: nat, j: nat {:trigger Pte(w.mem, d, i, j)} :: i < IDENTITY_TABLES && j < ENTRIES ==>
          Pte(w.mem, d, i, j) == IdentityEntry(i, j))
  }

  ghost predicate TableOpen(w: World, d: nat, i: nat)
    requires d < FRAMES && i < ENTRIES
  {
    HasTable(w.mem, d, i) && KernelRw(w.mem[d][i])
  }

  ghost predicate AllSelfMapped(w: World) {
    forall d {:trigger SelfMapped(w, d)} :: d in w.spaces && d < FRAMES ==> SelfMapped(w, d)
  }

  /** The operation neither maps nor unmaps a page of the first 64 MB. */
  predicate LeavesIdentity(op: Op) {
    match op
    case AllocPageOp(_, va, _, _) => DirIndex(va) >= IDENTITY_TABLES
    case UnmapOp(_, va) => DirIndex(va) >= IDENTITY_TABLES
    case FreePageOp(_, va) => DirIndex(va) >= IDENTITY_TABLES
    case _ => true
  }

  // ----- what keeps a space self-mapped

  lemma SelfKept(w: World, w': World, d: nat)
    requires d < FRAMES && SelfMapped(w, d) && SameTables(w.mem, w'.mem, d)
    ensures SelfMapped(w', d)
  {
    forall i: nat | i < IDENTITY_TABLES ensures TableOpen(w', d, i) { assert HasTable(w.mem, d, i); }
    forall i: nat, j: nat | i < IDENTITY_TABLES && j < ENTRIES
      ensures HasTable(w'.mem, d, i) && Pte(w'.mem, d, i, j) == IdentityEntry(i, j)
    {
      assert HasTable(w.mem, d, i) && Pte(w.mem, d, i, j) == IdentityEntry(i, j);
    }
  }

  lemma SelfChanged(w: World, w': World, d: nat, i: nat, j: nat, e: Word)
    requires d < FRAMES && SelfMapped(w, d) && IDENTITY_TABLES <= i < ENTRIES && j < ENTRIES
    requires PteChanged(w.mem, w'.mem, d, i, j, e)
    ensures SelfMapped(w', d)
  {
    forall k: nat | k < IDENTITY_TABLES ensures TableOpen(w', d, k) { assert HasTable(w.mem, d, k); }
    forall k: nat, l: nat | k < IDENTITY_TABLES && l < ENTRIES
      ensures HasTable(w'.mem, d, k) && Pte(w'.mem, d, k, l) == IdentityEntry(k, l)
    {
      assert HasTable(w.mem, d, k) && Pte(w.mem, d, k, l) == IdentityEntry(k, l);
    }
  }

  lemma EntryPresent(i: nat, j: nat)
    requires i < ENTRIES && j < ENTRIES
    ensures Present(IdentityEntry(i, j)) && KernelRw(IdentityEntry(i, j))
    ensures FrameOf(IdentityEntry(i, j)) == PageOf(i, j)
  {
    FlagsPresent();
    ModeFlags(false);
    PackFields(PageOf(i, j), 3);
  }

  lemma SelfSet(w: World, w': World, d: nat, i: nat, j: nat, e: Word)
    requires d < FRAMES && SelfMapped(w, d) && IDENTITY_TABLES <= i < ENTRIES && j < ENTRIES
    requires PageSet(w, w', d, i, j, e)
    requires forall k: nat :: k < IDENTITY_TABLES ==> w'.mem[d][k] == w.mem[d][k]
    ensures SelfMapped(w', d)
  {
    forall k: nat, l: nat | k < IDENTITY_TABLES && l < ENTRIES
      ensures HasTable(w'.mem, d, k) && Pte(w'.mem, d, k, l) == IdentityEntry(k, l)
    {
      SetElsewhere(w, w', d, i, j, e, k, l);
    }
    forall k: nat | k < IDENTITY_TABLES ensures TableOpen(w', d, k) { assert HasTable(w.mem, d, k); }
  }

  lemma SetElsewhere(w: World, w': World, d: nat, i: nat, j: nat, e: Word, k: nat, l: nat)
    requires d < FRAMES && SelfMapped(w, d) && IDENTITY_TABLES <= i < ENTRIES && j < ENTRIES
    requires PageSet(w, w', d, i, j, e)
    requires k < IDENTITY_TABLES && l < ENTRIES
    ensures HasTable(w'.mem, d, k) && Pte(w'.mem, d, k, l) == IdentityEntry(k, l)
  {
    EntryPresent(k, l);
    assert HasTable(w.mem, d, k) && Pte(w.mem, d, k, l) == IdentityEntry(k, l);
    assert Mapped(w.mem, d, k, l);
    assert SamePage(w.mem, w'.mem, d, k, l);
  }

  lemma SelfCopied(w: World, d: nat)
    requires d < FRAMES && w.kernelDir < FRAMES && SelfMapped(w, w.kernelDir)
    requires KernelSlots(w.mem, w.kernelDir, d, 0, KERNEL_SPACE_ENTRIES)
    ensures SelfMapped(w, d)
  {
    forall k: nat | k < IDENTITY_TABLES ensures TableOpen(w, d, k) {
      assert HasTable(w.mem, w.kernelDir, k) && KernelSlot(w.mem, w.kernelDir, d, k);
      FlagBits(w.mem[d][k]);
      FlagBits(w.mem[w.kernelDir][k]);
    }
    forall k: nat, l: nat | k < IDENTITY_TABLES && l < ENTRIES
      ensures HasTable(w.mem, d, k) && Pte(w.mem, d, k, l) == IdentityEntry(k, l)
    {
      EntryPresent(k, l);
      assert HasTable(w.mem, w.kernelDir, k) && Pte(w.mem, w.kernelDir, k, l) == IdentityEntry(k, l);
      assert Mapped(w.mem, w.kernelDir, k, l);
      SamePageBelow(w.mem, w.kernelDir, d, k, l);
    }
  }

  // ----- each operation

  lemma ExtendsSelf(w: World, w': World, d: nat)
    requires Inv(w) && AllSelfMapped(w) && Extends(w, w') && d in w.spaces
    ensures d < FRAMES && SelfMapped(w', d)
  {
    ExtendsTables(w, w', d);
    SelfKept(w, w', d);
  }

  lemma CreateSelf(w: World)
    requires Inv(w) && AllSelfMapped(w)
    ensures w.kernelDir < FRAMES && w.max <= FRAMES && AllSelfMapped(Create(w).0)
  {
    CreateKeeps(w);
    var w', d := Create(w).0, Create(w).1;
    forall e | e in w'.spaces && e < FRAMES ensures SelfMapped(w', e) {
      if e in w.spaces {
        ExtendsSelf(w, w', e);
      } else {
        ExtendsSelf(w, w', w.kernelDir);
        SelfCopied(w', d);
      }
    }
  }

  lemma CloneSelf(w: World, src: nat)
    requires Inv(w) && AllSelfMapped(w) && (src == 0 || Live(w, src))
    ensures w.kernelDir < FRAMES && w.max <= FRAMES && src < FRAMES && AllSelfMapped(Clone(w, src).0)
  {
    CloneKeeps(w, src);
    var w', d := Clone(w, src).0, Clone(w, src).1;
    forall e | e in w'.spaces && e < FRAMES ensures SelfMapped(w', e) {
      if e in w.spaces {
        ExtendsSelf(w, w', e);
      } else {
        ExtendsSelf(w, w', w.kernelDir);
        SelfCopied(w', d);
      }
    }
  }

  lemma DestroySelf(w: World, d: nat)
    requires Inv(w) && AllSelfMapped(w) && (d == 0 || Live(w, d))
    ensures d < FRAMES && AllSelfMapped(Destroy(w, d))
  {
    DestroyKeeps(w, d);
    forall e | e in Destroy(w, d).spaces && e < FRAMES ensures SelfMapped(Destroy(w, d), e) {
      SelfKept(w, Destroy(w, d), e);
    }
  }

  lemma AllocPageSelf(w: World, d: nat, va: Word, user: bool, rw: bool)
    requires Inv(w) && AllSelfMapped(w) && (d == 0 || Live(w, d)) && DirIndex(va) >= IDENTITY_TABLES
    ensures d < FRAMES && w.max < FRAMES && AllSelfMapped(AllocPage(w, d, va, user, rw).0)
  {
    WorldFits(w);
    TakeKeeps(w);
    var f := Pick(w);
    if d != 0 && f != 0 {
      var role := UserPage(StampOf(w, d), va / 0x1000);
      MarkKeeps(Take(w), f, role);
      var w1 := Mark(Take(w), f, role);
      forall e | e in w1.spaces && e < FRAMES ensures SelfMapped(w1, e) { SelfKept(w, w1, e); }
      MapSelf(w1, d, va, f * 0x1000, user, rw);
    }
  }

  lemma MapSelf(w: World, d: nat, va: Word, pa: Word, user: bool, rw: bool)
    requires Inv(w) && AllSelfMapped(w) && Live(w, d) && DirIndex(va) >= IDENTITY_TABLES && w.max <= FRAMES
    ensures AllSelfMapped(MapPage(w, d, va, pa, user, rw))
  {
    hide MapPage;
    MapPageEffect(w, d, va, pa, user, rw);
    var w' := MapPage(w, d, va, pa, user, rw);
    if w' != w {
      if Aligned(va) && Aligned(pa) && (HasTable(w.mem, d, DirIndex(va)) || Pick(w) != 0) {
        MapPageDirectory(w, d, va, pa, user, rw);
      }
      forall e | e in w'.spaces && e < FRAMES ensures SelfMapped(w', e) {
        assert SelfMapped(w, e);
        if e == d {
          SelfSet(w, w', d, DirIndex(va), TableIndex(va), Pack(pa / 0x1000, MapFlags(user, rw)));
        } else {
          SelfKept(w, w', e);
        }
      }
    }
  }

  lemma SetPteSelf(w: World, d: nat, va: Word, v: Word)
    requires Inv(w) && AllSelfMapped(w) && Live(w, d) && HasTable(w.mem, d, DirIndex(va))
    requires DirIndex(va) >= IDENTITY_TABLES
    ensures AllSelfMapped(SetPte(w, d, va, v))
  {
    SetPteEffect(w, d, va, v);
    var w' := SetPte(w, d, va, v);
    forall e | e in w'.spaces && e < FRAMES ensures SelfMapped(w', e) {
      assert SelfMapped(w, e);
      if e == d { SelfChanged(w, w', d, DirIndex(va), TableIndex(va), v); } else { SelfKept(w, w', e); }
    }
  }

  lemma FreePageSelf(w: World, d: nat, va: Word)
    requires Inv(w) && AllSelfMapped(w) && (d == 0 || Live(w, d)) && DirIndex(va) >= IDENTITY_TABLES
    ensures d < FRAMES && AllSelfMapped(FreePage(w, d, va))
  {
    if d == 0 || !Frees(w, d, va) {
      FreePageNothing(w, d, va);
    } else {
      FreePageFrees(w, d, va);
      SetPteSelf(w, d, va, 0);
      SetPteSpaces(w, d, va, 0);
      var u, w' := SetPte(w, d, va, 0), FreePage(w, d, va);
      forall e | e in w'.spaces && e < FRAMES ensures SelfMapped(w', e) { SelfKept(u, w', e); }
    }
  }

  /** Entries of the identity map are not copy-on-write. */
  lemma CowAbove(w: World, d: nat, i: nat, j: nat)
    requires d < FRAMES && SelfMapped(w, d) && i < ENTRIES && j < ENTRIES
    ensures Cow(Pte(w.mem, d, i, j)) ==> i >= IDENTITY_TABLES
  {
    EntryPresent(i, j);
  }

  lemma FaultSelf(w: World, d: nat, va: Word, present: bool, write: bool)
    requires Inv(w) && AllSelfMapped(w) && (d == 0 || Live(w, d))
    ensures d < FRAMES && w.max < FRAMES && AllSelfMapped(Fault(w, d, va, present, write).0)
  {
    WorldFits(w);
    TakeKeeps(w);
    var i, j := DirIndex(va), TableIndex(va);
    if Fault(w, d, va, present, write).1 {
      CowAbove(w, d, i, j);
      BrokenTables(w, d, va);
      BrokenSelf(w, Copied(Take(w), d, va, Pick(w)), BreakSharing(Take(w), d, va, Pick(w)), d, i, j, Pick(w));
    }
  }

  lemma BrokenSelf(w: World, w1: World, w': World, d: nat, i: nat, j: nat, f: nat)
    requires AllSelfMapped(w) && Live(w, d) && IDENTITY_TABLES <= i < ENTRIES && j < ENTRIES && f < FRAMES
    requires BrokenInTwo(w, w1, w', d, i, j, f)
    ensures AllSelfMapped(w')
  {
    forall e | e in w'.spaces && e < FRAMES ensures SelfMapped(w', e) {
      assert SelfMapped(w, e);
      SelfKept(w, w1, e);
      if e == d {
        SelfChanged(w1, w', d, i, j, Pack(f, BrokenFlags(Pte(w.mem, d, i, j))));
      } else {
        SelfKept(w1, w', e);
      }
    }
  }

  lemma ApplySelf(w: World, op: Op)
    requires Secure(w) && AllSelfMapped(w) && Enabled(w, op) && LeavesIdentity(op)
    ensures AllSelfMapped(Apply(w, op)) && Apply(w, op).max == w.max
  {
    KernelStays(w, op);
    match op
    case CreateOp => CreateSelf(w);
    case CloneOp(src) => CloneSelf(w, src);
    case DestroyOp(d) => DestroySelf(w, d);
    case AllocPageOp(d, va, user, rw) => AllocPageSelf(w, d, va, user, rw);
    case UnmapOp(d, va) => if d != 0 && Aligned(va) && HasTable(w.mem, d, DirIndex(va)) { SetPteSelf(w, d, va, 0); }
    case FreePageOp(d, va) => FreePageSelf(w, d, va);
    case FaultOp(d, va, present, write) => FaultSelf(w, d, va, present, write);
    case StoreOp(d, va, value) => StoreSelf(w, d, va, value);
  }

  lemma StoreSelf(w: World, d: nat, va: Word, value: Word)
    requires Secure(w) && AllSelfMapped(w) && Live(w, d)
    ensures AllSelfMapped(Store(w, d, va, value))
  {
    StoreKeeps(w, d, va, value);
    var w' := Store(w, d, va, value);
    forall e | e in w'.spaces && e < FRAMES ensures SelfMapped(w', e) {
      assert SelfMapped(w, e);
      SelfKept(w, w', e);
    }
  }

  // ----- runs

  /** A frame below 0x4000 is where the identity map says. */
  lemma SelfLookup(w: World, d: nat, f: nat)
    requires 0 < d < FRAMES && SelfMapped(w, d) && f < IDENTITY_FRAMES
    ensures Physical(w.mem, d, f * 0x1000) == f * 0x1000
    ensures KernelWrites(w.mem, d, DirIndex(f * 0x1000), TableIndex(f * 0x1000))
  {
    var va: Word := f * 0x1000;
    var i, j := DirIndex(va), TableIndex(va);
    PageOfAddress(va);
    EntryPresent(i, j);
    assert HasTable(w.mem, d, i) && Pte(w.mem, d, i, j) == IdentityEntry(i, j);
    PageMask(va);
  }

  /** With at most 0x4000 frames, and as long as no operation maps or unmaps a page of the first 64 MB, every frame in
      use is mapped to itself in every live space, where the kernel can write it, over every run. */
  lemma {:induction false} FramesStayReachable(states: seq<World>, ops: seq<Op>, n: nat, d: nat, f: nat)
    requires IsRun(states, ops) && Secure(states[0]) && AllSelfMapped(states[0]) && states[0].max <= IDENTITY_FRAMES
    requires (forall m :: 0 <= m < |ops| ==> LeavesIdentity(ops[m])) && n < |states|
    requires d in states[n].spaces && f in states[n].used
    ensures d < FRAMES && f < FRAMES && Physical(states[n].mem, d, f * 0x1000) == f * 0x1000
    ensures KernelWrites(states[n].mem, d, DirIndex(f * 0x1000), TableIndex(f * 0x1000))
  {
    RunSelfMapped(states, ops, n);
    LiveFrame(states[n], d);
    UsedBelow(states[n], f);
    assert SelfMapped(states[n], d);
    SelfLookup(states[n], d, f);
  }

  lemma UsedBelow(w: World, f: nat)
    requires Inv(w) && f in w.used
    ensures f < w.max
  {}

  lemma {:induction false} RunSelfMapped(states: seq<World>, ops: seq<Op>, n: nat)
    requires IsRun(states, ops) && Secure(states[0]) && AllSelfMapped(states[0]) && n < |states|
    requires forall m :: 0 <= m < |ops| ==> LeavesIdentity(ops[m])
    ensures Secure(states[n]) && AllSelfMapped(states[n]) && states[n].max == states[0].max
  {
    hide Secure, AllSelfMapped, Enabled, Apply, LeavesIdentity;
    if n > 0 {
      RunSelfMapped(states, ops, n - 1);
      assert Enabled(states[n - 1], ops[n - 1]);
      ApplyKeeps(states[n - 1], ops[n - 1]);
      ApplySelf(states[n - 1], ops[n - 1]);
    }
  }

  /** Boot leaves such a state. */
  lemma BootedSelfMapped(w: World)
    requires Booting(w, IDENTITY_TABLES)
    ensures Secure(w) && AllSelfMapped(w)
  {
    BootedSecure(w, IDENTITY_TABLES);
    var d := w.kernelDir;
    forall i: nat | i < IDENTITY_TABLES ensures TableOpen(w, d, i) { assert HasTable(w.mem, d, i); }
    forall i: nat, j: nat | i < IDENTITY_TABLES && j < ENTRIES
      ensures HasTable(w.mem, d, i) && Pte(w.mem, d, i, j) == IdentityEntry(i, j)
    {
      assert HasTable(w.mem, d, i);
    }
  }
}
