/** A page unshared by a copy-on-write fault stays private until its space is cloned. */
module Privacy {
  import opened Words
  import opened PageEntry
  import opened AddressSpaces
  import opened Invariant
  import opened Operations
  import opened UserAccess
  import opened Isolation

  /** A user page mapped in w' to a frame it mapped in w already. */
  ghost predicate Carried(w: World, w': World, e: nat, k: nat, l: nat)
    requires UserMapped(w', e, k, l)
  {
    UserMapped(w, e, k, l) && UserFrame(w, e, k, l) == UserFrame(w', e, k, l)
  }

  /** ... or to the frame the cloned space, below 3 GB the kernel's, maps there. */
  ghost predicate Inherited(w: World, w': World, src: nat, e: nat, k: nat, l: nat)
    requires UserMapped(w', e, k, l)
  {
    var from := if k >= KERNEL_SPACE_ENTRIES then src else w.kernelDir;
    e !in w.spaces && UserMapped(w, from, k, l) && UserFrame(w, from, k, l) == UserFrame(w', e, k, l)
  }

  /** ... or to a frame that was not in use, and that page `owner` alone maps. */
  ghost predicate MapsFrom(w: World, w': World, src: nat, owner: (nat, nat, nat)) {
    forall e: nat, k: nat, l: nat {:trigger UserMapped(w', e, k, l)} :: UserMapped(w', e, k, l) ==>
      || Carried(w, w', e, k, l)
      || Inherited(w, w', src, e, k, l)
      || ((e, k, l) == owner && UserFrame(w', e, k, l) !in w.used)
  }

  const NOWHERE: (nat, nat, nat) := (0, 0, 0)

  ghost function FreshPage(op: Op): (nat, nat, nat) {
    match op
    case AllocPageOp(d, va, _, _) => (d, DirIndex(va), TableIndex(va))
    case FaultOp(d, va, _, _) => (d, DirIndex(va), TableIndex(va))
    case _ => NOWHERE
  }

  ghost function SourceOf(op: Op): nat {
    if op.CloneOp? then op.src else 0
  }

  lemma SameTablesCarry(w: World, w': World, e: nat, k: nat, l: nat)
    requires UserMapped(w', e, k, l) && e in w.spaces && e < FRAMES && SameTables(w.mem, w'.mem, e)
    ensures Carried(w, w', e, k, l)
  {}

  lemma ExtendsCarries(w: World, w': World, e: nat, k: nat, l: nat)
    requires Inv(w) && Extends(w, w') && e in w.spaces && UserMapped(w', e, k, l)
    ensures Carried(w, w', e, k, l)
  {
    DirectoryRole(w, e);
    assert w'.mem[e] == w.mem[e];
    assert LiveTable(w, e, k);
    TableOwned(w, e, k);
  }

  lemma CreateMaps(w: World)
    requires Secure(w)
    ensures MapsFrom(w, Create(w).0, 0, NOWHERE)
  {
    CreateKeeps(w);
    var w', d := Create(w).0, Create(w).1;
    forall e: nat, k: nat, l: nat | UserMapped(w', e, k, l)
      ensures Carried(w, w', e, k, l) || Inherited(w, w', 0, e, k, l)
    {
      if e in w.spaces {
        ExtendsCarries(w, w', e, k, l);
      } else {
        assert e == d && k < KERNEL_SPACE_ENTRIES;
        CopiedKernelPage(w, w', d, k, l);
      }
    }
  }

  lemma CloneMaps(w: World, src: nat)
    requires Secure(w) && (src == 0 || Live(w, src))
    ensures src < FRAMES && MapsFrom(w, Clone(w, src).0, src, NOWHERE)
  {
    CloneKeeps(w, src);
    var w', d := Clone(w, src).0, Clone(w, src).1;
    if d != 0 { CloneMirrors(w, src); }
    forall e: nat, k: nat, l: nat | UserMapped(w', e, k, l)
      ensures Carried(w, w', e, k, l) || Inherited(w, w', src, e, k, l)
    {
      if e in w.spaces {
        ExtendsCarries(w, w', e, k, l);
      } else {
        assert k >= KERNEL_SPACE_ENTRIES ==> MirrorsPage(w, w', src, d, k, l);
        assert k < KERNEL_SPACE_ENTRIES ==> KernelPage(w, w', d, k, l);
      }
    }
  }

  lemma DestroyMaps(w: World, d: nat)
    requires Inv(w) && (d == 0 || Live(w, d))
    ensures d < FRAMES && MapsFrom(w, Destroy(w, d), 0, NOWHERE)
  {}

  lemma AllocPageMaps(w: World, d: nat, va: Word, user: bool, rw: bool)
    requires Inv(w) && (d == 0 || Live(w, d))
    ensures d < FRAMES && MapsFrom(w, AllocPage(w, d, va, user, rw).0, 0, (d, DirIndex(va), TableIndex(va)))
  {
    TakeKeeps(w);
    DirectoryRole(w, d);
    var f := Pick(w);
    if d != 0 && f != 0 {
      var w1 := Mark(Take(w), f, UserPage(StampOf(w, d), va / 0x1000));
      MarkKeeps(Take(w), f, UserPage(StampOf(w, d), va / 0x1000));
      MapFreshMaps(w, w1, d, va, f, user, rw);
    }
  }

  lemma MapFreshMaps(w: World, w1: World, d: nat, va: Word, f: nat, user: bool, rw: bool)
    requires Inv(w1) && Live(w1, d) && f < FRAMES && f !in w.used && w1.spaces == w.spaces && w1.mem == w.mem
    ensures MapsFrom(w, MapPage(w1, d, va, f * 0x1000, user, rw), 0, (d, DirIndex(va), TableIndex(va)))
  {
    hide MapPage;
    MapPageEffect(w1, d, va, f * 0x1000, user, rw);
    var v := Pack(f, MapFlags(user, rw));
    PackFields(f, MapFlags(user, rw));
    var w' := MapPage(w1, d, va, f * 0x1000, user, rw);
    if Aligned(va) && Aligned(f * 0x1000) && (HasTable(w1.mem, d, DirIndex(va)) || Pick(w1) != 0) {
      assert PageSet(w1, w', d, DirIndex(va), TableIndex(va), v);
      MapPageDirectory(w1, d, va, f * 0x1000, user, rw);
      forall e: nat, k: nat, l: nat | UserMapped(w', e, k, l) && (e, k, l) != (d, DirIndex(va), TableIndex(va))
        ensures Carried(w, w', e, k, l)
      {
        PageSetCarries(w1, w', d, DirIndex(va), TableIndex(va), v, e, k, l);
      }
    }
  }

  lemma PageSetCarries(w: World, w': World, d: nat, i: nat, j: nat, v: Word, e: nat, k: nat, l: nat)
    requires Live(w, d) && i < ENTRIES && j < ENTRIES && PageSet(w, w', d, i, j, v)
    requires forall n: nat :: n < ENTRIES && (n != i || HasTable(w.mem, d, i)) ==> w'.mem[d][n] == w.mem[d][n]
    requires UserMapped(w', e, k, l) && (e, k, l) != (d, i, j)
    ensures Carried(w, w', e, k, l)
  {}

  lemma SetPteMaps(w: World, d: nat, va: Word, v: Word, e: nat, k: nat, l: nat)
    requires Inv(w) && Live(w, d) && HasTable(w.mem, d, DirIndex(va))
    requires UserMapped(SetPte(w, d, va, v), e, k, l)
    ensures (e, k, l) != (d, DirIndex(va), TableIndex(va)) ==> Carried(w, SetPte(w, d, va, v), e, k, l)
    ensures (e, k, l) == (d, DirIndex(va), TableIndex(va)) ==> Pte(SetPte(w, d, va, v).mem, e, k, l) == v
  {
    SetPteEffect(w, d, va, v);
    assert HasTable(SetPte(w, d, va, v).mem, e, k);
    if e != d { SameTablesCarry(w, SetPte(w, d, va, v), e, k, l); }
  }

  lemma UnmapMaps(w: World, d: nat, va: Word)
    requires Inv(w) && (d == 0 || Live(w, d))
    ensures d < FRAMES && MapsFrom(w, Unmap(w, d, va), 0, NOWHERE)
  {}

  lemma FreePageMaps(w: World, d: nat, va: Word)
    requires Inv(w) && (d == 0 || Live(w, d))
    ensures d < FRAMES && MapsFrom(w, FreePage(w, d, va), 0, NOWHERE)
  {
    if d == 0 || !Frees(w, d, va) {
      FreePageNothing(w, d, va);
    } else {
      hide Inv, SetPte, AddressSpaces.FreePage;
      ZeroEntry();
      FreePageFrees(w, d, va);
      var w', u := FreePage(w, d, va), SetPte(w, d, va, 0);
      forall e: nat, k: nat, l: nat | UserMapped(w', e, k, l) ensures Carried(w, w', e, k, l) {
        assert u.spaces == w.spaces by { SetPteSpaces(w, d, va, 0); }
        assert UserMapped(u, e, k, l);
        SetPteMaps(w, d, va, 0, e, k, l);
      }
    }
  }

  lemma FaultMaps(w: World, d: nat, va: Word, present: bool, write: bool)
    requires Inv(w) && (d == 0 || Live(w, d))
    ensures d < FRAMES && MapsFrom(w, Fault(w, d, va, present, write).0, 0, (d, DirIndex(va), TableIndex(va)))
  {
    TakeKeeps(w);
    DirectoryRole(w, d);
    if Fault(w, d, va, present, write).1 {
      var f, w0 := Pick(w), Take(w);
      CopiedKeeps(w0, d, va, f);
      BreakKeeps(w0, d, va, f);
      var w1, w' := Copied(w0, d, va, f), BreakSharing(w0, d, va, f);
      var v := Pack(f, BrokenFlags(Pte(w.mem, d, DirIndex(va), TableIndex(va))));
      PackFields(f, BrokenFlags(Pte(w.mem, d, DirIndex(va), TableIndex(va))));
      forall e: nat, k: nat, l: nat | UserMapped(w', e, k, l)
        ensures Carried(w, w', e, k, l)
          || ((e, k, l) == (d, DirIndex(va), TableIndex(va)) && UserFrame(w', e, k, l) !in w.used)
      {
        SetPteMaps(w1, d, va, v, e, k, l);
        if (e, k, l) != (d, DirIndex(va), TableIndex(va)) {
          SameTablesCarry(w, w1, e, k, l);
        }
      }
    }
  }

  lemma StoreMaps(w: World, d: nat, va: Word, value: Word)
    requires Secure(w) && Live(w, d)
    ensures MapsFrom(w, Store(w, d, va, value), 0, NOWHERE)
  {
    StoreKeeps(w, d, va, value);
    var w' := Store(w, d, va, value);
    forall e: nat, k: nat, l: nat | UserMapped(w', e, k, l) ensures Carried(w, w', e, k, l) {
      SameTablesCarry(w, w', e, k, l);
    }
  }

  /** Where the mappings after any operation come from. */
  lemma ApplyMaps(w: World, op: Op)
    requires Secure(w) && Enabled(w, op)
    ensures MapsFrom(w, Apply(w, op), SourceOf(op), FreshPage(op))
  {
    match op
    case CreateOp => CreateMaps(w);
    case CloneOp(src) => CloneMaps(w, src);
    case DestroyOp(d) => DestroyMaps(w, d);
    case AllocPageOp(d, va, user, rw) => AllocPageMaps(w, d, va, user, rw);
    case UnmapOp(d, va) => UnmapMaps(w, d, va);
    case FreePageOp(d, va) => FreePageMaps(w, d, va);
    case FaultOp(d, va, present, write) => FaultMaps(w, d, va, present, write);
    case StoreOp(d, va, value) => StoreMaps(w, d, va, value);
  }

  /** Only cloning d or ending it can make a private page of d shared, unless d is the kernel's space and the page lies
      below 3 GB: every new space gets that part of it. */
  lemma PrivateKept(w: World, op: Op, d: nat, i: nat, j: nat)
    requires Secure(w) && Enabled(w, op) && d in w.spaces && Private(w, d, i, j)
    requires op != CloneOp(d) && op != DestroyOp(d) && (d == w.kernelDir ==> i >= KERNEL_SPACE_ENTRIES)
    ensures Private(Apply(w, op), d, i, j)
  {
    ApplyMaps(w, op);
    var w' := Apply(w, op);
    forall e: nat, k: nat, l: nat | (e, k, l) != (d, i, j) && UserMapped(w', d, i, j) && UserMapped(w', e, k, l)
      ensures UserFrame(w', e, k, l) != UserFrame(w', d, i, j)
    {
      OtherFrame(w, w', SourceOf(op), FreshPage(op), d, i, j, e, k, l);
    }
  }

  lemma OtherFrame(w: World, w': World, src: nat, owner: (nat, nat, nat), d: nat, i: nat, j: nat, e: nat, k: nat,
    l: nat)
    requires Secure(w) && MapsFrom(w, w', src, owner) && src != d && d in w.spaces && Private(w, d, i, j)
    requires d == w.kernelDir ==> i >= KERNEL_SPACE_ENTRIES
    requires UserMapped(w', d, i, j) && UserMapped(w', e, k, l) && (e, k, l) != (d, i, j)
    ensures UserFrame(w', e, k, l) != UserFrame(w', d, i, j)
  {
    hide Inv;
    SecureFramesOwned(w);
  }

  lemma SpaceStaysLive(w: World, op: Op, d: nat)
    requires Inv(w) && Enabled(w, op) && d in w.spaces && op != DestroyOp(d)
    ensures d in Apply(w, op).spaces
  {
    match op
    case CreateOp => CreateKeeps(w);
    case CloneOp(src) => CloneKeeps(w, src);
    case DestroyOp(e) => DestroyKeeps(w, e);
    case AllocPageOp(e, va, user, rw) => AllocPageSpaces(w, e, va, user, rw);
    case UnmapOp(e, va) =>
    case FreePageOp(e, va) =>
    case FaultOp(e, va, present, write) =>
    case StoreOp(e, va, value) =>
  }

  lemma AllocPageSpaces(w: World, d: nat, va: Word, user: bool, rw: bool)
    requires d < FRAMES && w.max < FRAMES
    ensures AllocPage(w, d, va, user, rw).0.spaces == w.spaces
    ensures AllocPage(w, d, va, user, rw).0.kernelDir == w.kernelDir && AllocPage(w, d, va, user, rw).0.max == w.max
  {
    hide MapPage, StampOf;
    var f := Pick(w);
    if d != 0 && f != 0 {
      MapPageSpaces(Mark(Take(w), f, UserPage(StampOf(w, d), va / 0x1000)), d, va, f * 0x1000, user, rw);
    }
  }

  lemma MapPageSpaces(w: World, d: nat, va: Word, pa: Word, user: bool, rw: bool)
    requires d < FRAMES && w.max <= FRAMES
    ensures MapPage(w, d, va, pa, user, rw).spaces == w.spaces
    ensures MapPage(w, d, va, pa, user, rw).kernelDir == w.kernelDir && MapPage(w, d, va, pa, user, rw).max == w.max
  {
    hide EnsureTable, HasTable, Pack;
    EnsureTableSpaces(w, d, DirIndex(va), if user then 7 else 3);
  }

  lemma EnsureTableSpaces(w: World, d: nat, i: nat, flags: Word)
    requires d < FRAMES && i < ENTRIES && w.max <= FRAMES && flags < 0x1000
    ensures EnsureTable(w, d, i, flags).spaces == w.spaces
    ensures EnsureTable(w, d, i, flags).kernelDir == w.kernelDir && EnsureTable(w, d, i, flags).max == w.max
  {
    hide HasTable, Zeros, Pick;
  }

  lemma KernelStays(w: World, op: Op)
    requires Secure(w) && Enabled(w, op)
    ensures Apply(w, op).kernelDir == w.kernelDir && Apply(w, op).max == w.max
  {
    match op
    case CreateOp => CreateKeeps(w);
    case CloneOp(src) => CloneKeeps(w, src);
    case DestroyOp(e) => DestroyKeeps(w, e);
    case AllocPageOp(e, va, user, rw) => AllocPageSpaces(w, e, va, user, rw);
    case UnmapOp(e, va) =>
    case FreePageOp(e, va) =>
    case FaultOp(e, va, present, write) =>
    case StoreOp(e, va, value) =>
  }

  /** In a state that satisfies the invariant the page of d is private, or one of the kernel's below 3 GB, which user
      mode cannot write. */
  ghost predicate StaysPrivate(w: World, d: nat, va: Word) {
    && Secure(w) && d in w.spaces
    && ((d == w.kernelDir && DirIndex(va) < KERNEL_SPACE_ENTRIES) || Private(w, d, DirIndex(va), TableIndex(va)))
  }

  lemma FaultStarts(w: World, d: nat, va: Word)
    requires Secure(w) && Live(w, d) && Fault(w, d, va, true, true).1
    ensures StaysPrivate(Apply(w, FaultOp(d, va, true, true)), d, va)
  {
    hide Inv, LowOwned, Private, Fault, OnlyEntry;
    WorldFits(w);
    FaultUnshares(w, d, va, true, true);
    ApplyKeeps(w, FaultOp(d, va, true, true));
    SpaceStaysLive(w, FaultOp(d, va, true, true), d);
  }

  lemma StepStays(w: World, op: Op, d: nat, va: Word)
    requires StaysPrivate(w, d, va) && Enabled(w, op) && op != CloneOp(d) && op != DestroyOp(d)
    ensures StaysPrivate(Apply(w, op), d, va)
  {
    hide Inv, LowOwned, Private, Enabled, Apply;
    KernelStays(w, op);
    if !(d == w.kernelDir && DirIndex(va) < KERNEL_SPACE_ENTRIES) {
      PrivateKept(w, op, d, DirIndex(va), TableIndex(va));
    }
    SpaceStaysLive(w, op, d);
    ApplyKeeps(w, op);
  }

  lemma PrivateUnseen(w: World, d: nat, va: Word, va': Word, e: nat, k: nat, l: nat)
    requires StaysPrivate(w, d, va) && Sees(w, e, k, l, d, va')
    requires DirIndex(va') == DirIndex(va) && TableIndex(va') == TableIndex(va)
    ensures (e, k, l) == (d, DirIndex(va), TableIndex(va))
  {
    hide Inv, LowOwned;
    PageOwned(w, d, DirIndex(va), TableIndex(va));
  }

  /** After a handled fault, for as long as d is neither cloned nor destroyed, whatever else
      happens and whatever d stores in that page, no other page of any space can see it. */
  lemma {:induction false} UnsharedStaysUnseen(states: seq<World>, ops: seq<Op>, d: nat, va: Word, n: nat)
    requires IsRun(states, ops) && Secure(states[0]) && 0 < n < |states|
    requires ops[0] == FaultOp(d, va, true, true) && Live(states[0], d)
    requires Fault(states[0], d, va, true, true).1
    requires forall m :: 0 < m < n ==> ops[m] != CloneOp(d) && ops[m] != DestroyOp(d)
    ensures StaysPrivate(states[n], d, va)
    ensures forall va': Word, e: nat, k: nat, l: nat {:trigger Sees(states[n], e, k, l, d, va')} ::
              DirIndex(va') == DirIndex(va) && TableIndex(va') == TableIndex(va) && Sees(states[n], e, k, l, d, va') ==>
                (e, k, l) == (d, DirIndex(va), TableIndex(va))
  {
    hide Secure, Private, Apply, Enabled, Fault, Live, Sees, StaysPrivate;
    assert Enabled(states[n - 1], ops[n - 1]) && states[n] == Apply(states[n - 1], ops[n - 1]);
    if n == 1 {
      FaultStarts(states[0], d, va);
    } else {
      UnsharedStaysUnseen(states, ops, d, va, n - 1);
      StepStays(states[n - 1], ops[n - 1], d, va);
    }
    forall va': Word, e: nat, k: nat, l: nat
      | DirIndex(va') == DirIndex(va) && TableIndex(va') == TableIndex(va) && Sees(states[n], e, k, l, d, va')
      ensures (e, k, l) == (d, DirIndex(va), TableIndex(va))
    {
      PrivateUnseen(states[n], d, va, va', e, k, l);
    }
  }
}
