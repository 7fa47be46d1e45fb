/** What user mode can reach below 3 GB, where spaces hold copies of the kernel's tables: the invariant that keeps those
    pages from being shared writable, and what every operation does to it. */
module UserAccess {
  import opened Words
  import opened PageEntry
  import opened AddressSpaces
  import opened Invariant
  import opened Operations

  /** A reachable page below 3 GB maps a frame its own space took for it or, read-only, one the kernel's space took;
      the kernel's own such pages are all of the second kind. */
  ghost predicate LowEntryOwned(w: World, d: nat, i: nat, j: nat, e: Word)
    requires d in w.spaces
  {
    var f := FrameOf(e);
    && f in w.roles && w.roles[f].UserPage? && w.roles[f].page == PageOf(i, j)
    && if w.roles[f].stamp == w.spaces[d].stamp && d != w.kernelDir then true
       else
         && w.kernelDir in w.spaces && w.roles[f].stamp == w.spaces[w.kernelDir].stamp
         && !Writable(e) && !Cow(e)
  }

  ghost predicate LowSpace(w: World, d: nat)
    requires d in w.spaces && d < FRAMES
  {
    forall i: nat, j: nat {:trigger Reachable(w.mem, d, i, j)} ::
      i < KERNEL_SPACE_ENTRIES && j < ENTRIES && Reachable(w.mem, d, i, j) ==>
        LowEntryOwned(w, d, i, j, Pte(w.mem, d, i, j))
  }

  ghost predicate LowOwned(w: World) {
    forall d {:trigger LowSpace(w, d)} :: d in w.spaces && d < FRAMES ==> LowSpace(w, d)
  }

  /** The invariant of runs. */
  ghost predicate Secure(w: World) {
    Inv(w) && LowOwned(w)
  }

  // ----- what leaves the pages below 3 GB alone

  /** Frames taken for pages keep their roles, and d and the kernel's space their stamps. */
  ghost predicate SameOwners(w: World, w': World, d: nat)
    requires d in w.spaces
  {
    && (forall f :: f in w.roles && w.roles[f].UserPage? ==> RoleIs(w', f, w.roles[f]))
    && d in w'.spaces && w'.spaces[d].stamp == w.spaces[d].stamp && w'.kernelDir == w.kernelDir
    && (w.kernelDir in w.spaces ==>
          w.kernelDir in w'.spaces && w'.spaces[w.kernelDir].stamp == w.spaces[w.kernelDir].stamp)
  }

  lemma LowKept(w: World, w': World, d: nat)
    requires d in w.spaces && d < FRAMES && LowSpace(w, d) && SameOwners(w, w', d) && SameTables(w.mem, w'.mem, d)
    ensures LowSpace(w', d)
  {
    forall i: nat, j: nat | i < KERNEL_SPACE_ENTRIES && j < ENTRIES && Reachable(w'.mem, d, i, j)
      ensures LowEntryOwned(w', d, i, j, Pte(w'.mem, d, i, j))
    {
      assert Pte(w'.mem, d, i, j) == Pte(w.mem, d, i, j);
      assert Reachable(w.mem, d, i, j);
    }
  }

  lemma LowChanged(w: World, w': World, d: nat, i: nat, j: nat, e: Word)
    requires d in w.spaces && d < FRAMES && i < ENTRIES && j < ENTRIES && HasTable(w.mem, d, i)
    requires LowSpace(w, d) && SameOwners(w, w', d) && PteChanged(w.mem, w'.mem, d, i, j, e)
    requires i < KERNEL_SPACE_ENTRIES && Present(e) && ForUser(e) && ForUser(w.mem[d][i]) ==>
      LowEntryOwned(w', d, i, j, e)
    ensures LowSpace(w', d)
  {
    forall k: nat, l: nat | k < KERNEL_SPACE_ENTRIES && l < ENTRIES && Reachable(w'.mem, d, k, l)
      ensures LowEntryOwned(w', d, k, l, Pte(w'.mem, d, k, l))
    {
      if !(k == i && l == j) {
        assert Pte(w'.mem, d, k, l) == Pte(w.mem, d, k, l);
        assert Reachable(w.mem, d, k, l);
      }
    }
  }

  lemma LiveFrame(w: World, d: nat)
    requires Inv(w) && d in w.spaces
    ensures 0 < d < FRAMES && RoleIs(w, d, Directory) && d in w.used
    ensures w.max < FRAMES && w.kernelDir < FRAMES && Pick(w) < FRAMES
  {
    TakeKeeps(w);
    assert SpaceOk(w, d);
  }

  /** A directory and its tables are in use. */
  lemma ExtendsTables(w: World, w': World, d: nat)
    requires Inv(w) && Extends(w, w') && d in w.spaces
    ensures d < FRAMES && SameTables(w.mem, w'.mem, d)
  {
    assert SpaceOk(w, d);
    assert w'.mem[d] == w.mem[d];
    forall i: nat | i < ENTRIES && HasTable(w.mem, d, i)
      ensures w'.mem[TableAt(w.mem, d, i)] == w.mem[TableAt(w.mem, d, i)]
    {
      assert RoleIs(w, TableAt(w.mem, d, i), Table(d, i));
    }
  }

  lemma ExtendsLow(w: World, w': World, d: nat)
    requires Secure(w) && Extends(w, w') && d in w.spaces
    requires (forall e :: e in w.spaces ==> e in w'.spaces && w'.spaces[e] == w.spaces[e])
    ensures d < FRAMES && LowSpace(w', d)
  {
    hide Inv;
    LiveFrame(w, d);
    ExtendsTables(w, w', d);
    LowKept(w, w', d);
  }

  // ----- creating and cloning

  /** A new space has below 3 GB what the kernel has there. */
  lemma CopiedLow(w: World, d: nat)
    requires d in w.spaces && d < FRAMES && w.kernelDir in w.spaces && w.kernelDir < FRAMES && LowSpace(w, w.kernelDir)
    requires KernelSlots(w.mem, w.kernelDir, d, 0, KERNEL_SPACE_ENTRIES) && d != w.kernelDir
    ensures LowSpace(w, d)
  {
    forall i: nat, j: nat | i < KERNEL_SPACE_ENTRIES && j < ENTRIES && Reachable(w.mem, d, i, j)
      ensures LowEntryOwned(w, d, i, j, Pte(w.mem, d, i, j))
    {
      SamePageBelow(w.mem, w.kernelDir, d, i, j);
      assert Reachable(w.mem, w.kernelDir, i, j);
    }
  }

  lemma SamePageBelow(mem: Memory, k: nat, d: nat, i: nat, j: nat)
    requires k < FRAMES && d < FRAMES && i < KERNEL_SPACE_ENTRIES && j < ENTRIES
    requires KernelSlots(mem, k, d, 0, KERNEL_SPACE_ENTRIES)
    ensures Mapped(mem, d, i, j) == Mapped(mem, k, i, j) && Reachable(mem, d, i, j) == Reachable(mem, k, i, j)
    ensures Mapped(mem, d, i, j) ==> Pte(mem, d, i, j) == Pte(mem, k, i, j)
  {
    assert KernelSlot(mem, k, d, i);
    if HasTable(mem, d, i) {
      FlagBits(mem[d][i]);
      FlagBits(mem[k][i]);
    }
  }

  /** Adding the space d, with the kernel's tables below 3 GB. */
  lemma SpaceAdded(w: World, w': World, d: nat)
    requires Secure(w) && Inv(w') && Extends(w, w') && d !in w.spaces && d != w.kernelDir
    requires w'.spaces.Keys == w.spaces.Keys + {d}
    requires forall e :: e in w.spaces ==> e in w'.spaces && w'.spaces[e] == w.spaces[e]
    requires d < FRAMES && w.kernelDir != 0 && w.kernelDir < FRAMES
    requires KernelSlots(w'.mem, w.kernelDir, d, 0, KERNEL_SPACE_ENTRIES)
    ensures Secure(w')
  {
    forall e | e in w'.spaces && e < FRAMES ensures LowSpace(w', e) {
      ExtendsLow(w, w', w.kernelDir);
      if e == d { CopiedLow(w', d); } else { ExtendsLow(w, w', e); }
    }
  }

  lemma GivenUpSecure(w: World, w': World)
    requires Secure(w) && GivenUp(w, w')
    ensures Secure(w')
  {
    forall e | e in w'.spaces && e < FRAMES ensures LowSpace(w', e) { ExtendsLow(w, w', e); }
  }

  lemma CreateSecure(w: World)
    requires Secure(w)
    ensures Secure(Create(w).0)
  {
    CreateKeeps(w);
    var w', d := Create(w).0, Create(w).1;
    if d == 0 { GivenUpSecure(w, w'); } else { SpaceAdded(w, w', d); }
  }

  lemma CloneSecure(w: World, src: nat)
    requires Secure(w) && (src == 0 || src in w.spaces)
    ensures src < FRAMES && Secure(Clone(w, src).0)
  {
    CloneKeeps(w, src);
    var w', d := Clone(w, src).0, Clone(w, src).1;
    if d == 0 { GivenUpSecure(w, w'); } else { SpaceAdded(w, w', d); }
  }

  lemma DestroySecure(w: World, d: nat)
    requires Secure(w) && (d == 0 || d in w.spaces)
    ensures d < FRAMES && Secure(Destroy(w, d))
  {
    DestroyKeeps(w, d);
    var w' := Destroy(w, d);
    if d != 0 && d != w.kernelDir {
      LiveFrame(w, d);
      PagesStay(w, w', d);
      forall e | e in w'.spaces && e < FRAMES ensures LowSpace(w', e) { LowKept(w, w', e); }
    }
  }

  lemma PagesStay(w: World, w': World, d: nat)
    requires Inv(w) && d in w.spaces && d < FRAMES && Destroyed(w, w', d)
    ensures forall f :: f in w.roles && w.roles[f].UserPage? ==> RoleIs(w', f, w.roles[f])
  {
    assert SpaceOk(w, d);
  }

  // ----- mapping and unmapping

  lemma SetPteSecure(w: World, d: nat, va: Word, e: Word)
    requires Secure(w) && d in w.spaces && d < FRAMES && HasTable(w.mem, d, DirIndex(va))
    requires DirIndex(va) >= KERNEL_SPACE_ENTRIES && Present(e) ==> EntryOwned(w, d, DirIndex(va), TableIndex(va), e)
    requires DirIndex(va) < KERNEL_SPACE_ENTRIES && Present(e) && ForUser(e) && ForUser(w.mem[d][DirIndex(va)]) ==>
      LowEntryOwned(w, d, DirIndex(va), TableIndex(va), e)
    ensures Secure(SetPte(w, d, va, e))
  {
    SetPteKeeps(w, d, va, e);
    SetPteEffect(w, d, va, e);
    var w' := SetPte(w, d, va, e);
    forall f | f in w'.spaces && f < FRAMES ensures LowSpace(w', f) {
      if f == d { LowChanged(w, w', d, DirIndex(va), TableIndex(va), e); } else { LowKept(w, w', f); }
    }
  }

  lemma UnmapSecure(w: World, d: nat, va: Word)
    requires Secure(w) && (d == 0 || d in w.spaces)
    ensures d < FRAMES && Secure(Unmap(w, d, va))
  {
    if d in w.spaces { LiveFrame(w, d); }
    if d != 0 && HasTable(w.mem, d, DirIndex(va)) {
      ZeroEntry();
      SetPteSecure(w, d, va, 0);
    }
  }

  /** A mapping in slot i of d asked for with user and rw lets user mode write below 3 GB through the kernel's
      directory. */
  ghost predicate OpensKernelSlot(w: World, d: nat, i: nat, user: bool, rw: bool)
    requires d < FRAMES && i < ENTRIES
  {
    && d == w.kernelDir && i < KERNEL_SPACE_ENTRIES && user && rw
    && (HasTable(w.mem, d, i) ==> ForUser(w.mem[d][i]))
  }

  /** allocate_page opens a writable page below 3 GB in the kernel's own directory. */
  ghost predicate SharesWritable(w: World, d: nat, va: Word, user: bool, rw: bool) {
    && 0 < d < FRAMES && OpensKernelSlot(w, d, DirIndex(va), user, rw)
    && Aligned(va) && Pick(w) != 0
    && (HasTable(w.mem, d, DirIndex(va)) || Pick(Take(w)) != 0)
  }

  /** What map_page_in_space does to the directory itself. */
  lemma MapPageDirectory(w: World, d: nat, va: Word, pa: Word, user: bool, rw: bool)
    requires Inv(w) && d in w.spaces && d < FRAMES && Aligned(va) && Aligned(pa)
    requires HasTable(w.mem, d, DirIndex(va)) || Pick(w) != 0
    ensures w.max < FRAMES && Pick(w) < FRAMES
    ensures MapPage(w, d, va, pa, user, rw).mem[d] ==
      if HasTable(w.mem, d, DirIndex(va)) then w.mem[d]
      else w.mem[d][DirIndex(va) := Pack(Pick(w), if user then 7 else 3)]
  {
    hide Inv, MapFlags;
    TakeKeeps(w);
    LiveFrame(w, d);
    var i, flags := DirIndex(va), if user then 7 else 3;
    ModeFlags(user);
    EnsureTableKeeps(w, d, i, flags);
    EnsuredDirectory(w, d, i, flags);
    var w1 := EnsureTable(w, d, i, flags);
    TableElsewhere(w1, d, i);
  }

  lemma EnsuredDirectory(w: World, d: nat, i: nat, flags: Word)
    requires Inv(w) && d in w.spaces && d < FRAMES && i < ENTRIES && flags < 0x1000 && w.max < FRAMES
    requires Pick(w) < FRAMES
    requires HasTable(w.mem, d, i) || Pick(w) != 0
    ensures EnsureTable(w, d, i, flags).mem[d] == if HasTable(w.mem, d, i) then w.mem[d]
      else w.mem[d][i := Pack(Pick(w), flags)]
  {
    TakeKeeps(w);
    LiveFrame(w, d);
  }

  lemma TableElsewhere(w: World, d: nat, i: nat)
    requires Inv(w) && d in w.spaces && d < FRAMES && i < ENTRIES && HasTable(w.mem, d, i)
    ensures TableAt(w.mem, d, i) != d
  {
    assert SpaceOk(w, d);
    assert RoleIs(w, TableAt(w.mem, d, i), Table(d, i));
  }

  /** The pages below 3 GB after one entry was set, perhaps in a new table. */
  lemma LowSet(w: World, w': World, d: nat, i: nat, j: nat, e: Word)
    requires d in w.spaces && d < FRAMES && i < ENTRIES && j < ENTRIES && PageSet(w, w', d, i, j, e)
    requires LowSpace(w, d) && SameOwners(w, w', d)
    requires forall k: nat :: k < ENTRIES && (k != i || HasTable(w.mem, d, i)) ==> w'.mem[d][k] == w.mem[d][k]
    requires i < KERNEL_SPACE_ENTRIES && Reachable(w'.mem, d, i, j) ==> LowEntryOwned(w', d, i, j, e)
    ensures LowSpace(w', d)
  {
    forall k: nat, l: nat | k < KERNEL_SPACE_ENTRIES && l < ENTRIES && Reachable(w'.mem, d, k, l)
      ensures LowEntryOwned(w', d, k, l, Pte(w'.mem, d, k, l))
    {
      if !(k == i && l == j) {
        assert SamePage(w.mem, w'.mem, d, k, l);
        assert Reachable(w.mem, d, k, l);
      }
    }
  }

  /** allocate_page keeps the invariant exactly when it does not open a writable page below 3 GB in the kernel's
      directory. */
  lemma AllocPageSecureIff(w: World, d: nat, va: Word, user: bool, rw: bool)
    requires Secure(w) && (d == 0 || d in w.spaces)
    ensures d < FRAMES && w.max < FRAMES
    ensures Secure(AllocPage(w, d, va, user, rw).0) <==> !SharesWritable(w, d, va, user, rw)
  {
    AllocPageKeeps(w, d, va, user, rw);
    TakeKeeps(w);
    if d in w.spaces { LiveFrame(w, d); }
    var f := Pick(w);
    if d != 0 && f != 0 {
      var role := UserPage(StampOf(w, d), va / 0x1000);
      var w1 := Mark(Take(w), f, role);
      MarkKeeps(Take(w), f, role);
      forall e | e in w1.spaces && e < FRAMES ensures LowSpace(w1, e) { LowKept(w, w1, e); }
      MapTakenIff(w, w1, d, va, f, user, rw);
    }
  }

  lemma FrameAligned(f: nat)
    requires f < FRAMES
    ensures Aligned(f * 0x1000) && f * 0x1000 / 0x1000 == f
  {
    hide And;
    assert f * 0x1000 % 0x1000 == 0;
  }

  lemma MapTakenIff(w: World, w1: World, d: nat, va: Word, f: nat, user: bool, rw: bool)
    requires Secure(w1) && d in w1.spaces && 0 < d < FRAMES && f == Pick(w) != 0 && f < FRAMES && w.max < FRAMES
    requires RoleIs(w1, f, UserPage(StampOf(w1, d), va / 0x1000)) && w1.max == w.max && w1.used == Take(w).used
    requires w1.mem == w.mem && w1.kernelDir == w.kernelDir
    requires Inv(MapPage(w1, d, va, f * 0x1000, user, rw))
    ensures Secure(MapPage(w1, d, va, f * 0x1000, user, rw)) <==> !SharesWritable(w, d, va, user, rw)
  {
    hide Inv, MapPage, MapFlags;
    LiveFrame(w1, d);
    var i, j, e, w' :=
      DirIndex(va), TableIndex(va), Pack(f, MapFlags(user, rw)), MapPage(w1, d, va, f * 0x1000, user, rw);
    PackFields(f, MapFlags(user, rw));
    MapPageEffect(w1, d, va, f * 0x1000, user, rw);
    if Aligned(va) && (HasTable(w.mem, d, i) || Pick(w1) != 0) {
      FrameAligned(f);
      MapPageDirectory(w1, d, va, f * 0x1000, user, rw);
      TakenPage(w1, w', d, va, f, user, rw);
      forall s | s in w'.spaces && s < FRAMES && s != d ensures LowSpace(w', s) { LowKept(w1, w', s); }
    }
  }

  /** The page allocate_page has set, and whether user mode can reach it. */
  lemma TakenPage(w: World, w': World, d: nat, va: Word, f: nat, user: bool, rw: bool)
    requires Secure(w) && d in w.spaces && 0 < d < FRAMES && f < FRAMES && Aligned(va)
    requires RoleIs(w, f, UserPage(StampOf(w, d), va / 0x1000))
    requires PageSet(w, w', d, DirIndex(va), TableIndex(va), Pack(f, MapFlags(user, rw)))
    requires HasTable(w.mem, d, DirIndex(va)) || (Pick(w) != 0 && Pick(w) < FRAMES)
    requires w'.mem[d] == if HasTable(w.mem, d, DirIndex(va)) then w.mem[d]
      else w.mem[d][DirIndex(va) := Pack(Pick(w), if user then 7 else 3)]
    ensures LowSpace(w', d) <==> !OpensKernelSlot(w, d, DirIndex(va), user, rw)
  {
    var i, j, e := DirIndex(va), TableIndex(va), Pack(f, MapFlags(user, rw));
    PackFields(f, MapFlags(user, rw));
    ModeFlags(user);
    if !HasTable(w.mem, d, i) { PackFields(Pick(w), if user then 7 else 3); }
    PageOfAddress(va);
    assert Reachable(w'.mem, d, i, j) == (user && (HasTable(w.mem, d, i) ==> ForUser(w.mem[d][i])));
    if d == w.kernelDir && i < KERNEL_SPACE_ENTRIES && rw && Reachable(w'.mem, d, i, j) {
      assert !LowEntryOwned(w', d, i, j, e);
    } else {
      LowSet(w, w', d, i, j, e);
    }
  }

  // ----- faulting and storing

  lemma FaultSecure(w: World, d: nat, va: Word, present: bool, write: bool)
    requires Secure(w) && (d == 0 || d in w.spaces)
    ensures d < FRAMES && Secure(Fault(w, d, va, present, write).0)
  {
    if d in w.spaces { LiveFrame(w, d); }
    TakeKeeps(w);
    if Fault(w, d, va, present, write).1 {
      forall e | e in Take(w).spaces && e < FRAMES ensures LowSpace(Take(w), e) { LowKept(w, Take(w), e); }
      BreakSecure(Take(w), d, va, Pick(w));
    }
  }

  lemma BreakSecure(w: World, d: nat, va: Word, f: nat)
    requires Secure(w) && d in w.spaces && 0 < d < FRAMES && f != 0 && f in w.used && f !in w.roles
    requires Mapped(w.mem, d, DirIndex(va), TableIndex(va)) && Cow(Pte(w.mem, d, DirIndex(va), TableIndex(va)))
    ensures f < FRAMES && Secure(BreakSharing(w, d, va, f))
  {
    CopiedKeeps(w, d, va, f);
    BreakKeeps(w, d, va, f);
    var i, j, w1 := DirIndex(va), TableIndex(va), Copied(w, d, va, f);
    var e := Pte(w.mem, d, i, j);
    var e' := Pack(f, BrokenFlags(e));
    PackFields(f, BrokenFlags(e));
    PageOfAddress(va);
    TakenEntryOwned(w1, d, va, f, BrokenFlags(e));
    forall s | s in w1.spaces && s < FRAMES ensures LowSpace(w1, s) { LowKept(w, w1, s); }
    if i < KERNEL_SPACE_ENTRIES && ForUser(e') && ForUser(w.mem[d][i]) {
      assert LowSpace(w, d) && Reachable(w.mem, d, i, j);
      assert LowEntryOwned(w, d, i, j, e);
      assert d != w.kernelDir;
    }
    SetPteSecure(w1, d, va, e');
  }

  /** What user mode can write is a frame taken for a page, so a store changes nothing an entry depends on. */
  lemma StoreKeeps(w: World, d: nat, va: Word, value: Word)
    requires Secure(w) && d in w.spaces
    ensures d < FRAMES && Secure(Store(w, d, va, value))
    ensures forall e :: e in w.spaces ==> e < FRAMES && SameTables(w.mem, Store(w, d, va, value).mem, e)
  {
    LiveFrame(w, d);
    var w' := Store(w, d, va, value);
    if Storable(w.mem, d, va) { StoredPage(w, d, va); }
    assert Keeps(w, w');
    forall e | e in w.spaces ensures SpaceOk(w', e) && SameTables(w.mem, w'.mem, e) {
      assert SpaceOk(w, e);
      SpaceKept(w, w', e);
    }
    forall e | e in w'.spaces && e < FRAMES ensures LowSpace(w', e) { LowKept(w, w', e); }
  }

  lemma StoredPage(w: World, d: nat, va: Word)
    requires Secure(w) && d in w.spaces && d < FRAMES && Storable(w.mem, d, va)
    ensures var f := FrameOf(Pte(w.mem, d, DirIndex(va), TableIndex(va))); f in w.roles && w.roles[f].UserPage?
  {
    assert SpaceOk(w, d) && LowSpace(w, d);
    assert Mapped(w.mem, d, DirIndex(va), TableIndex(va)) && Reachable(w.mem, d, DirIndex(va), TableIndex(va));
  }

  // ----- starting

  lemma OpenedSecure(w: World, d: nat)
    requires Inv(w) && w.spaces.Keys == {d} && d < FRAMES
    requires forall i: nat :: i < KERNEL_SPACE_ENTRIES && HasTable(w.mem, d, i) ==> !ForUser(w.mem[d][i])
    ensures Secure(w)
  {}
}
