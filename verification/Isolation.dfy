/** What the invariant is for: theorems over whole runs of the virtual memory manager,
    stated on directories, tables and frames alone, without the history. */
module Isolation {
  import opened Words
  import opened PageEntry
  import opened AddressSpaces
  import opened Invariant
  import opened Operations
  import opened UserAccess

  /** Page (i, j) of live space d is a user page: a mapped page of the user half, or a page below 3 GB that user mode
      can reach. */
  ghost predicate UserMapped(w: World, d: nat, i: nat, j: nat) {
    && d in w.spaces && d < FRAMES && i < ENTRIES && j < ENTRIES && Mapped(w.mem, d, i, j)
    && (i >= KERNEL_SPACE_ENTRIES || Reachable(w.mem, d, i, j))
  }

  ghost function UserFrame(w: World, d: nat, i: nat, j: nat): nat
    requires UserMapped(w, d, i, j)
  {
    FrameOf(Pte(w.mem, d, i, j))
  }

  ghost predicate UserWritable(w: World, d: nat, i: nat, j: nat) {
    UserMapped(w, d, i, j) && Writable(Pte(w.mem, d, i, j))
  }

  /** No frame is mapped writable by two user pages of live spaces. */
  ghost predicate SingleWriter(w: World) {
    forall d, i, j, e, k, l {:trigger UserWritable(w, d, i, j), UserWritable(w, e, k, l)} ::
      UserWritable(w, d, i, j) && UserWritable(w, e, k, l) && UserFrame(w, d, i, j) == UserFrame(w, e, k, l) ==>
        d == e && i == k && j == l
  }

  ghost predicate LiveTable(w: World, d: nat, i: nat) {
    d in w.spaces && d < FRAMES && i < ENTRIES && HasTable(w.mem, d, i)
  }

  /** Every frame in use is marked so; directories, tables and user frames are of disjoint
      kinds; and no table serves two slots. */
  ghost predicate FramesOwned(w: World) {
    && (forall d :: d in w.spaces ==> d in w.used && d != 0)
    && (forall d, i {:trigger LiveTable(w, d, i)} :: LiveTable(w, d, i) ==>
          TableAt(w.mem, d, i) in w.used && TableAt(w.mem, d, i) !in w.spaces)
    && (forall d, i, e, k {:trigger LiveTable(w, d, i), LiveTable(w, e, k)} ::
          LiveTable(w, d, i) && LiveTable(w, e, k) && TableAt(w.mem, d, i) == TableAt(w.mem, e, k) ==> d == e && i == k)
    && (forall d, i, j {:trigger UserMapped(w, d, i, j)} :: UserMapped(w, d, i, j) ==>
          UserFrame(w, d, i, j) in w.used && UserFrame(w, d, i, j) !in w.spaces)
    && (forall d, i, j, e, k {:trigger UserMapped(w, d, i, j), LiveTable(w, e, k)} ::
          UserMapped(w, d, i, j) && LiveTable(w, e, k) ==> UserFrame(w, d, i, j) != TableAt(w.mem, e, k))
  }

  ghost predicate Safe(w: World) {
    SingleWriter(w) && FramesOwned(w)
  }

  // ----- from the invariant

  lemma MappedOwned(w: World, d: nat, i: nat, j: nat)
    requires Inv(w) && UserMapped(w, d, i, j) && i >= KERNEL_SPACE_ENTRIES
    ensures EntryOwned(w, d, i, j, Pte(w.mem, d, i, j))
  {}

  /** A user page maps a frame taken for that page number by its own space, by one it descends from or, read-only
      below 3 GB, by the kernel's space. */
  lemma PageOwned(w: World, d: nat, i: nat, j: nat)
    requires Secure(w) && UserMapped(w, d, i, j)
    ensures var f := UserFrame(w, d, i, j);
      && f in w.roles && w.roles[f].UserPage? && w.roles[f].page == PageOf(i, j)
      && (UserWritable(w, d, i, j) ==>
            w.roles[f].stamp == w.spaces[d].stamp && (i < KERNEL_SPACE_ENTRIES ==> d != w.kernelDir))
      && if i >= KERNEL_SPACE_ENTRIES then w.roles[f].stamp in w.spaces[d].line
         else
           || w.roles[f].stamp == w.spaces[d].stamp
           || (w.kernelDir in w.spaces && w.roles[f].stamp == w.spaces[w.kernelDir].stamp)
  {
    if i >= KERNEL_SPACE_ENTRIES { MappedOwned(w, d, i, j); } else { assert LowSpace(w, d); }
  }

  lemma PageNumber(i: nat, j: nat, k: nat, l: nat)
    requires j < ENTRIES && l < ENTRIES && PageOf(i, j) == PageOf(k, l)
    ensures i == k && j == l
  {}

  lemma TableOwned(w: World, d: nat, i: nat)
    requires Inv(w) && LiveTable(w, d, i)
    ensures RoleIs(w, TableAt(w.mem, d, i), Table(d, i))
  {}

  lemma DirectoryRole(w: World, d: nat)
    requires Inv(w)
    ensures d in w.spaces ==> RoleIs(w, d, Directory)
  {}

  lemma WorldFits(w: World)
    requires Inv(w)
    ensures w.max < FRAMES && w.kernelDir < FRAMES
    ensures forall e :: e in w.spaces ==> 0 < e < FRAMES
  {
    forall e | e in w.spaces ensures 0 < e < FRAMES { assert SpaceOk(w, e); }
  }

  lemma SecureIsSafe(w: World)
    requires Secure(w)
    ensures Safe(w)
  {
    SecureFramesOwned(w);
    forall d, i, j, e, k, l | UserWritable(w, d, i, j) && UserWritable(w, e, k, l)
      && UserFrame(w, d, i, j) == UserFrame(w, e, k, l)
      ensures d == e && i == k && j == l
    {
      PageOwned(w, d, i, j);
      PageOwned(w, e, k, l);
      PageNumber(i, j, k, l);
    }
  }

  lemma SecureFramesOwned(w: World)
    requires Secure(w)
    ensures FramesOwned(w)
  {
    forall d, i, j | UserMapped(w, d, i, j)
      ensures UserFrame(w, d, i, j) in w.roles && w.roles[UserFrame(w, d, i, j)].UserPage?
    {
      PageOwned(w, d, i, j);
    }
  }

  /** allocate_block never returns a frame that is a live directory, a table or a user page. */
  lemma AllocatedIsUnused(w: World)
    requires Secure(w) && Pick(w) != 0
    ensures Pick(w) !in w.spaces
    ensures forall d, i {:trigger LiveTable(w, d, i)} :: LiveTable(w, d, i) ==> TableAt(w.mem, d, i) != Pick(w)
    ensures forall d, i, j {:trigger UserMapped(w, d, i, j)} :: UserMapped(w, d, i, j) ==>
      UserFrame(w, d, i, j) != Pick(w)
  {
    SecureFramesOwned(w);
    TakeKeeps(w);
  }

  // ----- free_page

  /** Some other live user page maps the frame of page (i, j) of d. */
  ghost predicate Shared(w: World, d: nat, i: nat, j: nat) {
    UserMapped(w, d, i, j) &&
    exists e, k, l {:trigger UserMapped(w, e, k, l)} ::
      !(e == d && k == i && l == j) && UserMapped(w, e, k, l) && UserFrame(w, e, k, l) == UserFrame(w, d, i, j)
  }

  ghost predicate Live(w: World, d: nat) { d < FRAMES && d in w.spaces }

  /** free_page gives a frame back exactly for an aligned address of a mapped page; the null frame stays. */
  ghost predicate Frees(w: World, d: nat, va: Word) {
    && Live(w, d) && Aligned(va)
    && Mapped(w.mem, d, DirIndex(va), TableIndex(va))
    && FrameOf(Pte(w.mem, d, DirIndex(va), TableIndex(va))) != 0
  }

  ghost function FreedFrame(w: World, d: nat, va: Word): nat
    requires Frees(w, d, va)
  {
    FrameOf(Pte(w.mem, d, DirIndex(va), TableIndex(va)))
  }

  /** Frame f is a live directory, a live table, or mapped by a user page other than (i, j) of d. */
  ghost predicate InUseElsewhere(w: World, d: nat, i: nat, j: nat, f: nat) {
    || f in w.spaces
    || (exists e: nat, k: nat {:trigger LiveTable(w, e, k)} :: LiveTable(w, e, k) && TableAt(w.mem, e, k) == f)
    || (exists e: nat, k: nat, l: nat {:trigger UserMapped(w, e, k, l)} ::
          !(e == d && k == i && l == j) && UserMapped(w, e, k, l) && UserFrame(w, e, k, l) == f)
  }

  /** The frame free_page would give back is still needed. */
  ghost predicate FreesInUse(w: World, d: nat, va: Word) {
    Frees(w, d, va) && InUseElsewhere(w, d, DirIndex(va), TableIndex(va), FreedFrame(w, d, va))
  }

  lemma FreePageNothing(w: World, d: nat, va: Word)
    requires d < FRAMES && (d == 0 || Live(w, d)) && (d == 0 || !Frees(w, d, va))
    ensures FreePage(w, d, va) == w
  {
    PageMask(va);
  }

  lemma FreePageFrees(w: World, d: nat, va: Word)
    requires Inv(w) && Frees(w, d, va)
    ensures var f, w' := FreedFrame(w, d, va), FreePage(w, d, va);
            && f != 0 && w' == Free(SetPte(w, d, va, 0), f)
            && w'.mem == SetPte(w, d, va, 0).mem && w'.used == w.used - {f} && w'.spaces == w.spaces
  {
    hide Inv, Physical, Aligned;
    WorldFits(w);
    FreedAddress(w, d, va);
  }

  lemma FreedAddress(w: World, d: nat, va: Word)
    requires Frees(w, d, va) && d != 0
    ensures var f, pa := FreedFrame(w, d, va), Physical(w.mem, d, va);
      pa == f * 0x1000 && pa != 0 && pa % 0x1000 == 0 && pa / 0x1000 == f
  {
    hide And;
    PageMask(va);
    FrameAligned(FreedFrame(w, d, va));
  }

  /** Freeing a frame nothing else needs keeps the invariant, whichever half the page is in. */
  lemma FreePageKeeps(w: World, d: nat, va: Word)
    requires Secure(w) && (d == 0 || Live(w, d)) && !FreesInUse(w, d, va)
    ensures d < FRAMES && Secure(FreePage(w, d, va))
  {
    if d == 0 || !Frees(w, d, va) {
      FreePageNothing(w, d, va);
    } else {
      var u, f := SetPte(w, d, va, 0), FreedFrame(w, d, va);
      FreePageFrees(w, d, va);
      ZeroEntry();
      SetPteSecure(w, d, va, 0);
      NowUnreferenced(w, d, va);
      KernelDirRole(u);
      FreeKeeps(u, f);
      forall e | e in u.spaces && e < FRAMES ensures LowSpace(Free(u, f), e) { LowFreed(w, d, va, e); }
    }
  }

  /** The pages below 3 GB do without the frame freed. */
  lemma LowFreed(w: World, d: nat, va: Word, e: nat)
    requires Secure(w) && Frees(w, d, va) && !FreesInUse(w, d, va) && Live(w, e) && Secure(SetPte(w, d, va, 0))
    ensures e in SetPte(w, d, va, 0).spaces && LowSpace(Free(SetPte(w, d, va, 0), FreedFrame(w, d, va)), e)
  {
    hide Inv, SetPte;
    SetPteEffect(w, d, va, 0);
    SetPteSpaces(w, d, va, 0);
    ZeroEntry();
    var u, f := SetPte(w, d, va, 0), FreedFrame(w, d, va);
    assert LowSpace(u, e) && u.mem[e] == w.mem[e];
    forall k: nat, l: nat | k < KERNEL_SPACE_ENTRIES && l < ENTRIES && Reachable(Free(u, f).mem, e, k, l)
      ensures LowEntryOwned(Free(u, f), e, k, l, Pte(u.mem, e, k, l))
    {
      assert Reachable(u.mem, e, k, l) && HasTable(w.mem, e, k);
      assert UserMapped(w, e, k, l);
    }
  }

  lemma SetPteSpaces(w: World, d: nat, va: Word, v: Word)
    requires d < FRAMES
    ensures SetPte(w, d, va, v).spaces == w.spaces
  {}

  lemma NowUnreferenced(w: World, d: nat, va: Word)
    requires Inv(w) && Frees(w, d, va) && !FreesInUse(w, d, va)
    ensures Unreferenced(SetPte(w, d, va, 0), FreedFrame(w, d, va))
  {
    var u, f := SetPte(w, d, va, 0), FreedFrame(w, d, va);
    forall e | e in u.spaces && e < FRAMES ensures TablesAvoid(u, e, f) && PagesAvoid(u, e, f) {
      SpaceAvoids(w, d, va, e);
    }
  }

  lemma SpaceAvoids(w: World, d: nat, va: Word, e: nat)
    requires Inv(w) && Frees(w, d, va) && !FreesInUse(w, d, va) && Live(w, e)
    ensures TablesAvoid(SetPte(w, d, va, 0), e, FreedFrame(w, d, va))
    ensures PagesAvoid(SetPte(w, d, va, 0), e, FreedFrame(w, d, va))
  {
    hide Inv, SetPte;
    ZeroEntry();
    SetPteEffect(w, d, va, 0);
    var u, f := SetPte(w, d, va, 0), FreedFrame(w, d, va);
    assert u.mem[e] == w.mem[e];
    forall k: nat | k < ENTRIES && HasTable(u.mem, e, k) ensures TableAt(u.mem, e, k) != f {
      assert LiveTable(w, e, k);
    }
    forall k: nat, l: nat | KERNEL_SPACE_ENTRIES <= k < ENTRIES && l < ENTRIES && Mapped(u.mem, e, k, l)
      ensures FrameOf(Pte(u.mem, e, k, l)) != f
    {
      assert HasTable(w.mem, e, k);
      assert UserMapped(w, e, k, l);
    }
  }

  /** free_page of a frame still needed leaves a directory, a table or a user page on a frame that is free again. */
  lemma FreeInUseBreaks(w: World, d: nat, va: Word)
    requires Inv(w) && FreesInUse(w, d, va)
    ensures !FramesOwned(FreePage(w, d, va))
  {
    hide Inv, SetPte;
    var f, u, w' := FreedFrame(w, d, va), SetPte(w, d, va, 0), FreePage(w, d, va);
    FreePageFrees(w, d, va);
    SetPteEffect(w, d, va, 0);
    if f in w.spaces {
    } else if e: nat, k: nat :| LiveTable(w, e, k) && TableAt(w.mem, e, k) == f {
      assert u.mem[e] == w.mem[e];
      assert LiveTable(w', e, k) && TableAt(w'.mem, e, k) == f;
    } else {
      var e: nat, k: nat, l: nat :| !(e == d && k == DirIndex(va) && l == TableIndex(va)) && UserMapped(w, e, k, l)
        && UserFrame(w, e, k, l) == f;
      OtherPageKept(w, d, va, 0, e, k, l);
      assert UserMapped(w', e, k, l) && UserFrame(w', e, k, l) == f;
    }
  }

  lemma OtherPageKept(w: World, d: nat, va: Word, v: Word, e: nat, k: nat, l: nat)
    requires Inv(w) && Live(w, d) && HasTable(w.mem, d, DirIndex(va)) && UserMapped(w, e, k, l)
    requires (e, k, l) != (d, DirIndex(va), TableIndex(va))
    ensures Mapped(SetPte(w, d, va, v).mem, e, k, l)
    ensures Pte(SetPte(w, d, va, v).mem, e, k, l) == Pte(w.mem, e, k, l)
    ensures Reachable(SetPte(w, d, va, v).mem, e, k, l) == Reachable(w.mem, e, k, l)
  {
    SetPteEffect(w, d, va, v);
  }

  /** For every address free_page leaves a safe state exactly when it frees no frame that a live directory,
      a table or another user page still needs. */
  lemma FreePageSafeIff(w: World, d: nat, va: Word)
    requires Secure(w) && (d == 0 || Live(w, d))
    ensures d < FRAMES
    ensures Safe(FreePage(w, d, va)) <==> !FreesInUse(w, d, va)
  {
    hide Safe;
    if FreesInUse(w, d, va) {
      FreeInUseBreaks(w, d, va);
      UnsafeIff(FreePage(w, d, va));
    } else {
      FreePageKeeps(w, d, va);
      SecureIsSafe(FreePage(w, d, va));
    }
  }

  lemma UnsafeIff(w: World)
    ensures Safe(w) ==> FramesOwned(w)
  {}

  /** The frame of a user page is needed elsewhere exactly when another user page maps it. */
  lemma UserPageInUseIff(w: World, d: nat, va: Word)
    requires Secure(w) && Aligned(va) && UserMapped(w, d, DirIndex(va), TableIndex(va))
    ensures FreesInUse(w, d, va) <==> Shared(w, d, DirIndex(va), TableIndex(va))
  {
    PageOwned(w, d, DirIndex(va), TableIndex(va));
    SecureFramesOwned(w);
  }

  // ----- allocate_page below 3 GB

  /** Where a create that follows allocate_page succeeds, its outcome is safe exactly when allocate_page has not opened
      a writable page below 3 GB in the kernel's directory. */
  lemma NextCreateSafeIff(w: World, d: nat, va: Word, user: bool, rw: bool)
    requires Secure(w) && (d == 0 || Live(w, d))
    ensures d < FRAMES && w.max < FRAMES
    ensures var w1 := AllocPage(w, d, va, user, rw).0;
      && w1.kernelDir < FRAMES && w1.max <= FRAMES
      && (Create(w1).1 != 0 ==> (Safe(Create(w1).0) <==> !SharesWritable(w, d, va, user, rw)))
  {
    AllocPageSecureIff(w, d, va, user, rw);
    AllocPageKeeps(w, d, va, user, rw);
    var w1 := AllocPage(w, d, va, user, rw).0;
    WorldFits(w1);
    if SharesWritable(w, d, va, user, rw) {
      if Create(w1).1 != 0 { SharedBelow(w, va); }
    } else {
      CreateSecure(w1);
      SecureIsSafe(Create(w1).0);
    }
  }

  /** allocate_page(kernel_directory, va, true, true) below 3 GB, then create_address_space: user mode can write the
      new frame through both spaces, and free_page of the kernel's page frees it under the other. */
  lemma SharedBelow(w: World, va: Word)
    requires Secure(w) && SharesWritable(w, w.kernelDir, va, true, true)
    ensures w.kernelDir < FRAMES && w.max < FRAMES
    ensures var w1 := AllocPage(w, w.kernelDir, va, true, true).0;
      && w1.kernelDir == w.kernelDir && w1.max <= FRAMES
      && var r, d, i, j := Create(w1).0, Create(w1).1, DirIndex(va), TableIndex(va);
         d != 0 ==>
           && UserWritable(r, d, i, j) && UserWritable(r, w.kernelDir, i, j) && d != w.kernelDir
           && UserFrame(r, d, i, j) == UserFrame(r, w.kernelDir, i, j) == Pick(w)
           && !SingleWriter(r) && !Safe(FreePage(r, w.kernelDir, va))
  {
    hide Inv, AllocPage, SharesWritable;
    WorldFits(w);
    var k, i, j := w.kernelDir, DirIndex(va), TableIndex(va);
    OpenedBelow(w, va);
    var w1 := AllocPage(w, k, va, true, true).0;
    WorldFits(w1);
    CreateKeeps(w1);
    var r, d := Create(w1).0, Create(w1).1;
    if d != 0 {
      ExtendsTables(w1, r, k);
      SamePageBelow(r.mem, k, d, i, j);
      assert UserWritable(r, k, i, j) && UserWritable(r, d, i, j);
      assert UserMapped(r, d, i, j) && Frees(r, k, va);
      FreeInUseBreaks(r, k, va);
    }
  }

  lemma KernelLive(w: World)
    requires Inv(w) && w.kernelDir != 0
    ensures w.kernelDir in w.spaces
  {}

  lemma OpenedBelow(w: World, va: Word)
    requires Secure(w) && SharesWritable(w, w.kernelDir, va, true, true)
    ensures w.kernelDir < FRAMES && w.max < FRAMES && Aligned(va) && DirIndex(va) < KERNEL_SPACE_ENTRIES && Pick(w) != 0
    ensures var w1, i, j := AllocPage(w, w.kernelDir, va, true, true).0, DirIndex(va), TableIndex(va);
      && Inv(w1) && w1.kernelDir == w.kernelDir && w1.kernelDir in w1.spaces
      && UserWritable(w1, w.kernelDir, i, j) && UserFrame(w1, w.kernelDir, i, j) == Pick(w)
  {
    hide Inv, MapPage, MapFlags;
    var k, f := w.kernelDir, Pick(w);
    WorldFits(w);
    KernelDirRole(w);
    KernelLive(w);
    LiveFrame(w, k);
    AllocPageKeeps(w, k, va, true, true);
    TakeKeeps(w);
    var role := UserPage(StampOf(w, k), va / 0x1000);
    MarkKeeps(Take(w), f, role);
    var w1 := Mark(Take(w), f, role);
    FrameAligned(f);
    MapPageEffect(w1, k, va, f * 0x1000, true, true);
    MapPageDirectory(w1, k, va, f * 0x1000, true, true);
    OpenedEntry(w1, MapPage(w1, k, va, f * 0x1000, true, true), k, DirIndex(va), TableIndex(va), f);
  }

  lemma OpenedEntry(w: World, r: World, d: nat, i: nat, j: nat, f: nat)
    requires d in r.spaces && d < FRAMES && i < ENTRIES && j < ENTRIES && f < FRAMES && Pick(w) < FRAMES
    requires PageSet(w, r, d, i, j, Pack(f, MapFlags(true, true)))
    requires r.mem[d] == if HasTable(w.mem, d, i) then w.mem[d] else w.mem[d][i := Pack(Pick(w), 7)]
    requires HasTable(w.mem, d, i) ==> ForUser(w.mem[d][i])
    ensures UserWritable(r, d, i, j) && UserFrame(r, d, i, j) == f
  {
    hide SameTables, SamePage;
    PackFields(f, MapFlags(true, true));
    ModeFlags(true);
    if !HasTable(w.mem, d, i) { PackFields(Pick(w), 7); }
  }

  // ----- what a new page permits

  /** Where allocate_page maps its frame the page is writable and open to user mode as asked; so is a new table, which
      always lets writes through, and an old one stays as it is. A user store goes through exactly when all agree. */
  lemma AllocPagePermits(w: World, d: nat, va: Word, user: bool, rw: bool)
    requires Inv(w) && Live(w, d) && Aligned(va) && Pick(w) != 0
    requires HasTable(w.mem, d, DirIndex(va)) || Pick(Take(w)) != 0
    ensures w.max < FRAMES
    ensures var was, mem, i, j := w.mem, AllocPage(w, d, va, user, rw).0.mem, DirIndex(va), TableIndex(va);
      && Mapped(mem, d, i, j) && FrameOf(Pte(mem, d, i, j)) == Pick(w) && !Cow(Pte(mem, d, i, j))
      && Writable(Pte(mem, d, i, j)) == rw && ForUser(Pte(mem, d, i, j)) == user
      && (if HasTable(was, d, i) then mem[d][i] == was[d][i]
          else Writable(mem[d][i]) && ForUser(mem[d][i]) == user && !Cow(mem[d][i]))
      && (Storable(mem, d, va) <==>
            user && rw && (HasTable(was, d, i) ==> ForUser(was[d][i]) && Writable(was[d][i])))
  {
    hide Inv, MapPage, MapFlags;
    WorldFits(w);
    LiveFrame(w, d);
    TakeKeeps(w);
    var f, role, flags := Pick(w), UserPage(StampOf(w, d), va / 0x1000), if user then 7 else 3;
    MarkKeeps(Take(w), f, role);
    var w1 := Mark(Take(w), f, role);
    FrameAligned(f);
    MapPageEffect(w1, d, va, f * 0x1000, user, rw);
    MapPageDirectory(w1, d, va, f * 0x1000, user, rw);
    PackFields(f, MapFlags(user, rw));
    ModeFlags(user);
    if !HasTable(w.mem, d, DirIndex(va)) {
      TakeKeeps(w1);
      PackFields(Pick(w1), flags);
    }
  }

  /** After a handled fault the page is as open to user mode as before; a user store then goes through exactly when
      user mode reached the page and the table lets writes through. */
  lemma FaultPermits(w: World, d: nat, va: Word)
    requires Inv(w) && Live(w, d)
    ensures w.max < FRAMES
    ensures Fault(w, d, va, true, true).1 ==>
      var was, mem, i, j := w.mem, Fault(w, d, va, true, true).0.mem, DirIndex(va), TableIndex(va);
      && mem[d] == was[d] && Writable(Pte(mem, d, i, j)) && !Cow(Pte(mem, d, i, j))
      && ForUser(Pte(mem, d, i, j)) == ForUser(Pte(was, d, i, j))
      && (Storable(mem, d, va) <==> Reachable(was, d, i, j) && Writable(was[d][i]))
  {
    WorldFits(w);
    TakeKeeps(w);
    if Fault(w, d, va, true, true).1 {
      var i, j, f := DirIndex(va), TableIndex(va), Pick(w);
      PackFields(f, BrokenFlags(Pte(w.mem, d, i, j)));
      BrokenTables(w, d, va);
    }
  }

  // ----- runs

  /** The operations a run is made of. `FreePageOp` stands for free_page of a frame that nothing else needs; by
      FreePageSafeIff every other use of it is unsafe. `AllocPageOp` stands for allocate_page that does not open a
      writable page below 3 GB in the kernel's directory; by NextCreateSafeIff the next space created after any other
      use of it is unsafe. */
  datatype Op =
    | CreateOp
    | CloneOp(src: nat)
    | DestroyOp(dir: nat)
    | AllocPageOp(dir: nat, va: Word, user: bool, rw: bool)
    | UnmapOp(dir: nat, va: Word)
    | FreePageOp(dir: nat, va: Word)
    | FaultOp(dir: nat, va: Word, present: bool, write: bool)
    | StoreOp(dir: nat, va: Word, value: Word)

  /** Operations name the null pointer or a live space; the rest is up to the caller. */
  ghost predicate Enabled(w: World, op: Op) {
    && w.kernelDir < FRAMES && w.max < FRAMES
    && match op
       case CreateOp => true
       case CloneOp(src) => src == 0 || Live(w, src)
       case DestroyOp(d) => d == 0 || Live(w, d)
       case AllocPageOp(d, va, user, rw) => d == 0 || (Live(w, d) && !SharesWritable(w, d, va, user, rw))
       case UnmapOp(d, _) => d == 0 || Live(w, d)
       case FreePageOp(d, va) => d == 0 || (Live(w, d) && !FreesInUse(w, d, va))
       case FaultOp(d, _, _, _) => d == 0 || Live(w, d)
       case StoreOp(d, _, _) => Live(w, d)
  }

  ghost function Apply(w: World, op: Op): World
    requires Enabled(w, op)
  {
    match op
    case CreateOp => Create(w).0
    case CloneOp(src) => Clone(w, src).0
    case DestroyOp(d) => Destroy(w, d)
    case AllocPageOp(d, va, user, rw) => AllocPage(w, d, va, user, rw).0
    case UnmapOp(d, va) => Unmap(w, d, va)
    case FreePageOp(d, va) => FreePage(w, d, va)
    case FaultOp(d, va, present, write) => Fault(w, d, va, present, write).0
    case StoreOp(d, va, value) => Store(w, d, va, value)
  }

  lemma ApplyKeeps(w: World, op: Op)
    requires Secure(w) && Enabled(w, op)
    ensures Secure(Apply(w, op))
  {
    match op
    case CreateOp => CreateSecure(w);
    case CloneOp(src) => CloneSecure(w, src);
    case DestroyOp(d) => DestroySecure(w, d);
    case AllocPageOp(d, va, user, rw) => AllocPageSecureIff(w, d, va, user, rw);
    case UnmapOp(d, va) => UnmapSecure(w, d, va);
    case FreePageOp(d, va) => FreePageKeeps(w, d, va);
    case FaultOp(d, va, present, write) => FaultSecure(w, d, va, present, write);
    case StoreOp(d, va, value) => StoreKeeps(w, d, va, value);
  }

  /** The state sequence `states` performs `ops` one after the other. */
  ghost predicate IsRun(states: seq<World>, ops: seq<Op>) {
    && |states| == |ops| + 1
    && forall n {:trigger ops[n]} :: 0 <= n < |ops| ==>
         Enabled(states[n], ops[n]) && states[n + 1] == Apply(states[n], ops[n])
  }

  /** Over every run each physical frame is mapped writable by at most one user page, all
      frames in use are marked used, and no frame or table serves two purposes. */
  lemma {:induction false} RunsAreSafe(states: seq<World>, ops: seq<Op>, n: nat)
    requires IsRun(states, ops) && Secure(states[0]) && n < |states|
    ensures Secure(states[n]) && Safe(states[n])
  {
    if n > 0 {
      RunsAreSafe(states, ops, n - 1);
      assert Enabled(states[n - 1], ops[n - 1]);
      ApplyKeeps(states[n - 1], ops[n - 1]);
    }
    SecureIsSafe(states[n]);
  }

  // ----- who can see a store

  /** The 4096 bytes page (i, j) of d shows. */
  ghost function Contents(w: World, d: nat, i: nat, j: nat): Frame
    requires UserMapped(w, d, i, j)
  {
    w.mem[UserFrame(w, d, i, j)]
  }

  /** e was cloned from d, from a clone of d, and so on. */
  ghost predicate DescendsFrom(w: World, e: nat, d: nat) {
    e in w.spaces && d in w.spaces && e != d && w.spaces[d].stamp in w.spaces[e].line
  }

  /** Whether space e sees, at page (k, l), what space d stores at va. */
  ghost predicate Sees(w: World, e: nat, k: nat, l: nat, d: nat, va: Word) {
    && UserWritable(w, d, DirIndex(va), TableIndex(va))
    && UserMapped(w, e, k, l)
    && UserFrame(w, e, k, l) == UserFrame(w, d, DirIndex(va), TableIndex(va))
  }

  /** Stores travel one way: only the storing page itself and the same, read-only, page of
      spaces that descend from the storing one can show them. */
  lemma StoresFlowDown(w: World, d: nat, va: Word, e: nat, k: nat, l: nat)
    requires Secure(w) && Sees(w, e, k, l, d, va) && (e, k, l) != (d, DirIndex(va), TableIndex(va))
    ensures k == DirIndex(va) && l == TableIndex(va) && DescendsFrom(w, e, d) && !UserWritable(w, e, k, l)
    ensures k >= KERNEL_SPACE_ENTRIES
  {
    PageOwned(w, d, DirIndex(va), TableIndex(va));
    PageOwned(w, e, k, l);
    PageNumber(DirIndex(va), TableIndex(va), k, l);
  }

  /** A store that the processor lets through changes the addressed word for the pages that see it, and nothing for any
      other page; any other store changes nothing. */
  lemma StoreShows(w: World, d: nat, va: Word, value: Word, e: nat, k: nat, l: nat)
    requires Secure(w) && Live(w, d) && UserMapped(w, e, k, l)
    ensures var w' := Store(w, d, va, value);
            && UserMapped(w', e, k, l) && UserFrame(w', e, k, l) == UserFrame(w, e, k, l)
            && Contents(w', e, k, l) ==
                 if Storable(w.mem, d, va) && Sees(w, e, k, l, d, va)
                 then Contents(w, e, k, l)[va % 0x1000 / 4 := value] else Contents(w, e, k, l)
  {
    StoreKeeps(w, d, va, value);
    assert SameTables(w.mem, Store(w, d, va, value).mem, e);
  }

  /** Descent is one way, so a clone can never make an ancestor see anything. */
  lemma AncestorsNeverSee(w: World, ancestor: nat, child: nat, va: Word, k: nat, l: nat)
    requires Secure(w) && DescendsFrom(w, child, ancestor)
    ensures !Sees(w, ancestor, k, l, child, va)
  {
    if Sees(w, ancestor, k, l, child, va) { StoresFlowDown(w, child, va, ancestor, k, l); }
  }

  // ----- clone_address_space

  /** A successful clone: in the user half the child translates every page to the frame its parent does, none of
      them writable and all marked copy-on-write, and shows the same bytes; below 3 GB it has what the kernel's
      directory has; and everything that existed is unchanged. */
  lemma CloneMirrors(w: World, src: nat)
    requires Secure(w) && src in w.spaces && src < FRAMES && Clone(w, src).1 != 0
    ensures var w', d := Clone(w, src).0, Clone(w, src).1;
            && Secure(w') && d !in w.spaces && d !in w.used && DescendsFrom(w', d, src)
            && (forall i: nat, j: nat {:trigger UserMapped(w', d, i, j)} {:trigger UserMapped(w', src, i, j)} ::
                  i >= KERNEL_SPACE_ENTRIES ==> MirrorsPage(w, w', src, d, i, j))
            && (forall i: nat, j: nat {:trigger UserMapped(w', d, i, j)} ::
                  i < KERNEL_SPACE_ENTRIES ==> KernelPage(w, w', d, i, j))
            && KernelSlots(w'.mem, w.kernelDir, d, 0, KERNEL_SPACE_ENTRIES)
            && (forall f :: f in w.used && f < FRAMES ==> w'.mem[f] == w.mem[f])
  {
    CloneKeeps(w, src);
    CloneSecure(w, src);
    assert SpaceOk(w, src);
    var w', d := Clone(w, src).0, Clone(w, src).1;
    assert SpaceOk(w', src);
    forall i: nat, j: nat | i >= KERNEL_SPACE_ENTRIES ensures MirrorsPage(w, w', src, d, i, j) {
      if i < ENTRIES && j < ENTRIES {
        assert CowSlot(w'.mem, src, d, i);
        MirroredPage(w, w', src, d, i, j);
      }
    }
    forall i: nat, j: nat | i < KERNEL_SPACE_ENTRIES ensures KernelPage(w, w', d, i, j) {
      if j < ENTRIES { CopiedKernelPage(w, w', d, i, j); }
    }
  }

  ghost predicate MirrorsPage(w: World, w': World, src: nat, d: nat, i: nat, j: nat) {
    && UserMapped(w', d, i, j) == UserMapped(w, src, i, j) == UserMapped(w', src, i, j)
    && (UserMapped(w', d, i, j) ==>
          && Reachable(w'.mem, d, i, j) == Reachable(w.mem, src, i, j)
          && Writable(w'.mem[d][i]) == Writable(w.mem[src][i])
          && UserFrame(w', d, i, j) == UserFrame(w, src, i, j)
          && Pte(w'.mem, src, i, j) == Pte(w.mem, src, i, j)
          && !UserWritable(w', d, i, j) && Cow(Pte(w'.mem, d, i, j))
          && Contents(w', d, i, j) == Contents(w, src, i, j))
  }

  lemma MirroredPage(w: World, w': World, src: nat, d: nat, i: nat, j: nat)
    requires Secure(w) && Extends(w, w') && Live(w, src) && Live(w', src) && Live(w', d)
    requires KERNEL_SPACE_ENTRIES <= i < ENTRIES && j < ENTRIES && CowSlot(w'.mem, src, d, i)
    ensures MirrorsPage(w, w', src, d, i, j)
  {
    hide Inv, CowEntry;
    ExtendsTables(w, w', src);
    assert w'.mem[src] == w.mem[src] && HasTable(w'.mem, src, i) == HasTable(w.mem, src, i);
    if HasTable(w.mem, src, i) {
      var e := Pte(w.mem, src, i, j);
      CowEntryFields(e);
      SameFlags(w'.mem[d][i], w.mem[src][i]);
      assert Pte(w'.mem, src, i, j) == e && Pte(w'.mem, d, i, j) == CowEntry(e);
      if Present(e) {
        assert UserMapped(w, src, i, j) && UserFrame(w, src, i, j) == FrameOf(e);
        SecureFramesOwned(w);
        assert FrameOf(e) in w.used && w'.mem[FrameOf(e)] == w.mem[FrameOf(e)];
      }
    }
  }

  lemma SameFlags(a: Word, b: Word)
    requires FlagsOf(a) == FlagsOf(b)
    ensures Present(a) == Present(b) && Writable(a) == Writable(b) && Cow(a) == Cow(b) && ForUser(a) == ForUser(b)
  {
    FlagBits(a);
    FlagBits(b);
  }

  /** A page below 3 GB of a new space is a user page exactly when the kernel's is, with the same, read-only entry. */
  ghost predicate KernelPage(w: World, w': World, d: nat, i: nat, j: nat) {
    && UserMapped(w', d, i, j) == UserMapped(w, w.kernelDir, i, j)
    && (UserMapped(w', d, i, j) ==>
          Pte(w'.mem, d, i, j) == Pte(w.mem, w.kernelDir, i, j) && !UserWritable(w', d, i, j))
  }

  lemma CopiedKernelPage(w: World, w': World, d: nat, i: nat, j: nat)
    requires Secure(w) && Extends(w, w') && w.kernelDir in w.spaces && d in w'.spaces && d < FRAMES
    requires w.kernelDir < FRAMES && KernelSlots(w'.mem, w.kernelDir, d, 0, KERNEL_SPACE_ENTRIES)
    requires i < KERNEL_SPACE_ENTRIES && j < ENTRIES
    ensures KernelPage(w, w', d, i, j)
  {
    hide Inv;
    ExtendsTables(w, w', w.kernelDir);
    SamePageBelow(w'.mem, w.kernelDir, d, i, j);
    assert Mapped(w'.mem, w.kernelDir, i, j) == Mapped(w.mem, w.kernelDir, i, j);
    if UserMapped(w, w.kernelDir, i, j) { PageOwned(w, w.kernelDir, i, j); }
  }

  /** The user half is everything from 3 GB on. */
  lemma UserHalf(va: Word)
    ensures DirIndex(va) >= KERNEL_SPACE_ENTRIES <==> va >= 0xC000_0000
  {}

  /** The parent keeps its writable mappings, so the sharing is not symmetric: after every successful clone the child
      sees, at the same page, what the parent stores through a page it can write, exactly in the user half. */
  lemma ParentStoreReachesChild(w: World, src: nat, va: Word)
    requires Secure(w) && Live(w, src) && Clone(w, src).1 != 0
    requires UserWritable(w, src, DirIndex(va), TableIndex(va))
    ensures var w', d := Clone(w, src).0, Clone(w, src).1;
            Sees(w', d, DirIndex(va), TableIndex(va), src, va) <==> va >= 0xC000_0000
  {
    UserHalf(va);
    CloneMirrors(w, src);
    var w', d, i, j := Clone(w, src).0, Clone(w, src).1, DirIndex(va), TableIndex(va);
    if i >= KERNEL_SPACE_ENTRIES {
      assert UserMapped(w, src, i, j);
      assert MirrorsPage(w, w', src, d, i, j);
    } else if Sees(w', d, i, j, src, va) {
      StoresFlowDown(w', src, va, d, i, j);
    }
  }

  // ----- the copy-on-write fault

  /** Nothing but page (i, j) of d has another entry, and every user page shows the same bytes. */
  ghost predicate OnlyEntry(w: World, w': World, d: nat, i: nat, j: nat) {
    && w'.spaces == w.spaces
    && (forall e: nat, k: nat, l: nat {:trigger UserMapped(w', e, k, l)} {:trigger UserMapped(w, e, k, l)} ::
          && UserMapped(w', e, k, l) == UserMapped(w, e, k, l)
          && (UserMapped(w, e, k, l) ==> Contents(w', e, k, l) == Contents(w, e, k, l))
          && (UserMapped(w, e, k, l) && (e, k, l) != (d, i, j) ==> Pte(w'.mem, e, k, l) == Pte(w.mem, e, k, l)))
  }

  /** No other user page maps the frame of page (i, j) of d. */
  ghost predicate Private(w: World, d: nat, i: nat, j: nat) {
    UserMapped(w, d, i, j) ==> !Shared(w, d, i, j)
  }

  /** For every address a fault is handled exactly on a write to a present, mapped page marked copy-on-write
      when a frame is free. It leaves every byte any user page shows as it was, gives the page a writable frame
      of its own that was not in use and that no other user page maps, and changes no other translation. */
  lemma FaultUnshares(w: World, d: nat, va: Word, present: bool, write: bool)
    requires Secure(w) && Live(w, d)
    ensures var i, j := DirIndex(va), TableIndex(va);
            var r := Fault(w, d, va, present, write);
            && r.1 == (present && write && Mapped(w.mem, d, i, j) && Cow(Pte(w.mem, d, i, j)) && Pick(w) != 0)
            && if !r.1 then r.0 == w else
                 && OnlyEntry(w, r.0, d, i, j)
                 && Private(r.0, d, i, j)
                 && Mapped(r.0.mem, d, i, j) && Writable(Pte(r.0.mem, d, i, j)) && !Cow(Pte(r.0.mem, d, i, j))
                 && FrameOf(Pte(r.0.mem, d, i, j)) !in w.used
                 && r.0.mem[FrameOf(Pte(r.0.mem, d, i, j))] == w.mem[FrameOf(Pte(w.mem, d, i, j))]
  {
    DirectoryRole(w, d);
    TakeKeeps(w);
    if Fault(w, d, va, present, write).1 { BrokenPage(w, d, va); }
  }

  /** What a handled fault does to memory: first a frame that was not in use takes a copy of the page and every
      table stays, then one entry of one space changes. */
  ghost predicate BrokenInTwo(w: World, w1: World, w': World, d: nat, i: nat, j: nat, f: nat)
    requires d < FRAMES && i < ENTRIES && j < ENTRIES && f < FRAMES
  {
    var e := Pte(w.mem, d, i, j);
    && w1.spaces == w.spaces == w'.spaces && w'.used == w.used + {f} && f !in w.used
    && (forall s :: s in w.spaces ==> s < FRAMES && SameTables(w.mem, w1.mem, s))
    && HasTable(w1.mem, d, i)
    && PteChanged(w1.mem, w'.mem, d, i, j, Pack(f, BrokenFlags(e)))
    && (forall s :: s in w.spaces && s != d ==> s < FRAMES && SameTables(w1.mem, w'.mem, s))
    && (forall g {:trigger w.mem[g]} {:trigger w'.mem[g]} ::
          g in w.used && g < FRAMES && !RoleIs(w, g, Table(d, i)) ==> w'.mem[g] == w.mem[g])
    && w'.mem[f] == w.mem[FrameOf(e)]
  }

  lemma BrokenTables(w: World, d: nat, va: Word)
    requires Inv(w) && Live(w, d) && Mapped(w.mem, d, DirIndex(va), TableIndex(va)) && Pick(w) != 0
    ensures Pick(w) < FRAMES
    ensures var w0, f := Take(w), Pick(w);
            BrokenInTwo(w, Copied(w0, d, va, f), BreakSharing(w0, d, va, f), d, DirIndex(va), TableIndex(va), f)
  {
    var f, w0 := Pick(w), Take(w);
    TakeKeeps(w);
    CopiedKeeps(w0, d, va, f);
    BreakKeeps(w0, d, va, f);
    SetPteEffect(Copied(w0, d, va, f), d, va, Pack(f, BrokenFlags(Pte(w.mem, d, DirIndex(va), TableIndex(va)))));
  }

  lemma BrokenPage(w: World, d: nat, va: Word)
    requires Secure(w) && Live(w, d) && Mapped(w.mem, d, DirIndex(va), TableIndex(va)) && Pick(w) != 0
    ensures Pick(w) < FRAMES
    ensures var i, j, w' := DirIndex(va), TableIndex(va), BreakSharing(Take(w), d, va, Pick(w));
            && OnlyEntry(w, w', d, i, j) && Private(w', d, i, j)
            && Mapped(w'.mem, d, i, j) && FrameOf(Pte(w'.mem, d, i, j)) == Pick(w) && Pick(w) !in w.used
            && Writable(Pte(w'.mem, d, i, j)) && !Cow(Pte(w'.mem, d, i, j))
            && w'.mem[Pick(w)] == w.mem[FrameOf(Pte(w.mem, d, i, j))]
  {
    hide Inv, BreakSharing, Copied, Take, Pick;
    var i, j, f := DirIndex(va), TableIndex(va), Pick(w);
    BrokenTables(w, d, va);
    var w1, w' := Copied(Take(w), d, va, f), BreakSharing(Take(w), d, va, f);
    BrokenEntry(w, w1, w', d, i, j, f);
    forall s: nat, k: nat, l: nat
      ensures UserMapped(w', s, k, l) == UserMapped(w, s, k, l)
      ensures UserMapped(w, s, k, l) && (s, k, l) != (d, i, j) ==>
        Pte(w'.mem, s, k, l) == Pte(w.mem, s, k, l) && UserFrame(w, s, k, l) != f
      ensures UserMapped(w, s, k, l) ==> Contents(w', s, k, l) == Contents(w, s, k, l)
    {
      BrokenElsewhere(w, w1, w', d, i, j, f, s, k, l);
    }
  }

  lemma BrokenEntry(w: World, w1: World, w': World, d: nat, i: nat, j: nat, f: nat)
    requires d < FRAMES && i < ENTRIES && j < ENTRIES && f < FRAMES && BrokenInTwo(w, w1, w', d, i, j, f)
    requires Mapped(w.mem, d, i, j)
    ensures Mapped(w'.mem, d, i, j) && FrameOf(Pte(w'.mem, d, i, j)) == f
    ensures Writable(Pte(w'.mem, d, i, j)) && !Cow(Pte(w'.mem, d, i, j))
    ensures ForUser(Pte(w'.mem, d, i, j)) == ForUser(Pte(w.mem, d, i, j))
  {
    PackFields(f, BrokenFlags(Pte(w.mem, d, i, j)));
  }

  lemma BrokenElsewhere(w: World, w1: World, w': World, d: nat, i: nat, j: nat, f: nat, s: nat, k: nat, l: nat)
    requires Secure(w) && Live(w, d) && i < ENTRIES && j < ENTRIES && f < FRAMES && BrokenInTwo(w, w1, w', d, i, j, f)
    requires Mapped(w.mem, d, i, j)
    ensures UserMapped(w', s, k, l) == UserMapped(w, s, k, l)
    ensures UserMapped(w, s, k, l) && (s, k, l) != (d, i, j) ==>
      Pte(w'.mem, s, k, l) == Pte(w.mem, s, k, l) && UserFrame(w, s, k, l) != f
    ensures UserMapped(w, s, k, l) ==> Contents(w', s, k, l) == Contents(w, s, k, l)
  {
    BrokenEntry(w, w1, w', d, i, j, f);
    if Live(w, s) && k < ENTRIES && l < ENTRIES {
      assert SameTables(w.mem, w1.mem, s);
      assert HasTable(w'.mem, s, k) == HasTable(w1.mem, s, k) == HasTable(w.mem, s, k);
      assert w'.mem[s] == w.mem[s];
      if UserMapped(w, s, k, l) { PageOwned(w, s, k, l); }
    }
  }
}
