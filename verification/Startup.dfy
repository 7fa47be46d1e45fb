/** Paging::initialize: the identity map of the first 64 MB, and what becomes of it when frames are short. */
module Startup {
  import opened Words
  import opened PageEntry
  import opened AddressSpaces
  import opened Invariant
  import opened Operations
  import opened UserAccess
  import opened Isolation
  import opened FrameCounts
  import opened Translation

  /** Slots 0..j of the kernel directory map themselves. */
  ghost predicate IdentityBelow(w: World, j: nat) {
    && w.kernelDir < FRAMES && j <= ENTRIES
    && forall n: nat {:trigger HasTable(w.mem, w.kernelDir, n)} :: n < ENTRIES ==>
         && HasTable(w.mem, w.kernelDir, n) == (n < j)
         && (n < j ==> w.mem[TableAt(w.mem, w.kernelDir, n)] == IdentityTable(n) && KernelRw(w.mem[w.kernelDir][n]))
  }

  lemma IdentityAdvance(w: World, j: nat)
    requires Inv(w) && w.kernelDir != 0 && j < IDENTITY_TABLES && IdentityBelow(w, j)
    requires Available(w) > 0
    ensures var w2 := WithIdentityTable(w, j);
            && Inv(w2) && IdentityBelow(w2, j + 1) && Available(w2) == Available(w) - 1
            && w2.spaces == w.spaces && w2.kernelDir == w.kernelDir
  {
    TakeKeeps(w);
    TakeOneAvailable(w);
    IdentityStep(Take(w), j, Pick(w));
  }

  lemma IdentityStep(w: World, j: nat, t: nat)
    requires Inv(w) && w.kernelDir != 0 && j < IDENTITY_TABLES && IdentityBelow(w, j)
    requires t != 0 && t in w.used && t !in w.roles
    ensures t < FRAMES
    ensures Inv(InstallTable(w, w.kernelDir, j, t, IdentityTable(j), 3))
    ensures IdentityBelow(InstallTable(w, w.kernelDir, j, t, IdentityTable(j), 3), j + 1)
  {
    var d := w.kernelDir;
    FlagsPresent();
    PackFields(t, 3);
    InstallKeeps(w, d, j, t, IdentityTable(j), 3);
    var w2 := InstallTable(w, d, j, t, IdentityTable(j), 3);
    forall n: nat | n < ENTRIES
      ensures HasTable(w2.mem, d, n) == (n < j + 1)
      ensures n < j + 1 ==> w2.mem[TableAt(w2.mem, d, n)] == IdentityTable(n) && KernelRw(w2.mem[d][n])
    {
      if n != j {
        assert w2.mem[d][n] == w.mem[d][n];
        assert HasTable(w2.mem, d, n) == HasTable(w.mem, d, n) == (n < j);
        if n < j { TableOwned(w, d, n); }
      }
    }
  }

  lemma KernelOpened(w: World, d: nat)
    requires Inv(w) && w.spaces == map[] && d != 0 && d in w.used && d !in w.roles
    ensures d < FRAMES
    ensures var w' := AsKernel(OpenSpace(w, d), d);
            Inv(w') && IdentityBelow(w', 0) && w'.spaces.Keys == {d} && Available(w') == Available(w)
  {}

  lemma FlagsPresent()
    ensures Present(3) && KernelRw(3)
  {
    ModeFlags(false);
  }

  /** With its sixteen tables in place the directory is the identity on the first 64 MB and
      maps nothing else. */
  lemma IdentityLookup(w: World, va: Word)
    requires IdentityBelow(w, IDENTITY_TABLES) && w.kernelDir != 0
    ensures Physical(w.mem, w.kernelDir, va) == if va < 0x400_0000 then va else 0
  {
    hide And;
    var d, i, j := w.kernelDir, DirIndex(va), TableIndex(va);
    PageMask(va);
    PageOfAddress(va);
    if HasTable(w.mem, d, i) {
      FlagsPresent();
      PackFields(i * ENTRIES + j, 3);
      assert Pte(w.mem, d, i, j) == Pack(i * ENTRIES + j, 3);
    }
  }

  /** Every address below 64 MB translates to itself and no other address is mapped. */
  ghost predicate IdentityMapped(w: World)
    requires w.kernelDir < FRAMES
  {
    forall va: Word {:trigger Physical(w.mem, w.kernelDir, va)} ::
      Physical(w.mem, w.kernelDir, va) == if va < 0x400_0000 then va else 0
  }

  lemma IdentityEverywhere(w: World)
    requires IdentityBelow(w, IDENTITY_TABLES) && w.kernelDir != 0
    ensures IdentityMapped(w)
  {
    forall va: Word ensures Physical(w.mem, w.kernelDir, va) == if va < 0x400_0000 then va else 0 {
      IdentityLookup(w, va);
    }
  }

  /** Every page below 64 MB is the kernel's to write, and nobody else's to reach. */
  ghost predicate KernelWritable(w: World)
    requires w.kernelDir < FRAMES
  {
    forall va: Word {:trigger DirIndex(va)} :: va < 0x400_0000 ==>
      KernelWrites(w.mem, w.kernelDir, DirIndex(va), TableIndex(va))
  }

  lemma WritableEverywhere(w: World)
    requires IdentityBelow(w, IDENTITY_TABLES) && w.kernelDir != 0
    ensures KernelWritable(w)
  {
    forall va: Word | va < 0x400_0000 ensures KernelWrites(w.mem, w.kernelDir, DirIndex(va), TableIndex(va)) {
      WritableAt(w, DirIndex(va), TableIndex(va));
    }
  }

  lemma WritableAt(w: World, i: nat, j: nat)
    requires IdentityBelow(w, IDENTITY_TABLES) && i < IDENTITY_TABLES && j < ENTRIES
    ensures KernelWrites(w.mem, w.kernelDir, i, j)
  {
    FlagsPresent();
    PackFields(PageOf(i, j), 3);
    assert HasTable(w.mem, w.kernelDir, i) && Pte(w.mem, w.kernelDir, i, j) == Pack(PageOf(i, j), 3);
  }

  /** The state in which the identity tables are installed, at table j. */
  ghost predicate Booting(w: World, j: nat) {
    && Inv(w) && w.kernelDir != 0 && w.spaces.Keys == {w.kernelDir} && j <= IDENTITY_TABLES
    && IdentityBelow(w, j)
  }

  lemma BootedSecure(w: World, j: nat)
    requires Booting(w, j)
    ensures Secure(w)
  {
    OpenedSecure(w, w.kernelDir);
  }

  /** As long as frames are left the tables go in one after the other. */
  lemma {:induction false} TablesFit(w: World, j: nat, m: nat)
    requires Booting(w, j) && j <= m <= IDENTITY_TABLES && Available(w) >= m - j
    ensures var r := TablesUpTo(w, j, m);
      && Booting(r, m) && Available(r) == Available(w) - (m - j) && r.kernelDir == w.kernelDir
      && AddIdentityTables(r, m) == AddIdentityTables(w, j)
    decreases m - j
  {
    hide IdentityBelow, Available, WithIdentityTable;
    if j < m {
      IdentityAdvance(w, j);
      TablesFit(WithIdentityTable(w, j), j + 1, m);
    }
  }

  /** The state after tables j..m. */
  function TablesUpTo(w: World, j: nat, m: nat): (r: World)
    requires w.max < FRAMES && w.kernelDir < FRAMES && j <= m <= IDENTITY_TABLES
    ensures r.max == w.max && r.kernelDir == w.kernelDir
    decreases m - j, w.max
  {
    if j == m then w else TablesUpTo(WithIdentityTable(w, j), j + 1, m)
  }

  // ----- with sixteen frames

  /** The null frame serves as the last table: the map is complete and no frame serves twice, but frame 0 is lost. */
  lemma LastTableNull(w: World)
    requires Booting(w, IDENTITY_TABLES - 1) && Pick(w) == 0
    ensures w.max < FRAMES && w.kernelDir < FRAMES
    ensures var r := WithIdentityTable(w, IDENTITY_TABLES - 1);
      && r.kernelDir == w.kernelDir && IdentityBelow(r, IDENTITY_TABLES) && Safe(r)
      && TableAt(r.mem, r.kernelDir, IDENTITY_TABLES - 1) == 0 && r.mem[0] == IdentityTable(IDENTITY_TABLES - 1)
  {
    WorldFits(w);
    TakeKeeps(w);
    var k, n := w.kernelDir, IDENTITY_TABLES - 1;
    FlagsPresent();
    PackFields(0, 3);
    var r := WithIdentityTable(w, n);
    assert r.mem[k] == w.mem[k][n := Pack(0, 3)];
    forall l: nat | l < ENTRIES
      ensures HasTable(r.mem, k, l) == (l < IDENTITY_TABLES)
      ensures l < IDENTITY_TABLES ==> r.mem[TableAt(r.mem, k, l)] == IdentityTable(l) && KernelRw(r.mem[k][l])
      ensures l < n ==> RoleIs(w, TableAt(r.mem, k, l), Table(k, l))
    {
      assert HasTable(w.mem, k, l) == (l < n);
      if l < n { TableOwned(w, k, l); }
    }
    NullTableSafe(w, r);
  }

  lemma NullTableSafe(w: World, r: World)
    requires Inv(w) && w.kernelDir != 0 && w.spaces.Keys == {w.kernelDir} && w.kernelDir < FRAMES
    requires r.spaces == w.spaces && r.used == w.used && r.kernelDir == w.kernelDir && IdentityBelow(r, IDENTITY_TABLES)
    requires TableAt(r.mem, r.kernelDir, IDENTITY_TABLES - 1) == 0
    requires forall l: nat :: l < IDENTITY_TABLES - 1 ==>
      RoleIs(w, TableAt(r.mem, r.kernelDir, l), Table(r.kernelDir, l))
    ensures Safe(r)
  {
    LiveFrame(w, w.kernelDir);
    forall d: nat, i: nat, j: nat ensures !UserMapped(r, d, i, j) {
      if d == r.kernelDir && i < ENTRIES && j < ENTRIES {
        assert HasTable(r.mem, d, i) == (i < IDENTITY_TABLES);
      }
    }
  }

  // ----- with fewer

  /** Once no frame is left every further slot names the null frame, which ends up holding the last table. */
  lemma {:induction false} TablesShort(w: World, j: nat)
    requires w.max < FRAMES && 0 < w.kernelDir < FRAMES && j < IDENTITY_TABLES && 0 in w.used && Pick(w) == 0
    ensures var r := AddIdentityTables(w, j);
      && (forall n: nat :: j <= n < IDENTITY_TABLES ==> r.mem[r.kernelDir][n] == Pack(0, 3))
      && (forall n: nat :: n < ENTRIES && !(j <= n < IDENTITY_TABLES) ==>
        r.mem[r.kernelDir][n] == w.mem[w.kernelDir][n])
      && r.mem[0] == IdentityTable(IDENTITY_TABLES - 1) && r.spaces == w.spaces && 0 in r.roles
    decreases IDENTITY_TABLES - j
  {
    var w2 := WithIdentityTable(w, j);
    OneNullTable(w, j);
    if j + 1 < IDENTITY_TABLES { TablesShort(w2, j + 1); }
  }

  lemma OneNullTable(w: World, j: nat)
    requires w.max < FRAMES && 0 < w.kernelDir < FRAMES && j < IDENTITY_TABLES && 0 in w.used && Pick(w) == 0
    ensures var w2 := WithIdentityTable(w, j);
      && w2.used == w.used && w2.max == w.max && w2.kernelDir == w.kernelDir && w2.spaces == w.spaces && Pick(w2) == 0
      && w2.mem[w.kernelDir] == w.mem[w.kernelDir][j := Pack(0, 3)] && w2.mem[0] == IdentityTable(j) && 0 in w2.roles
  {
    TakeCounts(w);
  }

  /** Two slots on one frame, and the first of them does not map itself. */
  lemma SharedTableBreaks(r: World)
    requires 0 < r.kernelDir < FRAMES && r.kernelDir in r.spaces
    requires r.mem[r.kernelDir][IDENTITY_TABLES - 2] == r.mem[r.kernelDir][IDENTITY_TABLES - 1] == Pack(0, 3)
    requires r.mem[0] == IdentityTable(IDENTITY_TABLES - 1)
    ensures !Safe(r) && !IdentityMapped(r)
  {
    var k, n := r.kernelDir, IDENTITY_TABLES - 2;
    FlagsPresent();
    PackFields(0, 3);
    assert LiveTable(r, k, n) && LiveTable(r, k, n + 1) && TableAt(r.mem, k, n) == TableAt(r.mem, k, n + 1);
    var va: Word := n * 0x40_0000;
    PackFields(PageOf(n + 1, 0), 3);
    PageOfAddress(va);
    PhysicalIsLookup(r.mem, k, va);
    PageSplit(n, 0);
    assert Pte(r.mem, k, n, 0) == IdentityEntry(n + 1, 0);
    assert Physical(r.mem, k, va) != va;
  }

  // ----- the whole of it

  /** Where initialization starts its loop over the tables. */
  function Opening(w: World): World
    requires w.max < FRAMES
  {
    AsKernel(OpenSpace(Take(w), Pick(w)), Pick(w))
  }

  lemma OpeningIs(w: World)
    requires Inv(w) && w.spaces == map[]
    ensures w.max < FRAMES && Boot(w) == AddIdentityTables(Opening(w), 0) && (Pick(w) == 0 <==> Available(w) == 0)
    ensures Pick(w) != 0 ==> Booting(Opening(w), 0) && Available(Opening(w)) == Available(w) - 1
    ensures Pick(w) == 0 ==> Opening(w).kernelDir == 0 && 0 in Opening(w).spaces && 0 in Opening(w).roles
  {
    TakeKeeps(w);
    NoneAvailable(w);
    TakeOneAvailable(w);
    OpenedAvailable(Take(w), Pick(w));
    if Pick(w) != 0 { KernelOpened(Take(w), Pick(w)); }
  }

  lemma OpenedAvailable(w: World, d: nat)
    requires d < FRAMES
    ensures Available(AsKernel(OpenSpace(w, d), d)) == Available(w)
  {}

  /** After boot the state is safe, and the first 64 MB and nothing else are mapped to themselves, exactly when at least
      sixteen frames were free. The kernel can then write every page of them, and user mode reaches none. */
  lemma BootSafeIff(w: World)
    requires Inv(w) && w.spaces == map[]
    ensures w.max < FRAMES && Boot(w).kernelDir < FRAMES
    ensures Safe(Boot(w)) <==> Available(w) >= 16
    ensures IdentityMapped(Boot(w)) <==> Available(w) >= 16
    ensures Available(w) >= 16 ==> KernelWritable(Boot(w))
  {
    hide Inv, Safe, IdentityMapped, KernelWritable, Available, AddIdentityTables;
    OpeningIs(w);
    var w1 := Opening(w);
    if Pick(w) == 0 {
      NoDirectory(Boot(w));
    } else if Available(w) > IDENTITY_TABLES {
      TablesFit(w1, 0, IDENTITY_TABLES);
      AllInstalled(TablesUpTo(w1, 0, IDENTITY_TABLES));
    } else if Available(w) == IDENTITY_TABLES {
      BootSixteen(w);
    } else {
      var m := Available(w) - 1;
      TablesFit(w1, 0, m);
      FewerTables(TablesUpTo(w1, 0, m), m);
    }
  }

  lemma NoDirectory(w: World)
    requires w.kernelDir == 0 && 0 in w.spaces
    ensures !Safe(w) && !IdentityMapped(w)
  {
    assert Physical(w.mem, 0, 0x1000) == 0;
  }

  lemma AllInstalled(w: World)
    requires Booting(w, IDENTITY_TABLES)
    ensures w.max < FRAMES && AddIdentityTables(w, IDENTITY_TABLES) == w && Secure(w) && Safe(w)
    ensures IdentityMapped(w) && KernelWritable(w)
  {
    WorldFits(w);
    BootedSecure(w, IDENTITY_TABLES);
    SecureIsSafe(w);
    IdentityEverywhere(w);
    WritableEverywhere(w);
  }

  lemma FewerTables(w: World, m: nat)
    requires Booting(w, m) && m < IDENTITY_TABLES - 1 && Available(w) == 0
    ensures w.max < FRAMES && w.kernelDir < FRAMES
    ensures var r := AddIdentityTables(w, m); 0 in r.roles && !Safe(r) && !IdentityMapped(r)
  {
    hide Safe, IdentityMapped;
    NoneAvailable(w);
    WorldFits(w);
    TablesShort(w, m);
    SharedTableBreaks(AddIdentityTables(w, m));
  }

  /** With sixteen frames the null frame is overwritten: it becomes the sixteenth table. */
  lemma BootSixteen(w: World)
    requires Inv(w) && w.spaces == map[] && Available(w) == IDENTITY_TABLES
    ensures w.max < FRAMES && Boot(w).kernelDir < FRAMES
    ensures var r := Boot(w);
      && Safe(r) && IdentityMapped(r) && KernelWritable(r) && 0 in r.roles
      && TableAt(r.mem, r.kernelDir, IDENTITY_TABLES - 1) == 0 && r.mem[0] == IdentityTable(IDENTITY_TABLES - 1)
  {
    hide Inv, Safe, IdentityMapped, KernelWritable, IdentityBelow, Available;
    OpeningIs(w);
    var n := IDENTITY_TABLES - 1;
    TablesFit(Opening(w), 0, n);
    var w15 := TablesUpTo(Opening(w), 0, n);
    NoneAvailable(w15);
    LastTableNull(w15);
    IdentityEverywhere(WithIdentityTable(w15, n));
    WritableEverywhere(WithIdentityTable(w15, n));
    assert Boot(w) == AddIdentityTables(w15, n) == WithIdentityTable(w15, n);
  }

  /** The invariant, which keeps the null frame out of use, holds after boot exactly when seventeen frames were free. */
  lemma BootKeepsIff(w: World)
    requires Inv(w) && w.spaces == map[]
    ensures w.max < FRAMES
    ensures Secure(Boot(w)) <==> Available(w) > IDENTITY_TABLES
    ensures Available(w) > IDENTITY_TABLES ==> Booting(Boot(w), IDENTITY_TABLES)
  {
    hide IdentityBelow, Available, AddIdentityTables;
    OpeningIs(w);
    var w1 := Opening(w);
    if Pick(w) == 0 {
      RolesStay(w1, 0);
    } else if Available(w) > IDENTITY_TABLES {
      TablesFit(w1, 0, IDENTITY_TABLES);
      AllInstalled(TablesUpTo(w1, 0, IDENTITY_TABLES));
    } else if Available(w) == IDENTITY_TABLES {
      BootSixteen(w);
    } else {
      var m := Available(w) - 1;
      TablesFit(w1, 0, m);
      FewerTables(TablesUpTo(w1, 0, m), m);
    }
  }

  lemma {:induction false} RolesStay(w: World, j: nat)
    requires w.max < FRAMES && w.kernelDir < FRAMES && j <= IDENTITY_TABLES && 0 in w.roles
    ensures 0 in AddIdentityTables(w, j).roles
    decreases IDENTITY_TABLES - j
  {
    if j < IDENTITY_TABLES { RolesStay(WithIdentityTable(w, j), j + 1); }
  }

  // ----- after boot

  /** Once paging runs, free_page can be asked for the live kernel directory itself: its frame lies in the identity
      map, no user page shares it, and freeing it is unsafe. */
  lemma KernelFreesItself(w: World)
    requires Booting(w, IDENTITY_TABLES) && w.kernelDir < 0x4000
    ensures var va: Word := w.kernelDir * 0x1000;
            && !Shared(w, w.kernelDir, DirIndex(va), TableIndex(va))
            && !Safe(FreePage(w, w.kernelDir, va))
  {
    hide Inv, Safe, AddressSpaces.FreePage;
    var va: Word := w.kernelDir * 0x1000;
    FrameAddress(w.kernelDir);
    WorldFits(w);
    IdentityLookup(w, va);
    PhysicalIsLookup(w.mem, w.kernelDir, va);
    PageMappedIff(w, w.kernelDir, va);
    BootedSecure(w, IDENTITY_TABLES);
    FreePageSafeIff(w, w.kernelDir, va);
  }
}
