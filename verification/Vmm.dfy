/** The virtual memory manager: directories and tables are changed in place in physical
    memory, reached through the identity map, with frames from the allocator. */
module Vmm {
  import opened Words
  import opened PageEntry
  import opened AddressSpaces
  import opened Invariant
  import opened Operations
  import opened UserAccess
  import opened Isolation
  import opened Translation
  import opened FrameCounts
  import opened Startup
  import Pmm

  class Manager {
    const pmm: Pmm.Allocator
    const mem: array<Frame>  // physical memory, by frame number
    var kernelDirectory: nat  // pointers to directories and tables are frame numbers; 0 is null

    ghost var spaces: map<nat, Space>
    ghost var roles: map<nat, Role>
    ghost var nextStamp: nat

    ghost predicate Ready()
      reads this, pmm, pmm.bitmap, mem
    {
      && mem.Length == FRAMES
      && (pmm.bitmap == null || pmm.bitmap as object != mem)
      && pmm.Valid()
      && pmm.maxBlocks < FRAMES
    }

    ghost predicate Valid()
      reads this, pmm, pmm.bitmap, mem
    {
      Ready() && Secure(View())
    }

    /** The state the functions of AddressSpaces work on. */
    ghost function View(): World
      reads this, pmm, mem
      requires mem.Length == FRAMES
    {
      World(pmm.used, pmm.maxBlocks, mem[..], kernelDirectory, spaces, roles, nextStamp)
    }

    /** Before paging starts: an allocator that keeps block 0, any memory, no directory. */
    constructor (p: Pmm.Allocator, m: array<Frame>)
      requires p.Valid() && 0 in p.used && m.Length == FRAMES
      requires p.bitmap == null || p.bitmap as object != m
      ensures Valid() && pmm == p && mem == m
      ensures View() == World(p.used, p.maxBlocks, m[..], 0, map[], map[], 0)
    {
      pmm, mem, kernelDirectory := p, m, 0;
      spaces, roles, nextStamp := map[], map[], 0;
    }

    // ----- single writes

    method TakeFrame() returns (f: nat)
      requires Ready()
      modifies pmm`used, pmm`usedBlocks, pmm.bitmap
      ensures Ready() && View() == Take(old(View())) && f == AddressSpaces.Pick(old(View())) && f < FRAMES
    {
      hide Pmm.Allocator.Valid, Pmm.Pick, Pmm.UsedAfterPick;
      var addr := pmm.AllocateBlock();
      f := addr / Pmm.BLOCK_SIZE;
    }

    method ReleaseFrame(f: nat)
      requires Ready() && f < FRAMES
      modifies this`roles, pmm`used, pmm`usedBlocks, pmm.bitmap
      ensures Ready() && View() == Free(old(View()), f)
    {
      hide Pmm.Allocator.Valid;
      FrameAddress(f);
      pmm.FreeBlock(f * Pmm.BLOCK_SIZE);
      roles := roles - {f};
    }

    method PutTable(directory: nat, i: nat, table: nat, contents: Frame, flags: Word)
      requires Ready() && directory < FRAMES && i < ENTRIES && table < FRAMES && flags < 0x1000
      modifies this`roles, mem
      ensures Ready() && View() == InstallTable(old(View()), directory, i, table, contents, flags)
    {
      mem[table] := contents;
      mem[directory] := mem[directory][i := Pack(table, flags)];
      roles := roles[table := Table(directory, i)];
    }

    method PutEntry(directory: nat, va: Word, e: Word)
      requires Ready() && directory < FRAMES
      modifies mem
      ensures Ready() && View() == SetPte(old(View()), directory, va, e)
    {
      var table := FrameOf(mem[directory][DirIndex(va)]);
      mem[table] := mem[table][TableIndex(va) := e];
    }

    // ----- vmm.cpp

    /** The part of map_page_in_space that finds the table of slot i or makes one. */
    method FindTable(directory: nat, i: nat, user: bool) returns (found: bool)
      requires Ready() && 0 < directory < FRAMES && i < ENTRIES
      modifies this`roles, pmm`used, pmm`usedBlocks, pmm.bitmap, mem
      ensures Ready() && View() == EnsureTable(old(View()), directory, i, if user then 7 else 3)
      ensures found == HasTable(View().mem, directory, i)
    {
      hide Pmm.Allocator.Valid, AddressSpaces.Pick, Take;
      if And(mem[directory][i], 0x1) != 0 { return true; }
      var table := TakeFrame();
      if table == 0 { return false; }
      PutTable(directory, i, table, Zeros(), if user then 7 else 3);
      PackFields(table, if user then 7 else 3);
      ModeFlags(user);
      return true;
    }

    method MapPageInSpace(directory: nat, va: Word, pa: Word, user: bool, rw: bool)
      requires Ready() && directory < FRAMES
      modifies this`roles, pmm`used, pmm`usedBlocks, pmm.bitmap, mem
      ensures Ready() && View() == MapPage(old(View()), directory, va, pa, user, rw)
    {
      hide Pmm.Allocator.Valid, EnsureTable, HasTable, SetPte, MapFlags;
      if directory == 0 || !Aligned(va) || !Aligned(pa) { return; }
      var found := FindTable(directory, DirIndex(va), user);
      if !found { return; }
      PutEntry(directory, va, Pack(pa / 0x1000, MapFlags(user, rw)));
    }

    method UnmapPage(directory: nat, va: Word)
      requires Ready() && directory < FRAMES
      modifies mem
      ensures Ready() && View() == Unmap(old(View()), directory, va)
    {
      if directory == 0 || !Aligned(va) { return; }
      if And(mem[directory][DirIndex(va)], 0x1) == 0 { return; }
      PutEntry(directory, va, 0);
    }

    method GetPhysicalAddress(directory: nat, va: Word) returns (pa: Word)
      requires Ready() && directory < FRAMES
      ensures pa == Physical(View().mem, directory, va)
    {
      if directory == 0 { return 0; }
      if And(mem[directory][DirIndex(va)], 0x1) == 0 { return 0; }
      var table := FrameOf(mem[directory][DirIndex(va)]);
      var e := mem[table][TableIndex(va)];
      if And(e, 0x1) != 0 {
        PageMask(va);
        return Pack(FrameOf(e), And(va, 0xFFF));
      }
      return 0;
    }

    /** It keeps the invariant exactly when it opens no writable page below 3 GB in the kernel's directory, by
        UserAccess.AllocPageSecureIff. */
    method AllocatePage(directory: nat, va: Word, user: bool, rw: bool) returns (pa: Word)
      requires Valid() && (directory == 0 || directory in spaces)
      modifies this`roles, pmm`used, pmm`usedBlocks, pmm.bitmap, mem
      ensures Ready() && directory < FRAMES
      ensures (View(), pa) == AllocPage(old(View()), directory, va, user, rw)
      ensures Valid() <==> !SharesWritable(old(View()), directory, va, user, rw)
    {
      hide Inv, LowOwned, SharesWritable, MapPage;
      WorldFits(View());
      AllocPageSecureIff(View(), directory, va, user, rw);
      if directory == 0 { return 0; }
      ghost var stamp := StampOf(View(), directory);
      var f := TakeFrame();
      if f == 0 { return 0; }
      roles := roles[f := UserPage(stamp, va / 0x1000)];
      MapPageInSpace(directory, va, f * 0x1000, user, rw);
      pa := f * 0x1000;
    }

    /** It keeps the invariant exactly when the frame is not still needed, by Isolation.FreePageSafeIff. */
    method FreePage(directory: nat, va: Word)
      requires Valid() && (directory == 0 || directory in spaces)
      modifies this`roles, pmm`used, pmm`usedBlocks, pmm.bitmap, mem
      ensures Ready() && directory < FRAMES && View() == AddressSpaces.FreePage(old(View()), directory, va)
      ensures Safe(View()) <==> !FreesInUse(old(View()), directory, va)
      ensures !FreesInUse(old(View()), directory, va) ==> Valid()
    {
      hide Inv, LowOwned, Safe, FreesInUse;
      WorldFits(View());
      FreePageSafeIff(View(), directory, va);
      if !FreesInUse(View(), directory, va) { FreePageKeeps(View(), directory, va); }
      if directory == 0 { return; }
      var pa := GetPhysicalAddress(directory, va);
      if pa != 0 {
        if pa % 0x1000 == 0 { ReleaseFrame(pa / 0x1000); }  // free_block ignores other addresses
        UnmapPage(directory, va);
      }
    }

    method DestroyAddressSpace(directory: nat)
      requires Ready() && Inv(View()) && (directory == 0 || directory in spaces)
      modifies this`roles, this`spaces, pmm`used, pmm`usedBlocks, pmm.bitmap
      ensures Ready() && Inv(View()) && directory < FRAMES && View() == Destroy(old(View()), directory)
      ensures old(Valid()) ==> Valid()
    {
      hide FreeTables, Inv, LowOwned;
      DestroyKeeps(View(), directory);
      if Valid() { DestroySecure(View(), directory); }
      if directory == 0 || directory == kernelDirectory { return; }
      spaces := spaces - {directory};
      FreeUserTables(directory);
      ReleaseFrame(directory);
    }

    /** The loop of destroy_address_space. */
    method FreeUserTables(directory: nat)
      requires Ready() && directory < FRAMES
      modifies this`roles, pmm`used, pmm`usedBlocks, pmm.bitmap
      ensures Ready() && View() == FreeTables(old(View()), directory, KERNEL_SPACE_ENTRIES)
    {
      hide And;
      ghost var start := View();
      var i := KERNEL_SPACE_ENTRIES;
      while i < ENTRIES
        invariant KERNEL_SPACE_ENTRIES <= i <= ENTRIES && Ready()
        invariant FreeTables(View(), directory, i) == FreeTables(start, directory, KERNEL_SPACE_ENTRIES)
      {
        if And(mem[directory][i], 0x1) != 0 {
          ReleaseFrame(FrameOf(mem[directory][i]));
        }
        i := i + 1;
      }
    }

    method CreateAddressSpace() returns (directory: nat)
      requires Valid()
      modifies this`roles, this`spaces, this`nextStamp, pmm`used, pmm`usedBlocks, pmm.bitmap, mem
      ensures Valid() && (View(), directory) == Create(old(View()))
      ensures if directory == 0 then GivenUp(old(View()), View()) else Created(old(View()), View(), directory)
    {
      hide CopyKernel, LowOwned, Pmm.Allocator.Valid;
      CreateKeeps(View());
      CreateSecure(View());
      if kernelDirectory == 0 { return 0; }
      StartBuilding(View());
      directory := TakeFrame();
      if directory == 0 { return 0; }
      OpenDirectory(directory);
      directory := CopyKernelTables(old(View()), directory, CopyKernel(View(), directory, 0));
    }

    method OpenDirectory(directory: nat)
      requires Ready() && directory < FRAMES
      modifies this`roles, this`spaces, this`nextStamp, mem
      ensures Ready() && View() == OpenSpace(old(View()), directory)
    {
      mem[directory] := Zeros();
      spaces, roles, nextStamp :=
        spaces[directory := Space(nextStamp, {nextStamp})], roles[directory := Directory], nextStamp + 1;
    }

    /** The loop of create_address_space; on failure it destroys what it built. */
    method CopyKernelTables(ghost base: World, directory: nat, ghost goal: (World, nat)) returns (r: nat)
      requires Ready() && KernelProgress(base, View(), directory, 0, goal)
      modifies this`roles, this`spaces, pmm`used, pmm`usedBlocks, pmm.bitmap, mem
      ensures Ready() && (View(), r) == goal
    {
      hide KernelProgress, KernelCopied, CopyKernel, Pmm.Allocator.Valid;
      var i := 0;
      while i < KERNEL_SPACE_ENTRIES
        invariant i <= KERNEL_SPACE_ENTRIES && Ready()
        invariant KernelProgress(base, View(), directory, i, goal)
      {
        var copied := CopyKernelTable(base, directory, i, goal);
        if !copied { return 0; }
        i := i + 1;
      }
      KernelDone(base, View(), directory, goal);
      r := directory;
    }

    /** One round of that loop. */
    method CopyKernelTable(ghost base: World, directory: nat, i: nat, ghost goal: (World, nat)) returns (copied: bool)
      requires Ready() && i < KERNEL_SPACE_ENTRIES && KernelProgress(base, View(), directory, i, goal)
      modifies this`roles, this`spaces, pmm`used, pmm`usedBlocks, pmm.bitmap, mem
      ensures Ready() && if copied then KernelProgress(base, View(), directory, i + 1, goal) else (View(), 0) == goal
    {
      hide And, Destroy, KernelCopied, CopyKernel;
      var kernelEntry := mem[kernelDirectory][i];
      if And(kernelEntry, 0x1) == 0 {
        KernelSkip(base, View(), directory, i, goal);
        return true;
      }
      KernelStep(base, View(), directory, i, goal);
      var newTable := TakeFrame();
      if newTable == 0 {
        DestroyAddressSpace(directory);
        return false;
      }
      PutTable(directory, i, newTable, mem[FrameOf(kernelEntry)], FlagsOf(kernelEntry));
      return true;
    }

    /** clone_address_space. */
    method CloneAddressSpace(srcDirectory: nat) returns (directory: nat)
      requires Valid() && (srcDirectory == 0 || srcDirectory in spaces)
      modifies this`roles, this`spaces, this`nextStamp, pmm`used, pmm`usedBlocks, pmm.bitmap, mem
      ensures Valid() && srcDirectory < FRAMES && (View(), directory) == Clone(old(View()), srcDirectory)
      ensures if directory == 0 then GivenUp(old(View()), View())
              else srcDirectory in old(spaces) && Cloned(old(View()), View(), srcDirectory, directory)
    {
      hide Inv, LowOwned, UserCopied, CopyUser, GivenUp, Create;
      CloneKeeps(View(), srcDirectory);
      CloneSecure(View(), srcDirectory);
      if srcDirectory == 0 || srcDirectory == kernelDirectory { return 0; }
      ghost var base := View();
      directory := CreateAddressSpace();
      if directory == 0 { return 0; }
      DescendKeeps(base, View(), srcDirectory, directory);
      spaces := spaces[directory := Space(spaces[directory].stamp, spaces[directory].line + spaces[srcDirectory].line)];
      directory := CopyUserTables(base, srcDirectory, directory,
        CopyUser(View(), srcDirectory, directory, KERNEL_SPACE_ENTRIES));
    }

    /** Its loop over the tables of the user half. */
    method CopyUserTables(ghost base: World, src: nat, directory: nat, ghost goal: (World, nat)) returns (r: nat)
      requires Ready() && UserProgress(base, View(), src, directory, KERNEL_SPACE_ENTRIES, goal)
      modifies this`roles, this`spaces, pmm`used, pmm`usedBlocks, pmm.bitmap, mem
      ensures Ready() && (View(), r) == goal
    {
      hide And, Destroy, UserCopied, CopyUser;
      SourceFrame(base, View(), src, directory, goal);
      var i := KERNEL_SPACE_ENTRIES;
      while i < ENTRIES
        invariant KERNEL_SPACE_ENTRIES <= i <= ENTRIES && Ready()
        invariant UserProgress(base, View(), src, directory, i, goal)
      {
        var srcEntry := mem[src][i];
        if And(srcEntry, 0x1) == 0 {
          UserSkip(base, View(), src, directory, i, goal);
        } else {
          UserStep(base, View(), src, directory, i, goal);
          var newTable := TakeFrame();
          if newTable == 0 {
            DestroyAddressSpace(directory);
            return 0;
          }
          CloneTable(src, directory, i, newTable);
        }
        i := i + 1;
      }
      UserDone(base, View(), src, directory, goal);
      r := directory;
    }

    method CloneTable(src: nat, directory: nat, i: nat, newTable: nat)
      requires Ready() && src < FRAMES && directory < FRAMES && i < ENTRIES && newTable < FRAMES
      requires TableAt(mem[..], src, i) != newTable && src != newTable
      modifies this`roles, mem
      ensures Ready() && View() == CopyUserTable(old(View()), src, directory, i, newTable)
    {
      var srcEntry := mem[src][i];
      FillCowTable(FrameOf(srcEntry), newTable);
      mem[directory] := mem[directory][i := Pack(newTable, FlagsOf(srcEntry))];
      roles := roles[newTable := Table(directory, i)];
    }

    /** Its loop over one table's entries. The new table is a frame of its own. */
    method FillCowTable(srcTable: nat, newTable: nat)
      requires Ready() && srcTable < FRAMES && newTable < FRAMES && srcTable != newTable
      modifies mem
      ensures Ready() && mem[..] == old(mem[..])[newTable := CowTable(old(mem[srcTable]))]
    {
      mem[newTable] := Zeros();
      var j := 0;
      while j < ENTRIES
        invariant j <= ENTRIES && Ready()
        invariant mem[..] == old(mem[..])[newTable := mem[newTable]]
        invariant forall k: nat :: k < j ==> mem[newTable][k] == CowEntry(old(mem[srcTable])[k])
        invariant forall k: nat :: j <= k < ENTRIES ==> mem[newTable][k] == 0
      {
        var e := mem[srcTable][j];
        if And(e, 0x1) != 0 {
          mem[newTable] := mem[newTable][j := Pack(FrameOf(e), CowFlags(e))];
        }
        j := j + 1;
      }
      assert mem[newTable] == CowTable(old(mem[srcTable]));
    }

    // ----- isr.cpp

    /** The page-fault handler's copy-on-write branch, with the running space's directory and the error code the
        processor gives, bit 0 for a present page and bit 1 for a write; false means the kernel goes on to panic. */
    method HandlePageFault(currentDir: nat, va: Word, errCode: Word) returns (handled: bool)
      requires Valid() && (currentDir == 0 || currentDir in spaces)
      modifies this`roles, pmm`used, pmm`usedBlocks, pmm.bitmap, mem
      ensures Valid() && currentDir < FRAMES
      ensures (View(), handled) == Fault(old(View()), currentDir, va, BitAt(errCode, 0), BitAt(errCode, 1))
    {
      hide Inv, LowOwned, SetPte, BrokenFlags, BitAt, Pmm.Allocator.Valid;
      WorldFits(View());
      ErrorBits(errCode);
      FaultSecure(View(), currentDir, va, BitAt(errCode, 0), BitAt(errCode, 1));
      var present, rw := And(errCode, 0x1) != 0, And(errCode, 0x2) != 0;
      handled := false;
      if present && rw {
        if currentDir != 0 && And(mem[currentDir][DirIndex(va)], 0x1) != 0 {
          var table := FrameOf(mem[currentDir][DirIndex(va)]);
          var e := mem[table][TableIndex(va)];
          if And(e, 0x1) != 0 && And(e, COW) != 0 {
            ghost var stamp := StampOf(View(), currentDir);
            ghost var before := View();
            TakeKeeps(before);
            var newPage := TakeFrame();
            if newPage != 0 {
              mem[newPage] := mem[FrameOf(e)];
              roles := roles[newPage := UserPage(stamp, va / 0x1000)];
              assert View() == Copied(Take(before), currentDir, va, newPage);
              PutEntry(currentDir, va, Pack(newPage, BrokenFlags(e)));
              handled := true;
            }
          }
        }
      }
    }

    // ----- paging.cpp

    /** Paging::initialize followed by VMM::initialize. It ends in a safe state, with the first 64 MB and nothing else
        mapped to themselves, exactly when there are sixteen frames to hand out, and keeps the invariant exactly when
        there are seventeen: with sixteen the null frame serves as a table. The kernel can write all it has mapped. */
    method InitializePaging()
      requires Valid() && spaces == map[]
      modifies this, pmm`used, pmm`usedBlocks, pmm.bitmap, mem
      ensures Ready() && View() == Boot(old(View())) && kernelDirectory < FRAMES
      ensures Safe(View()) <==> old(Available(View())) >= 16
      ensures IdentityMapped(View()) <==> old(Available(View())) >= 16
      ensures old(Available(View())) >= 16 ==> KernelWritable(View())
      ensures Valid() <==> old(Available(View())) >= 17
      ensures Valid() ==> Booting(View(), IDENTITY_TABLES)
    {
      hide Inv, LowOwned, Safe, IdentityMapped, KernelWritable, Available, IdentityBelow;
      BootSafeIff(View());
      BootKeepsIff(View());
      var directory := TakeFrame();
      OpenDirectory(directory);
      kernelDirectory := directory;
      InstallIdentityTables();
    }

    /** Its loop over the sixteen tables. */
    method InstallIdentityTables()
      requires Ready() && kernelDirectory < FRAMES
      modifies this`roles, pmm`used, pmm`usedBlocks, pmm.bitmap, mem
      ensures Ready() && View() == AddIdentityTables(old(View()), 0)
    {
      hide WithIdentityTable;
      ghost var start := View();
      var j := 0;
      while j < IDENTITY_TABLES
        invariant j <= IDENTITY_TABLES && Ready()
        invariant AddIdentityTables(View(), j) == AddIdentityTables(start, 0)
      {
        AddIdentityTable(j);
        j := j + 1;
      }
    }

    method AddIdentityTable(j: nat)
      requires Ready() && kernelDirectory < FRAMES && j < IDENTITY_TABLES
      modifies this`roles, pmm`used, pmm`usedBlocks, pmm.bitmap, mem
      ensures Ready() && View() == WithIdentityTable(old(View()), j)
    {
      var table := TakeFrame();
      var pageTable := FillIdentity(j);
      PutTable(kernelDirectory, j, table, pageTable, 3);
    }

    /** Its inner loop over one table's entries. */
    method FillIdentity(j: nat) returns (table: Frame)
      requires j < IDENTITY_TABLES
      ensures table == IdentityTable(j)
    {
      table := Zeros();
      var i := 0;
      while i < ENTRIES
        invariant i <= ENTRIES
        invariant forall k: nat :: k < i ==> table[k] == IdentityEntry(j, k)
      {
        table := table[i := Pack(j * ENTRIES + i, 3)];
        i := i + 1;
      }
      assert table == IdentityTable(j);
    }

    /** Paging::map_page, which checks neither alignment nor allocation. */
    method PagingMapPage(va: Word, pa: Word, user: bool, rw: bool)
      requires Ready() && kernelDirectory < FRAMES
      modifies this`roles, pmm`used, pmm`usedBlocks, pmm.bitmap, mem
      ensures Ready() && View() == PagingMap(old(View()), va, pa, user, rw)
    {
      var i := DirIndex(va);
      if And(mem[kernelDirectory][i], 0x1) == 0 {
        var table := TakeFrame();
        PutTable(kernelDirectory, i, table, Zeros(), if user then 7 else 3);
      }
      PutEntry(kernelDirectory, va, Pack(PageBase(pa) / 0x1000, MapFlags(user, rw)));
    }
  }

  /** The bits of a page fault's error code that are looked at: the page was present, and the access a write. */
  lemma ErrorBits(e: Word)
    ensures BitAt(e, 0) == (And(e, 0x1) != 0) && BitAt(e, 1) == (And(e, 0x2) != 0)
  {
    FlagPlaces(e);
  }

  /** Halfway through create_address_space's loop. */
  ghost predicate KernelProgress(base: World, w: World, d: nat, i: nat, goal: (World, nat)) {
    Building(base, w, d) && KernelCopied(w, d, i) && w.max < FRAMES && CopyKernel(w, d, i) == goal
  }

  lemma KernelDone(base: World, w: World, d: nat, goal: (World, nat))
    requires KernelProgress(base, w, d, KERNEL_SPACE_ENTRIES, goal)
    ensures goal == (w, d)
  {}

  lemma KernelSkip(base: World, w: World, d: nat, i: nat, goal: (World, nat))
    requires KernelProgress(base, w, d, i, goal) && i < KERNEL_SPACE_ENTRIES && !HasTable(w.mem, w.kernelDir, i)
    ensures KernelProgress(base, w, d, i + 1, goal)
  {}

  lemma KernelStep(base: World, w: World, d: nat, i: nat, goal: (World, nat))
    requires KernelProgress(base, w, d, i, goal) && i < KERNEL_SPACE_ENTRIES && HasTable(w.mem, w.kernelDir, i)
    ensures var t := AddressSpaces.Pick(w);
            if t == 0 then Inv(Take(w)) && goal == (Destroy(Take(w), d), 0)
            else t < FRAMES && KernelProgress(base, CopyKernelTable(Take(w), d, i, t), d, i + 1, goal)
  {
    TakeBuilding(base, w, d);
    if AddressSpaces.Pick(w) != 0 { CopyOneKernelTable(base, w, d, i); }
  }

  /** Halfway through clone_address_space's loop. */
  ghost predicate UserProgress(base: World, w: World, src: nat, d: nat, i: nat, goal: (World, nat)) {
    Building(base, w, d) && UserCopied(base, w, src, d, i) && w.max < FRAMES && CopyUser(w, src, d, i) == goal
  }

  lemma SourceFrame(base: World, w: World, src: nat, d: nat, goal: (World, nat))
    requires UserProgress(base, w, src, d, KERNEL_SPACE_ENTRIES, goal)
    ensures src < FRAMES
  {}

  lemma UserDone(base: World, w: World, src: nat, d: nat, goal: (World, nat))
    requires UserProgress(base, w, src, d, ENTRIES, goal)
    ensures goal == (w, d)
  {}

  lemma UserSkip(base: World, w: World, src: nat, d: nat, i: nat, goal: (World, nat))
    requires UserProgress(base, w, src, d, i, goal) && i < ENTRIES && !HasTable(w.mem, src, i)
    ensures UserProgress(base, w, src, d, i + 1, goal)
  {}

  lemma UserStep(base: World, w: World, src: nat, d: nat, i: nat, goal: (World, nat))
    requires UserProgress(base, w, src, d, i, goal) && i < ENTRIES && HasTable(w.mem, src, i)
    ensures var t := AddressSpaces.Pick(w);
            if t == 0 then Inv(Take(w)) && goal == (Destroy(Take(w), d), 0)
            else
              && t < FRAMES && t != TableAt(w.mem, src, i) && t != src
              && UserProgress(base, CopyUserTable(Take(w), src, d, i, t), src, d, i + 1, goal)
  {
    TakeBuilding(base, w, d);
    TakeKeeps(w);
    TableOwned(w, src, i);
    DirectoryRole(w, src);
    if AddressSpaces.Pick(w) != 0 { CopyOneUserTable(base, w, src, d, i); }
  }

  lemma StartBuilding(w: World)
    requires Inv(w) && w.kernelDir != 0
    ensures var d := AddressSpaces.Pick(w);
            d != 0 ==> d < FRAMES && Building(w, OpenSpace(Take(w), d), d) && KernelCopied(OpenSpace(Take(w), d), d, 0)
  {
    TakeKeeps(w);
    var d := AddressSpaces.Pick(w);
    if d != 0 {
      OpenKeeps(Take(w), d);
      KernelDirRole(w);
      assert OpenSpace(Take(w), d).spaces - {d} == w.spaces;
    }
  }
}
