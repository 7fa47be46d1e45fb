/** A directory as a finite map from pages to entries, and what each operation does to the maps of all spaces. */
module Translation {
  import opened Words
  import opened PageEntry
  import opened AddressSpaces
  import opened Invariant
  import opened Operations
  import opened Isolation

  /** The entries of the pages a directory maps, by page number. */
  ghost function Pages(mem: Memory, d: nat): map<nat, Word>
    requires d < FRAMES
  {
    map p: nat | p < FRAMES && Mapped(mem, d, p / ENTRIES, p % ENTRIES) :: Pte(mem, d, p / ENTRIES, p % ENTRIES)
  }

  lemma PageSplit(i: nat, j: nat)
    requires j < ENTRIES
    ensures PageOf(i, j) / ENTRIES == i && PageOf(i, j) % ENTRIES == j
  {}

  /** get_physical_address is the map applied to the page, plus the offset; 0 when unmapped. */
  lemma PhysicalIsLookup(mem: Memory, d: nat, va: Word)
    requires d < FRAMES && d != 0
    ensures Physical(mem, d, va) ==
              if va / 0x1000 in Pages(mem, d) then FrameOf(Pages(mem, d)[va / 0x1000]) * 0x1000 + va % 0x1000 else 0
  {
    PageOfAddress(va);
    PageSplit(DirIndex(va), TableIndex(va));
    PageMask(va);
  }

  lemma SameTablesSameMap(mem: Memory, mem': Memory, d: nat)
    requires d < FRAMES && SameTables(mem, mem', d)
    ensures Pages(mem', d) == Pages(mem, d)
  {}

  lemma OneEntryOneUpdate(mem: Memory, mem': Memory, d: nat, i: nat, j: nat, e: Word)
    requires d < FRAMES && i < ENTRIES && j < ENTRIES && OneEntrySet(mem, mem', d, i, j, e) && Present(e)
    ensures Pages(mem', d) == Pages(mem, d)[PageOf(i, j) := e]
  {}

  lemma OneEntryOneRemoval(mem: Memory, mem': Memory, d: nat, i: nat, j: nat)
    requires d < FRAMES && i < ENTRIES && j < ENTRIES && HasTable(mem, d, i) && PteChanged(mem, mem', d, i, j, 0)
    ensures Pages(mem', d) == Pages(mem, d) - {PageOf(i, j)}
  {}

  /** map_page_in_space updates the map at exactly one page, also when it has to create the
      table on the way; it does nothing exactly when an address is unaligned or the table is
      missing and no frame is free. No other space's map changes. */
  lemma MapPageUpdates(w: World, d: nat, va: Word, pa: Word, user: bool, rw: bool)
    requires Inv(w) && Live(w, d)
    ensures var w' := MapPage(w, d, va, pa, user, rw);
            && OthersSame(w, w', d) && w'.spaces == w.spaces && w.used <= w'.used
            && if va % 0x1000 != 0 || pa % 0x1000 != 0 || (!HasTable(w.mem, d, DirIndex(va)) && Pick(w) == 0)
               then w' == w
               else
                 && Pages(w'.mem, d) == Pages(w.mem, d)[va / 0x1000 := Pack(pa / 0x1000, MapFlags(user, rw))]
                 && |w'.used| == |w.used| + (if HasTable(w.mem, d, DirIndex(va)) then 0 else 1)
  {
    var w' := MapPage(w, d, va, pa, user, rw);
    MapPageEffect(w, d, va, pa, user, rw);
    forall e | e in w.spaces && e != d ensures e < FRAMES && Pages(w'.mem, e) == Pages(w.mem, e) {
      DirectoryRole(w, e);
      assert SpaceOk(w, e);
      if w' != w { SameTablesSameMap(w.mem, w'.mem, e); }
    }
    if w' != w || HasTable(w.mem, d, DirIndex(va)) || Pick(w) != 0 {
      PackFields(pa / 0x1000, MapFlags(user, rw));
      PageOfAddress(va);
      if Aligned(va) && Aligned(pa) {
        OneEntryOneUpdate(w.mem, w'.mem, d, DirIndex(va), TableIndex(va), Pack(pa / 0x1000, MapFlags(user, rw)));
      }
    }
  }

  /** unmap_page removes exactly one page of one space; nothing when the address is unaligned. */
  lemma UnmapRemoves(w: World, d: nat, va: Word)
    requires Inv(w) && Live(w, d)
    ensures var w' := Unmap(w, d, va);
            && (forall e :: e in w.spaces && e != d ==> e < FRAMES && Pages(w'.mem, e) == Pages(w.mem, e))
            && Pages(w'.mem, d) == Pages(w.mem, d) - (if va % 0x1000 == 0 then {va / 0x1000} else {})
            && w'.used == w.used
  {
    DirectoryRole(w, d);
    var w' := Unmap(w, d, va);
    PageOfAddress(va);
    PageSplit(DirIndex(va), TableIndex(va));
    if Aligned(va) && HasTable(w.mem, d, DirIndex(va)) {
      SetPteEffect(w, d, va, 0);
      OneEntryOneRemoval(w.mem, w'.mem, d, DirIndex(va), TableIndex(va));
    } else {
      assert w' == w;
    }
    forall e | e in w.spaces && e != d ensures e < FRAMES && Pages(w'.mem, e) == Pages(w.mem, e) {
      assert SpaceOk(w, e);
      if w' != w { SameTablesSameMap(w.mem, w'.mem, e); }
    }
  }

  // ----- paging.cpp

  /** Paging::map_page does what map_page_in_space does on the page bases exactly when a table
      is there or can be allocated; otherwise it installs frame 0 as a table. */
  lemma PagingMapAgrees(w: World, va: Word, pa: Word, user: bool, rw: bool)
    requires Inv(w) && w.kernelDir != 0
    ensures (PagingMap(w, va, pa, user, rw) == MapPage(w, w.kernelDir, PageBase(va), PageBase(pa), user, rw))
              <==> (HasTable(w.mem, w.kernelDir, DirIndex(va)) || Pick(w) != 0)
  {
    MapPageOnBase(w, w.kernelDir, va, pa, user, rw);
    DirectoryRole(w, w.kernelDir);
    TakeKeeps(w);
    if HasTable(w.mem, w.kernelDir, DirIndex(va)) {
    } else if Pick(w) != 0 {
      ModeFlags(user);
      EnsureTableKeeps(w, w.kernelDir, DirIndex(va), if user then 7 else 3);
    } else {
      PagingMapFailure(w, va, pa, user, rw);
    }
  }

  lemma MapPageOnBase(w: World, d: nat, va: Word, pa: Word, user: bool, rw: bool)
    requires d != 0 && d < FRAMES && w.max <= FRAMES
    ensures MapPage(w, d, PageBase(va), PageBase(pa), user, rw) ==
              var w1 := EnsureTable(w, d, DirIndex(va), if user then 7 else 3);
              if HasTable(w1.mem, d, DirIndex(va))
              then SetPte(w1, d, va, Pack(PageBase(pa) / 0x1000, MapFlags(user, rw)))
              else w1
  {
    BaseIndices(va, PageBase(va));
    BaseIndices(pa, PageBase(pa));
    MapPageAligned(w, d, PageBase(va), PageBase(pa), user, rw);
    SetPteSameIndices(EnsureTable(w, d, DirIndex(va), if user then 7 else 3), d, va, PageBase(va),
                      Pack(PageBase(pa) / 0x1000, MapFlags(user, rw)));
  }

  lemma BaseIndices(va: Word, base: Word)
    requires base == va / 0x1000 * 0x1000
    ensures Aligned(base) && DirIndex(base) == DirIndex(va) && TableIndex(base) == TableIndex(va)
  {
    hide Aligned, TableIndex;
    assert base / 0x1000 == va / 0x1000 && base % 0x1000 == 0;
    assert va / 0x40_0000 == va / 0x1000 / 0x400 && base / 0x40_0000 == base / 0x1000 / 0x400;
  }

  lemma MapPageAligned(w: World, d: nat, va: Word, pa: Word, user: bool, rw: bool)
    requires d != 0 && d < FRAMES && w.max <= FRAMES && Aligned(va) && Aligned(pa)
    ensures MapPage(w, d, va, pa, user, rw) ==
              var w1 := EnsureTable(w, d, DirIndex(va), if user then 7 else 3);
              if HasTable(w1.mem, d, DirIndex(va)) then SetPte(w1, d, va, Pack(pa / 0x1000, MapFlags(user, rw))) else w1
  {}

  lemma SetPteSameIndices(w: World, d: nat, va: Word, base: Word, e: Word)
    requires d < FRAMES && DirIndex(va) == DirIndex(base) && TableIndex(va) == TableIndex(base)
    ensures SetPte(w, d, va, e) == SetPte(w, d, base, e)
  {}

  lemma PagingMapFailure(w: World, va: Word, pa: Word, user: bool, rw: bool)
    requires Inv(w) && w.kernelDir != 0 && !HasTable(w.mem, w.kernelDir, DirIndex(va)) && Pick(w) == 0
    ensures HasTable(PagingMap(w, va, pa, user, rw).mem, w.kernelDir, DirIndex(va))
  {
    var d, i, flags := w.kernelDir, DirIndex(va), if user then 7 else 3;
    DirectoryRole(w, d);
    TakeKeeps(w);
    ModeFlags(user);
    PackFields(0, flags);
    var w1 := InstallTable(Take(w), d, i, 0, Zeros(), flags);
    assert w1.mem[d][i] == Pack(0, flags);
    assert TableAt(w1.mem, d, i) == 0;
    assert PagingMap(w, va, pa, user, rw).mem[d] == w1.mem[d];
  }

  // ----- allocate_page and free_page

  /** allocate_page keeps the frame it took even when it could not map it. */
  ghost predicate Leaks(w: World, d: nat, va: Word)
    requires d < FRAMES
  {
    Pick(w) != 0 && (!Aligned(va) || (!HasTable(w.mem, d, DirIndex(va)) && Pick(Take(w)) == 0))
  }

  /** The outcome of allocate_page once its frame is taken. */
  ghost predicate Allocated(w: World, w': World, d: nat, va: Word, e: Word)
    requires d < FRAMES
  {
    && w'.spaces == w.spaces && w.used + {Pick(w)} <= w'.used
    && OthersSame(w, w', d)
    && if Leaks(w, d, va) then w'.mem == w.mem && w'.used == w.used + {Pick(w)}
       else
         && Pages(w'.mem, d) == Pages(w.mem, d)[va / 0x1000 := e]
         && |w'.used| == |w.used| + 1 + (if HasTable(w.mem, d, DirIndex(va)) then 0 else 1)
  }

  ghost predicate OthersSame(w: World, w': World, d: nat) {
    forall e :: e in w.spaces && e != d ==> e < FRAMES && Pages(w'.mem, e) == Pages(w.mem, e)
  }

  /** allocate_page returns null and changes nothing exactly when no frame is free. */
  lemma AllocPageUpdates(w: World, d: nat, va: Word, user: bool, rw: bool)
    requires Inv(w) && Live(w, d)
    ensures Inv(AllocPage(w, d, va, user, rw).0) && AllocPage(w, d, va, user, rw).1 == Pick(w) * 0x1000
    ensures Pick(w) == 0 ==> AllocPage(w, d, va, user, rw).0 == w
    ensures Pick(w) != 0 ==> Allocated(w, AllocPage(w, d, va, user, rw).0, d, va, Pack(Pick(w), MapFlags(user, rw)))
  {
    TakeKeeps(w);
    AllocPageKeeps(w, d, va, user, rw);
    DirectoryRole(w, d);
    if Pick(w) != 0 {
      var w1 := Mark(Take(w), Pick(w), UserPage(StampOf(w, d), va / 0x1000));
      MarkKeeps(Take(w), Pick(w), UserPage(StampOf(w, d), va / 0x1000));
      MapTaken(w, w1, d, va, Pick(w), user, rw);
    }
  }

  lemma MapTaken(w: World, w1: World, d: nat, va: Word, f: nat, user: bool, rw: bool)
    requires Inv(w1) && Live(w1, d) && f == Pick(w) != 0 && f < FRAMES && f !in w.used
    requires w1.spaces == w.spaces && w1.mem == w.mem && w1.used == w.used + {f} && Pick(w1) == Pick(Take(w))
    ensures Allocated(w, MapPage(w1, d, va, f * 0x1000, user, rw), d, va, Pack(f, MapFlags(user, rw)))
  {
    FrameAddress(f);
    MapPageUpdates(w1, d, va, f * 0x1000, user, rw);
  }

  lemma FrameAddress(f: nat)
    ensures f * 0x1000 % 0x1000 == 0 && f * 0x1000 / 0x1000 == f
  {}

  /** allocate_page and then free_page on an aligned, unmapped page of either half gives back every
      translation and every frame except a table that had to be created. */
  lemma AllocThenFree(w: World, d: nat, va: Word, user: bool, rw: bool)
    requires Inv(w) && Live(w, d) && Aligned(va)
    requires !Mapped(w.mem, d, DirIndex(va), TableIndex(va)) && Pick(w) != 0 && !Leaks(w, d, va)
    ensures var w2 := FreePage(AllocPage(w, d, va, user, rw).0, d, va);
            && Pages(w2.mem, d) == Pages(w.mem, d) && OthersSame(w, w2, d)
            && w.used <= w2.used
            && |w2.used| == |w.used| + (if HasTable(w.mem, d, DirIndex(va)) then 0 else 1)
  {
    hide Inv, AllocPage, AddressSpaces.FreePage, Pages, Pick;
    WorldFits(w);
    AllocPageUpdates(w, d, va, user, rw);
    TakeKeeps(w);
    PageMappedIff(w, d, va);
    FreeMapped(w, AllocPage(w, d, va, user, rw).0, d, va, Pick(w), MapFlags(user, rw));
  }

  lemma PageMappedIff(w: World, d: nat, va: Word)
    requires Live(w, d)
    ensures Mapped(w.mem, d, DirIndex(va), TableIndex(va)) <==> va / 0x1000 in Pages(w.mem, d)
    ensures Mapped(w.mem, d, DirIndex(va), TableIndex(va)) ==>
              Pte(w.mem, d, DirIndex(va), TableIndex(va)) == Pages(w.mem, d)[va / 0x1000]
  {
    PageOfAddress(va);
    PageSplit(DirIndex(va), TableIndex(va));
  }

  lemma FreeMapped(w: World, r: World, d: nat, va: Word, f: nat, flags: Word)
    requires Inv(r) && Live(r, d) && Aligned(va)
    requires 0 < f < FRAMES && flags < 0x1000 && Present(flags) && f !in w.used && f in r.used
    requires r.spaces == w.spaces && w.used <= r.used && OthersSame(w, r, d) && va / 0x1000 !in Pages(w.mem, d)
    requires Pages(r.mem, d) == Pages(w.mem, d)[va / 0x1000 := Pack(f, flags)]
    ensures var w2 := FreePage(r, d, va);
            && Pages(w2.mem, d) == Pages(w.mem, d) && OthersSame(w, w2, d)
            && w.used <= w2.used && |w2.used| == |r.used| - 1
  {
    hide Inv, Pages, AddressSpaces.FreePage;
    PackFields(f, flags);
    PageMappedIff(r, d, va);
    FreePageFrees(r, d, va);
    UnmapRemoves(r, d, va);
    UnmapIsSetPte(r, d, va);
    assert va % 0x1000 == 0;
  }

  lemma UnmapIsSetPte(w: World, d: nat, va: Word)
    requires Inv(w) && Live(w, d) && Aligned(va) && HasTable(w.mem, d, DirIndex(va))
    ensures Unmap(w, d, va) == SetPte(w, d, va, 0)
  {
    DirectoryRole(w, d);
  }

  // ----- the copy-on-write fault

  /** For every address a fault is handled exactly on a write to a present, mapped copy-on-write page with a
      frame free. Then the directory's map changes at that page alone and no other space's map changes at all,
      in either half; otherwise nothing changes. */
  lemma FaultUpdates(w: World, d: nat, va: Word, present: bool, write: bool)
    requires Inv(w) && Live(w, d)
    ensures var r, p := Fault(w, d, va, present, write), va / 0x1000;
            && r.1 == (present && write && p in Pages(w.mem, d) && Cow(Pages(w.mem, d)[p]) && Pick(w) != 0)
            && OthersSame(w, r.0, d) && r.0.spaces == w.spaces
            && if !r.1 then r.0 == w else
                 && Pick(w) < FRAMES && r.0.used == w.used + {Pick(w)}
                 && Pages(r.0.mem, d) == Pages(w.mem, d)[p := Pack(Pick(w), BrokenFlags(Pages(w.mem, d)[p]))]
                 && r.0.mem[Pick(w)] == w.mem[FrameOf(Pages(w.mem, d)[p])]
  {
    hide Inv, Pages;
    PageMappedIff(w, d, va);
    DirectoryRole(w, d);
    TakeKeeps(w);
    WorldFits(w);
    if Fault(w, d, va, present, write).1 { BrokenUpdates(w, d, va); }
  }

  lemma BrokenUpdates(w: World, d: nat, va: Word)
    requires Inv(w) && Live(w, d) && Mapped(w.mem, d, DirIndex(va), TableIndex(va)) && Pick(w) != 0
    ensures Pick(w) < FRAMES
    ensures var e, w' := Pte(w.mem, d, DirIndex(va), TableIndex(va)), BreakSharing(Take(w), d, va, Pick(w));
            && OthersSame(w, w', d) && w'.spaces == w.spaces && w'.used == w.used + {Pick(w)}
            && Pages(w'.mem, d) == Pages(w.mem, d)[va / 0x1000 := Pack(Pick(w), BrokenFlags(e))]
            && w'.mem[Pick(w)] == w.mem[FrameOf(e)]
  {
    hide Pages;
    var f := Pick(w);
    BrokenTables(w, d, va);
    var w1, w' := Copied(Take(w), d, va, f), BreakSharing(Take(w), d, va, f);
    var e := Pte(w.mem, d, DirIndex(va), TableIndex(va));
    PackFields(f, BrokenFlags(e));
    WorldFits(w);
    forall s | s in w.spaces ensures s < FRAMES && Pages(w1.mem, s) == Pages(w.mem, s) {
      SameTablesSameMap(w.mem, w1.mem, s);
    }
    forall s | s in w.spaces && s != d ensures s < FRAMES && Pages(w'.mem, s) == Pages(w.mem, s) {
      SameTablesSameMap(w1.mem, w'.mem, s);
    }
    ChangedOneUpdate(w1.mem, w'.mem, d, DirIndex(va), TableIndex(va), Pack(f, BrokenFlags(e)));
    PageOfAddress(va);
  }

  /** An entry overwritten by a present one is one update of the map. */
  lemma ChangedOneUpdate(mem: Memory, mem': Memory, d: nat, i: nat, j: nat, e: Word)
    requires d < FRAMES && i < ENTRIES && j < ENTRIES && HasTable(mem, d, i) && PteChanged(mem, mem', d, i, j, e)
    requires Present(e)
    ensures Pages(mem', d) == Pages(mem, d)[PageOf(i, j) := e]
  {
    PageSplit(i, j);
    forall p: nat | p < FRAMES && HasTable(mem, d, p / ENTRIES)
      ensures p == PageOf(i, j) ==> Pte(mem', d, p / ENTRIES, p % ENTRIES) == e
      ensures p != PageOf(i, j) ==> Pte(mem', d, p / ENTRIES, p % ENTRIES) == Pte(mem, d, p / ENTRIES, p % ENTRIES)
    {}
  }
}
