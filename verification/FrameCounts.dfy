/** Frame accounting: when create and clone succeed, and what every outcome costs. */
module FrameCounts {
  import opened Words
  import opened PageEntry
  import opened AddressSpaces
  import opened Invariant
  import opened Operations
  import Pmm

  /** How many blocks of lo..hi are not in use. */
  ghost function FreeCount(used: set<nat>, lo: nat, hi: nat): nat
    requires lo <= hi
    decreases hi - lo
  {
    if lo == hi then 0 else (if lo in used then 0 else 1) + FreeCount(used, lo + 1, hi)
  }

  /** How many blocks the allocator can still hand out: those free in whole buckets. */
  ghost function Available(w: World): nat {
    FreeCount(w.used, 0, w.max / 32 * 32)
  }

  ghost function FreeBlocks(used: set<nat>, lo: nat, hi: nat): set<nat> {
    set b: nat | lo <= b < hi && b !in used
  }

  lemma {:induction false} CountsBlocks(used: set<nat>, lo: nat, hi: nat)
    requires lo <= hi
    ensures FreeCount(used, lo, hi) == |FreeBlocks(used, lo, hi)|
    decreases hi - lo
  {
    if lo < hi {
      CountsBlocks(used, lo + 1, hi);
      assert FreeBlocks(used, lo, hi) == (if lo in used then {} else {lo}) + FreeBlocks(used, lo + 1, hi);
    } else {
      assert FreeBlocks(used, lo, hi) == {};
    }
  }

  lemma AvailableCounts(w: World)
    ensures Available(w) == |set b: nat | b < w.max && b / 32 < w.max / 32 && b !in w.used|
  {
    CountsBlocks(w.used, 0, w.max / 32 * 32);
    assert FreeBlocks(w.used, 0, w.max / 32 * 32) ==
      set b: nat | b < w.max && b / 32 < w.max / 32 && b !in w.used;
  }

  lemma {:induction false} FreeCountTake(used: set<nat>, lo: nat, hi: nat, b: nat)
    requires lo <= hi && b !in used
    ensures FreeCount(used, lo, hi) == FreeCount(used + {b}, lo, hi) + (if lo <= b < hi then 1 else 0)
    decreases hi - lo
  {
    if lo < hi { FreeCountTake(used, lo + 1, hi, b); }
  }

  lemma {:induction false} FreeCountZero(used: set<nat>, lo: nat, hi: nat)
    requires lo <= hi && forall b :: lo <= b < hi ==> b in used
    ensures FreeCount(used, lo, hi) == 0
    decreases hi - lo
  {
    if lo < hi { FreeCountZero(used, lo + 1, hi); }
  }

  /** Taking a frame leaves one fewer; none can be taken exactly when none is left. */
  lemma TakeCounts(w: World)
    requires 0 in w.used
    ensures Available(w) == 0 <==> Pick(w) == 0
    ensures Pick(w) != 0 ==> Available(Take(w)) == Available(w) - 1
  {
    Pmm.PickLeastFree(w.used, w.max);
    if Pick(w) == 0 {
      FreeCountZero(w.used, 0, w.max / 32 * 32);
    } else {
      PickScanned(w);
      FreeCountTake(w.used, 0, w.max / 32 * 32, Pick(w));
    }
  }

  lemma TakeOneAvailable(w: World)
    requires Inv(w)
    ensures Available(w) > 0 ==> Pick(w) != 0 && Available(Take(w)) == Available(w) - 1
  {
    TakeCounts(w);
  }

  lemma PickScanned(w: World)
    ensures Pick(w) != 0 ==> Pick(w) < w.max / 32 * 32
  {}

  lemma NoneAvailable(w: World)
    requires Inv(w)
    ensures Available(w) == 0 <==> Pick(w) == 0
  {
    TakeCounts(w);
  }

  /** How many frames a failed create keeps: all it took but the directory. */
  function AllButOne(n: nat): nat {
    if n == 0 then 0 else n - 1
  }

  // ----- create_address_space

  lemma {:induction false} CopyKernelCounts(base: World, w: World, d: nat, i: nat)
    requires Building(base, w, d) && KernelCopied(w, d, i)
    ensures var r := CopyKernel(w, d, i);
            && (r.1 != 0 <==> Available(w) >= TableCount(w.mem, w.kernelDir, i, KERNEL_SPACE_ENTRIES))
            && (r.1 == 0 ==> |r.0.used| == |w.used| + Available(w) - 1)
            && (r.1 != 0 ==> Available(r.0) == Available(w) - TableCount(w.mem, w.kernelDir, i, KERNEL_SPACE_ENTRIES))
    decreases KERNEL_SPACE_ENTRIES - i
  {
    hide Building, KernelCopied, Available;
    CopyKernelFacts(base, w, d, i);
    var k := w.kernelDir;
    if i == KERNEL_SPACE_ENTRIES {
    } else if !HasTable(w.mem, k, i) {
      SkipKernelTable(base, w, d, i);
      CopyKernelCounts(base, w, d, i + 1);
    } else if Pick(w) == 0 {
      NoneAvailable(w);
      AbandonedKernel(base, w, d, i);
    } else {
      NoneAvailable(w);
      TakeOneAvailable(w);
      CopyOneKernelTable(base, w, d, i);
      var w2 := CopyKernelTable(Take(w), d, i, Pick(w));
      SameAvailable(w, d, i);
      TableCountSame(w.mem, w2.mem, k, i + 1, KERNEL_SPACE_ENTRIES);
      CopyKernelCounts(base, w2, d, i + 1);
    }
  }

  lemma CopyKernelFacts(base: World, w: World, d: nat, i: nat)
    requires Building(base, w, d) && KernelCopied(w, d, i)
    ensures Inv(w) && i <= KERNEL_SPACE_ENTRIES && d != 0 && d < FRAMES && w.kernelDir < FRAMES && w.max <= FRAMES
  {}

  lemma SkipKernelTable(base: World, w: World, d: nat, i: nat)
    requires Building(base, w, d) && KernelCopied(w, d, i) && i < KERNEL_SPACE_ENTRIES
    requires !HasTable(w.mem, w.kernelDir, i)
    ensures KernelCopied(w, d, i + 1)
  {
    assert KernelSlot(w.mem, w.kernelDir, d, i);
  }

  lemma SameAvailable(w: World, d: nat, i: nat)
    requires w.kernelDir < FRAMES && d < FRAMES && i < ENTRIES && Pick(w) < FRAMES
    ensures Available(CopyKernelTable(Take(w), d, i, Pick(w))) == Available(Take(w))
    ensures CopyKernelTable(Take(w), d, i, Pick(w)).kernelDir == w.kernelDir
  {}

  /** The cleanup of a failed create returns the directory only. */
  lemma AbandonedKernel(base: World, w: World, d: nat, i: nat)
    requires Building(base, w, d) && KernelCopied(w, d, i) && Pick(w) == 0
    ensures |Destroy(Take(w), d).used| == |w.used| - 1
  {
    TakeKeeps(w);
    DestroyKeeps(w, d);
    TableCountNone(w.mem, d, KERNEL_SPACE_ENTRIES, ENTRIES);
  }

  lemma {:induction false} TableCountNone(mem: Memory, d: nat, lo: nat, hi: nat)
    requires d < FRAMES && lo <= hi <= ENTRIES && NoTables(mem, d, lo, hi)
    ensures TableCount(mem, d, lo, hi) == 0
    decreases hi - lo
  {
    if lo < hi { TableCountNone(mem, d, lo + 1, hi); }
  }

  /** create_address_space succeeds exactly when more frames are free than the kernel has tables below 3 GB;
      when it fails it has lost all frames that were free but one. */
  lemma CreateCounts(w: World)
    requires Inv(w) && w.kernelDir != 0
    ensures w.kernelDir < FRAMES && w.max <= FRAMES
    ensures var r, tables := Create(w), TableCount(w.mem, w.kernelDir, 0, KERNEL_SPACE_ENTRIES);
            && (r.1 != 0 <==> Available(w) > tables)
            && (r.1 == 0 ==> |r.0.used| == |w.used| + AllButOne(Available(w)))
            && (r.1 != 0 ==> |r.0.used| == |w.used| + 1 + tables && Available(r.0) == Available(w) - 1 - tables)
  {
    hide Available;
    NoneAvailable(w);
    CreateKeeps(w);
    var d := Pick(w);
    if d != 0 {
      TakeOneAvailable(w);
      Opened(w);
      CopyKernelCounts(w, OpenSpace(Take(w), d), d, 0);
    } else {
      TakeKeeps(w);
    }
  }

  lemma Opened(w: World)
    requires Inv(w) && w.kernelDir != 0 && Pick(w) != 0
    ensures Pick(w) < FRAMES && w.kernelDir < FRAMES
    ensures var d, w1 := Pick(w), OpenSpace(Take(w), Pick(w));
            && Building(w, w1, d) && KernelCopied(w1, d, 0) && w1.kernelDir == w.kernelDir
            && Available(w1) == Available(Take(w)) && |w1.used| == |w.used| + 1
            && TableCount(w1.mem, w.kernelDir, 0, KERNEL_SPACE_ENTRIES)
              == TableCount(w.mem, w.kernelDir, 0, KERNEL_SPACE_ENTRIES)
  {
    TakeKeeps(w);
    var d := Pick(w);
    OpenKeeps(Take(w), d);
    var w1 := OpenSpace(Take(w), d);
    assert w1.spaces - {d} == w.spaces;
    KernelDirRole(w);
    TableCountSame(w.mem, w1.mem, w.kernelDir, 0, KERNEL_SPACE_ENTRIES);
  }

  /** f is the table in one of the slots i.. below 3 GB of d. */
  ghost predicate KernelTableOf(mem: Memory, d: nat, i: nat, f: nat)
    requires d < FRAMES
  {
    exists k: nat {:trigger HasTable(mem, d, k)} ::
      i <= k < KERNEL_SPACE_ENTRIES && HasTable(mem, d, k) && TableAt(mem, d, k) == f
  }

  /** The frames added are exactly the tables in the slots i.. of d; the slots below have not changed. */
  ghost predicate AddedTables(w: World, w': World, d: nat, i: nat)
    requires d < FRAMES
  {
    && (forall f: nat {:trigger f in w'.used} :: f in w'.used <==> f in w.used || KernelTableOf(w'.mem, d, i, f))
    && (forall k: nat {:trigger w'.mem[d][k]} :: k < i && k < ENTRIES ==> w'.mem[d][k] == w.mem[d][k])
  }

  lemma {:induction false} CopyKernelAdds(base: World, w: World, d: nat, i: nat)
    requires Building(base, w, d) && KernelCopied(w, d, i) && CopyKernel(w, d, i).1 != 0
    ensures d < FRAMES && AddedTables(w, CopyKernel(w, d, i).0, d, i)
    decreases KERNEL_SPACE_ENTRIES - i
  {
    hide Building, KernelCopied, AddedTables;
    CopyKernelFacts(base, w, d, i);
    var r := CopyKernel(w, d, i).0;
    if i == KERNEL_SPACE_ENTRIES {
      AddedNone(w, d);
    } else if !HasTable(w.mem, w.kernelDir, i) {
      SkipKernelTable(base, w, d, i);
      CopyKernelAdds(base, w, d, i + 1);
      AddedSkip(base, w, r, d, i);
    } else {
      CopyOneKernelTable(base, w, d, i);
      var w2 := CopyKernelTable(Take(w), d, i, Pick(w));
      CopyKernelAdds(base, w2, d, i + 1);
      AddedOne(base, w, w2, r, d, i);
    }
  }

  lemma AddedNone(w: World, d: nat)
    requires d < FRAMES
    ensures AddedTables(w, w, d, KERNEL_SPACE_ENTRIES)
  {}

  lemma AddedSkip(base: World, w: World, r: World, d: nat, i: nat)
    requires Building(base, w, d) && KernelCopied(w, d, i) && i < KERNEL_SPACE_ENTRIES
    requires !HasTable(w.mem, w.kernelDir, i)
    requires d < FRAMES && AddedTables(w, r, d, i + 1)
    ensures AddedTables(w, r, d, i)
  {
    assert !HasTable(r.mem, d, i) by { assert r.mem[d][i] == w.mem[d][i]; assert !HasTable(w.mem, d, i); }
    forall f: nat ensures KernelTableOf(r.mem, d, i, f) == KernelTableOf(r.mem, d, i + 1, f) {}
  }

  lemma AddedOne(base: World, w: World, w2: World, r: World, d: nat, i: nat)
    requires Building(base, w, d) && KernelCopied(w, d, i) && i < KERNEL_SPACE_ENTRIES
    requires HasTable(w.mem, w.kernelDir, i)
    requires Pick(w) != 0 && Pick(w) < FRAMES && d < FRAMES && w2 == CopyKernelTable(Take(w), d, i, Pick(w))
    requires AddedTables(w2, r, d, i + 1)
    ensures AddedTables(w, r, d, i)
  {
    TakeKeeps(w);
    var t := Pick(w);
    FlagBits(w.mem[w.kernelDir][i]);
    PackFields(t, FlagsOf(w.mem[w.kernelDir][i]));
    DirectoryNotFree(w, d);
    assert r.mem[d][i] == w2.mem[d][i] == Pack(t, FlagsOf(w.mem[w.kernelDir][i]));
    assert HasTable(r.mem, d, i) && TableAt(r.mem, d, i) == t;
    forall f: nat ensures KernelTableOf(r.mem, d, i, f) == (f == t || KernelTableOf(r.mem, d, i + 1, f)) {}
    forall k: nat | k < i ensures r.mem[d][k] == w.mem[d][k] { assert w2.mem[d][k] == w.mem[d][k]; }
  }

  lemma DirectoryNotFree(w: World, d: nat)
    requires Inv(w) && d in w.spaces
    ensures d in w.used
  {
    assert SpaceOk(w, d);
  }

  /** Creating a space and destroying it again leaves exactly its copies of the kernel's tables in use. */
  lemma CreateThenDestroy(w: World)
    requires Inv(w) && w.kernelDir != 0
    ensures w.kernelDir < FRAMES && w.max <= FRAMES
    ensures var r := Create(w);
            r.1 != 0 ==> var w2 := Destroy(r.0, r.1);
              && (forall f: nat {:trigger f in w2.used} ::
                    f in w2.used <==> f in w.used || KernelTableOf(r.0.mem, r.1, 0, f))
              && |w2.used| == |w.used| + TableCount(w.mem, w.kernelDir, 0, KERNEL_SPACE_ENTRIES)
  {
    hide Available, CopyKernel, Destroy;
    CreateCounts(w);
    CreateKeeps(w);
    if Create(w).1 != 0 {
      CreateAdds(w);
      DestroyNew(w);
    }
  }

  lemma CreateAdds(w: World)
    requires Inv(w) && w.kernelDir != 0 && w.kernelDir < FRAMES && w.max <= FRAMES && Create(w).1 != 0
    ensures var r := Create(w);
            forall f: nat {:trigger f in r.0.used} ::
              f in r.0.used <==> f in w.used || f == r.1 || KernelTableOf(r.0.mem, r.1, 0, f)
  {
    TakeKeeps(w);
    var d := Pick(w);
    Opened(w);
    CopyKernelKeeps(w, OpenSpace(Take(w), d), d, 0);
    CopyKernelAdds(w, OpenSpace(Take(w), d), d, 0);
  }

  lemma DestroyNew(w: World)
    requires Inv(w) && w.kernelDir != 0 && w.kernelDir < FRAMES && w.max <= FRAMES && Create(w).1 != 0
    ensures var r, w2 := Create(w), Destroy(Create(w).0, Create(w).1);
            && (forall f: nat {:trigger f in w2.used} :: f in w2.used <==> f in r.0.used && f != r.1)
            && |w2.used| == |r.0.used| - 1
            && r.1 !in w.used && !KernelTableOf(r.0.mem, r.1, 0, r.1)
  {
    hide Create;
    CreateKeeps(w);
    var r := Create(w);
    DestroyKeeps(r.0, r.1);
    TableCountNone(r.0.mem, r.1, KERNEL_SPACE_ENTRIES, ENTRIES);
    NotOwnTable(r.0, r.1);
  }

  lemma NotOwnTable(w: World, d: nat)
    requires Inv(w) && d in w.spaces && d < FRAMES
    ensures !KernelTableOf(w.mem, d, 0, d)
  {
    assert SpaceOk(w, d);
  }

  // ----- clone_address_space

  lemma {:induction false} TableCountAdd(mem: Memory, mem': Memory, d: nat, i: nat, lo: nat, hi: nat)
    requires d < FRAMES && lo <= hi <= ENTRIES && i < ENTRIES && !HasTable(mem, d, i) && HasTable(mem', d, i)
    requires forall k: nat {:trigger mem'[d][k]} :: k < ENTRIES && k != i ==> mem'[d][k] == mem[d][k]
    ensures TableCount(mem', d, lo, hi) == TableCount(mem, d, lo, hi) + (if lo <= i < hi then 1 else 0)
    decreases hi - lo
  {
    if lo < hi { TableCountAdd(mem, mem', d, i, lo + 1, hi); }
  }

  lemma {:induction false} CopyUserCounts(base: World, w: World, src: nat, d: nat, i: nat)
    requires Building(base, w, d) && UserCopied(base, w, src, d, i)
    ensures w.max <= FRAMES && src < FRAMES && d < FRAMES && i <= ENTRIES
    ensures var r := CopyUser(w, src, d, i);
            && (r.1 != 0 <==> Available(w) >= TableCount(w.mem, src, i, ENTRIES))
            && (r.1 == 0 ==> |r.0.used| == |w.used| - 1 - TableCount(w.mem, d, KERNEL_SPACE_ENTRIES, ENTRIES))
    decreases ENTRIES - i
  {
    hide Building, UserCopied, Available;
    CopyUserFacts(base, w, src, d, i);
    if i == ENTRIES {
    } else if !HasTable(w.mem, src, i) {
      SkipUserTable(base, w, src, d, i);
      CopyUserCounts(base, w, src, d, i + 1);
    } else if Pick(w) == 0 {
      NoneAvailable(w);
      AbandonedUser(base, w, d);
    } else {
      NoneAvailable(w);
      TakeOneAvailable(w);
      CopyOneUserTable(base, w, src, d, i);
      var w2 := CopyUserTable(Take(w), src, d, i, Pick(w));
      UserTableAdded(base, w, src, d, i);
      TableCountSame(w.mem, w2.mem, src, i + 1, ENTRIES);
      CopyUserCounts(base, w2, src, d, i + 1);
    }
  }

  lemma CopyUserFacts(base: World, w: World, src: nat, d: nat, i: nat)
    requires Building(base, w, d) && UserCopied(base, w, src, d, i)
    ensures Inv(w) && KERNEL_SPACE_ENTRIES <= i <= ENTRIES && d != 0 && d < FRAMES && src < FRAMES && w.max <= FRAMES
  {}

  lemma SkipUserTable(base: World, w: World, src: nat, d: nat, i: nat)
    requires Building(base, w, d) && UserCopied(base, w, src, d, i) && i < ENTRIES && !HasTable(w.mem, src, i)
    ensures UserCopied(base, w, src, d, i + 1)
  {
    assert CowSlot(w.mem, src, d, i);
  }

  lemma UserTableAdded(base: World, w: World, src: nat, d: nat, i: nat)
    requires Building(base, w, d) && UserCopied(base, w, src, d, i) && i < ENTRIES && HasTable(w.mem, src, i)
    requires Pick(w) != 0 && Pick(w) < FRAMES
    ensures src < FRAMES && d < FRAMES
    ensures var w2 := CopyUserTable(Take(w), src, d, i, Pick(w));
            && Available(w2) == Available(Take(w))
            && TableCount(w2.mem, d, KERNEL_SPACE_ENTRIES, ENTRIES)
              == TableCount(w.mem, d, KERNEL_SPACE_ENTRIES, ENTRIES) + 1
  {
    TakeKeeps(w);
    DirectoryNotFree(w, d);
    FlagBits(w.mem[src][i]);
    PackFields(Pick(w), FlagsOf(w.mem[src][i]));
    var w2 := CopyUserTable(Take(w), src, d, i, Pick(w));
    assert w2.mem[d] == w.mem[d][i := Pack(Pick(w), FlagsOf(w.mem[src][i]))];
    assert !HasTable(w.mem, d, i);
    TableCountAdd(w.mem, w2.mem, d, i, KERNEL_SPACE_ENTRIES, ENTRIES);
  }

  /** The cleanup of a failed clone returns the directory and the user tables made so far. */
  lemma AbandonedUser(base: World, w: World, d: nat)
    requires Building(base, w, d) && Pick(w) == 0
    ensures w.max <= FRAMES && d < FRAMES
    ensures |Destroy(Take(w), d).used| == |w.used| - 1 - TableCount(w.mem, d, KERNEL_SPACE_ENTRIES, ENTRIES)
  {
    TakeKeeps(w);
    DestroyKeeps(w, d);
  }

  /** clone_address_space of a live space other than the kernel's succeeds exactly when more frames are free than
      the kernel has tables below 3 GB and the source above; what a failed clone keeps are the kernel's tables it
      copied, all of them when it got as far as the user half. */
  lemma CloneCounts(w: World, src: nat)
    requires Inv(w) && w.kernelDir != 0 && src in w.spaces && src != w.kernelDir
    ensures 0 < src < FRAMES && w.kernelDir < FRAMES && w.max <= FRAMES
    ensures var r, tables := Clone(w, src), TableCount(w.mem, w.kernelDir, 0, KERNEL_SPACE_ENTRIES);
            var user := TableCount(w.mem, src, KERNEL_SPACE_ENTRIES, ENTRIES);
            && (r.1 != 0 <==> Available(w) > tables + user)
            && (r.1 != 0 ==> |r.0.used| == |w.used| + 1 + tables + user)
            && (r.1 == 0 ==>
                  |r.0.used| == |w.used| + (if Available(w) > tables then tables else AllButOne(Available(w))))
  {
    hide Available, Create, CopyUser, Descend;
    assert SpaceOk(w, src);
    CreateCounts(w);
    CreateKeeps(w);
    CloneKeeps(w, src);
    if Create(w).1 != 0 { CloneAfterCreate(w, src); }
  }

  /** For every source: neither the null pointer nor the kernel's directory can be cloned. */
  lemma CloneSucceedsIff(w: World, src: nat)
    requires Inv(w) && (src == 0 || src in w.spaces)
    ensures src < FRAMES && w.kernelDir < FRAMES && w.max <= FRAMES
    ensures Clone(w, src).1 != 0 <==>
      && src != 0 && src != w.kernelDir && w.kernelDir != 0
      && Available(w) > TableCount(w.mem, w.kernelDir, 0, KERNEL_SPACE_ENTRIES)
        + TableCount(w.mem, src, KERNEL_SPACE_ENTRIES, ENTRIES)
    ensures src == 0 || src == w.kernelDir || w.kernelDir == 0 ==> Clone(w, src).0 == w
  {
    hide Available;
    if src in w.spaces { assert SpaceOk(w, src); }
    TakeKeeps(w);
    if src != 0 && src != w.kernelDir && w.kernelDir != 0 { CloneCounts(w, src); }
  }

  lemma CloneAfterCreate(w: World, src: nat)
    requires Inv(w) && w.kernelDir != 0 && src in w.spaces && 0 < src < FRAMES && src != w.kernelDir
    requires w.kernelDir < FRAMES && w.max <= FRAMES && Create(w).1 != 0
    ensures var c, user := Create(w), TableCount(w.mem, src, KERNEL_SPACE_ENTRIES, ENTRIES);
            var r := CopyUser(Descend(c.0, src, c.1), src, c.1, KERNEL_SPACE_ENTRIES);
            && (r.1 != 0 <==> Available(c.0) >= user)
            && (r.1 == 0 ==> |r.0.used| == |c.0.used| - 1)
  {
    hide Available, Create, CopyUser;
    CreateKeeps(w);
    var c := Create(w);
    DescendKeeps(w, c.0, src, c.1);
    var w2 := Descend(c.0, src, c.1);
    DescendAvailable(c.0, src, c.1);
    SourceKept(w, c.0, src, c.1);
    TableCountSame(w.mem, w2.mem, src, KERNEL_SPACE_ENTRIES, ENTRIES);
    CopyUserCounts(w, w2, src, c.1, KERNEL_SPACE_ENTRIES);
    TableCountNone(w2.mem, c.1, KERNEL_SPACE_ENTRIES, ENTRIES);
  }

  lemma DescendAvailable(w: World, src: nat, d: nat)
    ensures Available(Descend(w, src, d)) == Available(w)
  {}

  lemma SourceKept(w: World, w': World, src: nat, d: nat)
    requires Inv(w) && Created(w, w', d) && src in w.spaces && src < FRAMES
    ensures w'.mem[src] == w.mem[src]
  {
    DirectoryNotFree(w, src);
  }
}
