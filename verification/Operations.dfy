/** Every operation of the virtual memory manager keeps the invariant, and what each does. */
module Operations {
  import opened Words
  import opened PageEntry
  import opened AddressSpaces
  import opened Invariant

  // ----- frame accounting

  /** How many of the slots lo..hi of directory d hold a table. */
  ghost function TableCount(mem: Memory, d: nat, lo: nat, hi: nat): nat
    requires d < FRAMES && lo <= hi <= ENTRIES
    decreases hi - lo
  {
    if lo == hi then 0 else (if HasTable(mem, d, lo) then 1 else 0) + TableCount(mem, d, lo + 1, hi)
  }

  lemma {:induction false} TableCountSame(mem: Memory, mem': Memory, d: nat, lo: nat, hi: nat)
    requires d < FRAMES && lo <= hi <= ENTRIES && mem'[d] == mem[d]
    ensures TableCount(mem', d, lo, hi) == TableCount(mem, d, lo, hi)
    decreases hi - lo
  {
    if lo < hi { TableCountSame(mem, mem', d, lo + 1, hi); }
  }

  // ----- freeing

  ghost predicate TablesAvoid(w: World, d: nat, f: nat)
    requires d < FRAMES
  {
    forall i: nat {:trigger HasTable(w.mem, d, i)} :: i < ENTRIES && HasTable(w.mem, d, i) ==> TableAt(w.mem, d, i) != f
  }

  ghost predicate PagesAvoid(w: World, d: nat, f: nat)
    requires d < FRAMES
  {
    forall i: nat, j: nat {:trigger Mapped(w.mem, d, i, j)} ::
      KERNEL_SPACE_ENTRIES <= i < ENTRIES && j < ENTRIES && Mapped(w.mem, d, i, j) ==> FrameOf(Pte(w.mem, d, i, j)) != f
  }

  /** No live space uses f as directory, table or user page. */
  ghost predicate Unreferenced(w: World, f: nat) {
    && f !in w.spaces
    && forall d :: d in w.spaces && d < FRAMES ==> TablesAvoid(w, d, f) && PagesAvoid(w, d, f)
  }

  lemma FreeKeeps(w: World, f: nat)
    requires Inv(w) && Unreferenced(w, f) && f != 0 && f != w.kernelDir
    ensures Inv(Free(w, f))
  {}

  /** A table of a dead directory, and a dead directory, are used by no live space. */
  lemma DeadUnreferenced(w: World, f: nat)
    requires Inv(w) && f in w.roles
    requires match w.roles[f]
             case Table(d, _) => d !in w.spaces
             case Directory => f !in w.spaces
             case UserPage(_, _) => false
    ensures Unreferenced(w, f)
  {}

  /** The tables of slots i.. of a dead directory still carry their roles. */
  ghost predicate TablesFrom(w: World, d: nat, i: nat)
    requires d < FRAMES
  {
    forall k: nat {:trigger HasTable(w.mem, d, k)} :: i <= k < ENTRIES && HasTable(w.mem, d, k) ==>
      RoleIs(w, TableAt(w.mem, d, k), Table(d, k))
  }

  ghost predicate IsTableOf(mem: Memory, d: nat, i: nat, f: nat)
    requires d < FRAMES
  {
    exists k: nat {:trigger HasTable(mem, d, k)} :: i <= k < ENTRIES && HasTable(mem, d, k) && TableAt(mem, d, k) == f
  }

  lemma IsTableOfStep(mem: Memory, d: nat, i: nat, f: nat)
    requires d < FRAMES && i < ENTRIES
    ensures IsTableOf(mem, d, i, f) == ((HasTable(mem, d, i) && TableAt(mem, d, i) == f) || IsTableOf(mem, d, i + 1, f))
  {}

  /** Exactly the tables of d's slots i.. were in use and no longer are. */
  ghost predicate TablesFreed(w: World, r: World, d: nat, i: nat)
    requires d < FRAMES && i <= ENTRIES
  {
    && r.used <= w.used
    && (forall f :: f in w.used ==> (f !in r.used) == IsTableOf(w.mem, d, i, f))
    && (forall f :: f in w.roles && f in r.used ==> RoleIs(r, f, w.roles[f]))
    && |r.used| + TableCount(w.mem, d, i, ENTRIES) == |w.used|
  }

  lemma {:induction false} FreeTablesKeeps(w: World, d: nat, i: nat)
    requires Inv(w) && d < FRAMES && d !in w.spaces && i <= ENTRIES && TablesFrom(w, d, i)
    ensures Inv(FreeTables(w, d, i)) && TablesFreed(w, FreeTables(w, d, i), d, i)
    decreases ENTRIES - i
  {
    var r := FreeTables(w, d, i);
    if i < ENTRIES {
      if HasTable(w.mem, d, i) {
        var t := TableAt(w.mem, d, i);
        var w1 := Free(w, t);
        FreeOneTable(w, d, i);
        FreeTablesKeeps(w1, d, i + 1);
        forall f | f in w.used ensures (f !in r.used) == IsTableOf(w.mem, d, i, f) {
          IsTableOfStep(w.mem, d, i, f);
        }
      } else {
        FreeTablesKeeps(w, d, i + 1);
        forall f | f in w.used ensures (f !in r.used) == IsTableOf(w.mem, d, i, f) {
          IsTableOfStep(w.mem, d, i, f);
        }
      }
    }
  }

  lemma FreeOneTable(w: World, d: nat, i: nat)
    requires Inv(w) && d < FRAMES && d !in w.spaces && i < ENTRIES && TablesFrom(w, d, i) && HasTable(w.mem, d, i)
    ensures var t := TableAt(w.mem, d, i);
            && t in w.used && t != 0 && Inv(Free(w, t)) && TablesFrom(Free(w, t), d, i + 1)
            && |Free(w, t).used| == |w.used| - 1
  {
    var t := TableAt(w.mem, d, i);
    assert RoleIs(w, t, Table(d, i));
    DeadUnreferenced(w, t);
    KernelDirRole(w);
    FreeKeeps(w, t);
    var w1 := Free(w, t);
    forall k: nat | i + 1 <= k < ENTRIES && HasTable(w1.mem, d, k)
      ensures RoleIs(w1, TableAt(w1.mem, d, k), Table(d, k))
    {
      assert HasTable(w.mem, d, k);
    }
  }

  lemma KernelDirRole(w: World)
    requires Inv(w)
    ensures w.kernelDir != 0 ==> RoleIs(w, w.kernelDir, Directory)
  {}

  /** Memory in use before is in use after, unchanged and with the same role. */
  ghost predicate Extends(w: World, w': World) {
    && w.used <= w'.used
    && (forall f {:trigger w.mem[f]} {:trigger w'.mem[f]} :: f in w.used && f < FRAMES ==> w'.mem[f] == w.mem[f])
    && (forall f :: f in w.roles ==> RoleIs(w', f, w.roles[f]))
    && w'.kernelDir == w.kernelDir && w'.max == w.max && w.nextStamp <= w'.nextStamp
  }

  /** destroy_address_space returns the directory and the user half's tables and nothing else;
      in particular the pages it mapped and its copies of kernel tables stay in use. */
  ghost predicate Destroyed(w: World, w': World, d: nat)
    requires d < FRAMES
  {
    && w'.spaces == w.spaces - {d}
    && w'.mem == w.mem && w'.kernelDir == w.kernelDir && w'.max == w.max && w'.nextStamp == w.nextStamp
    && Returned(w.used, w.roles, w.mem, w', d)
  }

  ghost predicate Returned(used: set<nat>, roles: map<nat, Role>, mem: Memory, w': World, d: nat)
    requires d < FRAMES
  {
    && w'.used <= used
    && (forall f :: f in used ==> (f !in w'.used) == (f == d || IsTableOf(mem, d, KERNEL_SPACE_ENTRIES, f)))
    && (forall f :: f in roles && f in w'.used ==> RoleIs(w', f, roles[f]))
    && |used| == |w'.used| + 1 + TableCount(mem, d, KERNEL_SPACE_ENTRIES, ENTRIES)
  }

  lemma DestroyKeeps(w: World, d: nat)
    requires Inv(w) && (d == 0 || d in w.spaces)
    ensures d < FRAMES && Inv(Destroy(w, d))
    ensures if d == 0 || d == w.kernelDir then Destroy(w, d) == w else Destroyed(w, Destroy(w, d), d)
  {
    if d in w.spaces { assert SpaceOk(w, d); }
    if d != 0 && d != w.kernelDir {
      var w0 := Close(w, d);
      CloseKeeps(w, d);
      FreeTablesKeeps(w0, d, KERNEL_SPACE_ENTRIES);
      TablesNotDirs(w, d, d);
      FreeDirectory(w0, FreeTables(w0, d, KERNEL_SPACE_ENTRIES), d);
    }
  }

  lemma FreeDirectory(w: World, w1: World, d: nat)
    requires Inv(w) && Inv(w1) && d < FRAMES && d != 0 && d != w.kernelDir && d !in w.spaces && RoleIs(w, d, Directory)
    requires TablesFreed(w, w1, d, KERNEL_SPACE_ENTRIES) && !IsTableOf(w.mem, d, KERNEL_SPACE_ENTRIES, d)
    requires w1.spaces == w.spaces && w1.kernelDir == w.kernelDir
    ensures Inv(Free(w1, d))
    ensures Returned(w.used, w.roles, w.mem, Free(w1, d), d)
  {
    assert d in w.used && d in w1.used;
    assert RoleIs(w1, d, Directory);
    DeadUnreferenced(w1, d);
    FreeKeeps(w1, d);
  }

  /** No slot of a live directory names a live directory. */
  lemma TablesNotDirs(w: World, d: nat, e: nat)
    requires Inv(w) && d in w.spaces && d < FRAMES && e in w.spaces
    ensures !IsTableOf(w.mem, d, KERNEL_SPACE_ENTRIES, e)
  {}

  lemma CloseKeeps(w: World, d: nat)
    requires Inv(w) && d in w.spaces && d != w.kernelDir
    ensures Inv(Close(w, d)) && d < FRAMES && TablesFrom(Close(w, d), d, KERNEL_SPACE_ENTRIES)
  {}

  // ----- creating a space

  /** Slot i of d has a private table equal to the kernel directory's. */
  ghost predicate KernelSlot(mem: Memory, k: nat, d: nat, i: nat)
    requires k < FRAMES && d < FRAMES && i < ENTRIES
  {
    && HasTable(mem, d, i) == HasTable(mem, k, i)
    && (HasTable(mem, d, i) ==>
          && mem[TableAt(mem, d, i)] == mem[TableAt(mem, k, i)]
          && TableAt(mem, d, i) != TableAt(mem, k, i)
          && FlagsOf(mem[d][i]) == FlagsOf(mem[k][i]))
  }

  ghost predicate KernelSlots(mem: Memory, k: nat, d: nat, lo: nat, hi: nat)
    requires k < FRAMES && d < FRAMES && hi <= ENTRIES
  {
    forall i: nat {:trigger KernelSlot(mem, k, d, i)} {:trigger HasTable(mem, d, i)} :: lo <= i < hi ==>
      KernelSlot(mem, k, d, i)
  }

  ghost predicate NoTables(mem: Memory, d: nat, lo: nat, hi: nat)
    requires d < FRAMES && hi <= ENTRIES
  {
    forall i: nat {:trigger HasTable(mem, d, i)} :: lo <= i < hi ==> !HasTable(mem, d, i)
  }

  /** A half-built space d in w, begun in world `base`. */
  ghost predicate Building(base: World, w: World, d: nat) {
    && Inv(w) && Inv(base) && Extends(base, w)
    && d != 0 && d != w.kernelDir && d < FRAMES
    && d in w.spaces && d !in base.used && d !in base.spaces && w.spaces - {d} == base.spaces
    && forall f :: f in base.used ==> !IsTableOf(w.mem, d, KERNEL_SPACE_ENTRIES, f)
  }

  ghost predicate KernelCopied(w: World, d: nat, i: nat) {
    && w.kernelDir != 0 && w.kernelDir < FRAMES && d < FRAMES && i <= KERNEL_SPACE_ENTRIES
    && NoTables(w.mem, d, i, ENTRIES)
    && KernelSlots(w.mem, w.kernelDir, d, 0, i)
  }

  /** Copying the kernel's tables from slot i on. */
  lemma {:induction false} CopyKernelKeeps(base: World, w: World, d: nat, i: nat)
    requires Building(base, w, d) && KernelCopied(w, d, i)
    ensures var r := CopyKernel(w, d, i);
            if r.1 == 0 then GivenUp(base, r.0)
            else
              && r.1 == d && Building(base, r.0, d) && KernelCopied(r.0, d, KERNEL_SPACE_ENTRIES)
              && r.0.spaces == w.spaces && r.0.nextStamp == w.nextStamp
              && |r.0.used| == |w.used| + TableCount(w.mem, w.kernelDir, i, KERNEL_SPACE_ENTRIES)
    decreases KERNEL_SPACE_ENTRIES - i
  {
    var k := w.kernelDir;
    if i == KERNEL_SPACE_ENTRIES {
    } else if !HasTable(w.mem, k, i) {
      assert KernelSlot(w.mem, k, d, i);
      CopyKernelKeeps(base, w, d, i + 1);
    } else {
      TakeKeeps(w);
      var t := Pick(w);
      TakeBuilding(base, w, d);
      if t == 0 {
        AbandonKeeps(base, w, d);
      } else {
        CopyOneKernelTable(base, w, d, i);
        var w2 := CopyKernelTable(Take(w), d, i, t);
        TableCountSame(w.mem, w2.mem, k, i + 1, KERNEL_SPACE_ENTRIES);
        CopyKernelKeeps(base, w2, d, i + 1);
      }
    }
  }

  /** Nothing of the attempt is left but frames that stay in use. */
  ghost predicate GivenUp(base: World, w: World) {
    Inv(w) && Extends(base, w) && w.spaces == base.spaces
  }

  lemma TakeBuilding(base: World, w: World, d: nat)
    requires Building(base, w, d)
    ensures Building(base, Take(w), d)
  {}

  /** Adding a fresh table to the space under construction. */
  lemma InstallBuilding(base: World, w: World, d: nat, i: nat, t: nat, contents: Frame, flags: Word)
    requires Building(base, w, d) && i < ENTRIES && flags < 0x1000 && Present(flags)
    requires t != 0 && t in w.used && t !in w.roles && t !in base.used && TableFits(w, d, i, contents)
    ensures t < FRAMES && Building(base, InstallTable(w, d, i, t, contents, flags), d)
  {
    hide Inv;
    InstallKeeps(w, d, i, t, contents, flags);
    var w' := InstallTable(w, d, i, t, contents, flags);
    forall f | f in base.used ensures !IsTableOf(w'.mem, d, KERNEL_SPACE_ENTRIES, f) {
      NoOldTable(w, w', d, i, f);
    }
  }

  /** Installing a table elsewhere does not make f a table of d. */
  lemma NoOldTable(w: World, w': World, d: nat, i: nat, f: nat)
    requires d < FRAMES && i < ENTRIES && !IsTableOf(w.mem, d, KERNEL_SPACE_ENTRIES, f)
    requires forall n: nat {:trigger w'.mem[d][n]} :: n < ENTRIES && n != i ==> w'.mem[d][n] == w.mem[d][n]
    requires HasTable(w'.mem, d, i) && TableAt(w'.mem, d, i) != f
    ensures !IsTableOf(w'.mem, d, KERNEL_SPACE_ENTRIES, f)
  {
    forall n: nat | KERNEL_SPACE_ENTRIES <= n < ENTRIES && HasTable(w'.mem, d, n) ensures TableAt(w'.mem, d, n) != f {
      if n != i { assert w'.mem[d][n] == w.mem[d][n]; assert HasTable(w.mem, d, n); }
    }
  }

  lemma CopyOneKernelTable(base: World, w: World, d: nat, i: nat)
    requires Building(base, w, d) && KernelCopied(w, d, i) && i < KERNEL_SPACE_ENTRIES
    requires HasTable(w.mem, w.kernelDir, i) && Pick(w) != 0
    ensures Pick(w) < FRAMES
    ensures var w2 := CopyKernelTable(Take(w), d, i, Pick(w));
            && Building(base, w2, d) && KernelCopied(w2, d, i + 1)
            && |w2.used| == |w.used| + 1 && w2.mem[w.kernelDir] == w.mem[w.kernelDir]
  {
    TakeKeeps(w);
    TakeBuilding(base, w, d);
    var w1, t, k := Take(w), Pick(w), w.kernelDir;
    FlagBits(w.mem[k][i]);
    InstallBuilding(base, w1, d, i, t, w1.mem[TableAt(w1.mem, k, i)], FlagsOf(w.mem[k][i]));
    CopiedKernelSlot(w1, k, d, i, t);
  }

  lemma CopiedKernelSlot(w: World, k: nat, d: nat, i: nat, t: nat)
    requires Inv(w) && w.kernelDir == k != 0 && d in w.spaces && d != k && i < KERNEL_SPACE_ENTRIES
    requires k < FRAMES && d < FRAMES && HasTable(w.mem, k, i) && NoTables(w.mem, d, i, ENTRIES)
    requires KernelSlots(w.mem, k, d, 0, i)
    requires t < FRAMES && t !in w.roles
    ensures var w' := CopyKernelTable(w, d, i, t);
            KernelSlots(w'.mem, k, d, 0, i + 1) && NoTables(w'.mem, d, i + 1, ENTRIES) && w'.mem[k] == w.mem[k]
  {
    assert SpaceOk(w, k) && SpaceOk(w, d);
    var w' := CopyKernelTable(w, d, i, t);
    var flags := FlagsOf(w.mem[k][i]);
    PackFields(t, flags);
    FlagBits(w.mem[k][i]);
    assert t != d && t != k && w'.mem[k] == w.mem[k];
    assert RoleIs(w, TableAt(w.mem, k, i), Table(k, i));
    forall n: nat | n < i + 1 ensures KernelSlot(w'.mem, k, d, n) {
      assert HasTable(w'.mem, k, n) == HasTable(w.mem, k, n);
      if n < i {
        assert KernelSlot(w.mem, k, d, n);
        assert w'.mem[d][n] == w.mem[d][n];
      }
    }
    forall n: nat | i + 1 <= n < ENTRIES ensures !HasTable(w'.mem, d, n) {
      assert !HasTable(w.mem, d, n);
    }
  }

  /** Giving up half way destroys what was built and keeps everything older. */
  lemma AbandonKeeps(base: World, w: World, d: nat)
    requires Building(base, w, d)
    ensures GivenUp(base, Destroy(w, d))
  {
    DestroyKeeps(w, d);
  }

  /** create_address_space: the new space agrees with the kernel directory below 3 GB through
      tables of its own, maps nothing above, and costs one frame plus one per kernel table. */
  ghost predicate Created(w: World, w': World, d: nat) {
    && Building(w, w', d) && KernelCopied(w', d, KERNEL_SPACE_ENTRIES)
    && w'.spaces == w.spaces[d := Space(w.nextStamp, {w.nextStamp})]
    && |w'.used| == |w.used| + 1 + TableCount(w.mem, w.kernelDir, 0, KERNEL_SPACE_ENTRIES)
  }

  lemma CreateKeeps(w: World)
    requires Inv(w)
    ensures var r := Create(w); if r.1 == 0 then GivenUp(w, r.0) else Created(w, r.0, r.1)
  {
    if w.kernelDir != 0 {
      TakeKeeps(w);
      var d := Pick(w);
      if d != 0 {
        OpenKeeps(Take(w), d);
        var w1 := OpenSpace(Take(w), d);
        assert w1.spaces - {d} == w.spaces;
        KernelDirRole(w);
        TableCountSame(w.mem, w1.mem, w.kernelDir, 0, KERNEL_SPACE_ENTRIES);
        CopyKernelKeeps(w, w1, d, 0);
      }
    }
  }

  // ----- cloning a space

  /** Slot i of the child mirrors slot i of the source: the same pages map the same frames,
      read-only and marked copy-on-write, through a table of the child's own. */
  ghost predicate CowSlot(mem: Memory, src: nat, d: nat, i: nat)
    requires src < FRAMES && d < FRAMES && i < ENTRIES
  {
    && HasTable(mem, d, i) == HasTable(mem, src, i)
    && (HasTable(mem, d, i) ==>
          && TableAt(mem, d, i) != TableAt(mem, src, i)
          && mem[TableAt(mem, d, i)] == CowTable(mem[TableAt(mem, src, i)])
          && FlagsOf(mem[d][i]) == FlagsOf(mem[src][i]))
  }

  ghost predicate CowSlots(mem: Memory, src: nat, d: nat, lo: nat, hi: nat)
    requires src < FRAMES && d < FRAMES && hi <= ENTRIES
  {
    forall i: nat {:trigger CowSlot(mem, src, d, i)} {:trigger HasTable(mem, d, i)} :: lo <= i < hi ==>
      CowSlot(mem, src, d, i)
  }

  ghost predicate UserCopied(base: World, w: World, src: nat, d: nat, i: nat) {
    && KERNEL_SPACE_ENTRIES <= i <= ENTRIES && src < FRAMES && d < FRAMES
    && src in base.spaces && src in w.spaces && d in w.spaces && w.spaces[src].line <= w.spaces[d].line
    && w.kernelDir != 0 && w.kernelDir < FRAMES
    && KernelSlots(w.mem, w.kernelDir, d, 0, KERNEL_SPACE_ENTRIES)
    && CowSlots(w.mem, src, d, KERNEL_SPACE_ENTRIES, i)
    && NoTables(w.mem, d, i, ENTRIES)
  }

  lemma {:induction false} CopyUserKeeps(base: World, w: World, src: nat, d: nat, i: nat)
    requires Building(base, w, d) && UserCopied(base, w, src, d, i)
    ensures var r := CopyUser(w, src, d, i);
            if r.1 == 0 then GivenUp(base, r.0)
            else
              && r.1 == d && Building(base, r.0, d) && UserCopied(base, r.0, src, d, ENTRIES)
              && r.0.spaces == w.spaces && r.0.nextStamp == w.nextStamp
              && |r.0.used| == |w.used| + TableCount(w.mem, src, i, ENTRIES)
    decreases ENTRIES - i
  {
    if i == ENTRIES {
    } else if !HasTable(w.mem, src, i) {
      assert CowSlot(w.mem, src, d, i);
      CopyUserKeeps(base, w, src, d, i + 1);
    } else {
      TakeKeeps(w);
      TakeBuilding(base, w, d);
      var t := Pick(w);
      if t == 0 {
        AbandonKeeps(base, w, d);
      } else {
        CopyOneUserTable(base, w, src, d, i);
        var w2 := CopyUserTable(Take(w), src, d, i, t);
        TableCountSame(w.mem, w2.mem, src, i + 1, ENTRIES);
        CopyUserKeeps(base, w2, src, d, i + 1);
      }
    }
  }

  lemma CopyOneUserTable(base: World, w: World, src: nat, d: nat, i: nat)
    requires Building(base, w, d) && UserCopied(base, w, src, d, i) && i < ENTRIES
    requires HasTable(w.mem, src, i) && Pick(w) != 0
    ensures Pick(w) < FRAMES
    ensures var w2 := CopyUserTable(Take(w), src, d, i, Pick(w));
            && Building(base, w2, d) && UserCopied(base, w2, src, d, i + 1)
            && |w2.used| == |w.used| + 1 && w2.mem[src] == w.mem[src] && w2.spaces == w.spaces
  {
    TakeKeeps(w);
    TakeBuilding(base, w, d);
    var w1, t := Take(w), Pick(w);
    FlagBits(w.mem[src][i]);
    CowTableFits(w1, src, d, i);
    InstallBuilding(base, w1, d, i, t, CowTable(w1.mem[TableAt(w1.mem, src, i)]), FlagsOf(w.mem[src][i]));
    CopiedSlots(base, w1, src, d, i, t);
  }

  lemma CowTableFits(w: World, src: nat, d: nat, i: nat)
    requires Inv(w) && src in w.spaces && d in w.spaces && src < FRAMES && KERNEL_SPACE_ENTRIES <= i < ENTRIES
    requires HasTable(w.mem, src, i) && w.spaces[src].line <= w.spaces[d].line
    ensures TableFits(w, d, i, CowTable(w.mem[TableAt(w.mem, src, i)]))
  {
    assert SpaceOk(w, src);
    var table := w.mem[TableAt(w.mem, src, i)];
    forall j: nat | j < ENTRIES && Present(CowTable(table)[j]) ensures EntryOwned(w, d, i, j, CowTable(table)[j]) {
      CowEntryFields(table[j]);
      assert Mapped(w.mem, src, i, j);
    }
  }

  lemma CowEntryFields(e: Word)
    ensures Present(CowEntry(e)) == Present(e)
    ensures Present(e) ==> FrameOf(CowEntry(e)) == FrameOf(e) && !Writable(CowEntry(e)) && Cow(CowEntry(e))
    ensures Present(e) ==> ForUser(CowEntry(e)) == ForUser(e)
  {
    ZeroEntry();
    PackFields(FrameOf(e), CowFlags(e));
  }

  lemma CopiedSlots(base: World, w: World, src: nat, d: nat, i: nat, t: nat)
    requires Inv(w) && UserCopied(base, w, src, d, i) && src != d && d != w.kernelDir && i < ENTRIES
    requires HasTable(w.mem, src, i)
    requires t < FRAMES && t !in w.roles
    ensures UserCopied(base, CopyUserTable(w, src, d, i, t), src, d, i + 1)
    ensures CopyUserTable(w, src, d, i, t).mem[src] == w.mem[src]
  {
    assert SpaceOk(w, src) && SpaceOk(w, d) && SpaceOk(w, w.kernelDir);
    var w', k := CopyUserTable(w, src, d, i, t), w.kernelDir;
    PackFields(t, FlagsOf(w.mem[src][i]));
    FlagBits(w.mem[src][i]);
    assert t != d && t != src && t != k && w'.mem[src] == w.mem[src] && w'.mem[k] == w.mem[k];
    forall n: nat | n < KERNEL_SPACE_ENTRIES ensures KernelSlot(w'.mem, k, d, n) {
      assert KernelSlot(w.mem, k, d, n);
      assert w'.mem[d][n] == w.mem[d][n];
      assert HasTable(w'.mem, k, n) == HasTable(w.mem, k, n);
    }
    forall n: nat | KERNEL_SPACE_ENTRIES <= n < i + 1 ensures CowSlot(w'.mem, src, d, n) {
      assert HasTable(w'.mem, src, n) == HasTable(w.mem, src, n);
      if n < i {
        assert CowSlot(w.mem, src, d, n);
        assert w'.mem[d][n] == w.mem[d][n];
      }
    }
    forall n: nat | i + 1 <= n < ENTRIES ensures !HasTable(w'.mem, d, n) {
      assert !HasTable(w.mem, d, n);
    }
  }

  /** clone_address_space, when it succeeds. */
  ghost predicate Cloned(w: World, w': World, src: nat, d: nat) {
    && Building(w, w', d) && UserCopied(w, w', src, d, ENTRIES)
    && w'.spaces == w.spaces[d := Space(w.nextStamp, {w.nextStamp} + w.spaces[src].line)]
    && |w'.used| == |w.used| + 1 + TableCount(w.mem, w.kernelDir, 0, KERNEL_SPACE_ENTRIES)
      + TableCount(w.mem, src, KERNEL_SPACE_ENTRIES, ENTRIES)
  }

  lemma CloneKeeps(w: World, src: nat)
    requires Inv(w) && (src == 0 || src in w.spaces)
    ensures src < FRAMES
    ensures var r := Clone(w, src); if r.1 == 0 then GivenUp(w, r.0) else src in w.spaces && Cloned(w, r.0, src, r.1)
  {
    if src in w.spaces { assert SpaceOk(w, src); }
    if src != 0 && src != w.kernelDir {
      CreateKeeps(w);
      var c := Create(w);
      if c.1 != 0 {
        var w1, d := Descend(c.0, src, c.1), c.1;
        DescendKeeps(w, c.0, src, d);
        TableCountSame(w.mem, w1.mem, src, KERNEL_SPACE_ENTRIES, ENTRIES);
        CopyUserKeeps(w, w1, src, d, KERNEL_SPACE_ENTRIES);
      }
    }
  }

  lemma DescendKeeps(w: World, w1: World, src: nat, d: nat)
    requires Inv(w) && Created(w, w1, d) && src in w.spaces && src < FRAMES
    ensures var w2 := Descend(w1, src, d);
            && Building(w, w2, d) && UserCopied(w, w2, src, d, KERNEL_SPACE_ENTRIES)
            && w2.used == w1.used && w2.mem == w1.mem && w2.nextStamp == w1.nextStamp
            && w2.spaces == w.spaces[d := Space(w.nextStamp, {w.nextStamp} + w.spaces[src].line)]
  {
    hide TablesOwned, PagesOwned, FramesOk, KernelSlots, IsTableOf, StampsDiffer;
    var w2 := Descend(w1, src, d);
    assert SpaceOk(w, src);
    DescendInv(w1, src, d);
    assert w2.spaces - {d} == w.spaces;
  }

  lemma DescendInv(w: World, src: nat, d: nat)
    requires Inv(w) && src in w.spaces && d in w.spaces && w.spaces[src].stamp <= w.spaces[d].stamp
    ensures Inv(Descend(w, src, d))
  {}

  // ----- mapping, storing and faulting

  /** Directory d maps the same pages with the same entries in both memories. */
  ghost predicate SamePages(mem: Memory, mem': Memory, d: nat)
    requires d < FRAMES
  {
    forall i: nat, j: nat {:trigger Mapped(mem', d, i, j)} {:trigger Pte(mem', d, i, j)} ::
      i < ENTRIES && j < ENTRIES ==> SamePage(mem, mem', d, i, j)
  }

  lemma SamePagesRefl(mem: Memory, d: nat)
    requires d < FRAMES
    ensures SamePages(mem, mem, d)
  {
    forall i: nat, j: nat | i < ENTRIES && j < ENTRIES ensures SamePage(mem, mem, d, i, j) {}
  }

  /** Slot i of d has a table and no page has been mapped or unmapped anywhere. */
  ghost predicate TableEnsured(w: World, w': World, d: nat, i: nat)
    requires d < FRAMES && i < ENTRIES
  {
    && w'.spaces == w.spaces && w.used <= w'.used
    && w'.kernelDir == w.kernelDir && w'.max == w.max && w'.nextStamp == w.nextStamp
    && (forall f :: f in w.roles ==> RoleIs(w', f, w.roles[f]))
    && (forall f {:trigger w.mem[f]} {:trigger w'.mem[f]} :: f in w.used && f < FRAMES && f != d ==>
          w'.mem[f] == w.mem[f])
    && HasTable(w'.mem, d, i)
    && SamePages(w.mem, w'.mem, d)
    && |w'.used| == |w.used| + (if HasTable(w.mem, d, i) then 0 else 1)
  }

  lemma EnsureTableKeeps(w: World, d: nat, i: nat, flags: Word)
    requires Inv(w) && d in w.spaces && d < FRAMES && i < ENTRIES && flags < 0x1000 && Present(flags)
    ensures Inv(EnsureTable(w, d, i, flags))
    ensures if HasTable(w.mem, d, i) || Pick(w) != 0 then TableEnsured(w, EnsureTable(w, d, i, flags), d, i)
            else EnsureTable(w, d, i, flags) == w
  {
    if HasTable(w.mem, d, i) {
      assert EnsureTable(w, d, i, flags) == w;
      SamePagesRefl(w.mem, d);
    } else {
      TakeKeeps(w);
      if Pick(w) != 0 {
        ZeroEntry();
        InstallKeeps(Take(w), d, i, Pick(w), Zeros(), flags);
        EmptyTableMapsNothing(Take(w), d, i, Pick(w), flags);
      }
    }
  }

  lemma EmptyTableMapsNothing(w: World, d: nat, i: nat, t: nat, flags: Word)
    requires Inv(w) && d in w.spaces && d < FRAMES && i < ENTRIES && flags < 0x1000 && Present(flags)
    requires !HasTable(w.mem, d, i) && t < FRAMES && t !in w.roles
    ensures SamePages(w.mem, InstallTable(w, d, i, t, Zeros(), flags).mem, d)
  {
    var w' := InstallTable(w, d, i, t, Zeros(), flags);
    assert SpaceOk(w, d);
    PackFields(t, flags);
    ZeroEntry();
    forall k: nat, j: nat | k < ENTRIES && j < ENTRIES ensures SamePage(w.mem, w'.mem, d, k, j) {
      if k != i {
        assert w'.mem[d][k] == w.mem[d][k];
        if HasTable(w.mem, d, k) { assert RoleIs(w, TableAt(w.mem, d, k), Table(d, k)); }
      } else {
        assert Pte(w'.mem, d, k, j) == 0;
      }
    }
  }

  /** map_page_in_space on an aligned page: it fails exactly when the slot has no table and no
      block is free, and otherwise sets that page's entry and no other. */
  ghost predicate PageSet(w: World, w': World, d: nat, i: nat, j: nat, e: Word)
    requires d < FRAMES && i < ENTRIES && j < ENTRIES
  {
    && w'.spaces == w.spaces && w.used <= w'.used
    && w'.kernelDir == w.kernelDir && w'.max == w.max && w'.nextStamp == w.nextStamp
    && |w'.used| == |w.used| + (if HasTable(w.mem, d, i) then 0 else 1)
    && (forall f :: f in w.roles ==> RoleIs(w', f, w.roles[f]))
    && (forall f {:trigger w.mem[f]} {:trigger w'.mem[f]} ::
          f in w.roles && f < FRAMES && f != d && w.roles[f] != Table(d, i) ==> w'.mem[f] == w.mem[f])
    && OneEntrySet(w.mem, w'.mem, d, i, j, e)
    && (forall f :: f in w.spaces && f != d ==> f < FRAMES && SameTables(w.mem, w'.mem, f))
  }

  ghost predicate OneEntrySet(mem: Memory, mem': Memory, d: nat, i: nat, j: nat, e: Word)
    requires d < FRAMES && i < ENTRIES && j < ENTRIES
  {
    && HasTable(mem', d, i) && Pte(mem', d, i, j) == e
    && forall k: nat, l: nat {:trigger Mapped(mem', d, k, l)} {:trigger Pte(mem', d, k, l)} ::
         k < ENTRIES && l < ENTRIES && !(k == i && l == j) ==> SamePage(mem, mem', d, k, l)
  }

  ghost predicate SamePage(mem: Memory, mem': Memory, d: nat, i: nat, j: nat)
    requires d < FRAMES && i < ENTRIES && j < ENTRIES
  {
    && Mapped(mem', d, i, j) == Mapped(mem, d, i, j)
    && (Mapped(mem, d, i, j) ==> Pte(mem', d, i, j) == Pte(mem, d, i, j))
  }

  lemma MapPageEffect(w: World, d: nat, va: Word, pa: Word, user: bool, rw: bool)
    requires Inv(w) && d in w.spaces && d < FRAMES
    ensures var w' := MapPage(w, d, va, pa, user, rw);
            if !Aligned(va) || !Aligned(pa) || (!HasTable(w.mem, d, DirIndex(va)) && Pick(w) == 0) then w' == w
            else PageSet(w, w', d, DirIndex(va), TableIndex(va), Pack(pa / 0x1000, MapFlags(user, rw)))
  {
    assert SpaceOk(w, d);
    assert d != 0;
    if Aligned(va) && Aligned(pa) {
      var i, flags := DirIndex(va), if user then 7 else 3;
      ModeFlags(user);
      EnsureTableKeeps(w, d, i, flags);
      EnsureTableOthers(w, d, i, flags);
      var w1 := EnsureTable(w, d, i, flags);
      if HasTable(w1.mem, d, i) {
        EnsuredThenSet(w, w1, d, va, Pack(pa / 0x1000, MapFlags(user, rw)));
      }
    }
  }

  lemma EnsuredThenSet(w: World, w1: World, d: nat, va: Word, e: Word)
    requires Inv(w1) && d in w.spaces && d < FRAMES && TableEnsured(w, w1, d, DirIndex(va))
    requires forall f :: f in w.spaces && f != d ==> f < FRAMES && SameTables(w.mem, w1.mem, f)
    requires Inv(w)
    ensures PageSet(w, SetPte(w1, d, va, e), d, DirIndex(va), TableIndex(va), e)
  {
    var i, j, w' := DirIndex(va), TableIndex(va), SetPte(w1, d, va, e);
    SetPteEffect(w1, d, va, e);
    forall f: nat | f in w.roles && f < FRAMES && f != d && w.roles[f] != Table(d, i) ensures w'.mem[f] == w.mem[f] {
      assert f in w.used && w1.mem[f] == w.mem[f];
      assert RoleIs(w1, f, w.roles[f]);
    }
    forall k: nat, l: nat | k < ENTRIES && l < ENTRIES && !(k == i && l == j) ensures SamePage(w.mem, w'.mem, d, k, l) {
      assert HasTable(w'.mem, d, k) == HasTable(w1.mem, d, k);
      assert Mapped(w1.mem, d, k, l) == Mapped(w.mem, d, k, l);
    }
    forall f | f in w.spaces && f != d ensures f < FRAMES && SameTables(w.mem, w'.mem, f) {
      SameTablesTrans(w.mem, w1.mem, w'.mem, f);
    }
  }

  lemma SameTablesTrans(a: Memory, b: Memory, c: Memory, d: nat)
    requires d < FRAMES && SameTables(a, b, d) && SameTables(b, c, d)
    ensures SameTables(a, c, d)
  {}

  lemma EnsureTableOthers(w: World, d: nat, i: nat, flags: Word)
    requires Inv(w) && d in w.spaces && d < FRAMES && i < ENTRIES && flags < 0x1000 && Present(flags)
    ensures forall f :: f in w.spaces && f != d ==> f < FRAMES && SameTables(w.mem, EnsureTable(w, d, i, flags).mem, f)
  {}

  lemma MapPageKeeps(w: World, d: nat, va: Word, pa: Word, user: bool, rw: bool)
    requires Inv(w) && d in w.spaces && d < FRAMES
    requires Aligned(va) && DirIndex(va) >= KERNEL_SPACE_ENTRIES && pa % 0x1000 == 0 ==>
               EntryOwned(w, d, DirIndex(va), TableIndex(va), Pack(pa / 0x1000, MapFlags(user, rw)))
    ensures Inv(MapPage(w, d, va, pa, user, rw))
  {
    if d != 0 && Aligned(va) && Aligned(pa) {
      var i, flags := DirIndex(va), if user then 7 else 3;
      ModeFlags(user);
      EnsureTableKeeps(w, d, i, flags);
      var w1, e := EnsureTable(w, d, i, flags), Pack(pa / 0x1000, MapFlags(user, rw));
      if HasTable(w1.mem, d, i) {
        assert i >= KERNEL_SPACE_ENTRIES ==> EntryOwned(w1, d, i, TableIndex(va), e) by {
          assert forall f :: f in w.roles ==> RoleIs(w1, f, w.roles[f]);
        }
        SetPteKeeps(w1, d, va, e);
      }
    }
  }

  lemma AllocPageKeeps(w: World, d: nat, va: Word, user: bool, rw: bool)
    requires Inv(w) && (d == 0 || d in w.spaces)
    ensures d < FRAMES && Inv(AllocPage(w, d, va, user, rw).0)
  {
    if d in w.spaces { assert SpaceOk(w, d); }
    if d != 0 {
      TakeKeeps(w);
      var f := Pick(w);
      if f != 0 {
        MarkKeeps(Take(w), f, UserPage(StampOf(w, d), va / 0x1000));
        var w1 := Mark(Take(w), f, UserPage(StampOf(w, d), va / 0x1000));
        TakenEntryOwned(w1, d, va, f, MapFlags(user, rw));
        MapPageKeeps(w1, d, va, f * 0x1000, user, rw);
      }
    }
  }

  /** A space may map, at va, a frame it took for that page. */
  lemma TakenEntryOwned(w: World, d: nat, va: Word, f: nat, flags: Word)
    requires d in w.spaces && SpaceOk(w, d) && f < FRAMES && flags < 0x1000
    requires RoleIs(w, f, UserPage(StampOf(w, d), va / 0x1000))
    ensures EntryOwned(w, d, DirIndex(va), TableIndex(va), Pack(f, flags))
  {
    PackFields(f, flags);
    PageOfAddress(va);
  }

  /** The fresh frame holds a copy of the old one; no table has changed yet. */
  function Copied(w: World, d: nat, va: Word, f: nat): World
    requires d < FRAMES && f < FRAMES
  {
    CopyFrame(Mark(w, f, UserPage(StampOf(w, d), va / 0x1000)), FrameOf(Pte(w.mem, d, DirIndex(va), TableIndex(va))), f)
  }

  lemma CopiedKeeps(w: World, d: nat, va: Word, f: nat)
    requires Inv(w) && d in w.spaces && d < FRAMES && f != 0 && f in w.used && f !in w.roles
    ensures f < FRAMES && Inv(Copied(w, d, va, f))
    ensures forall e :: e in w.spaces ==> e < FRAMES && SameTables(w.mem, Copied(w, d, va, f).mem, e)
  {
    var w0 := Mark(w, f, UserPage(StampOf(w, d), va / 0x1000));
    MarkKeeps(w, f, UserPage(StampOf(w, d), va / 0x1000));
    var w1 := Copied(w, d, va, f);
    assert Keeps(w0, w1);
    forall s | s in w1.spaces ensures SpaceOk(w1, s) && SameTables(w.mem, w1.mem, s) {
      assert SpaceOk(w, s) && SpaceOk(w0, s);
      SpaceKept(w0, w1, s);
    }
  }

  lemma BreakKeeps(w: World, d: nat, va: Word, f: nat)
    requires Inv(w) && d in w.spaces && d < FRAMES && f != 0 && f in w.used && f !in w.roles
    requires Mapped(w.mem, d, DirIndex(va), TableIndex(va))
    ensures f < FRAMES && Inv(BreakSharing(w, d, va, f))
    ensures var w1 := Copied(w, d, va, f);
            && Inv(w1) && HasTable(w1.mem, d, DirIndex(va))
            && BreakSharing(w, d, va, f)
              == SetPte(w1, d, va, Pack(f, BrokenFlags(Pte(w.mem, d, DirIndex(va), TableIndex(va)))))
  {
    var e := Pte(w.mem, d, DirIndex(va), TableIndex(va));
    CopiedKeeps(w, d, va, f);
    var w1 := Copied(w, d, va, f);
    assert SpaceOk(w1, d);
    TakenEntryOwned(w1, d, va, f, BrokenFlags(e));
    SetPteKeeps(w1, d, va, Pack(f, BrokenFlags(e)));
  }
}
