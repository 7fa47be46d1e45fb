/** The invariant of the virtual memory manager: who owns each frame, and why no two
    user pages can be written through the same frame. Every operation keeps it. */
module Invariant {
  import opened Words
  import opened PageEntry
  import opened AddressSpaces

  ghost predicate RoleIs(w: World, f: nat, role: Role) {
    f in w.roles && w.roles[f] == role
  }

  /** Every table a directory names was taken for exactly that slot of that directory. */
  ghost predicate TablesOwned(w: World, d: nat)
    requires d < FRAMES
  {
    forall i: nat {:trigger HasTable(w.mem, d, i)} :: i < ENTRIES && HasTable(w.mem, d, i) ==>
      RoleIs(w, TableAt(w.mem, d, i), Table(d, i))
  }

  /** A user page maps a frame taken for that same page number by the space itself or by one
      it descends from, and maps it writable only when the space itself took it. */
  ghost predicate EntryOwned(w: World, d: nat, i: nat, j: nat, e: Word)
    requires d in w.spaces
  {
    var f := FrameOf(e);
    && f in w.roles && w.roles[f].UserPage? && w.roles[f].page == PageOf(i, j)
    && w.roles[f].stamp in w.spaces[d].line
    && (Writable(e) ==> w.roles[f].stamp == w.spaces[d].stamp)
  }

  ghost predicate PagesOwned(w: World, d: nat)
    requires d < FRAMES && d in w.spaces
  {
    forall i: nat, j: nat {:trigger Mapped(w.mem, d, i, j)} ::
      KERNEL_SPACE_ENTRIES <= i < ENTRIES && j < ENTRIES && Mapped(w.mem, d, i, j) ==>
        EntryOwned(w, d, i, j, Pte(w.mem, d, i, j))
  }

  ghost predicate SpaceOk(w: World, d: nat)
    requires d in w.spaces
  {
    && d < FRAMES
    && RoleIs(w, d, Directory)
    && TablesOwned(w, d)
    && PagesOwned(w, d)
    && w.spaces[d].stamp in w.spaces[d].line
    && w.spaces[d].stamp < w.nextStamp
    && forall s :: s in w.spaces[d].line ==> s <= w.spaces[d].stamp
  }

  ghost predicate StampsDiffer(w: World) {
    forall d, e :: d in w.spaces && e in w.spaces && d != e ==> w.spaces[d].stamp != w.spaces[e].stamp
  }

  ghost predicate FramesOk(w: World) {
    && w.max < FRAMES
    && w.kernelDir < FRAMES
    && (w.kernelDir != 0 ==> w.kernelDir in w.spaces)
    && 0 in w.used && 0 !in w.roles
    && (forall b :: b in w.used ==> b < w.max)
    && (forall f :: f in w.roles ==> f in w.used)
  }

  ghost predicate Inv(w: World) {
    && FramesOk(w)
    && StampsDiffer(w)
    && forall d :: d in w.spaces ==> SpaceOk(w, d)
  }

  lemma PageOfAddress(va: Word)
    ensures va / 0x1000 == PageOf(DirIndex(va), TableIndex(va)) < FRAMES
  {}

  // ----- what leaves a space alone

  /** Roles are only added, and no directory or table changes. */
  ghost predicate Keeps(w: World, w': World) {
    && (forall f :: f in w.roles ==> RoleIs(w', f, w.roles[f]))
    && (forall f {:trigger w.mem[f]} {:trigger w'.mem[f]} :: f in w.roles && f < FRAMES && !w.roles[f].UserPage? ==>
          w'.mem[f] == w.mem[f])
    && w.nextStamp <= w'.nextStamp
  }

  lemma SpaceKept(w: World, w': World, d: nat)
    requires d in w.spaces && SpaceOk(w, d) && Keeps(w, w')
    requires d in w'.spaces && w'.spaces[d] == w.spaces[d]
    ensures SpaceOk(w', d)
    ensures SameTables(w.mem, w'.mem, d)
  {
    assert w'.mem[d] == w.mem[d];
    forall i: nat | i < ENTRIES && HasTable(w'.mem, d, i)
      ensures RoleIs(w', TableAt(w'.mem, d, i), Table(d, i))
      ensures w'.mem[TableAt(w.mem, d, i)] == w.mem[TableAt(w.mem, d, i)]
    {
      assert HasTable(w.mem, d, i);
    }
    forall i: nat, j: nat | i < ENTRIES && j < ENTRIES && HasTable(w.mem, d, i)
      ensures Pte(w'.mem, d, i, j) == Pte(w.mem, d, i, j)
    {
      assert HasTable(w'.mem, d, i);
    }
    forall i: nat, j: nat | KERNEL_SPACE_ENTRIES <= i < ENTRIES && j < ENTRIES && Mapped(w'.mem, d, i, j)
      ensures EntryOwned(w', d, i, j, Pte(w'.mem, d, i, j))
    {
      assert HasTable(w.mem, d, i) && Mapped(w.mem, d, i, j);
    }
  }

  // ----- the elementary steps

  lemma TakeKeeps(w: World)
    requires Inv(w)
    ensures Inv(Take(w)) && Keeps(w, Take(w))
    ensures Pick(w) != 0 ==>
      Pick(w) !in w.used && Pick(w) !in w.roles && Pick(w) < w.max && Take(w).used == w.used + {Pick(w)}
    ensures Pick(w) == 0 ==> Take(w) == w
  {}

  lemma MarkKeeps(w: World, f: nat, role: Role)
    requires Inv(w) && f != 0 && f in w.used && f !in w.roles
    ensures Inv(Mark(w, f, role)) && Keeps(w, Mark(w, f, role))
  {}

  lemma OpenKeeps(w: World, d: nat)
    requires Inv(w) && d != 0 && d in w.used && d !in w.roles
    ensures d < FRAMES && Inv(OpenSpace(w, d)) && Keeps(w, OpenSpace(w, d))
    ensures d !in w.spaces
    ensures forall i: nat :: i < ENTRIES ==> !HasTable(OpenSpace(w, d).mem, d, i)
  {
    var w' := OpenSpace(w, d);
    assert forall i: nat :: i < ENTRIES ==> !HasTable(w'.mem, d, i) by { ZeroEntry(); }
    forall e | e in w'.spaces ensures SpaceOk(w', e) {
      if e != d { SpaceKept(w, w', e); }
    }
    forall e, g | e in w'.spaces && g in w'.spaces && e != g ensures w'.spaces[e].stamp != w'.spaces[g].stamp {
      assert e != d ==> SpaceOk(w, e);
      assert g != d ==> SpaceOk(w, g);
    }
  }

  /** Whether a table's contents may serve slot i of directory d. */
  ghost predicate TableFits(w: World, d: nat, i: nat, contents: Frame)
    requires d in w.spaces
  {
    i >= KERNEL_SPACE_ENTRIES ==>
      forall j: nat :: j < ENTRIES && Present(contents[j]) ==> EntryOwned(w, d, i, j, contents[j])
  }

  lemma InstallKeeps(w: World, d: nat, i: nat, t: nat, contents: Frame, flags: Word)
    requires Inv(w) && d in w.spaces && i < ENTRIES && flags < 0x1000 && Present(flags)
    requires t != 0 && t in w.used && t !in w.roles
    requires TableFits(w, d, i, contents)
    ensures t < FRAMES && d < FRAMES
    ensures Inv(InstallTable(w, d, i, t, contents, flags))
    ensures var w' := InstallTable(w, d, i, t, contents, flags);
            && (forall f :: f in w.roles && f != d ==> w'.mem[f] == w.mem[f])
            && w'.mem[t] == contents
            && w'.mem[d] == w.mem[d][i := Pack(t, flags)]
            && HasTable(w'.mem, d, i) && TableAt(w'.mem, d, i) == t
  {
    assert SpaceOk(w, d);
    var w' := InstallTable(w, d, i, t, contents, flags);
    PackFields(t, flags);
    assert t != d;
    forall e | e in w'.spaces ensures SpaceOk(w', e) {
      assert SpaceOk(w, e);
      if e == d {
        InstalledSpace(w, d, i, t, contents, flags);
      } else {
        OtherSpaceKept(w, w', d, e);
      }
    }
  }

  lemma InstalledSpace(w: World, d: nat, i: nat, t: nat, contents: Frame, flags: Word)
    requires d in w.spaces && SpaceOk(w, d) && i < ENTRIES && flags < 0x1000 && Present(flags)
    requires t < FRAMES && t !in w.roles
    requires TableFits(w, d, i, contents)
    ensures SpaceOk(InstallTable(w, d, i, t, contents, flags), d)
  {
    var w' := InstallTable(w, d, i, t, contents, flags);
    PackFields(t, flags);
    forall k: nat | k < ENTRIES && k != i && HasTable(w'.mem, d, k)
      ensures HasTable(w.mem, d, k) && TableAt(w'.mem, d, k) == TableAt(w.mem, d, k)
      ensures RoleIs(w', TableAt(w'.mem, d, k), Table(d, k))
      ensures w'.mem[TableAt(w.mem, d, k)] == w.mem[TableAt(w.mem, d, k)]
    {
      assert w'.mem[d][k] == w.mem[d][k];
      assert HasTable(w.mem, d, k);
    }
    forall k: nat, j: nat | KERNEL_SPACE_ENTRIES <= k < ENTRIES && j < ENTRIES && Mapped(w'.mem, d, k, j)
      ensures EntryOwned(w', d, k, j, Pte(w'.mem, d, k, j))
    {
      if k == i {
        assert Pte(w'.mem, d, k, j) == contents[j];
      } else {
        assert Mapped(w.mem, d, k, j);
      }
    }
  }

  /** Changing directory d, one of its tables, or a frame with no role leaves other spaces alone. */
  lemma OtherSpaceKept(w: World, w': World, d: nat, e: nat)
    requires d in w.spaces && e in w.spaces && d != e && SpaceOk(w, d) && SpaceOk(w, e)
    requires e in w'.spaces && w'.spaces[e] == w.spaces[e] && w.nextStamp <= w'.nextStamp
    requires forall f :: f in w.roles ==> RoleIs(w', f, w.roles[f])
    requires forall f {:trigger w.mem[f]} {:trigger w'.mem[f]} ::
               f in w.roles && f < FRAMES && f != d && !(w.roles[f].Table? && w.roles[f].dir == d) ==>
                 w'.mem[f] == w.mem[f]
    ensures SpaceOk(w', e)
    ensures SameTables(w.mem, w'.mem, e)
  {
    assert w'.mem[e] == w.mem[e];
    forall i: nat | i < ENTRIES && HasTable(w'.mem, e, i)
      ensures RoleIs(w', TableAt(w'.mem, e, i), Table(e, i))
      ensures w'.mem[TableAt(w.mem, e, i)] == w.mem[TableAt(w.mem, e, i)]
    {
      assert HasTable(w.mem, e, i);
    }
    forall i: nat, j: nat | i < ENTRIES && j < ENTRIES && HasTable(w.mem, e, i)
      ensures Pte(w'.mem, e, i, j) == Pte(w.mem, e, i, j)
    {
      assert HasTable(w'.mem, e, i);
    }
    forall i: nat, j: nat | KERNEL_SPACE_ENTRIES <= i < ENTRIES && j < ENTRIES && Mapped(w'.mem, e, i, j)
      ensures EntryOwned(w', e, i, j, Pte(w'.mem, e, i, j))
    {
      assert HasTable(w.mem, e, i) && Mapped(w.mem, e, i, j);
    }
  }

  /** Overwriting one page-table entry of d changes that entry and no other space's tables. */
  lemma SetPteEffect(w: World, d: nat, va: Word, e: Word)
    requires Inv(w) && d in w.spaces && d < FRAMES && HasTable(w.mem, d, DirIndex(va))
    ensures PteChanged(w.mem, SetPte(w, d, va, e).mem, d, DirIndex(va), TableIndex(va), e)
    ensures forall f :: f in w.spaces && f != d ==> f < FRAMES && SameTables(w.mem, SetPte(w, d, va, e).mem, f)
    ensures forall f: nat {:trigger w.mem[f]} {:trigger SetPte(w, d, va, e).mem[f]} ::
              f < FRAMES && !RoleIs(w, f, Table(d, DirIndex(va))) ==> SetPte(w, d, va, e).mem[f] == w.mem[f]
  {}

  /** ... and keeps the invariant when the new entry is one the space may hold. */
  lemma SetPteKeeps(w: World, d: nat, va: Word, e: Word)
    requires Inv(w) && d in w.spaces && d < FRAMES && HasTable(w.mem, d, DirIndex(va))
    requires DirIndex(va) >= KERNEL_SPACE_ENTRIES && Present(e) ==> EntryOwned(w, d, DirIndex(va), TableIndex(va), e)
    ensures Inv(SetPte(w, d, va, e))
  {
    var w' := SetPte(w, d, va, e);
    var i := DirIndex(va);
    assert SpaceOk(w, d);
    assert RoleIs(w, TableAt(w.mem, d, i), Table(d, i));
    PteSpace(w, d, va, e);
    forall f | f in w'.spaces ensures SpaceOk(w', f) {
      assert SpaceOk(w, f);
      if f != d { OtherSpaceKept(w, w', d, f); }
    }
  }

  /** The entries of d after one of them was overwritten. */
  ghost predicate PteChanged(mem: Memory, mem': Memory, d: nat, i: nat, j: nat, e: Word)
    requires d < FRAMES && i < ENTRIES && j < ENTRIES
  {
    && mem'[d] == mem[d]
    && forall k: nat, l: nat {:trigger Pte(mem', d, k, l)} {:trigger Mapped(mem', d, k, l)} ::
      k < ENTRIES && l < ENTRIES && HasTable(mem, d, k) ==>
         Pte(mem', d, k, l) == if k == i && l == j then e else Pte(mem, d, k, l)
  }

  /** Directory d names the same tables with the same entries in both memories. */
  ghost predicate SameTables(mem: Memory, mem': Memory, d: nat)
    requires d < FRAMES
  {
    && mem'[d] == mem[d]
    && forall i: nat, j: nat {:trigger Pte(mem', d, i, j)} {:trigger Mapped(mem', d, i, j)} ::
      i < ENTRIES && j < ENTRIES && HasTable(mem, d, i) ==>
         Pte(mem', d, i, j) == Pte(mem, d, i, j)
  }

  lemma PteEffect(w: World, d: nat, va: Word, e: Word)
    requires d in w.spaces && SpaceOk(w, d) && HasTable(w.mem, d, DirIndex(va))
    ensures PteChanged(w.mem, SetPte(w, d, va, e).mem, d, DirIndex(va), TableIndex(va), e)
  {}

  lemma PteSpace(w: World, d: nat, va: Word, e: Word)
    requires d in w.spaces && SpaceOk(w, d) && HasTable(w.mem, d, DirIndex(va))
    requires DirIndex(va) >= KERNEL_SPACE_ENTRIES && Present(e) ==> EntryOwned(w, d, DirIndex(va), TableIndex(va), e)
    ensures SpaceOk(SetPte(w, d, va, e), d)
  {
    var w' := SetPte(w, d, va, e);
    var i, j := DirIndex(va), TableIndex(va);
    PteEffect(w, d, va, e);
    forall k: nat | k < ENTRIES && HasTable(w'.mem, d, k)
      ensures RoleIs(w', TableAt(w'.mem, d, k), Table(d, k))
    {
      assert HasTable(w.mem, d, k);
    }
    forall k: nat, l: nat | KERNEL_SPACE_ENTRIES <= k < ENTRIES && l < ENTRIES && Mapped(w'.mem, d, k, l)
      ensures EntryOwned(w', d, k, l, Pte(w'.mem, d, k, l))
    {
      assert HasTable(w.mem, d, k);
      if !(k == i && l == j) { assert Mapped(w.mem, d, k, l); }
    }
  }
}
