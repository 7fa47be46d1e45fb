/** The frames of physical memory, and what the virtual memory manager does with them,
    as functions on values. The class Vmm.Manager changes the same state in place and is
    proved to compute these functions; the theorems about them are in Isolation. */
module AddressSpaces {
  import opened Words
  import opened PageEntry
  import Pmm

  const ENTRIES: nat := 1024
  const KERNEL_SPACE_ENTRIES: nat := 768

  /** One 4096-byte frame, as the 1024 words it holds. */
  type Frame = f: seq<Word> | |f| == ENTRIES witness seq(ENTRIES, _ => 0)

  /** All frames a 32-bit physical address can name. */
  type Memory = m: seq<Frame> | |m| == FRAMES witness Blank(FRAMES)

  function Zeros(): (f: Frame)
    ensures forall i :: 0 <= i < ENTRIES ==> f[i] == 0
  {
    seq(ENTRIES, _ => 0)
  }

  function Blank(n: nat): (m: seq<Frame>)
    ensures |m| == n
  {
    if n == 0 then [] else Blank(n - 1) + [Zeros()]
  }

  /** History of a live address space: a stamp no other space ever had, and the stamps of
      the spaces it was cloned from, itself included. */
  datatype Space = Space(stamp: nat, line: set<nat>)

  /** What a frame was last taken for: the directory of a space, the table in slot `idx` of
      directory `dir`, or the user page number `page` of the space with a given stamp. */
  datatype Role = Directory | Table(dir: nat, idx: nat) | UserPage(stamp: nat, page: nat)

  /** The allocator's state, physical memory and the kernel directory. The last three fields
      are history that no operation ever consults. */
  datatype World = World(used: set<nat>, max: nat, mem: Memory, kernelDir: nat,
                         spaces: map<nat, Space>, roles: map<nat, Role>, nextStamp: nat)

  // ----- addresses

  function DirIndex(va: Word): (i: nat)
    ensures i < ENTRIES
  {
    va / 0x40_0000
  }

  function TableIndex(va: Word): (j: nat)
    ensures j == va / 0x1000 % ENTRIES
  {
    Pow2At32();
    assert Pow2(10) == 1024;
    AndLow(va / 0x1000, 10);
    And(va / 0x1000, 0x3FF)
  }

  predicate Aligned(a: Word)
    ensures Aligned(a) <==> a % 0x1000 == 0
  {
    PageMask(a);
    And(a, 0xFFF) == 0
  }

  function PageOf(i: nat, j: nat): nat { i * ENTRIES + j }

  function StampOf(w: World, d: nat): nat {
    if d in w.spaces then w.spaces[d].stamp else 0
  }

  // ----- reading and writing entries

  predicate HasTable(mem: Memory, d: nat, i: nat)
    requires d < FRAMES && i < ENTRIES
  {
    Present(mem[d][i])
  }

  function TableAt(mem: Memory, d: nat, i: nat): (t: nat)
    requires d < FRAMES && i < ENTRIES
    ensures t < FRAMES
  {
    FrameOf(mem[d][i])
  }

  /** The entry of page (i, j) in the table the directory names for slot i. */
  function Pte(mem: Memory, d: nat, i: nat, j: nat): Word
    requires d < FRAMES && i < ENTRIES && j < ENTRIES
  {
    mem[TableAt(mem, d, i)][j]
  }

  predicate Mapped(mem: Memory, d: nat, i: nat, j: nat)
    requires d < FRAMES && i < ENTRIES && j < ENTRIES
  {
    HasTable(mem, d, i) && Present(Pte(mem, d, i, j))
  }

  /** User mode can reach the page: both entries on the way carry bit 2. */
  predicate Reachable(mem: Memory, d: nat, i: nat, j: nat)
    requires d < FRAMES && i < ENTRIES && j < ENTRIES
  {
    Mapped(mem, d, i, j) && ForUser(mem[d][i]) && ForUser(Pte(mem, d, i, j))
  }

  /** The kernel, and only the kernel, can write page (i, j) of d, and doing so does not fault. */
  predicate KernelWrites(mem: Memory, d: nat, i: nat, j: nat)
    requires d < FRAMES && i < ENTRIES && j < ENTRIES
  {
    Mapped(mem, d, i, j) && KernelRw(mem[d][i]) && KernelRw(Pte(mem, d, i, j))
  }

  predicate KernelRw(e: Word) { Writable(e) && !ForUser(e) && !Cow(e) }

  function SetWord(mem: Memory, f: nat, i: nat, e: Word): Memory
    requires f < FRAMES && i < ENTRIES
  {
    mem[f := mem[f][i := e]]
  }

  // ----- the operations

  /** allocate_block: the frame it returns, 0 standing for the null pointer, and its effect. */
  function Pick(w: World): nat { Pmm.Pick(w.used, w.max) }

  function Take(w: World): World {
    w.(used := Pmm.UsedAfterPick(w.used, w.max))
  }

  /** History only: what a frame has been taken for. */
  function Mark(w: World, f: nat, role: Role): World {
    w.(roles := w.roles[f := role])
  }

  /** free_block of a page-aligned address. */
  function Free(w: World, f: nat): World {
    w.(used := w.used - (if f != 0 then {f} else {}), roles := w.roles - {f})
  }

  /** Put a fresh table holding `contents` into slot i of directory d. */
  function InstallTable(w: World, d: nat, i: nat, t: nat, contents: Frame, flags: Word): World
    requires d < FRAMES && i < ENTRIES && t < FRAMES && flags < 0x1000
  {
    w.(mem := SetWord(w.mem[t := contents], d, i, Pack(t, flags)), roles := w.roles[t := Table(d, i)])
  }

  /** Start a directory: zeroed, with a stamp of its own. */
  function OpenSpace(w: World, d: nat): World
    requires d < FRAMES
  {
    World(w.used, w.max, w.mem[d := Zeros()], w.kernelDir,
          w.spaces[d := Space(w.nextStamp, {w.nextStamp})],
          w.roles[d := Directory],
          w.nextStamp + 1)
  }

  /** destroy_address_space: frees the user half's tables, then the directory. */
  function Destroy(w: World, d: nat): (r: World)
    requires d < FRAMES
    ensures r.max == w.max && r.mem == w.mem && r.kernelDir == w.kernelDir && r.nextStamp == w.nextStamp
  {
    if d == 0 || d == w.kernelDir then w
    else Free(FreeTables(Close(w, d), d, KERNEL_SPACE_ENTRIES), d)
  }

  /** History only: the space is no longer live. */
  function Close(w: World, d: nat): World { w.(spaces := w.spaces - {d}) }

  function FreeTables(w: World, d: nat, i: nat): (r: World)
    requires d < FRAMES && i <= ENTRIES
    ensures r.max == w.max && r.mem == w.mem && r.kernelDir == w.kernelDir && r.spaces == w.spaces
    ensures r.nextStamp == w.nextStamp
    decreases ENTRIES - i
  {
    if i == ENTRIES then w
    else FreeTables(if HasTable(w.mem, d, i) then Free(w, TableAt(w.mem, d, i)) else w, d, i + 1)
  }

  /** create_address_space: a directory whose low 3 GB are private copies of the kernel's tables. */
  function Create(w: World): (r: (World, nat))
    requires w.kernelDir < FRAMES && w.max <= FRAMES
    ensures r.1 < FRAMES && r.0.max == w.max
  {
    if w.kernelDir == 0 then (w, 0) else
    var d := Pick(w);
    if d == 0 then (Take(w), 0) else CopyKernel(OpenSpace(Take(w), d), d, 0)
  }

  function CopyKernel(w: World, d: nat, i: nat): (r: (World, nat))
    requires w.kernelDir < FRAMES && w.max <= FRAMES && d < FRAMES && i <= KERNEL_SPACE_ENTRIES
    ensures r.1 < FRAMES && r.0.max == w.max
    decreases KERNEL_SPACE_ENTRIES - i
  {
    if i == KERNEL_SPACE_ENTRIES then (w, d)
    else if !HasTable(w.mem, w.kernelDir, i) then CopyKernel(w, d, i + 1)
    else
      var t := Pick(w);
      if t == 0 then (Destroy(Take(w), d), 0)
      else CopyKernel(CopyKernelTable(Take(w), d, i, t), d, i + 1)
  }

  function CopyKernelTable(w: World, d: nat, i: nat, t: nat): World
    requires w.kernelDir < FRAMES && d < FRAMES && i < ENTRIES && t < FRAMES
  {
    InstallTable(w, d, i, t, w.mem[TableAt(w.mem, w.kernelDir, i)], FlagsOf(w.mem[w.kernelDir][i]))
  }

  /** The child's copy of a table: present entries lose bit 1 and gain bit 9. */
  function CowEntry(e: Word): Word {
    if Present(e) then Pack(FrameOf(e), CowFlags(e)) else 0
  }

  function CowTable(table: Frame): Frame {
    seq(ENTRIES, j requires 0 <= j < ENTRIES => CowEntry(table[j]))
  }

  /** clone_address_space. */
  function Clone(w: World, src: nat): (World, nat)
    requires w.kernelDir < FRAMES && w.max <= FRAMES && src < FRAMES
  {
    if src == 0 || src == w.kernelDir then (w, 0) else
    var c := Create(w);
    if c.1 == 0 then c else CopyUser(Descend(c.0, src, c.1), src, c.1, KERNEL_SPACE_ENTRIES)
  }

  /** History only: the new space descends from src. */
  function Descend(w: World, src: nat, d: nat): World {
    if d in w.spaces && src in w.spaces
    then w.(spaces := w.spaces[d := Space(w.spaces[d].stamp, w.spaces[d].line + w.spaces[src].line)])
    else w
  }

  function CopyUser(w: World, src: nat, d: nat, i: nat): (World, nat)
    requires w.max <= FRAMES && src < FRAMES && d < FRAMES && i <= ENTRIES
    decreases ENTRIES - i
  {
    if i == ENTRIES then (w, d)
    else if !HasTable(w.mem, src, i) then CopyUser(w, src, d, i + 1)
    else
      var t := Pick(w);
      if t == 0 then (Destroy(Take(w), d), 0)
      else CopyUser(CopyUserTable(Take(w), src, d, i, t), src, d, i + 1)
  }

  function CopyUserTable(w: World, src: nat, d: nat, i: nat, t: nat): World
    requires src < FRAMES && d < FRAMES && i < ENTRIES && t < FRAMES
  {
    InstallTable(w, d, i, t, CowTable(w.mem[TableAt(w.mem, src, i)]), FlagsOf(w.mem[src][i]))
  }

  /** map_page_in_space. */
  function MapPage(w: World, d: nat, va: Word, pa: Word, user: bool, rw: bool): World
    requires d < FRAMES && w.max <= FRAMES
  {
    if d == 0 || !Aligned(va) || !Aligned(pa) then w else
    var w1 := EnsureTable(w, d, DirIndex(va), if user then 7 else 3);
    if !HasTable(w1.mem, d, DirIndex(va)) then w1
    else SetPte(w1, d, va, Pack(pa / 0x1000, MapFlags(user, rw)))
  }

  /** The table of slot i, created empty when missing; unchanged when no block is free. */
  function EnsureTable(w: World, d: nat, i: nat, flags: Word): World
    requires d < FRAMES && i < ENTRIES && w.max <= FRAMES && flags < 0x1000
  {
    if HasTable(w.mem, d, i) then w else
    if Pick(w) == 0 then Take(w) else InstallTable(Take(w), d, i, Pick(w), Zeros(), flags)
  }

  function SetPte(w: World, d: nat, va: Word, e: Word): World
    requires d < FRAMES
  {
    w.(mem := SetWord(w.mem, TableAt(w.mem, d, DirIndex(va)), TableIndex(va), e))
  }

  /** unmap_page. */
  function Unmap(w: World, d: nat, va: Word): World
    requires d < FRAMES
  {
    if d == 0 || !Aligned(va) || !HasTable(w.mem, d, DirIndex(va)) then w
    else SetPte(w, d, va, 0)
  }

  /** get_physical_address. */
  function Physical(mem: Memory, d: nat, va: Word): Word
    requires d < FRAMES
  {
    if d == 0 || !Mapped(mem, d, DirIndex(va), TableIndex(va)) then 0
    else
      PageMask(va);
      Pack(FrameOf(Pte(mem, d, DirIndex(va), TableIndex(va))), And(va, 0xFFF))
  }

  /** allocate_page: the frame is kept even when it could not be mapped. */
  function AllocPage(w: World, d: nat, va: Word, user: bool, rw: bool): (World, Word)
    requires d < FRAMES && w.max < FRAMES
  {
    if d == 0 then (w, 0) else
    var f := Pick(w);
    if f == 0 then (Take(w), 0)
    else (MapPage(Mark(Take(w), f, UserPage(StampOf(w, d), va / 0x1000)), d, va, f * 0x1000, user, rw), f * 0x1000)
  }

  /** free_page. */
  function FreePage(w: World, d: nat, va: Word): World
    requires d < FRAMES
  {
    if d == 0 then w else
    var pa := Physical(w.mem, d, va);
    if pa == 0 then w
    else Unmap(if pa % 0x1000 == 0 then Free(w, pa / 0x1000) else w, d, va)
  }

  /** The copy-on-write branch of the page-fault handler, and whether it resumed execution. */
  function Fault(w: World, d: nat, va: Word, present: bool, write: bool): (World, bool)
    requires d < FRAMES && w.max <= FRAMES
  {
    if !present || !write || d == 0 || !Mapped(w.mem, d, DirIndex(va), TableIndex(va)) then (w, false) else
    var e := Pte(w.mem, d, DirIndex(va), TableIndex(va));
    if !Cow(e) then (w, false) else
    if Pick(w) == 0 then (Take(w), false) else (BreakSharing(Take(w), d, va, Pick(w)), true)
  }

  function CopyFrame(w: World, from: nat, to: nat): World
    requires from < FRAMES && to < FRAMES
  {
    w.(mem := w.mem[to := w.mem[from]])
  }

  function BreakSharing(w: World, d: nat, va: Word, f: nat): World
    requires d < FRAMES && f < FRAMES
  {
    var e := Pte(w.mem, d, DirIndex(va), TableIndex(va));
    SetPte(CopyFrame(Mark(w, f, UserPage(StampOf(w, d), va / 0x1000)), FrameOf(e), f),
           d, va, Pack(f, BrokenFlags(e)))
  }

  /** A user-mode store of one word. The processor lets it through only when both entries on the way are
      present, writable and open to user mode. */
  function Store(w: World, d: nat, va: Word, value: Word): World
    requires d < FRAMES
  {
    if Storable(w.mem, d, va)
    then w.(mem := SetWord(w.mem, FrameOf(Pte(w.mem, d, DirIndex(va), TableIndex(va))), va % 0x1000 / 4, value))
    else w
  }

  predicate Storable(mem: Memory, d: nat, va: Word)
    requires d < FRAMES
  {
    && Reachable(mem, d, DirIndex(va), TableIndex(va))
    && Writable(mem[d][DirIndex(va)]) && Writable(Pte(mem, d, DirIndex(va), TableIndex(va)))
  }

  // ----- paging.cpp

  /** The page table that maps slot j to itself, read-write. */
  function IdentityTable(j: nat): Frame
    requires j < ENTRIES
  {
    seq(ENTRIES, i requires 0 <= i < ENTRIES => IdentityEntry(j, i))
  }

  function IdentityEntry(j: nat, i: nat): Word
    requires j < ENTRIES && i < ENTRIES
  {
    Pack(PageOf(j, i), 3)
  }

  const IDENTITY_TABLES: nat := 16

  function AsKernel(w: World, d: nat): World { w.(kernelDir := d) }

  function WithIdentityTable(w: World, j: nat): World
    requires w.max < FRAMES && w.kernelDir < FRAMES && j < IDENTITY_TABLES
  {
    InstallTable(Take(w), w.kernelDir, j, Pick(w), IdentityTable(j), 3)
  }

  /** The loop of Paging::initialize from table j on; it does not check whether allocation failed. */
  function AddIdentityTables(w: World, j: nat): (r: World)
    requires w.max < FRAMES && w.kernelDir < FRAMES && j <= IDENTITY_TABLES
    ensures r.max == w.max && r.kernelDir == w.kernelDir && r.spaces == w.spaces
    decreases IDENTITY_TABLES - j, w.max
  {
    if j == IDENTITY_TABLES then w else AddIdentityTables(WithIdentityTable(w, j), j + 1)
  }

  /** Paging::initialize followed by VMM::initialize. */
  function Boot(w: World): World
    requires w.max < FRAMES
  {
    AddIdentityTables(AsKernel(OpenSpace(Take(w), Pick(w)), Pick(w)), 0)
  }

  /** The page an address lies in. */
  function PageBase(a: Word): (p: Word)
    ensures p == a / 0x1000 * 0x1000
  {
    PageMask(a);
    And(a, Not(0xFFF))
  }

  /** Paging::map_page, on the kernel directory; it checks neither alignment nor allocation. */
  function PagingMap(w: World, va: Word, pa: Word, user: bool, rw: bool): World
    requires w.max < FRAMES && w.kernelDir < FRAMES
  {
    SetPte(if HasTable(w.mem, w.kernelDir, DirIndex(va)) then w
           else InstallTable(Take(w), w.kernelDir, DirIndex(va), Pick(w), Zeros(), if user then 7 else 3),
           w.kernelDir, va, Pack(PageBase(pa) / 0x1000, MapFlags(user, rw)))
  }
}
