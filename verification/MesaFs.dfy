/** MesaFS: files of at most ten sectors on a disk of 512-byte sectors, read and written a sector at a time. */
module MesaFs {
  import opened Words

  const SECTOR := 512
  const FILES := 8
  const FILE_SECTORS := 10
  const FILE_BYTES := FILE_SECTORS * SECTOR
  const FIRST_LBA := 100

  const FILE := 1

  datatype Entry = Entry(
    name: string, lbaStart: nat, length: nat, flags: nat, uid: Word, gid: Word, mode: Word, present: bool)

  /** A file as the rest of the kernel sees it. */
  datatype Node = Node(name: string, inode: nat, flags: nat, uid: Word, gid: Word, mask: Word)

  datatype Option<T> = None | Some(value: T)

  type Sectors = seq<seq<Byte>>

  predicate Formatted(sectors: Sectors) {
    forall i :: 0 <= i < |sectors| ==> |sectors[i]| == SECTOR
  }

  // ----- the disk as one array of bytes

  function ByteAt(sectors: Sectors, a: nat): Byte
    requires Formatted(sectors) && a < |sectors| * SECTOR
  {
    sectors[a / SECTOR][a % SECTOR]
  }

  /** after is before with data put at address lo, and nothing else changed. */
  ghost predicate Spliced(before: Sectors, after: Sectors, lo: nat, data: seq<Byte>)
    requires Formatted(before) && Formatted(after) && |before| == |after|
  {
    forall a: nat {:trigger ByteAt(after, a)} {:trigger ByteAt(before, a)} :: a < |before| * SECTOR ==>
      ByteAt(after, a) == if lo <= a < lo + |data| then data[a - lo] else ByteAt(before, a)
  }

  lemma Address(lba: nat, j: nat)
    requires j < SECTOR
    ensures (lba * SECTOR + j) / SECTOR == lba && (lba * SECTOR + j) % SECTOR == j
  {}

  /** Replacing part of one sector is a splice at its address. */
  lemma SectorSplice(sectors: Sectors, lba: nat, from: nat, data: seq<Byte>, sector: seq<Byte>)
    requires Formatted(sectors) && lba < |sectors| && from + |data| <= SECTOR
    requires sector == sectors[lba][..from] + data + sectors[lba][from + |data|..]
    ensures Formatted(sectors[lba := sector])
    ensures Spliced(sectors, sectors[lba := sector], lba * SECTOR + from, data)
  {}

  // ----- the disk driver

  class Disk {
    var sectors: Sectors

    constructor (sectors: Sectors)
      requires Formatted(sectors)
      ensures this.sectors == sectors
    {
      this.sectors := sectors;
    }

    method ReadSector(lba: nat, buffer: array<Byte>)
      requires Formatted(sectors) && lba < |sectors| && buffer.Length == SECTOR
      modifies buffer
      ensures buffer[..] == sectors[lba]
    {
      var i := 0;
      while i < SECTOR
        invariant i <= SECTOR && buffer[..i] == sectors[lba][..i]
      {
        buffer[i] := sectors[lba][i];
        i := i + 1;
      }
      assert buffer[..] == buffer[..SECTOR];
      assert sectors[lba] == sectors[lba][..SECTOR];
    }

    method WriteSector(lba: nat, buffer: array<Byte>)
      requires Formatted(sectors) && lba < |sectors| && buffer.Length == SECTOR
      modifies this
      ensures sectors == old(sectors)[lba := buffer[..]]
    {
      sectors := sectors[lba := buffer[..]];
    }
  }

  method CopyBytes(to: array<Byte>, at: nat, from: array<Byte>, start: nat, count: nat)
    requires to != from && at + count <= to.Length && start + count <= from.Length
    modifies to
    ensures forall i :: 0 <= i < to.Length ==>
      to[i] == if at <= i < at + count then from[start + i - at] else old(to[i])
  {
    var i := 0;
    while i < count
      invariant i <= count
      invariant forall j :: 0 <= j < to.Length ==>
        to[j] == if at <= j < at + i then from[start + j - at] else old(to[j])
    {
      to[at + i] := from[start + i];
      i := i + 1;
    }
  }

  // ----- the file system

  /** The sectors of the file in slot i. */
  function SlotLba(i: nat): nat {
    FIRST_LBA + i * FILE_SECTORS
  }

  /** after is before with data at lo, except for what the metadata sector holds. */
  ghost predicate Stored(baseLba: nat, before: Sectors, after: Sectors, lo: nat, data: seq<Byte>)
    requires Formatted(before) && Formatted(after) && |before| == |after|
  {
    forall a: nat {:trigger ByteAt(after, a)} {:trigger ByteAt(before, a)} ::
      a < |before| * SECTOR && a / SECTOR != baseLba + 1 ==>
      ByteAt(after, a) == if lo <= a < lo + |data| then data[a - lo] else ByteAt(before, a)
  }

  lemma MetadataAside(baseLba: nat, before: Sectors, middle: Sectors, after: Sectors, lo: nat, data: seq<Byte>)
    requires Formatted(before) && Formatted(middle) && Formatted(after) && |before| == |middle| == |after|
    requires Spliced(before, middle, lo, data)
    requires forall i: nat :: i < |middle| && i != baseLba + 1 ==> after[i] == middle[i]
    ensures Stored(baseLba, before, after, lo, data)
  {
    forall a: nat | a < |before| * SECTOR && a / SECTOR != baseLba + 1
      ensures ByteAt(after, a) == if lo <= a < lo + |data| then data[a - lo] else ByteAt(before, a)
    {
      assert ByteAt(after, a) == ByteAt(middle, a);
    }
  }

  // ----- files as arrays of bytes

  /** The address of byte o of the file in slot i. */
  function AddressOf(baseLba: nat, i: nat, o: nat): nat {
    (baseLba + SlotLba(i)) * SECTOR + o
  }

  /** Byte o of file i, and the ten sectors its own bytes are in. */
  lemma FilePlace(baseLba: nat, i: nat, o: nat)
    ensures AddressOf(baseLba, i, o) == (baseLba + 100 + 10 * i) * 512 + o
    ensures o < 5120 <==> AddressOf(baseLba, i, o) < AddressOf(baseLba, i + 1, 0)
  {}

  /** The ten sectors of slot i. */
  ghost function Slot(baseLba: nat, sectors: Sectors, i: nat): (r: seq<Byte>)
    requires Formatted(sectors) && i < FILES && baseLba + SlotLba(FILES) <= |sectors|
    ensures |r| == FILE_BYTES
  {
    seq(FILE_BYTES, o requires 0 <= o < FILE_BYTES => ByteAt(sectors, AddressOf(baseLba, i, o)))
  }

  /** The range from offset on reaches into the slot of a file after j. */
  predicate Overruns(j: nat, offset: nat, size: nat) {
    size > 0 && j + 1 < FILES && offset + size > FILE_BYTES && offset < (FILES - j) * FILE_BYTES
  }

  /** write does not check its range. Whatever the data, the other files' slots stay when it does not overrun; when it
      does, some byte of another file's slot is replaced by a byte of the data. */
  lemma OthersKeptIff(baseLba: nat, before: Sectors, after: Sectors, j: nat, offset: nat, data: seq<Byte>)
    requires Formatted(before) && Formatted(after) && |before| == |after| && baseLba + SlotLba(FILES) <= |before|
    requires j < FILES && Stored(baseLba, before, after, AddressOf(baseLba, j, offset), data)
    ensures !Overruns(j, offset, |data|) ==>
      forall i: nat :: i < FILES && i != j ==> Slot(baseLba, after, i) == Slot(baseLba, before, i)
    ensures Overruns(j, offset, |data|) ==>
      exists i: nat, o: nat, k: nat {:trigger Slot(baseLba, after, i)[o], data[k]} :: j < i < FILES && o < FILE_BYTES
        && k < |data| && AddressOf(baseLba, i, o) == AddressOf(baseLba, j, offset + k)
        && Slot(baseLba, after, i)[o] == data[k]
  {
    if Overruns(j, offset, |data|) {
      if offset < FILE_BYTES {
        SlotByte(baseLba, after, j + 1, 0);
        assert Slot(baseLba, after, j + 1)[0] == data[FILE_BYTES - offset];
      } else {
        SlotByte(baseLba, after, j + offset / FILE_BYTES, offset % FILE_BYTES);
        assert Slot(baseLba, after, j + offset / FILE_BYTES)[offset % FILE_BYTES] == data[0];
      }
    } else {
      forall i: nat | i < FILES && i != j ensures Slot(baseLba, after, i) == Slot(baseLba, before, i) {
        OtherSlot(baseLba, before, after, i, j, offset, data);
      }
    }
  }

  lemma SlotByte(baseLba: nat, sectors: Sectors, i: nat, o: nat)
    requires Formatted(sectors) && i < FILES && o < FILE_BYTES && baseLba + SlotLba(FILES) <= |sectors|
    ensures AddressOf(baseLba, i, o) < |sectors| * SECTOR && AddressOf(baseLba, i, o) / SECTOR > baseLba + 1
    ensures Slot(baseLba, sectors, i)[o] == ByteAt(sectors, AddressOf(baseLba, i, o))
  {}

  lemma OtherSlot(baseLba: nat, before: Sectors, after: Sectors, i: nat, j: nat, offset: nat, data: seq<Byte>)
    requires Formatted(before) && Formatted(after) && |before| == |after| && baseLba + SlotLba(FILES) <= |before|
    requires i < FILES && j < FILES && i != j && !Overruns(j, offset, |data|)
    requires Stored(baseLba, before, after, AddressOf(baseLba, j, offset), data)
    ensures Slot(baseLba, after, i) == Slot(baseLba, before, i)
  {
    forall o: nat | o < FILE_BYTES ensures Slot(baseLba, after, i)[o] == Slot(baseLba, before, i)[o] {
      SlotByte(baseLba, before, i, o);
      SlotByte(baseLba, after, i, o);
    }
  }

  /** What write leaves on the disk: its own slot with the data put at the offset, every other slot as it was. */
  lemma WriteIsSplice(baseLba: nat, before: Sectors, after: Sectors, i: nat, j: nat, offset: nat, data: seq<Byte>)
    requires Formatted(before) && Formatted(after) && |before| == |after| && baseLba + SlotLba(FILES) <= |before|
    requires i < FILES && j < FILES && offset + |data| <= FILE_BYTES
    requires Stored(baseLba, before, after, AddressOf(baseLba, j, offset), data)
    ensures Slot(baseLba, after, i) == var s := Slot(baseLba, before, i);
      if i == j then s[..offset] + data + s[offset + |data|..] else s
  {}

  /** A file's bytes: its slot cut off at its length. A later read of any range returns a slice of them. */
  ghost function Content(baseLba: nat, sectors: Sectors, i: nat, length: nat): seq<Byte>
    requires Formatted(sectors) && i < FILES && baseLba + SlotLba(FILES) <= |sectors| && length <= FILE_BYTES
  {
    Slot(baseLba, sectors, i)[..length]
  }

  /** Reading back what was written gives the data; what lies before it and after it is as it was. */
  lemma ReadsBack(baseLba: nat, before: Sectors, after: Sectors, i: nat, length: nat, offset: nat, data: seq<Byte>)
    requires Formatted(before) && Formatted(after) && |before| == |after| && baseLba + SlotLba(FILES) <= |before|
    requires i < FILES && length <= FILE_BYTES && offset + |data| <= FILE_BYTES
    requires Stored(baseLba, before, after, AddressOf(baseLba, i, offset), data)
    ensures var end := offset + |data|;
      var was := Content(baseLba, before, i, length);
      var now := Content(baseLba, after, i, if end > length then end else length);
      && now[offset..end] == data
      && (offset <= length ==> now[..offset] == was[..offset])
      && (end <= length ==> now[end..] == was[end..])
      && (offset <= length && end >= length ==> now == was[..offset] + data)
  {
    hide Stored, ByteAt, Slot;
    WriteIsSplice(baseLba, before, after, i, i, offset, data);
    CutSplice(Slot(baseLba, before, i), Slot(baseLba, after, i), length, offset, data);
  }

  /** A splice seen through the lengths before and after. */
  lemma CutSplice(s: seq<Byte>, t: seq<Byte>, length: nat, offset: nat, data: seq<Byte>)
    requires length <= |s| && offset + |data| <= |s| && t == s[..offset] + data + s[offset + |data|..]
    ensures var end := offset + |data|;
      var was, now := s[..length], t[..if end > length then end else length];
      && now[offset..end] == data
      && (offset <= length ==> now[..offset] == was[..offset])
      && (end <= length ==> now[end..] == was[end..])
      && (offset <= length && end >= length ==> now == was[..offset] + data)
  {}

  /** Bytes read one after the other from a file's slot are a slice of its content. */
  lemma ReadIsSlice(baseLba: nat, sectors: Sectors, i: nat, length: nat, offset: nat, read: seq<Byte>)
    requires Formatted(sectors) && i < FILES && baseLba + SlotLba(FILES) <= |sectors|
    requires offset + |read| <= length <= FILE_BYTES
    requires forall k: nat :: k < |read| ==>
      read[k] == ByteAt(sectors, AddressOf(baseLba, i, offset + k))
    ensures read == Content(baseLba, sectors, i, length)[offset..offset + |read|]
  {
    var slice := Content(baseLba, sectors, i, length)[offset..offset + |read|];
    forall k: nat | k < |read| ensures read[k] == slice[k] {
      SlotByte(baseLba, sectors, i, offset + k);
    }
  }

  /** The 32-bit file offset of byte i of a range that starts at offset. */
  function FileOffset(offset: Word, i: nat): (o: Word) {
    (offset + i) % 0x1_0000_0000
  }

  /** It does not wrap inside a sector. */
  lemma OffsetsInSector(offset: Word, done: nat, count: nat)
    requires FileOffset(offset, done) % SECTOR + count <= SECTOR
    ensures FileOffset(offset, done) + count <= 0x1_0000_0000
    ensures FileOffset(offset, done + count) == (FileOffset(offset, done) + count) % 0x1_0000_0000
    ensures forall i: nat {:trigger FileOffset(offset, i)} :: done <= i < done + count ==>
      FileOffset(offset, i) == FileOffset(offset, done) + (i - done)
  {
    hide FileOffset;
    RoomInSector(FileOffset(offset, done), count);
    forall i: nat | done <= i <= done + count
      ensures FileOffset(offset, i) == (FileOffset(offset, done) + (i - done)) % 0x1_0000_0000
    {
      OffsetAdvances(offset, done, i - done);
    }
  }

  lemma RoomInSector(o: Word, count: nat)
    requires o % SECTOR + count <= SECTOR
    ensures o + count <= 0x1_0000_0000
  {}

  lemma OffsetAdvances(offset: Word, done: nat, count: nat)
    ensures FileOffset(offset, done + count) == (FileOffset(offset, done) + count) % 0x1_0000_0000
  {
    var o, q := FileOffset(offset, done), (offset + done) / 0x1_0000_0000;
    var r, p := (o + count) % 0x1_0000_0000, (o + count) / 0x1_0000_0000;
    assert offset + done + count == (q + p) * 0x1_0000_0000 + r;
    EuclidUnique(offset + done + count, 0x1_0000_0000, q + p, r);
  }

  /** How far n bytes from offset on reach. */
  function End(offset: Word, n: nat): nat {
    if offset + n < 0x1_0000_0000 then offset + n else 0x1_0000_0000
  }

  lemma WithinEnd(offset: Word, n: nat, i: nat)
    requires i < n
    ensures FileOffset(offset, i) < End(offset, n)
  {}

  lemma OffsetWithin(offset: Word, i: nat)
    ensures offset + i < 0x1_0000_0000 ==> FileOffset(offset, i) == offset + i
  {}

  // ----- a written range

  /** Which byte of a range from offset on, counted in 32 bits from the given sector, lies at address a; a number no
      range reaches when none does. */
  function RangeIndex(start: nat, offset: Word, a: nat): (k: nat)
    ensures k <= 0x1_0000_0000
  {
    if start * SECTOR <= a < start * SECTOR + 0x1_0000_0000
    then (a - start * SECTOR - offset) % 0x1_0000_0000
    else 0x1_0000_0000
  }

  lemma RangeIndexIs(start: nat, offset: Word, a: nat, k: nat)
    requires k < 0x1_0000_0000
    ensures RangeIndex(start, offset, a) == k <==> a == start * SECTOR + FileOffset(offset, k)
  {
    var o := FileOffset(offset, k);
    assert offset + k == (offset + k) / 0x1_0000_0000 * 0x1_0000_0000 + o;
    if a == start * SECTOR + o {
      var q: int := (offset + k) / 0x1_0000_0000;
      assert a - start * SECTOR - offset == k + -q * 0x1_0000_0000;
    }
  }

  /** after is before with data at the range, and nothing else changed. */
  ghost predicate Wrote(before: Sectors, after: Sectors, start: nat, offset: Word, data: seq<Byte>)
    requires Formatted(before) && Formatted(after) && |before| == |after| && |data| < 0x1_0000_0000
  {
    forall a: nat {:trigger ByteAt(after, a)} {:trigger ByteAt(before, a)} :: a < |before| * SECTOR ==>
      ByteAt(after, a) ==
        if RangeIndex(start, offset, a) < |data| then data[RangeIndex(start, offset, a)] else ByteAt(before, a)
  }

  lemma NothingWritten(before: Sectors, start: nat, offset: Word, data: seq<Byte>)
    requires Formatted(before) && data == []
    ensures Wrote(before, before, start, offset, data)
  {}

  /** One more chunk inside a sector. */
  lemma WroteMore(before: Sectors, middle: Sectors, after: Sectors, start: nat, offset: Word, data: seq<Byte>,
    chunk: seq<Byte>)
    requires Formatted(before) && Formatted(middle) && Formatted(after) && |before| == |middle| == |after|
    requires |data| + |chunk| < 0x1_0000_0000 && FileOffset(offset, |data|) % SECTOR + |chunk| <= SECTOR
    requires Wrote(before, middle, start, offset, data)
    requires Spliced(middle, after, start * SECTOR + FileOffset(offset, |data|), chunk)
    ensures Wrote(before, after, start, offset, data + chunk)
  {
    hide RangeIndex, FileOffset;
    OffsetsInSector(offset, |data|, |chunk|);
    var lo := start * SECTOR + FileOffset(offset, |data|);
    forall a: nat | a < |before| * SECTOR
      ensures ByteAt(after, a) == var k := RangeIndex(start, offset, a);
        if k < |data + chunk| then (data + chunk)[k] else ByteAt(before, a)
    {
      var k := RangeIndex(start, offset, a);
      if k < 0x1_0000_0000 { RangeIndexIs(start, offset, a, k); }
      if lo <= a < lo + |chunk| { RangeIndexIs(start, offset, a, |data| + (a - lo)); }
    }
  }

  /** Byte k of the data is at file offset offset + k, cut to 32 bits. */
  lemma WroteAt(before: Sectors, after: Sectors, start: nat, offset: Word, data: seq<Byte>, k: nat)
    requires Formatted(before) && Formatted(after) && |before| == |after| && |data| < 0x1_0000_0000
    requires Wrote(before, after, start, offset, data) && k < |data|
    requires start * 512 + (offset + k) % 0x1_0000_0000 < |after| * SECTOR
    ensures ByteAt(after, start * 512 + (offset + k) % 0x1_0000_0000) == data[k]
  {
    RangeIndexIs(start, offset, start * 512 + (offset + k) % 0x1_0000_0000, k);
  }

  /** Without wrap-around it is one splice. */
  lemma WroteIsSpliced(before: Sectors, after: Sectors, start: nat, offset: Word, data: seq<Byte>)
    requires Formatted(before) && Formatted(after) && |before| == |after| && offset + |data| <= 0x1_0000_0000
    requires |data| < 0x1_0000_0000 && Wrote(before, after, start, offset, data)
    ensures Spliced(before, after, start * SECTOR + offset, data)
  {
    hide RangeIndex, FileOffset;
    var lo := start * SECTOR + offset;
    forall a: nat | a < |before| * SECTOR
      ensures ByteAt(after, a) == if lo <= a < lo + |data| then data[a - lo] else ByteAt(before, a)
    {
      var k := RangeIndex(start, offset, a);
      if k < |data| {
        RangeIndexIs(start, offset, a, k);
        OffsetWithin(offset, k);
      }
      if lo <= a < lo + |data| {
        RangeIndexIs(start, offset, a, a - lo);
        OffsetWithin(offset, a - lo);
      }
    }
  }

  /** The same except for what the metadata sector holds. */
  ghost predicate WroteAround(baseLba: nat, before: Sectors, after: Sectors, start: nat, offset: Word, data: seq<Byte>)
    requires Formatted(before) && Formatted(after) && |before| == |after| && |data| < 0x1_0000_0000
  {
    forall a: nat {:trigger ByteAt(after, a)} {:trigger ByteAt(before, a)} ::
      a < |before| * SECTOR && a / SECTOR != baseLba + 1 ==>
      ByteAt(after, a) ==
        if RangeIndex(start, offset, a) < |data| then data[RangeIndex(start, offset, a)] else ByteAt(before, a)
  }

  lemma MetadataAround(baseLba: nat, before: Sectors, middle: Sectors, after: Sectors, start: nat, offset: Word,
    data: seq<Byte>)
    requires Formatted(before) && Formatted(middle) && Formatted(after) && |before| == |middle| == |after|
    requires |data| < 0x1_0000_0000 && Wrote(before, middle, start, offset, data)
    requires forall i: nat :: i < |middle| && i != baseLba + 1 ==> after[i] == middle[i]
    ensures WroteAround(baseLba, before, after, start, offset, data)
  {
    hide RangeIndex;
    forall a: nat | a < |before| * SECTOR && a / SECTOR != baseLba + 1 ensures ByteAt(after, a) == ByteAt(middle, a) {}
  }

  // ----- how much is read

  /** What read makes of the size it is asked for: the sum of offset and size has 32 bits. */
  function ReadSize(length: Word, offset: Word, size: Word): Word {
    if offset >= length then 0
    else if (offset + size) % 0x1_0000_0000 > length then length - offset
    else size
  }

  /** The part of the range that lies in the file. */
  function Clipped(length: Word, offset: Word, size: Word): Word {
    if offset >= length then 0 else if size > length - offset then length - offset else size
  }

  /** read clips the range to the file exactly when the sum does not wrap, or wraps to beyond the length. */
  lemma ReadClipsIff(length: Word, offset: Word, size: Word)
    ensures ReadSize(length, offset, size) == Clipped(length, offset, size)
      <==> offset >= length || offset + size < 0x1_0000_0000 || (offset + size) % 0x1_0000_0000 > length
    ensures ReadSize(length, offset, size) != Clipped(length, offset, size) ==> ReadSize(length, offset, size) == size
  {
    if offset + size >= 0x1_0000_0000 {
      assert (offset + size) % 0x1_0000_0000 == offset + size - 0x1_0000_0000;
    }
  }

  /** Of a file of 5120 bytes, asked for 2^32 - 1 bytes from offset 1 on, read delivers all of them and not 5119. */
  lemma ReadRunsOn()
    ensures ReadSize(5120, 1, 0xFFFF_FFFF) == 0xFFFF_FFFF && Clipped(5120, 1, 0xFFFF_FFFF) == 5119
  {}

  class FileSystem {
    const disk: Disk
    const baseLba: nat
    var entries: seq<Entry>
    var metadataValid: bool

    /** Every file has the ten sectors of its slot, all on the disk, and is no longer than they are. */
    ghost predicate Valid()
      reads this, disk
    {
      && Formatted(disk.sectors)
      && baseLba + SlotLba(FILES) <= |disk.sectors|
      && |entries| == FILES
      && forall i: nat {:trigger entries[i]} :: i < FILES && entries[i].present && entries[i].flags == FILE ==>
        entries[i].lbaStart == SlotLba(i) && entries[i].length <= FILE_BYTES
    }

    ghost predicate IsFile(i: nat)
      requires |entries| == FILES
      reads this
    {
      i < FILES && entries[i].present && entries[i].flags == FILE
    }

    function Place(i: nat, o: nat): nat {
      AddressOf(baseLba, i, o)
    }

    constructor (disk: Disk, baseLba: nat)
      requires Formatted(disk.sectors) && baseLba + SlotLba(FILES) <= |disk.sectors|
      ensures Valid() && this.disk == disk && this.baseLba == baseLba && metadataValid
      ensures forall e :: e in entries ==> !e.present
    {
      this.disk := disk;
      this.baseLba := baseLba;
      entries := seq(FILES, _ => Entry("", 0, 0, 0, 0, 0, 0, false));
      metadataValid := true;
    }

    /** The content of the metadata sector is a parameter: this model does not say what it is. */
    method SaveMetadata(metadata: array<Byte>) returns (saved: bool)
      requires Formatted(disk.sectors) && baseLba + 1 < |disk.sectors| && metadata.Length == SECTOR
      modifies disk
      ensures Formatted(disk.sectors) && saved == metadataValid
      ensures disk.sectors == if metadataValid then old(disk.sectors)[baseLba + 1 := metadata[..]]
        else old(disk.sectors)
    {
      if !metadataValid { return false; }
      disk.WriteSector(baseLba + 1, metadata);
      return true;
    }

    /** One round of the loop of read: count bytes of one sector go to buffer, from sectorOffset on. */
    method ReadChunk(lba: nat, sectorOffset: nat, buffer: array<Byte>, start: nat, count: nat)
      requires Formatted(disk.sectors) && lba < |disk.sectors|
      requires sectorOffset + count <= SECTOR && start + count <= buffer.Length
      modifies buffer
      ensures forall i: nat {:trigger buffer[i]} :: start <= i < start + count ==>
        buffer[i] == ByteAt(disk.sectors, lba * SECTOR + sectorOffset + (i - start))
      ensures forall i: nat :: i < buffer.Length && !(start <= i < start + count) ==> buffer[i] == old(buffer[i])
    {
      var sectorBuf := new Byte[SECTOR];
      disk.ReadSector(lba, sectorBuf);
      CopyBytes(buffer, start, sectorBuf, sectorOffset, count);
      forall i: nat | start <= i < start + count
        ensures buffer[i] == ByteAt(disk.sectors, lba * SECTOR + sectorOffset + (i - start))
      {
        Address(lba, sectorOffset + (i - start));
      }
    }

    /** The sectors that n bytes from offset on come from are on the disk. */
    predicate OnDisk(inode: nat, offset: Word, n: nat)
      reads disk
    {
      Place(inode, End(offset, n)) <= |disk.sectors| * SECTOR
    }

    /** There must be room for the bytes delivered, and the sectors they come from must be on the disk. */
    method Read(inode: nat, offset: Word, size: Word, buffer: array<Byte>) returns (count: Word)
      requires Valid() && IsFile(inode)
      requires var n := ReadSize(entries[inode].length, offset, size); n <= buffer.Length && OnDisk(inode, offset, n)
      modifies buffer
      ensures count == ReadSize(entries[inode].length, offset, size)
      ensures Delivered(inode, offset, count, buffer[..])
      ensures 0 < count == Clipped(entries[inode].length, offset, size) ==>
        buffer[..count] == Content(baseLba, disk.sectors, inode, entries[inode].length)[offset..offset + count]
      ensures forall i :: count <= i < buffer.Length ==> buffer[i] == old(buffer[i])
    {
      hide Delivered, Content, FileOffset;
      var entry := entries[inode];
      NothingDelivered(inode, offset, buffer[..]);
      if offset >= entry.length { return 0; }
      var wanted := size;
      if (offset + size) % 0x1_0000_0000 > entry.length { wanted := entry.length - offset; }

      OffsetWithin(offset, 0);
      var startSector := baseLba + entry.lbaStart;
      var fileOffset := offset;
      var bytesRead := 0;
      while bytesRead < wanted
        invariant bytesRead <= wanted && fileOffset == FileOffset(offset, bytesRead)
        invariant Delivered(inode, offset, bytesRead, buffer[..])
        invariant forall i :: bytesRead <= i < buffer.Length ==> buffer[i] == old(buffer[i])
      {
        var sectorIndex := fileOffset / SECTOR;
        var sectorOffset := fileOffset % SECTOR;
        var remainingInSector := SECTOR - sectorOffset;
        var toCopy := wanted - bytesRead;
        if toCopy > remainingInSector { toCopy := remainingInSector; }
        OffsetsInSector(offset, bytesRead, toCopy);
        SectorOnDisk(inode, offset, wanted, bytesRead);
        ghost var was := buffer[..];
        ReadChunk(startSector + sectorIndex, sectorOffset, buffer, bytesRead, toCopy);
        MoreDelivered(inode, offset, bytesRead, toCopy, was, buffer[..]);
        bytesRead := bytesRead + toCopy;
        fileOffset := (fileOffset + toCopy) % 0x1_0000_0000;
      }
      if wanted == Clipped(entry.length, offset, size) {
        DeliveredSlice(inode, offset, wanted, buffer[..]);
      }
      return bytesRead;
    }

    /** The first n bytes of data are those of the file's sectors from offset on, whose 32-bit offset may wrap. */
    ghost predicate Delivered(inode: nat, offset: Word, n: nat, data: seq<Byte>)
      reads disk
    {
      && Formatted(disk.sectors) && n <= |data|
      && forall i: nat {:trigger FileOffset(offset, i)} :: i < n ==>
        && Place(inode, FileOffset(offset, i)) < |disk.sectors| * SECTOR
        && data[i] == ByteAt(disk.sectors, Place(inode, FileOffset(offset, i)))
    }

    /** Byte i comes from file offset offset + i, cut to 32 bits. */
    lemma DeliveredAt(inode: nat, offset: Word, n: nat, data: seq<Byte>, i: nat)
      requires Delivered(inode, offset, n, data) && i < n
      ensures var a := (baseLba + 100 + 10 * inode) * 512 + (offset + i) % 0x1_0000_0000;
        a < |disk.sectors| * SECTOR && data[i] == ByteAt(disk.sectors, a)
    {
      FilePlace(baseLba, inode, FileOffset(offset, i));
    }

    lemma NothingDelivered(inode: nat, offset: Word, data: seq<Byte>)
      requires Formatted(disk.sectors)
      ensures Delivered(inode, offset, 0, data)
    {}

    lemma SectorOnDisk(inode: nat, offset: Word, n: nat, i: nat)
      requires OnDisk(inode, offset, n) && i < n
      ensures Place(inode, FileOffset(offset, i)) < |disk.sectors| * SECTOR
      ensures baseLba + SlotLba(inode) + FileOffset(offset, i) / SECTOR < |disk.sectors|
    {
      WithinEnd(offset, n, i);
    }

    lemma MoreDelivered(inode: nat, offset: Word, done: nat, count: nat, was: seq<Byte>, now: seq<Byte>)
      requires Delivered(inode, offset, done, was) && |now| == |was| && done + count <= |was|
      requires FileOffset(offset, done) % SECTOR + count <= SECTOR
      requires baseLba + SlotLba(inode) + FileOffset(offset, done) / SECTOR < |disk.sectors|
      requires forall i: nat {:trigger now[i]} :: done <= i < done + count ==>
        now[i] == ByteAt(disk.sectors, (baseLba + SlotLba(inode) + FileOffset(offset, done) / SECTOR) * SECTOR
          + FileOffset(offset, done) % SECTOR + (i - done))
      requires forall i: nat :: i < done ==> now[i] == was[i]
      ensures Delivered(inode, offset, done + count, now)
    {
      hide FileOffset, ByteAt;
      OffsetsInSector(offset, done, count);
      assert (baseLba + SlotLba(inode) + FileOffset(offset, done) / SECTOR) * SECTOR + FileOffset(offset, done) % SECTOR
        == Place(inode, FileOffset(offset, done));
    }

    lemma DeliveredSlice(inode: nat, offset: Word, n: nat, data: seq<Byte>)
      requires Valid() && IsFile(inode) && Delivered(inode, offset, n, data) && offset + n <= entries[inode].length
      ensures data[..n] == Content(baseLba, disk.sectors, inode, entries[inode].length)[offset..offset + n]
    {
      hide FileOffset, ByteAt, Content;
      forall k: nat | k < n ensures data[k] == ByteAt(disk.sectors, AddressOf(baseLba, inode, offset + k)) {
        OffsetWithin(offset, k);
        SlotByte(baseLba, disk.sectors, inode, offset + k);
      }
      ReadIsSlice(baseLba, disk.sectors, inode, entries[inode].length, offset, data[..n]);
    }

    /** One round of the loop of write: count bytes of buffer go to one sector, from sectorOffset on. */
    method WriteChunk(lba: nat, sectorOffset: nat, buffer: array<Byte>, start: nat, count: nat, whole: bool)
      requires Formatted(disk.sectors) && lba < |disk.sectors|
      requires sectorOffset + count <= SECTOR && start + count <= buffer.Length
      requires whole ==> sectorOffset == 0 && count == SECTOR
      modifies disk
      ensures Formatted(disk.sectors) && |disk.sectors| == old(|disk.sectors|)
      ensures Spliced(old(disk.sectors), disk.sectors, lba * SECTOR + sectorOffset, buffer[start..start + count])
    {
      var sectorBuf := new Byte[SECTOR](_ => 0);
      if !whole { disk.ReadSector(lba, sectorBuf); }
      ghost var sector := disk.sectors[lba];
      CopyBytes(sectorBuf, sectorOffset, buffer, start, count);
      ghost var data := buffer[start..start + count];
      assert sectorBuf[..] == sector[..sectorOffset] + data + sector[sectorOffset + count..];
      SectorSplice(disk.sectors, lba, sectorOffset, data, sectorBuf[..]);
      disk.WriteSector(lba, sectorBuf);
    }

    method WriteData(startSector: nat, offset: Word, size: Word, buffer: array<Byte>) returns (count: Word)
      requires Formatted(disk.sectors) && size <= buffer.Length
      requires startSector * SECTOR + End(offset, size) <= |disk.sectors| * SECTOR
      modifies disk
      ensures Formatted(disk.sectors) && |disk.sectors| == old(|disk.sectors|) && count == size
      ensures Wrote(old(disk.sectors), disk.sectors, startSector, offset, buffer[..size])
    {
      hide Wrote, FileOffset;
      var fileOffset := offset;
      var bytesWritten := 0;
      ghost var before := disk.sectors;
      OffsetWithin(offset, 0);
      NothingWritten(before, startSector, offset, buffer[..0]);
      while bytesWritten < size
        invariant bytesWritten <= size && fileOffset == FileOffset(offset, bytesWritten)
        invariant Formatted(disk.sectors) && |disk.sectors| == |before|
        invariant Wrote(before, disk.sectors, startSector, offset, buffer[..bytesWritten])
      {
        var sectorIndex := fileOffset / SECTOR;
        var sectorOffset := fileOffset % SECTOR;
        var toCopy := SECTOR - sectorOffset;
        if size - bytesWritten < toCopy { toCopy := size - bytesWritten; }
        ghost var middle := disk.sectors;
        OffsetsInSector(offset, bytesWritten, toCopy);
        WithinEnd(offset, size, bytesWritten);
        WriteChunk(startSector + sectorIndex, sectorOffset, buffer, bytesWritten, toCopy,
          !(sectorOffset > 0 || size - bytesWritten < SECTOR));
        ghost var chunk := buffer[bytesWritten..bytesWritten + toCopy];
        WroteMore(before, middle, disk.sectors, startSector, offset, buffer[..bytesWritten], chunk);
        assert buffer[..bytesWritten + toCopy] == buffer[..bytesWritten] + chunk;
        bytesWritten := bytesWritten + toCopy;
        fileOffset := (fileOffset + toCopy) % 0x1_0000_0000;
      }
      return bytesWritten;
    }

    /** The range must lie on the disk; the code does not check that it lies in the file's own sectors, and its 32-bit
        offset may wrap. */
    method Write(inode: nat, offset: Word, size: Word, buffer: array<Byte>, metadata: array<Byte>) returns (count: Word)
      requires Valid() && IsFile(inode) && metadata.Length == SECTOR && size <= buffer.Length
      requires OnDisk(inode, offset, size)
      modifies this`entries, disk
      ensures Formatted(disk.sectors) && |disk.sectors| == old(|disk.sectors|) && count == size
      ensures WroteAround(baseLba, old(disk.sectors), disk.sectors, baseLba + SlotLba(inode), offset, buffer[..size])
      ensures offset + size <= 0x1_0000_0000 ==>
        Stored(baseLba, old(disk.sectors), disk.sectors, Place(inode, offset), buffer[..size])
      ensures var length, end := old(entries[inode].length), (offset + size) % 0x1_0000_0000;
        entries == old(entries)[inode := old(entries[inode]).(length := if end > length then end else length)]
      ensures Valid() <==> (offset + size) % 0x1_0000_0000 <= FILE_BYTES
    {
      hide Wrote, WroteAround, Stored, Spliced;
      var entry := entries[inode];
      ghost var before := disk.sectors;
      ghost var data := buffer[..size];
      count := WriteData(baseLba + entry.lbaStart, offset, size, buffer);
      var end := (offset + size) % 0x1_0000_0000;
      entries := entries[inode := entry.(length := if end > entry.length then end else entry.length)];
      ghost var middle := disk.sectors;
      var saved := SaveMetadata(metadata);
      MetadataAround(baseLba, before, middle, disk.sectors, baseLba + SlotLba(inode), offset, data);
      if offset + size <= 0x1_0000_0000 {
        WroteIsSpliced(before, middle, baseLba + SlotLba(inode), offset, data);
        MetadataAside(baseLba, before, middle, disk.sectors, Place(inode, offset), data);
      }
      assert entries[inode].length >= end;
    }

    /** The first free slot becomes an empty file of its owner; none is the null the code returns. */
    method CreateFile(name: string, uid: Word, gid: Word, mode: Word, metadata: array<Byte>)
      returns (node: Option<Node>)
      requires Valid() && metadata.Length == SECTOR
      modifies this, disk
      ensures Valid() && |disk.sectors| == old(|disk.sectors|)
      ensures Stored(baseLba, old(disk.sectors), disk.sectors, 0, [])
      ensures node.Some? <==> exists i: nat :: i < 8 && !old(entries)[i].present
      ensures node.None? ==> entries == old(entries) && disk.sectors == old(disk.sectors)
      ensures node.Some? ==> var i := node.value.inode;
        && node.value == Node(name, i, 1, uid, gid, mode)
        && i < 8 && !old(entries)[i].present && (forall k: nat :: k < i ==> old(entries)[k].present)
        && entries == old(entries)[i := Entry(name, 100 + 10 * i, 0, 1, uid, gid, mode, true)]
    {
      var i := 0;
      while i < FILES
        invariant i <= FILES && unchanged(this, disk)
        invariant forall k: nat :: k < i ==> entries[k].present
      {
        if !entries[i].present {
          entries := entries[i := Entry(name, FIRST_LBA + i * 10, 0, FILE, uid, gid, mode, true)];
          metadataValid := true;
          var saved := SaveMetadata(metadata);
          return Some(Node(name, i, FILE, uid, gid, mode));
        }
        i := i + 1;
      }
      return None;
    }
  }
}
