/** tools/gpt_image.py: a disk image with a primary and a backup table and a volume copied into
    its third partition, and a forgery of it. */
module GptImage {
  import opened Wrappers
  import opened Bytes
  import opened Crc32
  import opened DiskFile
  import opened Gpt
  import opened GptTable

  const MIB := 2048
  const CHUNK := 0x10_0000
  const TABLE_SECTORS := 32
  const VOL_FIRST := 129 * MIB

  /** The GUIDs an image is built with. */
  datatype Guids = Guids(disk: seq<Byte>, esp: seq<Byte>, swap: seq<Byte>, volume: seq<Byte>)

  predicate GoodGuids(g: Guids) {
    |g.disk| == 16 && |g.esp| == 16 && |g.swap| == 16 && |g.volume| == 16
  }

  function VolSectors(volume: seq<Byte>): nat {
    |volume| / SECTOR
  }

  /** The sectors of the whole disk, with 1 MiB after the volume for the backup table. */
  function Total(volume: seq<Byte>): nat {
    VOL_FIRST + VolSectors(volume) + 1 * MIB
  }

  /** What `build` accepts: whole 4 KiB blocks, and sector numbers that fit their fields. */
  predicate Buildable(volume: seq<Byte>) {
    |volume| % 4096 == 0 && Total(volume) <= U64
  }

  function Parts(volume: seq<Byte>, g: Guids): seq<Part> {
    [ Part(ESP_TYPE, g.esp, 1 * MIB, 65 * MIB - 1, Utf16("EFI system")),
      Part(SWAP_TYPE, g.swap, 65 * MIB, 129 * MIB - 1, Utf16("Horus swap")),
      Part(VOLUME_TYPE, g.volume, VOL_FIRST, VOL_FIRST + VolSectors(volume) - 1, Utf16("Horus volume")) ]
  }

  lemma PartsWellSized(volume: seq<Byte>, g: Guids)
    requires Buildable(volume) && GoodGuids(g)
    ensures forall i :: 0 <= i < |Parts(volume, g)| ==> WellSized(Parts(volume, g)[i])
  {
    hide Utf16;
  }

  function Array(volume: seq<Byte>, g: Guids): (r: seq<Byte>)
    requires Buildable(volume) && GoodGuids(g)
    ensures |r| == TABLE_SECTORS * SECTOR
  {
    PartsWellSized(volume, g);
    Entries(Parts(volume, g))
  }

  function Primary(volume: seq<Byte>, g: Guids): (f: Fields)
    requires Buildable(volume) && GoodGuids(g)
    ensures Packable(f)
  {
    var total := Total(volume);
    Fields(1, total - 1, 34, total - 34, 2, Crc(Array(volume, g)), g.disk)
  }

  function Backup(volume: seq<Byte>, g: Guids): (f: Fields)
    requires Buildable(volume) && GoodGuids(g)
    ensures Packable(f)
  {
    var total := Total(volume);
    Fields(total - 1, 1, 34, total - 34, total - 1 - TABLE_SECTORS, Crc(Array(volume, g)), g.disk)
  }

  /** The protective MBR: one partition of type 0xEE covering the disk. */
  function Mbr(total: nat): (r: seq<Byte>)
    requires total > 0
    ensures |r| == SECTOR
  {
    Zeros(446) + ([0, 0, 2, 0, 0xEE, 0xFF, 0xFF, 0xFF] + Le(1, 4) + Le(if total - 1 < 0xFFFF_FFFF then total - 1 else 0xFFFF_FFFF, 4))
    + Zeros(48) + [0x55, 0xAA]
  }

  /** The MBR has one partition, of type 0xEE, from sector 1 to the end of the disk or as far as
      32 bits reach, and the boot signature. */
  lemma MbrCovers(total: nat)
    requires total > 0
    ensures Mbr(total)[446 + 4] == 0xEE && Mbr(total)[510..] == [0x55, 0xAA]
    ensures FromLe(Slice(Mbr(total), 446 + 8, 4)) == 1
    ensures FromLe(Slice(Mbr(total), 446 + 12, 4)) == if total - 1 < 0xFFFF_FFFF then total - 1 else 0xFFFF_FFFF
    ensures Mbr(total)[..446] == Zeros(446) && Slice(Mbr(total), 462, 48) == Zeros(48)
  {
    hide Le, FromLe;
    var n := if total - 1 < 0xFFFF_FFFF then total - 1 else 0xFFFF_FFFF;
    Pow256Values();
    LeRoundTrip(1, 4);
    LeRoundTrip(n, 4);
    assert Slice(Mbr(total), 446 + 8, 4) == Le(1, 4);
    assert Slice(Mbr(total), 446 + 12, 4) == Le(n, 4);
  }

  // ----- Reading the entries back -----

  function EntryAt(i: nat): nat {
    2 * SECTOR + i * ENTRY
  }

  /** The file's `i`th entry, or as much of it as there is, starts with the volume's type. */
  predicate IsVolume(data: seq<Byte>, i: nat) {
    Cut(data, EntryAt(i), EntryAt(i) + 16) == VOLUME_TYPE
  }

  predicate FirstVolume(data: seq<Byte>, i: nat) {
    i < NENTRIES && IsVolume(data, i) && forall j: nat :: j < i ==> !IsVolume(data, j)
  }

  lemma CutOfCut(data: seq<Byte>, i: nat)
    requires i < NENTRIES
    ensures var e := Cut(Cut(data, 2 * SECTOR, 2 * SECTOR + NENTRIES * ENTRY), i * ENTRY, (i + 1) * ENTRY);
            && e == Cut(data, EntryAt(i), EntryAt(i) + ENTRY)
            && (Cut(e, 0, 16) == VOLUME_TYPE <==> IsVolume(data, i))
            && (|e| >= 48 <==> EntryAt(i) + 48 <= |data|)
  {
    hide Cut;
    CutCut(data, 2 * SECTOR, NENTRIES * ENTRY, i * ENTRY, (i + 1) * ENTRY);
    CutCut(data, EntryAt(i), ENTRY, 0, 16);
  }

  /** Writing the entries back with a change is making the change in the file. */
  lemma OverwriteEntries(data: seq<Byte>, off: nat, b: seq<Byte>)
    requires var entries := Cut(data, 2 * SECTOR, 2 * SECTOR + NENTRIES * ENTRY); off + |b| <= |entries|
    ensures var entries := Cut(data, 2 * SECTOR, 2 * SECTOR + NENTRIES * ENTRY);
            Written(data, 2 * SECTOR, Written(entries, off, b)) == Written(data, 2 * SECTOR + off, b)
  {
    hide Written;
    if |data| >= 2 * SECTOR {
      WrittenInside(data, 2 * SECTOR, 2 * SECTOR + |Cut(data, 2 * SECTOR, 2 * SECTOR + NENTRIES * ENTRY)|, off, b);
    } else {
      WrittenNothing([], 0);
    }
  }

  /** How a forgery ends. */
  datatype Forgery = Moved(row: nat) | CutOff(row: nat) | NoEntry

  method WriteTables(f: ImageFile, total: nat, mbr: seq<Byte>, primary: seq<Byte>, entries: seq<Byte>, backup: seq<Byte>)
    requires f.data == [] && total >= 100
    requires |mbr| == SECTOR && |primary| == 92 && |backup| == 92 && |entries| == TABLE_SECTORS * SECTOR
    modifies f
    ensures f.data == Tables(total, mbr, primary, entries, backup)
  {
    hide Written;
    f.Truncate(total * SECTOR);
    assert f.data == Zeros(total * SECTOR);
    f.Seek(0);
    f.Write(mbr);
    f.Seek(1 * SECTOR);
    f.Write(primary);
    f.Seek(2 * SECTOR);
    f.Write(entries);
    f.Seek((total - 1 - TABLE_SECTORS) * SECTOR);
    f.Write(entries);
    f.Seek((total - 1) * SECTOR);
    f.Write(backup);
  }

  /** Copy the volume in, a chunk at a time. */
  method CopyIn(f: ImageFile, at0: nat, volume: seq<Byte>)
    requires at0 + |volume| <= |f.data|
    modifies f
    ensures f.data == Written(old(f.data), at0, volume)
  {
    hide Written;
    f.Seek(at0);
    var at := 0;
    ghost var before := f.data;
    WrittenNothing(before, at0);
    assert volume[..0] == [];
    while at < |volume|
      invariant 0 <= at <= |volume| && f.pos == at0 + at
      invariant f.data == Written(before, at0, volume[..at])
    {
      var n := if |volume| - at < CHUNK then |volume| - at else CHUNK;
      WrittenTwice(before, at0, volume[..at], volume[at..at + n]);
      assert volume[..at] + volume[at..at + n] == volume[..at + n];
      f.Write(volume[at..at + n]);
      at := at + n;
    }
    assert volume[..at] == volume;
  }

  /** How a build ends. */
  datatype Built = Made | NotWholeBlocks | Indescribable | Emptied

  /** A file's size is a signed 64-bit number to the system. */
  const OFFSET_LIMIT := 0x8000_0000_0000_0000

  /** How the build of `volume` ends, where files have at most `largest` bytes. Its entry is packed before the file is opened, and the file is
      emptied before it is given its size. */
  function Ending(volume: seq<Byte>, largest: nat): Built {
    if |volume| % 4096 != 0 then NotWholeBlocks
    else if VOL_FIRST + VolSectors(volume) > U64 then Indescribable
    else if Total(volume) * SECTOR > largest then Emptied
    else Made
  }

  lemma MadeIsBuildable(volume: seq<Byte>, largest: nat)
    requires largest < OFFSET_LIMIT && Ending(volume, largest) == Made
    ensures Buildable(volume)
  {
  }

  /** Write the image of `volume` over whatever the file holds. A volume that is not whole blocks,
      or that no entry can describe, leaves the file as it was; an image that no file can hold
      leaves it empty. */
  method Build(f: ImageFile, volume: seq<Byte>, g: Guids, largest: nat) returns (r: Built)
    requires GoodGuids(g) && largest < OFFSET_LIMIT
    modifies f
    ensures r == Ending(volume, largest) && (r == Made ==> Buildable(volume))
    ensures r == NotWholeBlocks || r == Indescribable ==> f.data == old(f.data)
    ensures r == Emptied ==> f.data == []
    ensures r == Made ==> f.data == ImageOf(volume, g)
  {
    hide Written, Tables, Array, Primary, Backup, Mbr, Header;
    if |volume| % 4096 != 0 { return NotWholeBlocks; }
    if VOL_FIRST + VolSectors(volume) > U64 { return Indescribable; }
    f.Truncate(0);
    var total := Total(volume);
    if total * SECTOR > largest { return Emptied; }
    MadeIsBuildable(volume, largest);
    WriteTables(f, total, Mbr(total), Header(Primary(volume, g)), Array(volume, g), Header(Backup(volume, g)));
    CopyIn(f, VOL_FIRST * SECTOR, volume);
    return Made;
  }

  /** Move the start of the first volume entry onto the swap partition, and touch nothing else,
      not even a CRC. An entry cut off by the end of the file makes the tool stop. */
  method Tamper(f: ImageFile) returns (r: Forgery)
    modifies f
    ensures r.Moved? ==> FirstVolume(old(f.data), r.row) && EntryAt(r.row) + 48 <= |old(f.data)|
    ensures r.Moved? ==> f.data == Written(old(f.data), EntryAt(r.row) + 32, Le(65 * MIB, 8))
    ensures r.CutOff? ==> FirstVolume(old(f.data), r.row) && |old(f.data)| < EntryAt(r.row) + 48
    ensures r.NoEntry? ==> forall i: nat :: i < NENTRIES ==> !IsVolume(old(f.data), i)
    ensures !r.Moved? ==> f.data == old(f.data)
  {
    hide Le;
    f.Seek(2 * SECTOR);
    var entries := f.Read(NENTRIES * ENTRY);
    for i := 0 to NENTRIES
      invariant f.data == old(f.data) && entries == Cut(f.data, 2 * SECTOR, 2 * SECTOR + NENTRIES * ENTRY)
      invariant forall j: nat :: j < i ==> !IsVolume(f.data, j)
    {
      var e := Cut(entries, i * ENTRY, (i + 1) * ENTRY);
      CutOfCut(f.data, i);
      if Cut(e, 0, 16) == VOLUME_TYPE {
        if |e| < 48 { return CutOff(i); }
        entries := Written(entries, i * ENTRY + 32, Le(65 * MIB, 8));
        OverwriteEntries(f.data, i * ENTRY + 32, Le(65 * MIB, 8));
        f.Seek(2 * SECTOR);
        f.Write(entries);
        return Moved(i);
      }
    }
    return NoEntry;
  }

  /** A disk of `total` sectors with its tables written, and nothing else. */
  function Tables(total: nat, mbr: seq<Byte>, primary: seq<Byte>, entries: seq<Byte>, backup: seq<Byte>): (r: seq<Byte>)
    requires total >= 100 && |mbr| == SECTOR && |primary| == 92 && |backup| == 92 && |entries| == TABLE_SECTORS * SECTOR
    ensures |r| == total * SECTOR
  {
    var d0 := Written(Zeros(total * SECTOR), 0, mbr);
    var d1 := Written(d0, 1 * SECTOR, primary);
    var d2 := Written(d1, 2 * SECTOR, entries);
    var d3 := Written(d2, (total - 1 - TABLE_SECTORS) * SECTOR, entries);
    Written(d3, (total - 1) * SECTOR, backup)
  }

  /** The image `build` writes. */
  function ImageOf(volume: seq<Byte>, g: Guids): (r: seq<Byte>)
    requires Buildable(volume) && GoodGuids(g)
    ensures |r| == Total(volume) * SECTOR
  {
    var total := Total(volume);
    var tables := Tables(total, Mbr(total), Header(Primary(volume, g)), Array(volume, g), Header(Backup(volume, g)));
    Written(tables, VOL_FIRST * SECTOR, volume)
  }

  // ----- Where everything is -----

  lemma EmptyAfterMbr(n: nat, mbr: seq<Byte>)
    requires |mbr| == SECTOR && n >= 100 * SECTOR
    ensures var d := Written(Zeros(n), 0, mbr);
            d[..SECTOR] == mbr && d[SECTOR..2 * SECTOR] == Zeros(SECTOR) && d[n - SECTOR..n] == Zeros(SECTOR)
  {
    hide Written;
    var z := Zeros(n);
    WrittenGives(z, 0, mbr);
    WrittenKeeps(z, 0, mbr, SECTOR, 2 * SECTOR);
    WrittenKeeps(z, 0, mbr, n - SECTOR, n);
    assert z[SECTOR..2 * SECTOR] == Zeros(SECTOR) && z[n - SECTOR..n] == Zeros(SECTOR);
  }

  /** The three writes at the front, and the last sector still empty. */
  lemma FrontRegions(n: nat, mbr: seq<Byte>, primary: seq<Byte>, entries: seq<Byte>)
    requires n >= 100 * SECTOR && |mbr| == SECTOR && |primary| == 92 && |entries| == TABLE_SECTORS * SECTOR
    ensures var d := Written(Written(Written(Zeros(n), 0, mbr), SECTOR, primary), 2 * SECTOR, entries);
            && |d| == n && d[..SECTOR] == mbr && d[SECTOR..2 * SECTOR] == PadTo(primary, SECTOR)
            && d[2 * SECTOR..34 * SECTOR] == entries && d[n - SECTOR..n] == Zeros(SECTOR)
  {
    hide Written;
    var d0 := Written(Zeros(n), 0, mbr);
    EmptyAfterMbr(n, mbr);
    var d1 := Written(d0, SECTOR, primary);
    WrittenPads(d0, SECTOR, primary, SECTOR);
    WrittenKeeps(d0, SECTOR, primary, 0, SECTOR);
    WrittenKeeps(d0, SECTOR, primary, n - SECTOR, n);
    WrittenGives(d1, 2 * SECTOR, entries);
    WrittenKeeps(d1, 2 * SECTOR, entries, 0, SECTOR);
    WrittenKeeps(d1, 2 * SECTOR, entries, SECTOR, 2 * SECTOR);
    WrittenKeeps(d1, 2 * SECTOR, entries, n - SECTOR, n);
  }

  /** The two writes at the back leave the front alone. */
  lemma BackRegions(d: seq<Byte>, total: nat, entries: seq<Byte>, backup: seq<Byte>)
    requires total >= 100 && |d| == total * SECTOR && |backup| == 92 && |entries| == TABLE_SECTORS * SECTOR
    requires d[|d| - SECTOR..] == Zeros(SECTOR)
    ensures var t := Written(Written(d, (total - 33) * SECTOR, entries), (total - 1) * SECTOR, backup);
            && t[..34 * SECTOR] == d[..34 * SECTOR]
            && t[(total - 33) * SECTOR..(total - 1) * SECTOR] == entries && t[(total - 1) * SECTOR..] == PadTo(backup, SECTOR)
  {
    hide Written;
    var at, last := (total - 33) * SECTOR, (total - 1) * SECTOR;
    var d3 := Written(d, at, entries);
    WrittenGives(d, at, entries);
    WrittenKeeps(d, at, entries, 0, 34 * SECTOR);
    WrittenKeeps(d, at, entries, last, last + SECTOR);
    WrittenPads(d3, last, backup, SECTOR);
    WrittenKeeps(d3, last, backup, 0, 34 * SECTOR);
    WrittenKeeps(d3, last, backup, at, last);
  }

  lemma TablesRegions(total: nat, mbr: seq<Byte>, primary: seq<Byte>, entries: seq<Byte>, backup: seq<Byte>)
    requires total >= 100 && |mbr| == SECTOR && |primary| == 92 && |backup| == 92 && |entries| == TABLE_SECTORS * SECTOR
    ensures var t := Tables(total, mbr, primary, entries, backup);
            && t[..SECTOR] == mbr
            && t[SECTOR..2 * SECTOR] == PadTo(primary, SECTOR)
            && t[2 * SECTOR..34 * SECTOR] == entries
            && t[(total - 33) * SECTOR..(total - 1) * SECTOR] == entries
            && t[(total - 1) * SECTOR..] == PadTo(backup, SECTOR)
  {
    hide Written;
    var n := total * SECTOR;
    var d := Written(Written(Written(Zeros(n), 0, mbr), SECTOR, primary), 2 * SECTOR, entries);
    FrontRegions(n, mbr, primary, entries);
    BackRegions(d, total, entries, backup);
    var t := Tables(total, mbr, primary, entries, backup);
    SameFront(t, d);
  }

  lemma SameFront(t: seq<Byte>, d: seq<Byte>)
    requires |t| >= 34 * SECTOR && |d| >= 34 * SECTOR && t[..34 * SECTOR] == d[..34 * SECTOR]
    ensures t[..SECTOR] == d[..SECTOR] && t[SECTOR..2 * SECTOR] == d[SECTOR..2 * SECTOR] && t[2 * SECTOR..34 * SECTOR] == d[2 * SECTOR..34 * SECTOR]
  {
    var a, b := t[..34 * SECTOR], d[..34 * SECTOR];
    assert t[..SECTOR] == a[..SECTOR] && d[..SECTOR] == b[..SECTOR];
    assert t[SECTOR..2 * SECTOR] == a[SECTOR..2 * SECTOR] && d[SECTOR..2 * SECTOR] == b[SECTOR..2 * SECTOR];
    assert t[2 * SECTOR..34 * SECTOR] == a[2 * SECTOR..] && d[2 * SECTOR..34 * SECTOR] == b[2 * SECTOR..];
  }

  /** Every region of the built image holds what belongs there: the MBR, both headers, both
      arrays, and in the third partition exactly the bytes of the volume. */
  lemma ImageRegions(volume: seq<Byte>, g: Guids)
    requires Buildable(volume) && GoodGuids(g)
    ensures var d, total := ImageOf(volume, g), Total(volume);
            && d[..SECTOR] == Mbr(total)
            && d[SECTOR..2 * SECTOR] == HeaderSector(Primary(volume, g))
            && d[2 * SECTOR..34 * SECTOR] == Array(volume, g)
            && d[VOL_FIRST * SECTOR..VOL_FIRST * SECTOR + |volume|] == volume
            && d[(total - 33) * SECTOR..(total - 1) * SECTOR] == Array(volume, g)
            && d[(total - 1) * SECTOR..] == HeaderSector(Backup(volume, g))
  {
    hide Written, Tables, Array, Primary, Backup, Mbr, Header;
    var total := Total(volume);
    var mbr, h1, e, h2 := Mbr(total), Header(Primary(volume, g)), Array(volume, g), Header(Backup(volume, g));
    var t := Tables(total, mbr, h1, e, h2);
    TablesRegions(total, mbr, h1, e, h2);
    var at := VOL_FIRST * SECTOR;
    WrittenGives(t, at, volume);
    WrittenKeeps(t, at, volume, 0, SECTOR);
    WrittenKeeps(t, at, volume, SECTOR, 2 * SECTOR);
    WrittenKeeps(t, at, volume, 2 * SECTOR, 34 * SECTOR);
    WrittenKeeps(t, at, volume, (total - 33) * SECTOR, (total - 1) * SECTOR);
    WrittenKeeps(t, at, volume, (total - 1) * SECTOR, total * SECTOR);
  }

  /** The sectors of the image's parts, in order: the MBR, the primary header and array, the
      three partitions, the backup array and header. */
  function Extents(volume: seq<Byte>): seq<(nat, nat)> {
    var total := Total(volume);
    [(0, 1), (1, 2), (2, 34), (1 * MIB, 65 * MIB), (65 * MIB, 129 * MIB), (VOL_FIRST, VOL_FIRST + VolSectors(volume)),
     (total - 33, total - 1), (total - 1, total)]
  }

  /** No two parts share a sector, every part is on the disk, and every partition is in the
      range both headers call usable. */
  lemma ExtentsAreDisjoint(volume: seq<Byte>, g: Guids)
    requires Buildable(volume) && GoodGuids(g)
    ensures forall i, j :: 0 <= i < j < |Extents(volume)| ==> Extents(volume)[i].1 <= Extents(volume)[j].0
    ensures forall i :: 0 <= i < |Extents(volume)| ==> Extents(volume)[i].0 <= Extents(volume)[i].1 <= Total(volume)
    ensures forall i :: 0 <= i < |Parts(volume, g)| ==>
              && Extents(volume)[3 + i] == (Parts(volume, g)[i].first, Parts(volume, g)[i].last + 1)
              && Primary(volume, g).firstUsable <= Parts(volume, g)[i].first
              && Parts(volume, g)[i].last <= Primary(volume, g).lastUsable
  {
    hide Utf16, Array;
  }

  // ----- What the kernel's reader makes of the image -----

  lemma TypesDiffer()
    ensures ESP_TYPE != VOLUME_TYPE && SWAP_TYPE != VOLUME_TYPE && ESP_TYPE != SWAP_TYPE
  {
    assert ESP_TYPE[0] == 0x28 && VOLUME_TYPE[0] == 0x3E && SWAP_TYPE[0] == 0x3E;
    assert SWAP_TYPE[15] == 0x6E && VOLUME_TYPE[15] == 0x6D;
  }

  lemma OneOfEachType(volume: seq<Byte>, g: Guids)
    ensures OnlyPart(Parts(volume, g), 1) && OnlyPart(Parts(volume, g), 2)
  {
    hide Utf16;
    TypesDiffer();
  }

  lemma FrontHasTable(volume: seq<Byte>, g: Guids, n: nat)
    requires Buildable(volume) && GoodGuids(g) && 34 * SECTOR <= n <= |ImageOf(volume, g)|
    ensures HasTable(ImageOf(volume, g)[..n], Primary(volume, g), Parts(volume, g))
  {
    hide ImageOf, HeaderSector, Entries, Crc, Mbr, Parts;
    PartsWellSized(volume, g);
    ImageRegions(volume, g);
    var d := ImageOf(volume, g);
    assert d[..n][SECTOR..2 * SECTOR] == d[SECTOR..2 * SECTOR];
    assert d[..n][2 * SECTOR..34 * SECTOR] == d[2 * SECTOR..34 * SECTOR];
    PartsAre(volume, g);
  }

  /** The device is large enough for the volume, and there is a volume. */
  predicate Holds(volume: seq<Byte>, deviceBlocks: nat) {
    volume != [] && VOL_FIRST / 8 + |volume| / 4096 <= deviceBlocks
  }

  lemma VolumeRange(volume: seq<Byte>, deviceBlocks: nat)
    requires Buildable(volume)
    ensures VolumeBlocks(VOL_FIRST, VOL_FIRST + VolSectors(volume) - 1, 34, Total(volume) - 34, 34, deviceBlocks)
         == if Holds(volume, deviceBlocks) then Some((VOL_FIRST / 8, |volume| / 4096)) else None
  {
    var n := VolSectors(volume);
    assert |volume| == 4096 * (|volume| / 4096) && n == 8 * (|volume| / 4096);
  }

  lemma PartsAre(volume: seq<Byte>, g: Guids)
    ensures |Parts(volume, g)| == 3
    ensures var p := Parts(volume, g)[1]; p.ty == SWAP_TYPE && p.first == 65 * MIB && p.last == 129 * MIB - 1
    ensures var p := Parts(volume, g)[2]; p.ty == VOLUME_TYPE && p.first == VOL_FIRST && p.last == VOL_FIRST + VolSectors(volume) - 1
  {
    hide Utf16;
  }

  lemma PrimaryIs(volume: seq<Byte>, g: Guids)
    requires Buildable(volume) && GoodGuids(g)
    ensures Primary(volume, g).firstUsable == 34 && Primary(volume, g).lastUsable == Total(volume) - 34
  {
    hide Array;
  }

  /** THE KERNEL FINDS THE VOLUME THE TOOL PUT THERE: whatever part of the image it reads, once
      the table is in it, it finds the third partition at its place and its size; it refuses
      the range exactly when the volume is empty or the device too small for it. */
  lemma ImageVolumeIsFound(volume: seq<Byte>, g: Guids, n: nat, deviceBlocks: nat)
    requires Buildable(volume) && GoodGuids(g) && 34 * SECTOR <= n <= |ImageOf(volume, g)|
    ensures FindVolume(ImageOf(volume, g)[..n], deviceBlocks)
         == if Holds(volume, deviceBlocks) then Found(VOL_FIRST / 8, |volume| / 4096) else Refused(GPT_BAD_RANGE)
  {
    hide ImageOf, HasTable, Locate, Parts, OnlyPart, VolumeBlocks, Primary;
    PrimaryIs(volume, g);
    FrontHasTable(volume, g, n);
    OneOfEachType(volume, g);
    PartsAre(volume, g);
    PartIsFound(ImageOf(volume, g)[..n], Primary(volume, g), Parts(volume, g), 2, deviceBlocks, GPT_TWO_VOLUMES);
    VolumeRange(volume, deviceBlocks);
  }

  /** The blocks the kernel finds are the volume's bytes. */
  lemma ImageHoldsVolume(volume: seq<Byte>, g: Guids)
    requires Buildable(volume) && GoodGuids(g)
    ensures (VOL_FIRST / 8 + |volume| / 4096) * 4096 <= |ImageOf(volume, g)|
    ensures ImageOf(volume, g)[VOL_FIRST / 8 * 4096..(VOL_FIRST / 8 + |volume| / 4096) * 4096] == volume
  {
    hide ImageOf, HeaderSector, Array, Primary, Backup, Mbr;
    ImageRegions(volume, g);
  }

  lemma SwapRange(total: nat, deviceBlocks: nat)
    requires 130 * MIB <= total <= U64 && deviceBlocks >= VOL_FIRST / 8
    ensures VolumeBlocks(65 * MIB, 129 * MIB - 1, 34, total - 34, 34, deviceBlocks) == Some((65 * MIB / 8, 64 * MIB / 8))
  {
  }

  /** The swap partition is found where the tool put it, whenever the volume is. */
  lemma ImageSwapIsFound(volume: seq<Byte>, g: Guids, n: nat, deviceBlocks: nat)
    requires Buildable(volume) && GoodGuids(g) && 34 * SECTOR <= n <= |ImageOf(volume, g)|
    ensures FindSwap(ImageOf(volume, g)[..n], deviceBlocks)
         == if Holds(volume, deviceBlocks) then Found(65 * MIB / 8, 64 * MIB / 8) else Refused(GPT_BAD_RANGE)
  {
    hide ImageOf, HasTable, Locate, Parts, OnlyPart, VolumeBlocks, FindVolume, Primary;
    PrimaryIs(volume, g);
    ImageVolumeIsFound(volume, g, n, deviceBlocks);
    if Holds(volume, deviceBlocks) {
      FrontHasTable(volume, g, n);
      OneOfEachType(volume, g);
      PartsAre(volume, g);
      PartIsFound(ImageOf(volume, g)[..n], Primary(volume, g), Parts(volume, g), 1, deviceBlocks, GPT_TWO_SWAPS);
      SwapRange(Total(volume), deviceBlocks);
    }
  }

  /** Each header's CRC is right, and its fields are the ones it was written with. */
  lemma BothHeadersVerify(volume: seq<Byte>, g: Guids)
    requires Buildable(volume) && GoodGuids(g)
    ensures var d, total := ImageOf(volume, g), Total(volume);
            && Describes(d[SECTOR..2 * SECTOR], Primary(volume, g))
            && Describes(d[(total - 1) * SECTOR..], Backup(volume, g))
  {
    hide ImageOf, HeaderSector, Crc, Mbr, Parts, Array, Describes, Primary, Backup;
    ImageRegions(volume, g);
    SectorDescribes(Primary(volume, g));
    SectorDescribes(Backup(volume, g));
  }

  /** BOTH TABLES AGREE: the headers name each other's sectors and the same usable range; each
      names the sector of an array with the CRC it states, and the two arrays are the same. */
  lemma BothTablesAgree(volume: seq<Byte>, g: Guids)
    requires Buildable(volume) && GoodGuids(g)
    ensures var p, b := Primary(volume, g), Backup(volume, g);
            && p.my == 1 == b.alt && b.my == Total(volume) - 1 == p.alt
            && p.firstUsable == b.firstUsable && p.lastUsable == b.lastUsable
    ensures var d, p, b := ImageOf(volume, g), Primary(volume, g), Backup(volume, g);
            && p.entriesLba * SECTOR + NENTRIES * ENTRY <= |d| && b.entriesLba * SECTOR + NENTRIES * ENTRY <= |d|
            && Slice(d, p.entriesLba * SECTOR, NENTRIES * ENTRY) == Slice(d, b.entriesLba * SECTOR, NENTRIES * ENTRY)
            && Crc(Slice(d, p.entriesLba * SECTOR, NENTRIES * ENTRY)) == p.entriesCrc == b.entriesCrc
  {
    hide ImageOf, HeaderSector, Crc, Mbr, Parts, Array, Describes;
    ImageRegions(volume, g);
  }

  // ----- The forgery -----

  lemma LeStep(v: nat, n: nat, low: nat, rest: nat)
    requires n > 0 && v == 256 * rest + low && low < 256
    ensures Le(v, n) == [ByteOf(low)] + Le(rest, n - 1)
  {
  }

  lemma BytesDiffer(x: nat, y: nat)
    requires x < 256 && y < 256 && x != y
    ensures ByteOf(x) != ByteOf(y)
  {
    ByteRoundTrip(x);
    ByteRoundTrip(y);
  }

  /** Two numbers that differ in their third byte alone. */
  lemma ThirdByte(a: nat, b: nat, x: nat, y: nat)
    requires a < 256 && b < 256 && x < 256 && y < 256 && x != y
    ensures var u, v := 65536 * x + 256 * b + a, 65536 * y + 256 * b + a;
            Le(v, 8) == Le(u, 8)[2 := ByteOf(y)] && Le(u, 8)[2] != ByteOf(y)
  {
    hide Le;
    LeStep(65536 * x + 256 * b + a, 8, a, 256 * x + b);
    LeStep(256 * x + b, 7, b, x);
    LeStep(x, 6, x, 0);
    LeStep(65536 * y + 256 * b + a, 8, a, 256 * y + b);
    LeStep(256 * y + b, 7, b, y);
    LeStep(y, 6, y, 0);
    BytesDiffer(x, y);
  }

  /** The volume's entry is the third, and the first of its type. */
  lemma VolumeIsThird(volume: seq<Byte>, g: Guids)
    requires Buildable(volume) && GoodGuids(g)
    ensures forall i: nat :: FirstVolume(ImageOf(volume, g), i) <==> i == 2
    ensures Slice(ImageOf(volume, g), EntryAt(2) + 32, 8) == Le(VOL_FIRST, 8)
  {
    hide ImageOf, HeaderSector, Entries, Entry, Crc, Mbr, Parts, Primary, Backup, Le;
    var d := ImageOf(volume, g);
    ImageRegions(volume, g);
    PartsWellSized(volume, g);
    PartsAre(volume, g);
    OneOfEachType(volume, g);
    OnlyPartIsOnlyRow(Parts(volume, g), 2);
    EntryFields(Parts(volume, g)[2]);
    forall i: nat | i < NENTRIES
      ensures Cut(d, EntryAt(i), EntryAt(i) + 16) == Row(Array(volume, g), i)[..16]
      ensures Slice(d, EntryAt(i) + 32, 8) == Slice(Row(Array(volume, g), i), 32, 8)
    {
      SliceOfSlice(d, i);
    }
  }

  lemma SliceOfSlice(d: seq<Byte>, i: nat)
    requires |d| >= 34 * SECTOR && i < NENTRIES
    ensures var row := Row(d[2 * SECTOR..34 * SECTOR], i);
            && Cut(d, EntryAt(i), EntryAt(i) + 16) == row[..16]
            && Slice(d, EntryAt(i) + 32, 8) == Slice(row, 32, 8)
  {
    var e := d[2 * SECTOR..34 * SECTOR];
    Subslice(d, 2 * SECTOR, 34 * SECTOR, i * ENTRY, (i + 1) * ENTRY);
    Subslice(d, EntryAt(i), EntryAt(i) + ENTRY, 0, 16);
    Subslice(d, EntryAt(i), EntryAt(i) + ENTRY, 32, 40);
  }

  /** The disk after `Tamper` moved the entry. */
  function Forged(volume: seq<Byte>, g: Guids): seq<Byte>
    requires Buildable(volume) && GoodGuids(g)
  {
    Written(ImageOf(volume, g), EntryAt(2) + 32, Le(65 * MIB, 8))
  }

  lemma WrittenOneByte(d: seq<Byte>, pos: nat, old8: seq<Byte>, k: nat, b: Byte)
    requires |old8| == 8 && pos + 8 <= |d| && Slice(d, pos, 8) == old8 && k < 8
    ensures Written(d, pos, old8[k := b]) == d[pos + k := b]
  {
    forall i | 0 <= i < 8
      ensures d[pos + i] == old8[i]
    {
      assert Slice(d, pos, 8)[i] == d[pos + i];
    }
  }

  /** The forgery changes one byte of the disk. */
  lemma ForgedOneByte(volume: seq<Byte>, g: Guids)
    requires Buildable(volume) && GoodGuids(g)
    ensures Forged(volume, g) == ImageOf(volume, g)[EntryAt(2) + 34 := ByteOf(2)]
    ensures ImageOf(volume, g)[EntryAt(2) + 34] != ByteOf(2)
  {
    hide ImageOf, Le, Written, FirstVolume;
    VolumeIsThird(volume, g);
    ThirdByte(0, 8, 4, 2);
    assert Slice(ImageOf(volume, g), EntryAt(2) + 32, 8)[2] == ImageOf(volume, g)[EntryAt(2) + 34];
    WrittenOneByte(ImageOf(volume, g), EntryAt(2) + 32, Le(VOL_FIRST, 8), 2, ByteOf(2));
  }

  /** THE FORGERY IS REFUSED: after the edit the kernel gives neither volume nor swap, and says
      that the entry array's CRC is wrong. */
  lemma ForgedIsRefused(volume: seq<Byte>, g: Guids, n: nat, deviceBlocks: nat)
    requires Buildable(volume) && GoodGuids(g) && 34 * SECTOR <= n <= |ImageOf(volume, g)|
    ensures |Forged(volume, g)| == |ImageOf(volume, g)|
    ensures FindVolume(Forged(volume, g)[..n], deviceBlocks) == Refused(GPT_BAD_ENTRIES_CRC)
    ensures FindSwap(Forged(volume, g)[..n], deviceBlocks) == Refused(GPT_BAD_ENTRIES_CRC)
  {
    hide ImageOf, Forged, Locate, HasTable, Parts, Primary;
    ForgedOneByte(volume, g);
    FrontHasTable(volume, g, n);
    var front := ImageOf(volume, g)[..n];
    var at := EntryAt(2) + 34;
    assert Forged(volume, g)[..n] == front[at := ByteOf(2)];
    AlteredEntryIsRefused(front, Primary(volume, g), Parts(volume, g), at, ByteOf(2), deviceBlocks, VOLUME_TYPE, GPT_TWO_VOLUMES);
  }
}
