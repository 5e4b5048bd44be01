/** The installer's table (rust/src/gpt.rs): a layout planned from the sizes asked for, written at
    both ends of the disk, and read back by the kernel's own reader. */
module GptInstall {
  import opened Wrappers
  import opened Bytes
  import opened Crc32
  import opened DiskFile
  import opened Gpt
  import opened GptTable
  import opened GptImage

  const LEAD_BLOCKS := 256
  const TAIL_BLOCKS := 256
  const ESP_BLOCKS := 16384
  const TABLE_BYTES := 5 * 4096

  /** A planned layout in blocks: first block and number of blocks of each partition. */
  datatype Layout = Layout(espBase: nat, espCount: nat, swapBase: nat, swapCount: nat, volumeBase: nat, volumeCount: nat)

  /** The partitions are in order, without overlap, after the primary table and before the backup. */
  predicate InOrder(l: Layout, device: nat) {
    && l.espBase == LEAD_BLOCKS && l.espCount == ESP_BLOCKS && l.espBase + l.espCount == l.swapBase
    && l.swapBase + l.swapCount == l.volumeBase && l.volumeCount > 0
    && l.volumeBase + l.volumeCount + TAIL_BLOCKS <= device
  }

  /** Lay out the disk: `swap` blocks of swap, and `volume` blocks of volume, or the rest of the
      disk for 0; no layout when that does not leave a volume of at least `least` blocks. */
  function Plan(device: nat, swap: nat, volume: nat, least: nat): (r: Option<Layout>)
    requires device < U64 && swap < U64 && volume < U64 && least < U64
    ensures r.Some? ==> InOrder(r.value, device) && r.value.swapCount == swap && r.value.volumeCount >= least
    ensures r.Some? ==> if volume == 0 then r.value.volumeBase + r.value.volumeCount + TAIL_BLOCKS == device
                        else r.value.volumeCount == volume
    ensures r.None? <==> forall l: Layout :: InOrder(l, device) && l.swapCount == swap && (volume != 0 ==> l.volumeCount == volume) ==> l.volumeCount < least
  {
    var swapBase := LEAD_BLOCKS + ESP_BLOCKS;
    var volumeBase := swapBase + swap;
    if volumeBase >= U64 then None
    else if device < TAIL_BLOCKS || device - TAIL_BLOCKS < volumeBase then None
    else
      var room := device - TAIL_BLOCKS - volumeBase;
      var count := if volume == 0 then room else volume;
      if count < least || count == 0 || count > room then None
      else
        var l := Layout(LEAD_BLOCKS, ESP_BLOCKS, swapBase, swap, volumeBase, count);
        assert InOrder(l, device);
        Some(l)
  }

  // ----- Both ends of the table -----

  /** Sector numbers are unsigned 64-bit numbers, and the arithmetic on them wraps. */
  function Wrap(x: int): nat {
    x % U64
  }

  function Extent(ty: seq<Byte>, unique: seq<Byte>, base: nat, count: nat, name: string): Part
    requires (base + count) * 8 > 0
  {
    Part(ty, unique, Wrap(base * 8), Wrap((base + count) * 8 - 1), Utf16(name))
  }

  function PlannedParts(l: Layout, g: Guids): seq<Part>
    requires l.espCount > 0 && l.volumeCount > 0
  {
    [Extent(ESP_TYPE, g.esp, l.espBase, l.espCount, "EFI system")]
    + (if l.swapCount > 0 then [Extent(SWAP_TYPE, g.swap, l.swapBase, l.swapCount, "Horus swap")] else [])
    + [Extent(VOLUME_TYPE, g.volume, l.volumeBase, l.volumeCount, "Horus volume")]
  }

  /** A layout in order, on a device whose blocks can be counted in 64 bits. */
  predicate Writable(l: Layout, device: nat, g: Guids) {
    InOrder(l, device) && device < U64 && GoodGuids(g)
  }

  lemma PlannedWellSized(l: Layout, device: nat, g: Guids)
    requires Writable(l, device, g)
    ensures |PlannedParts(l, g)| <= 3 && forall i :: 0 <= i < |PlannedParts(l, g)| ==> WellSized(PlannedParts(l, g)[i])
  {
    hide Utf16;
  }

  function PlannedArray(l: Layout, device: nat, g: Guids): (r: seq<Byte>)
    requires Writable(l, device, g)
    ensures |r| == NENTRIES * ENTRY
  {
    PlannedWellSized(l, device, g);
    Entries(PlannedParts(l, g))
  }

  function HeadFields(l: Layout, device: nat, g: Guids): (f: Fields)
    requires Writable(l, device, g)
    ensures Packable(f)
  {
    Fields(1, Wrap(device * 8 - 1), 34, Wrap(device * 8 - 34), 2, Crc(PlannedArray(l, device, g)), g.disk)
  }

  function BackFields(l: Layout, device: nat, g: Guids): (f: Fields)
    requires Writable(l, device, g)
    ensures Packable(f)
  {
    Fields(Wrap(device * 8 - 1), 1, 34, Wrap(device * 8 - 34), Wrap(device * 8 - 33), Crc(PlannedArray(l, device, g)), g.disk)
  }

  datatype Side = Head | Tail

  function Laid(side: Side, mbr: seq<Byte>, header: seq<Byte>, entries: seq<Byte>): (r: seq<Byte>)
    requires |mbr| == SECTOR && |header| == SECTOR && |entries| == 32 * SECTOR
    ensures |r| == TABLE_BYTES
  {
    match side
    case Head => mbr + header + entries + Zeros(TABLE_BYTES - 34 * SECTOR)
    case Tail => Zeros(TABLE_BYTES - 33 * SECTOR) + entries + header
  }

  function SideFields(l: Layout, device: nat, g: Guids, side: Side): (f: Fields)
    requires Writable(l, device, g)
    ensures Packable(f)
  {
    if side == Head then HeadFields(l, device, g) else BackFields(l, device, g)
  }

  /** One end of the table: the first or the last 20 KiB of the disk. */
  function Table(l: Layout, device: nat, g: Guids, side: Side): (r: seq<Byte>)
    requires Writable(l, device, g)
    ensures |r| == TABLE_BYTES
  {
    Laid(side, Mbr(Wrap(device * 8 - 1) + 1), HeaderSector(SideFields(l, device, g, side)), PlannedArray(l, device, g))
  }

  /** Write one end into a buffer of that size. */
  method BuildSide(l: Layout, device: nat, g: Guids, side: Side) returns (buf: seq<Byte>)
    requires Writable(l, device, g)
    ensures buf == Table(l, device, g, side)
  {
    hide Written, PlannedArray, HeadFields, BackFields, Header, Mbr, Crc, Wrap;
    buf := Zeros(TABLE_BYTES);
    var sectors: int := Wrap(device * 8);
    var last: int := Wrap(sectors - 1);
    var tailFirst := Wrap(sectors - TABLE_BYTES / SECTOR);
    var backup: int := Wrap(last - 32);
    var eoff := if side == Head then 1024 else Wrap(backup - tailFirst) * SECTOR;
    var hoff := if side == Head then 512 else Wrap(last - tailFirst) * SECTOR;
    TailOffsets(device);
    buf := Written(buf, eoff, PlannedArray(l, device, g));
    var f := SideFields(l, device, g, side);
    buf := Written(buf, hoff, Header(f));
    if side == Head {
      buf := Written(buf, 0, Mbr(last + 1));
      HeadLaid(PlannedArray(l, device, g), Header(f), Mbr(last + 1));
    } else {
      TailLaid(PlannedArray(l, device, g), Header(f));
    }
  }

  lemma WrapOnce(x: int, y: int)
    ensures Wrap(Wrap(x) - y) == Wrap(x - y) && Wrap(x - Wrap(y)) == Wrap(x - y)
  {
    var p, q := x / U64, y / U64;
    assert Wrap(x) == x - p * U64 && Wrap(y) == y - q * U64;
    WrapMore(Wrap(x) - y, p);
    WrapMore(x - y, q);
  }

  lemma {:induction false} WrapMore(x: int, k: int)
    ensures Wrap(x + k * U64) == Wrap(x)
    decreases if k < 0 then -k else k
  {
    if k > 0 {
      WrapMore(x, k - 1);
      assert Wrap(x + (k - 1) * U64 + U64) == Wrap(x + (k - 1) * U64);
    } else if k < 0 {
      WrapMore(x, k + 1);
      assert Wrap(x + k * U64 + U64) == Wrap(x + k * U64);
    }
  }

  /** Whatever wraps, the backup entries and header are in the last 33 sectors. */
  lemma TailOffsets(device: nat)
    ensures var sectors: int := Wrap(device * 8);
            var last: int, tailFirst := Wrap(sectors - 1), Wrap(sectors - TABLE_BYTES / SECTOR);
            && last == Wrap(device * 8 - 1)
            && Wrap(last - tailFirst) * SECTOR == TABLE_BYTES - SECTOR
            && Wrap(Wrap(last - 32) - tailFirst) * SECTOR == TABLE_BYTES - 33 * SECTOR
  {
    hide Wrap;
    var n: int := device * 8;
    WrapOnce(n, 1);
    WrapOnce(n, 40);
    WrapOnce(n - 1, 32);
    WrapOnce(n - 1, n - 40);
    WrapOnce(Wrap(n - 1), n - 40);
    WrapOnce(n - 33, n - 40);
    WrapOnce(Wrap(n - 33), n - 40);
    SmallStays();
  }

  lemma SmallStays()
    ensures Wrap(39) == 39 && Wrap(7) == 7
  {
  }

  lemma HeadLaid(entries: seq<Byte>, header: seq<Byte>, mbr: seq<Byte>)
    requires |entries| == 32 * SECTOR && |header| == 92 && |mbr| == SECTOR
    ensures Written(Written(Written(Zeros(TABLE_BYTES), 1024, entries), 512, header), 0, mbr)
         == mbr + PadTo(header, SECTOR) + entries + Zeros(TABLE_BYTES - 34 * SECTOR)
  {
    var a := Written(Zeros(TABLE_BYTES), 1024, entries);
    assert a == Zeros(512) + Zeros(512) + entries + Zeros(TABLE_BYTES - 34 * SECTOR);
    var b := Written(a, 512, header);
    assert b == Zeros(512) + PadTo(header, SECTOR) + entries + Zeros(TABLE_BYTES - 34 * SECTOR);
  }

  lemma TailLaid(entries: seq<Byte>, header: seq<Byte>)
    requires |entries| == 32 * SECTOR && |header| == 92
    ensures Written(Written(Zeros(TABLE_BYTES), TABLE_BYTES - 33 * SECTOR, entries), TABLE_BYTES - SECTOR, header)
         == Zeros(TABLE_BYTES - 33 * SECTOR) + entries + PadTo(header, SECTOR)
  {
    var a := Written(Zeros(TABLE_BYTES), TABLE_BYTES - 33 * SECTOR, entries);
    assert a == Zeros(TABLE_BYTES - 33 * SECTOR) + entries + Zeros(512);
  }

  // ----- Read back -----

  lemma HeadHasTable(l: Layout, device: nat, g: Guids, n: nat)
    requires Writable(l, device, g) && 34 * SECTOR <= n <= TABLE_BYTES
    ensures HasTable(Table(l, device, g, Head)[..n], HeadFields(l, device, g), PlannedParts(l, g))
  {
    hide HeaderSector, Entries, Mbr, Crc, PlannedParts;
    PlannedWellSized(l, device, g);
    var t := Table(l, device, g, Head);
    FrontSlices(Mbr(Wrap(device * 8 - 1) + 1), HeaderSector(HeadFields(l, device, g)), PlannedArray(l, device, g), Zeros(TABLE_BYTES - 34 * SECTOR), n);
  }

  lemma FrontSlices(a: seq<Byte>, b: seq<Byte>, c: seq<Byte>, d: seq<Byte>, n: nat)
    requires |a| == SECTOR && |b| == SECTOR && |c| == 32 * SECTOR && 34 * SECTOR <= n <= |a + b + c + d|
    ensures (a + b + c + d)[..n][SECTOR..2 * SECTOR] == b && (a + b + c + d)[..n][2 * SECTOR..34 * SECTOR] == c
  {
  }

  lemma PlannedTypes(l: Layout, g: Guids)
    requires l.espCount > 0 && l.volumeCount > 0
    ensures |PlannedParts(l, g)| >= 2
    ensures var parts := PlannedParts(l, g);
            && OnlyPart(parts, |parts| - 1) && parts[|parts| - 1].ty == VOLUME_TYPE
            && parts[|parts| - 1].first == Wrap(l.volumeBase * 8) && parts[|parts| - 1].last == Wrap((l.volumeBase + l.volumeCount) * 8 - 1)
            && (l.swapCount > 0 ==> OnlyPart(parts, 1) && parts[1].ty == SWAP_TYPE
                                    && parts[1].first == Wrap(l.swapBase * 8) && parts[1].last == Wrap((l.swapBase + l.swapCount) * 8 - 1))
            && (l.swapCount == 0 ==> forall j :: 0 <= j < |parts| ==> parts[j].ty != SWAP_TYPE)
  {
    hide Utf16;
    TypesDiffer();
  }

  /** The sectors before block `end` can be counted, and the table says that they are usable. */
  predicate Readable(device: nat, end: nat) {
    end * 8 < U64 && end * 8 - 1 <= Wrap(device * 8 - 34)
  }

  /** As they are on every device whose sectors can be counted in 64 bits. */
  lemma CountableIsReadable(device: nat, end: nat)
    requires end + TAIL_BLOCKS <= device && device * 8 <= U64
    ensures Readable(device, end)
  {
  }

  /** A range of whole blocks clear of both tables is accepted as it is exactly when it is readable. */
  lemma BlocksAccepted(base: nat, count: nat, device: nat)
    requires count > 0 && base >= LEAD_BLOCKS && base + count + TAIL_BLOCKS <= device < U64
    ensures VolumeBlocks(Wrap(base * 8), Wrap((base + count) * 8 - 1), 34, Wrap(device * 8 - 34), 34, device) == Some((base, count))
       <==> Readable(device, base + count)
  {
  }

  lemma ReadableBefore(device: nat, end: nat, end': nat)
    requires Readable(device, end) && end' <= end
    ensures Readable(device, end')
  {
  }

  lemma VolumeIsFound(l: Layout, device: nat, g: Guids, n: nat)
    requires Writable(l, device, g) && 34 * SECTOR <= n <= TABLE_BYTES
    ensures FindVolume(Table(l, device, g, Head)[..n], device) == Found(l.volumeBase, l.volumeCount)
       <==> Readable(device, l.volumeBase + l.volumeCount)
  {
    hide Table, HasTable, Locate, PlannedParts, OnlyPart, VolumeBlocks, HeadFields, Readable, Wrap;
    var buf, f, parts := Table(l, device, g, Head)[..n], HeadFields(l, device, g), PlannedParts(l, g);
    HeadHasTable(l, device, g, n);
    PlannedTypes(l, g);
    HeadFieldsAre(l, device, g);
    PartIsFound(buf, f, parts, |parts| - 1, device, GPT_TWO_VOLUMES);
    BlocksAccepted(l.volumeBase, l.volumeCount, device);
  }

  lemma SwapIsFound(l: Layout, device: nat, g: Guids, n: nat)
    requires Writable(l, device, g) && 34 * SECTOR <= n <= TABLE_BYTES && Readable(device, l.volumeBase + l.volumeCount)
    ensures FindSwap(Table(l, device, g, Head)[..n], device)
         == if l.swapCount > 0 then Found(l.swapBase, l.swapCount) else Refused(GPT_NO_SWAP)
  {
    hide Table, HasTable, Locate, PlannedParts, OnlyPart, VolumeBlocks, HeadFields, Readable, Wrap, FindVolume;
    var buf, f, parts := Table(l, device, g, Head)[..n], HeadFields(l, device, g), PlannedParts(l, g);
    VolumeIsFound(l, device, g, n);
    HeadHasTable(l, device, g, n);
    PlannedTypes(l, g);
    HeadFieldsAre(l, device, g);
    if l.swapCount > 0 {
      PartIsFound(buf, f, parts, 1, device, GPT_TWO_SWAPS);
      ReadableBefore(device, l.volumeBase + l.volumeCount, l.swapBase + l.swapCount);
      BlocksAccepted(l.swapBase, l.swapCount, device);
    } else {
      SwapTypeSize();
      NoPartIsMissing(buf, f, parts, SWAP_TYPE, device, GPT_TWO_SWAPS);
    }
  }

  /** WHAT IS PLANNED IS WHAT IS FOUND: after an install the kernel finds the volume and the swap
      partition at exactly the blocks that were planned, and no swap where none was, if and
      only if the volume's end is readable, as it is wherever 64 bits count the sectors. */
  lemma PlannedIsFound(l: Layout, device: nat, g: Guids, n: nat)
    requires Writable(l, device, g) && 34 * SECTOR <= n <= TABLE_BYTES
    ensures var buf := Table(l, device, g, Head)[..n];
            Readable(device, l.volumeBase + l.volumeCount) <==>
            && FindVolume(buf, device) == Found(l.volumeBase, l.volumeCount)
            && FindSwap(buf, device) == if l.swapCount > 0 then Found(l.swapBase, l.swapCount) else Refused(GPT_NO_SWAP)
    ensures device * 8 <= U64 ==> Readable(device, l.volumeBase + l.volumeCount)
  {
    hide Table, FindVolume, FindSwap, Readable;
    VolumeIsFound(l, device, g, n);
    if Readable(device, l.volumeBase + l.volumeCount) {
      SwapIsFound(l, device, g, n);
    }
    if device * 8 <= U64 {
      CountableIsReadable(device, l.volumeBase + l.volumeCount);
    }
  }

  /** On a device of 2^61 and 512 blocks a volume over the whole disk is planned and not found. */
  lemma HugeDiskIsMissed(g: Guids)
    requires GoodGuids(g)
    ensures var device := 0x2000_0000_0000_0200;
            && Plan(device, 0, 0, 1).Some?
            && Writable(Plan(device, 0, 0, 1).value, device, g)
            && FindVolume(Table(Plan(device, 0, 0, 1).value, device, g, Head), device)
               != Found(Plan(device, 0, 0, 1).value.volumeBase, Plan(device, 0, 0, 1).value.volumeCount)
  {
    hide Table, FindVolume;
    var device := 0x2000_0000_0000_0200;
    var l := Plan(device, 0, 0, 1).value;
    assert !Readable(device, l.volumeBase + l.volumeCount);
    VolumeIsFound(l, device, g, TABLE_BYTES);
    assert Table(l, device, g, Head)[..TABLE_BYTES] == Table(l, device, g, Head);
  }

  lemma SwapTypeSize()
    ensures |SWAP_TYPE| == 16 && SWAP_TYPE[0] != 0
  {
  }

  lemma HeadFieldsAre(l: Layout, device: nat, g: Guids)
    requires Writable(l, device, g)
    ensures HeadFields(l, device, g).firstUsable == 34 && HeadFields(l, device, g).lastUsable == Wrap(device * 8 - 34)
  {
    hide Crc, PlannedArray;
  }

  /** Both ends carry the same entries, each with a header that verifies and names the other's
      sector and the entries' place on the disk. */
  lemma BothEndsAgree(l: Layout, device: nat, g: Guids)
    requires Writable(l, device, g)
    ensures var head, tail := Table(l, device, g, Head), Table(l, device, g, Tail);
            && Describes(head[SECTOR..2 * SECTOR], HeadFields(l, device, g)) && Describes(tail[TABLE_BYTES - SECTOR..], BackFields(l, device, g))
            && head[2 * SECTOR..34 * SECTOR] == tail[TABLE_BYTES - 33 * SECTOR..TABLE_BYTES - SECTOR]
    ensures var h, t := HeadFields(l, device, g), BackFields(l, device, g);
            && h.my == 1 == t.alt && t.my == h.alt == Wrap(device * 8 - 1) && h.entriesCrc == t.entriesCrc
            && (device * 8 <= U64 ==> t.my == device * 8 - 1 && t.entriesLba * SECTOR == device * 4096 - 33 * SECTOR)
  {
    hide HeaderSector, PlannedArray, Mbr, Crc, Describes;
    SectorDescribes(HeadFields(l, device, g));
    SectorDescribes(BackFields(l, device, g));
    FrontSlices(Mbr(Wrap(device * 8 - 1) + 1), HeaderSector(HeadFields(l, device, g)), PlannedArray(l, device, g), Zeros(TABLE_BYTES - 34 * SECTOR), TABLE_BYTES);
    assert Table(l, device, g, Head)[..TABLE_BYTES] == Table(l, device, g, Head);
    BackSlices(Zeros(TABLE_BYTES - 33 * SECTOR), PlannedArray(l, device, g), HeaderSector(BackFields(l, device, g)));
  }

  lemma BackSlices(a: seq<Byte>, b: seq<Byte>, c: seq<Byte>)
    ensures (a + b + c)[|a|..|a| + |b|] == b && (a + b + c)[|a| + |b|..] == c
  {
  }
}
