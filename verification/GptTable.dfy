/** Writing a GPT table: partition entries and headers as tools/gpt_image.py packs them and as
    the kernel's installer writes them, and what the kernel's reader makes of the result. */
module GptTable {
  import opened Wrappers
  import opened Bytes
  import opened Crc32
  import opened CrcBurst
  import opened Gpt

  /** One partition: its type, its own GUID, its inclusive range of sectors, its name in UTF-16. */
  datatype Part = Part(ty: seq<Byte>, unique: seq<Byte>, first: nat, last: nat, name: seq<Byte>)

  predicate WellSized(p: Part) {
    |p.ty| == 16 && |p.unique| == 16 && |p.name| <= 72 && p.first < U64 && p.last < U64
  }

  /** A name of ASCII characters in UTF-16, little-endian. */
  function Utf16(s: string): (r: seq<Byte>)
    ensures |r| == 2 * |s|
  {
    seq(2 * |s|, i requires 0 <= i < 2 * |s| => if i % 2 == 0 then ByteOf(s[i / 2] as int % 256) else 0)
  }

  function Entry(p: Part): (r: seq<Byte>)
    requires WellSized(p)
    ensures |r| == ENTRY
  {
    p.ty + p.unique + (Le(p.first, 8) + Le(p.last, 8) + Le(0, 8)) + PadTo(p.name, 72)
  }

  lemma EntryFields(p: Part)
    requires WellSized(p)
    ensures Entry(p)[..16] == p.ty && Entry(p)[16..32] == p.unique && Entry(p)[56..] == PadTo(p.name, 72)
    ensures Slice(Entry(p), 32, 8) == Le(p.first, 8) && Slice(Entry(p), 40, 8) == Le(p.last, 8)
    ensures FromLe(Slice(Entry(p), 32, 8)) == p.first && FromLe(Slice(Entry(p), 40, 8)) == p.last
  {
    Pow256Values();
    LeRoundTrip(p.first, 8);
    LeRoundTrip(p.last, 8);
  }

  /** The entries one after another. */
  function Packed(parts: seq<Part>): (r: seq<Byte>)
    requires forall i :: 0 <= i < |parts| ==> WellSized(parts[i])
    ensures |r| == |parts| * ENTRY
  {
    if parts == [] then [] else Packed(parts[..|parts| - 1]) + Entry(parts[|parts| - 1])
  }

  /** The whole array of 128 entries, the unused ones zero. */
  function Entries(parts: seq<Part>): (r: seq<Byte>)
    requires |parts| <= NENTRIES && forall i :: 0 <= i < |parts| ==> WellSized(parts[i])
    ensures |r| == NENTRIES * ENTRY
  {
    PadTo(Packed(parts), NENTRIES * ENTRY)
  }

  lemma {:induction false} PackedRow(parts: seq<Part>, i: nat)
    requires (forall j :: 0 <= j < |parts| ==> WellSized(parts[j])) && i < |parts|
    ensures Row(Packed(parts), i) == Entry(parts[i])
    decreases |parts|
  {
    hide Entry;
    var init, last := parts[..|parts| - 1], parts[|parts| - 1];
    var p, q := Packed(init), Entry(last);
    if i < |init| {
      PackedRow(init, i);
      assert (p + q)[i * ENTRY..(i + 1) * ENTRY] == p[i * ENTRY..(i + 1) * ENTRY];
    } else {
      assert (p + q)[i * ENTRY..(i + 1) * ENTRY] == q;
    }
  }

  lemma EntriesRow(parts: seq<Part>, i: nat)
    requires |parts| <= NENTRIES && (forall j :: 0 <= j < |parts| ==> WellSized(parts[j])) && i < NENTRIES
    ensures Row(Entries(parts), i) == if i < |parts| then Entry(parts[i]) else Zeros(ENTRY)
  {
    hide Entry, Packed;
    var p := Packed(parts);
    if i < |parts| {
      PackedRow(parts, i);
      assert Entries(parts)[i * ENTRY..(i + 1) * ENTRY] == p[i * ENTRY..(i + 1) * ENTRY];
    } else {
      assert Entries(parts)[i * ENTRY..(i + 1) * ENTRY] == Zeros(ENTRY);
    }
  }

  // ----- Headers -----

  datatype Fields = Fields(my: nat, alt: nat, firstUsable: nat, lastUsable: nat, entriesLba: nat, entriesCrc: bv32, disk: seq<Byte>)

  predicate Packable(f: Fields) {
    && f.my < U64 && f.alt < U64 && f.firstUsable < U64 && f.lastUsable < U64 && f.entriesLba < U64
    && |f.disk| == 16
  }

  /** Bytes 0 to 15: the signature, the revision and the header's size. */
  function Lead(): (r: seq<Byte>)
    ensures |r| == 16
  {
    SIGNATURE + Le(0x0001_0000, 4) + Le(92, 4)
  }

  /** Bytes 20 to 91. */
  function Tail(f: Fields): (r: seq<Byte>)
    requires Packable(f)
    ensures |r| == 72
  {
    (Le(0, 4) + Le(f.my, 8) + Le(f.alt, 8)) + (Le(f.firstUsable, 8) + Le(f.lastUsable, 8)) + f.disk
    + (Le(f.entriesLba, 8) + Le(NENTRIES, 4) + Le(ENTRY, 4) + Le32(f.entriesCrc))
  }

  /** The header, packed with a zero CRC, then with the CRC of that put in its place. */
  function Header(f: Fields): (r: seq<Byte>)
    requires Packable(f)
    ensures |r| == 92
  {
    var h := Lead() + Zeros(4) + Tail(f);
    h[..16] + Le32(Crc(h)) + h[20..]
  }

  lemma HeaderShape(f: Fields)
    requires Packable(f)
    ensures Header(f) == Lead() + Le32(Crc(Lead() + Zeros(4) + Tail(f))) + Tail(f)
  {
    var h := Lead() + Zeros(4) + Tail(f);
    assert h[..16] == Lead() && h[20..] == Tail(f);
  }

  lemma TailFields(f: Fields)
    requires Packable(f)
    ensures Slice(Tail(f), 4, 8) == Le(f.my, 8) && Slice(Tail(f), 12, 8) == Le(f.alt, 8)
    ensures Slice(Tail(f), 36, 16) == f.disk
    ensures Slice(Tail(f), 20, 8) == Le(f.firstUsable, 8) && Slice(Tail(f), 28, 8) == Le(f.lastUsable, 8)
    ensures Slice(Tail(f), 52, 8) == Le(f.entriesLba, 8) && Slice(Tail(f), 60, 4) == Le(NENTRIES, 4)
    ensures Slice(Tail(f), 64, 4) == Le(ENTRY, 4) && Slice(Tail(f), 68, 4) == Le32(f.entriesCrc)
  {
    hide Le, Le32;
  }

  /** The header in its sector. */
  function HeaderSector(f: Fields): (r: seq<Byte>)
    requires Packable(f)
    ensures |r| == SECTOR
  {
    PadTo(Header(f), SECTOR)
  }

  lemma SectorFields(f: Fields)
    requires Packable(f)
    ensures HeaderSector(f)[..16] == Lead() && HeaderSector(f)[20..92] == Tail(f)
    ensures Slice(HeaderSector(f), 16, 4) == Le32(Crc(Lead() + Zeros(4) + Tail(f)))
    ensures forall off: nat, n: nat {:trigger Slice(Tail(f), off, n)} :: off + n <= 72 ==>
              Slice(HeaderSector(f), 20 + off, n) == Slice(Tail(f), off, n)
  {
    hide Le, Le32, Tail, Crc, Lead;
    HeaderShape(f);
    assert HeaderSector(f)[20..92] == Tail(f);
    forall off: nat, n: nat {:trigger Slice(Tail(f), off, n)} | off + n <= 72
      ensures Slice(HeaderSector(f), 20 + off, n) == Slice(Tail(f), off, n)
    {
      assert HeaderSector(f)[20..92][off..off + n] == HeaderSector(f)[20 + off..20 + off + n];
    }
  }

  /** The CRC the reader computes piecewise is the one the writer stored. */
  lemma StoredCrcVerifies(f: Fields)
    requires Packable(f)
    ensures HeaderCrc(HeaderSector(f), 92) == Crc(Lead() + Zeros(4) + Tail(f))
  {
    hide Le, Le32, Tail, Lead, Update;
    SectorFields(f);
    UpdateConcat(0xFFFF_FFFF, Lead() + Zeros(4), Tail(f));
    UpdateConcat(0xFFFF_FFFF, Lead(), Zeros(4));
  }

  lemma LeadFields()
    ensures Lead()[..8] == SIGNATURE && Slice(Lead(), 12, 4) == Le(92, 4) && FromLe(Le(92, 4)) == 92
  {
    hide Le;
    Pow256Values();
    LeRoundTrip(92, 4);
  }

  lemma FieldValues(f: Fields)
    requires Packable(f)
    ensures FromLe(Le(f.my, 8)) == f.my && FromLe(Le(f.alt, 8)) == f.alt && FromLe(Le(f.firstUsable, 8)) == f.firstUsable
    ensures FromLe(Le(f.lastUsable, 8)) == f.lastUsable && FromLe(Le(f.entriesLba, 8)) == f.entriesLba
    ensures FromLe(Le(NENTRIES, 4)) == NENTRIES && FromLe(Le(ENTRY, 4)) == ENTRY
    ensures FromLe32(Le32(f.entriesCrc)) == f.entriesCrc
  {
    hide Le, FromLe;
    Pow256Values();
    LeRoundTrip(f.my, 8);
    LeRoundTrip(f.alt, 8);
    LeRoundTrip(f.firstUsable, 8);
    LeRoundTrip(f.lastUsable, 8);
    LeRoundTrip(f.entriesLba, 8);
    LeRoundTrip(NENTRIES, 4);
    LeRoundTrip(ENTRY, 4);
    Le32RoundTrip(f.entriesCrc);
  }

  /** A sector holds a header whose CRC verifies, and the header says what `f` does. */
  ghost predicate Describes(hdr: seq<Byte>, f: Fields) {
    && |hdr| == SECTOR && hdr[..8] == SIGNATURE && FromLe(Slice(hdr, 12, 4)) == 92 && Slice(hdr, 56, 16) == f.disk
    && HeaderCrc(hdr, 92) == FromLe32(Slice(hdr, 16, 4))
    && FromLe(Slice(hdr, 24, 8)) == f.my && FromLe(Slice(hdr, 32, 8)) == f.alt
    && FromLe(Slice(hdr, 40, 8)) == f.firstUsable && FromLe(Slice(hdr, 48, 8)) == f.lastUsable
    && FromLe(Slice(hdr, 72, 8)) == f.entriesLba && FromLe(Slice(hdr, 80, 4)) == NENTRIES
    && FromLe(Slice(hdr, 84, 4)) == ENTRY && FromLe32(Slice(hdr, 88, 4)) == f.entriesCrc
  }

  lemma SectorDescribes(f: Fields)
    requires Packable(f)
    ensures Describes(HeaderSector(f), f)
  {
    hide Le, Le32, FromLe, FromLe32, Tail, Lead, Crc, HeaderCrc, HeaderSector;
    var hdr := HeaderSector(f);
    SectorFields(f);
    LeadFields();
    TailFields(f);
    FieldValues(f);
    StoredCrcVerifies(f);
    Le32RoundTrip(Crc(Lead() + Zeros(4) + Tail(f)));
    assert hdr[..8] == hdr[..16][..8];
    assert Slice(hdr, 12, 4) == Slice(hdr[..16], 12, 4);
    assert Slice(hdr, 20 + 4, 8) == Slice(Tail(f), 4, 8);
    assert Slice(hdr, 20 + 12, 8) == Slice(Tail(f), 12, 8);
    assert Slice(hdr, 20 + 36, 16) == Slice(Tail(f), 36, 16);
    assert Slice(hdr, 20 + 20, 8) == Slice(Tail(f), 20, 8);
    assert Slice(hdr, 20 + 28, 8) == Slice(Tail(f), 28, 8);
    assert Slice(hdr, 20 + 52, 8) == Slice(Tail(f), 52, 8);
    assert Slice(hdr, 20 + 60, 4) == Slice(Tail(f), 60, 4);
    assert Slice(hdr, 20 + 64, 4) == Slice(Tail(f), 64, 4);
    assert Slice(hdr, 20 + 68, 4) == Slice(Tail(f), 68, 4);
  }

  function InfoOf(f: Fields): Info {
    Info(f.firstUsable, f.lastUsable, f.entriesLba, NENTRIES, ENTRY, f.entriesCrc)
  }

  /** A header that says it is in sector 1 reads back as what was written. */
  lemma HeaderReadsBack(f: Fields)
    requires Packable(f)
    ensures ReadHeader(HeaderSector(f)) == if f.my == 1 then (Some(InfoOf(f)), 0) else (None, GPT_BAD_HEADER)
  {
    hide Le, Le32, FromLe, FromLe32, Tail, Lead, Crc, HeaderCrc, HeaderSector;
    SectorDescribes(f);
  }

  // ----- Reading a written table -----

  /** The front of `buf` is a primary header and the array of `parts` it describes. */
  ghost predicate HasTable(buf: seq<Byte>, f: Fields, parts: seq<Part>) {
    && |parts| <= NENTRIES && (forall i :: 0 <= i < |parts| ==> WellSized(parts[i]))
    && Packable(f) && f.my == 1 && f.entriesLba == 2 && f.entriesCrc == Crc(Entries(parts))
    && |buf| >= 34 * SECTOR
    && buf[SECTOR..2 * SECTOR] == HeaderSector(f)
    && buf[2 * SECTOR..34 * SECTOR] == Entries(parts)
  }

  lemma LocateScansTable(buf: seq<Byte>, f: Fields, parts: seq<Part>, deviceBlocks: nat, ty: seq<Byte>, two: int)
    requires HasTable(buf, f, parts)
    ensures Locate(buf, deviceBlocks, ty, two) == Scan(Entries(parts), 0, NENTRIES, ty, two, InfoOf(f), 34, deviceBlocks, None)
  {
    hide ReadHeader, HeaderSector, Entries, Scan, Crc;
    HeaderReadsBack(f);
  }

  /** With one row of a type, the scan gives that row's range or refuses it. */
  lemma {:induction false} OneRowIsFound(entries: seq<Byte>, i: nat, n: nat, ty: seq<Byte>, two: int, h: Info, tableEnd: nat,
                                         deviceBlocks: nat, found: Option<(nat, nat)>, m: nat)
    requires i <= n && n * ENTRY == |entries| && OnlyRow(entries, n, ty, m)
    requires if i <= m then found.None? else found == RowRange(Row(entries, m), h, tableEnd, deviceBlocks) && found.Some?
    ensures Scan(entries, i, n, ty, two, h, tableEnd, deviceBlocks, found)
         == match RowRange(Row(entries, m), h, tableEnd, deviceBlocks)
            case Some(r) => Found(r.0, r.1)
            case None => Refused(GPT_BAD_RANGE)
    decreases n - i
  {
    hide RowRange, IsOf;
    if i < n {
      if i != m {
        OneRowIsFound(entries, i + 1, n, ty, two, h, tableEnd, deviceBlocks, found, m);
      } else if RowRange(Row(entries, m), h, tableEnd, deviceBlocks).Some? {
        OneRowIsFound(entries, i + 1, n, ty, two, h, tableEnd, deviceBlocks, RowRange(Row(entries, m), h, tableEnd, deviceBlocks), m);
      }
    }
  }

  /** `m` is the only partition of its type, which is not the all-zero one. */
  ghost predicate OnlyPart(parts: seq<Part>, m: nat) {
    && m < |parts| && |parts[m].ty| == 16 && parts[m].ty[0] != 0
    && forall j :: 0 <= j < |parts| && parts[j].ty == parts[m].ty ==> j == m
  }

  lemma OnlyPartIsOnlyRow(parts: seq<Part>, m: nat)
    requires |parts| <= NENTRIES && (forall i :: 0 <= i < |parts| ==> WellSized(parts[i])) && OnlyPart(parts, m)
    ensures OnlyRow(Entries(parts), NENTRIES, parts[m].ty, m)
    ensures Row(Entries(parts), m) == Entry(parts[m])
  {
    hide Entries, Entry;
    EntriesRow(parts, m);
    forall j: nat | j < NENTRIES
      ensures IsOf(Row(Entries(parts), j), parts[m].ty) <==> j == m
    {
      EntriesRow(parts, j);
      if j < |parts| {
        EntryFields(parts[j]);
      } else {
        assert Zeros(ENTRY)[..16][0] == 0;
      }
    }
  }

  /** WHAT IS WRITTEN IS WHAT IS READ: the reader finds the one partition of its type at exactly
      its sectors, or refuses the range when it is not one it accepts. */
  lemma PartIsFound(buf: seq<Byte>, f: Fields, parts: seq<Part>, m: nat, deviceBlocks: nat, two: int)
    requires HasTable(buf, f, parts) && OnlyPart(parts, m)
    ensures Locate(buf, deviceBlocks, parts[m].ty, two)
         == match VolumeBlocks(parts[m].first, parts[m].last, f.firstUsable, f.lastUsable, 34, deviceBlocks)
            case Some(r) => Found(r.0, r.1)
            case None => Refused(GPT_BAD_RANGE)
  {
    hide Entries, Entry, Scan, Locate, VolumeBlocks;
    LocateScansTable(buf, f, parts, deviceBlocks, parts[m].ty, two);
    OnlyPartIsOnlyRow(parts, m);
    OneRowIsFound(Entries(parts), 0, NENTRIES, parts[m].ty, two, InfoOf(f), 34, deviceBlocks, None, m);
    EntryFields(parts[m]);
  }

  lemma {:induction false} NoRowIsMissing(entries: seq<Byte>, i: nat, n: nat, ty: seq<Byte>, two: int, h: Info, tableEnd: nat, deviceBlocks: nat)
    requires i <= n && n * ENTRY == |entries| && forall j: nat :: j < n ==> !IsOf(Row(entries, j), ty)
    ensures Scan(entries, i, n, ty, two, h, tableEnd, deviceBlocks, None) == Missing
    decreases n - i
  {
    hide RowRange, IsOf;
    if i < n {
      NoRowIsMissing(entries, i + 1, n, ty, two, h, tableEnd, deviceBlocks);
    }
  }

  /** A partition type that was not written is not found. */
  lemma NoPartIsMissing(buf: seq<Byte>, f: Fields, parts: seq<Part>, ty: seq<Byte>, deviceBlocks: nat, two: int)
    requires HasTable(buf, f, parts) && |ty| == 16 && ty[0] != 0 && forall j :: 0 <= j < |parts| ==> parts[j].ty != ty
    ensures Locate(buf, deviceBlocks, ty, two) == Missing
  {
    hide Entries, Entry, Scan, Locate;
    LocateScansTable(buf, f, parts, deviceBlocks, ty, two);
    forall j: nat | j < NENTRIES
      ensures !IsOf(Row(Entries(parts), j), ty)
    {
      EntriesRow(parts, j);
      if j < |parts| {
        EntryFields(parts[j]);
      } else {
        assert Zeros(ENTRY)[..16][0] == 0;
      }
    }
    NoRowIsMissing(Entries(parts), 0, NENTRIES, ty, two, InfoOf(f), 34, deviceBlocks);
  }

  /** ONE ALTERED BYTE IS REFUSED: replacing any one byte of the entry array by another makes the
      reader refuse the table, whichever partition it is asked for. */
  lemma AlteredEntryIsRefused(buf: seq<Byte>, f: Fields, parts: seq<Part>, i: nat, b: Byte, deviceBlocks: nat, ty: seq<Byte>, two: int)
    requires HasTable(buf, f, parts) && 2 * SECTOR <= i < 34 * SECTOR && buf[i] != b
    ensures Locate(buf[i := b], deviceBlocks, ty, two) == Refused(GPT_BAD_ENTRIES_CRC)
  {
    hide ReadHeader, HeaderSector, Entries, Scan, Crc;
    var bad := buf[i := b];
    HeaderReadsBack(f);
    assert bad[SECTOR..2 * SECTOR] == buf[SECTOR..2 * SECTOR];
    assert bad[2 * SECTOR..34 * SECTOR] == Entries(parts)[i - 2 * SECTOR := b];
    OneByteChangesCrc(Entries(parts), i - 2 * SECTOR, b);
  }

  /** SO IS EVERY BURST: any change of the entry array that lies within 32 consecutive bits of it,
      whatever becomes of the disk after the array. */
  lemma AlteredBurstIsRefused(buf: seq<Byte>, bad: seq<Byte>, f: Fields, parts: seq<Part>, p: nat, deviceBlocks: nat, ty: seq<Byte>, two: int)
    requires HasTable(buf, f, parts) && |bad| == |buf| && bad[..2 * SECTOR] == buf[..2 * SECTOR]
    requires bad[2 * SECTOR..34 * SECTOR] != Entries(parts)
    requires SameOutside(Bits(Entries(parts)), Bits(bad[2 * SECTOR..34 * SECTOR]), p)
    ensures Locate(bad, deviceBlocks, ty, two) == Refused(GPT_BAD_ENTRIES_CRC)
  {
    hide ReadHeader, HeaderSector, Entries, Scan, Crc, Bits, SameOutside;
    HeaderReadsBack(f);
    assert bad[SECTOR..2 * SECTOR] == bad[..2 * SECTOR][SECTOR..] && buf[SECTOR..2 * SECTOR] == buf[..2 * SECTOR][SECTOR..];
    BurstChangesCrc(Entries(parts), bad[2 * SECTOR..34 * SECTOR], p);
  }
}
