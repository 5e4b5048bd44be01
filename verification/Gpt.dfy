/** The GPT table as sections 5.3.2 and 5.3.3 of the UEFI Specification 2.10 lay it out, and
    the kernel's reader of it (rust/src/gpt.rs), which trusts no byte of it. */
module Gpt {
  import opened Wrappers
  import opened Bytes
  import opened Crc32

  const SECTOR := 512
  const SECTORS_PER_BLOCK := 8
  const ENTRY := 128
  const NENTRIES := 128
  const U64: nat := 0x1_0000_0000_0000_0000

  const GPT_NONE := -1
  const GPT_BAD_HEADER := -2
  const GPT_BAD_ENTRIES := -3
  const GPT_BAD_ENTRIES_CRC := -4
  const GPT_NO_VOLUME := -5
  const GPT_TWO_VOLUMES := -6
  const GPT_BAD_RANGE := -7
  const GPT_NO_SWAP := -8
  const GPT_TWO_SWAPS := -9
  const GPT_SWAP_OVERLAPS := -10

  const SIGNATURE: seq<Byte> := [0x45, 0x46, 0x49, 0x20, 0x50, 0x41, 0x52, 0x54]
  const ESP_TYPE: seq<Byte> :=
    [0x28, 0x73, 0x2A, 0xC1, 0x1F, 0xF8, 0xD2, 0x11, 0xBA, 0x4B, 0x00, 0xA0, 0xC9, 0x3E, 0xC9, 0x3B]
  const SWAP_TYPE: seq<Byte> :=
    [0x3E, 0x4A, 0x1C, 0x7B, 0x2D, 0x5F, 0x8A, 0x4E, 0x9C, 0x61, 0x0D, 0x2F, 0x3A, 0x4B, 0x5C, 0x6E]
  const VOLUME_TYPE: seq<Byte> :=
    [0x3E, 0x4A, 0x1C, 0x7B, 0x2D, 0x5F, 0x8A, 0x4E, 0x9C, 0x61, 0x0D, 0x2F, 0x3A, 0x4B, 0x5C, 0x6D]

  // ----- Reading -----

  /** What a reader found: a range of 4 KiB blocks, no partition of the type, or a refusal. */
  datatype Outcome = Found(base: nat, count: nat) | Missing | Refused(code: int)

  /** The fields of a header that verified. */
  datatype Info = Info(firstUsable: nat, lastUsable: nat, entriesLba: nat, num: nat, size: nat, entriesCrc: bv32)

  function Slice(b: seq<Byte>, off: nat, n: nat): seq<Byte>
    requires off + n <= |b|
  {
    b[off..off + n]
  }

  /** The header's CRC, taken with its own field as zero. */
  function HeaderCrc(hdr: seq<Byte>, size: nat): bv32
    requires 20 <= size <= |hdr|
  {
    !Update(Update(Update(0xFFFF_FFFF, hdr[..16]), Zeros(4)), hdr[20..size])
  }

  /** The header in sector 1, verified, or the code it is refused with. */
  function ReadHeader(hdr: seq<Byte>): (Option<Info>, int)
    requires |hdr| == SECTOR
  {
    if hdr[..8] != SIGNATURE then (None, GPT_NONE)
    else
      var size := FromLe(Slice(hdr, 12, 4));
      if !(92 <= size <= SECTOR) then (None, GPT_BAD_HEADER)
      else if HeaderCrc(hdr, size) != FromLe32(Slice(hdr, 16, 4)) then (None, GPT_BAD_HEADER)
      else if FromLe(Slice(hdr, 24, 8)) != 1 then (None, GPT_BAD_HEADER)
      else
        (Some(Info(FromLe(Slice(hdr, 40, 8)), FromLe(Slice(hdr, 48, 8)), FromLe(Slice(hdr, 72, 8)),
                   FromLe(Slice(hdr, 80, 4)), FromLe(Slice(hdr, 84, 4)), FromLe32(Slice(hdr, 88, 4)))), 0)
  }

  /** An inclusive range of sectors as 4 KiB blocks. It is accepted exactly when it is whole
      blocks, not empty, inside the usable range and the device, and clear of the table. */
  function VolumeBlocks(first: nat, last: nat, firstUsable: nat, lastUsable: nat, tableEnd: nat, deviceBlocks: nat): (r: Option<(nat, nat)>)
    ensures r.Some? <==>
            && first <= last && first >= firstUsable && last <= lastUsable && first >= tableEnd
            && last + 1 < U64 && first % SECTORS_PER_BLOCK == 0 && (last + 1) % SECTORS_PER_BLOCK == 0
            && last + 1 <= deviceBlocks * SECTORS_PER_BLOCK
    ensures r.Some? ==> r.value.0 * SECTORS_PER_BLOCK == first && (r.value.0 + r.value.1) * SECTORS_PER_BLOCK == last + 1
                        && r.value.1 > 0 && r.value.0 + r.value.1 <= deviceBlocks
  {
    if first > last || first < firstUsable || last > lastUsable || first < tableEnd then None
    else if first % SECTORS_PER_BLOCK != 0 then None
    else if last + 1 >= U64 then None
    else if (last + 1) % SECTORS_PER_BLOCK != 0 then None
    else
      var base := first / SECTORS_PER_BLOCK;
      var count := (last + 1 - first) / SECTORS_PER_BLOCK;
      if count == 0 || base + count > deviceBlocks then None else Some((base, count))
  }

  function Row(entries: seq<Byte>, i: nat): seq<Byte>
    requires (i + 1) * ENTRY <= |entries|
  {
    entries[i * ENTRY..(i + 1) * ENTRY]
  }

  function RowRange(row: seq<Byte>, h: Info, tableEnd: nat, deviceBlocks: nat): Option<(nat, nat)>
    requires |row| == ENTRY
  {
    VolumeBlocks(FromLe(Slice(row, 32, 8)), FromLe(Slice(row, 40, 8)), h.firstUsable, h.lastUsable, tableEnd, deviceBlocks)
  }

  predicate IsOf(row: seq<Byte>, ty: seq<Byte>)
    requires |row| == ENTRY
  {
    row[..16] == ty
  }

  /** The one entry of type `ty` among the rows from `i` on, `found` being what came before. */
  function Scan(entries: seq<Byte>, i: nat, n: nat, ty: seq<Byte>, two: int, h: Info, tableEnd: nat, deviceBlocks: nat,
                found: Option<(nat, nat)>): Outcome
    requires i <= n && n * ENTRY == |entries|
    decreases n - i
  {
    if i == n then (if found.Some? then Found(found.value.0, found.value.1) else Missing)
    else
      var row := Row(entries, i);
      if !IsOf(row, ty) then Scan(entries, i + 1, n, ty, two, h, tableEnd, deviceBlocks, found)
      else if found.Some? then Refused(two)
      else
        var range := RowRange(row, h, tableEnd, deviceBlocks);
        if range.None? then Refused(GPT_BAD_RANGE)
        else Scan(entries, i + 1, n, ty, two, h, tableEnd, deviceBlocks, range)
  }

  function TableEnd(end: nat): nat {
    (end + SECTOR - 1) / SECTOR
  }

  /** The one partition of type `ty` in the first bytes of a device, or why there is none. */
  function Locate(buf: seq<Byte>, deviceBlocks: nat, ty: seq<Byte>, two: int): Outcome {
    if |buf| < 2 * SECTOR then Refused(GPT_NONE)
    else
      var (info, code) := ReadHeader(buf[SECTOR..2 * SECTOR]);
      if info.None? then Refused(code)
      else
        var h := info.value;
        if h.size != ENTRY || h.num == 0 || h.entriesLba < 2 then Refused(GPT_BAD_ENTRIES)
        else
          var start := h.entriesLba * SECTOR;
          var end := start + h.num * ENTRY;
          if end > |buf| then Refused(GPT_BAD_ENTRIES)
          else if Crc(buf[start..end]) != h.entriesCrc then Refused(GPT_BAD_ENTRIES_CRC)
          else Scan(buf[start..end], 0, h.num, ty, two, h, TableEnd(end), deviceBlocks, None)
  }

  /** The loop over the rows, as the kernel runs it. */
  method ScanRows(entries: seq<Byte>, n: nat, ty: seq<Byte>, two: int, h: Info, tableEnd: nat, deviceBlocks: nat) returns (r: Outcome)
    requires n * ENTRY == |entries|
    ensures r == Scan(entries, 0, n, ty, two, h, tableEnd, deviceBlocks, None)
  {
    hide RowRange, IsOf;
    var found: Option<(nat, nat)> := None;
    for i := 0 to n
      invariant Scan(entries, i, n, ty, two, h, tableEnd, deviceBlocks, found)
             == Scan(entries, 0, n, ty, two, h, tableEnd, deviceBlocks, None)
    {
      var row := Row(entries, i);
      if !IsOf(row, ty) { continue; }
      if found.Some? { return Refused(two); }
      found := RowRange(row, h, tableEnd, deviceBlocks);
      if found.None? { return Refused(GPT_BAD_RANGE); }
    }
    return if found.Some? then Found(found.value.0, found.value.1) else Missing;
  }

  method FindPart(buf: seq<Byte>, deviceBlocks: nat, ty: seq<Byte>, two: int) returns (r: Outcome)
    ensures r == Locate(buf, deviceBlocks, ty, two)
  {
    hide ReadHeader, Scan, Crc;
    if |buf| < 2 * SECTOR { return Refused(GPT_NONE); }
    var (info, code) := ReadHeader(buf[SECTOR..2 * SECTOR]);
    if info.None? { return Refused(code); }
    var h := info.value;
    if h.size != ENTRY || h.num == 0 || h.entriesLba < 2 { return Refused(GPT_BAD_ENTRIES); }
    var start := h.entriesLba * SECTOR;
    var end := start + h.num * ENTRY;
    if end > |buf| { return Refused(GPT_BAD_ENTRIES); }
    var crc := ComputeCrc(buf[start..end]);
    if crc != h.entriesCrc { return Refused(GPT_BAD_ENTRIES_CRC); }
    r := ScanRows(buf[start..end], h.num, ty, two, h, TableEnd(end), deviceBlocks);
  }

  function FindVolume(buf: seq<Byte>, deviceBlocks: nat): Outcome {
    var r := Locate(buf, deviceBlocks, VOLUME_TYPE, GPT_TWO_VOLUMES);
    if r.Missing? then Refused(GPT_NO_VOLUME) else r
  }

  predicate RangesDisjoint(a: nat, na: nat, b: nat, nb: nat) {
    a + na < U64 && b + nb < U64 && (a + na <= b || b + nb <= a)
  }

  function FindSwap(buf: seq<Byte>, deviceBlocks: nat): Outcome {
    var vol := FindVolume(buf, deviceBlocks);
    if !vol.Found? then vol
    else
      var swap := Locate(buf, deviceBlocks, SWAP_TYPE, GPT_TWO_SWAPS);
      if swap.Missing? then Refused(GPT_NO_SWAP)
      else if swap.Refused? then swap
      else if !RangesDisjoint(vol.base, vol.count, swap.base, swap.count) then Refused(GPT_SWAP_OVERLAPS)
      else swap
  }

  // ----- What an accepted table promises, whatever the bytes -----

  /** `i` is the only row of type `ty`. */
  ghost predicate OnlyRow(entries: seq<Byte>, n: nat, ty: seq<Byte>, i: nat)
    requires n * ENTRY == |entries|
  {
    i < n && forall j: nat :: j < n ==> (IsOf(Row(entries, j), ty) <==> j == i)
  }

  /** A scan ends with a range exactly when the range it carried stays the only one, or the
      rows hold exactly one of the type and its range is accepted. */
  lemma {:induction false} ScanFinds(entries: seq<Byte>, i: nat, n: nat, ty: seq<Byte>, two: int, h: Info, tableEnd: nat,
                                     deviceBlocks: nat, found: Option<(nat, nat)>, k: nat)
    requires i <= n && n * ENTRY == |entries|
    requires Scan(entries, i, n, ty, two, h, tableEnd, deviceBlocks, found).Found?
    requires found.Some? ==> k < i
    requires found.None? ==> forall j: nat :: j < i ==> !IsOf(Row(entries, j), ty)
    requires found.Some? ==> forall j: nat :: j < i ==> (IsOf(Row(entries, j), ty) <==> j == k)
    requires found.Some? ==> found == RowRange(Row(entries, k), h, tableEnd, deviceBlocks)
    ensures exists m: nat :: OnlyRow(entries, n, ty, m) &&
              var r := Scan(entries, i, n, ty, two, h, tableEnd, deviceBlocks, found);
              RowRange(Row(entries, m), h, tableEnd, deviceBlocks) == Some((r.base, r.count))
    decreases n - i
  {
    hide RowRange, IsOf;
    if i == n {
      assert OnlyRow(entries, n, ty, k);
    } else if !IsOf(Row(entries, i), ty) {
      ScanFinds(entries, i + 1, n, ty, two, h, tableEnd, deviceBlocks, found, k);
    } else {
      var range := RowRange(Row(entries, i), h, tableEnd, deviceBlocks);
      ScanFinds(entries, i + 1, n, ty, two, h, tableEnd, deviceBlocks, range, i);
    }
  }

  /** THE KERNEL NEVER ADDRESSES A BLOCK OUTSIDE THE DEVICE BECAUSE A TABLE SAID SO: for every
      sequence of bytes, a partition that is found is not empty, lies inside the device
      and after the two sectors in front of the table, and is the range of the one entry
      of its type in an array whose CRC is the header's. */
  lemma FoundIsInside(buf: seq<Byte>, deviceBlocks: nat, ty: seq<Byte>, two: int)
    requires Locate(buf, deviceBlocks, ty, two).Found?
    ensures var r := Locate(buf, deviceBlocks, ty, two);
            r.count > 0 && r.base + r.count <= deviceBlocks && r.base * SECTORS_PER_BLOCK >= 3
    ensures |buf| >= 2 * SECTOR && ReadHeader(buf[SECTOR..2 * SECTOR]).0.Some?
    ensures var h := ReadHeader(buf[SECTOR..2 * SECTOR]).0.value;
            var start := h.entriesLba * SECTOR;
            var end := start + h.num * ENTRY;
            && start >= 2 * SECTOR && end <= |buf| && Crc(buf[start..end]) == h.entriesCrc
            && Locate(buf, deviceBlocks, ty, two).base * SECTORS_PER_BLOCK >= TableEnd(end)
            && exists m: nat :: OnlyRow(buf[start..end], h.num, ty, m)
  {
    hide ReadHeader, Scan, Crc;
    var h := ReadHeader(buf[SECTOR..2 * SECTOR]).0.value;
    var start := h.entriesLba * SECTOR;
    var end := start + h.num * ENTRY;
    ScanFinds(buf[start..end], 0, h.num, ty, two, h, TableEnd(end), deviceBlocks, None, 0);
  }

  /** Swap that is accepted shares no block with the volume. */
  lemma SwapNeverOverlapsVolume(buf: seq<Byte>, deviceBlocks: nat, x: nat)
    requires FindSwap(buf, deviceBlocks).Found?
    ensures FindVolume(buf, deviceBlocks).Found?
    ensures var v, s := FindVolume(buf, deviceBlocks), FindSwap(buf, deviceBlocks);
            !(v.base <= x < v.base + v.count && s.base <= x < s.base + s.count)
  {
  }
}
