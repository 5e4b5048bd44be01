/** The scratch disk handed to a storage driver, and the check of what the driver wrote to it
    (tools/block_scratch.py). */
module ScratchDisk {
  import opened Wrappers
  import opened Bytes
  import opened DiskFile

  const BLOCK := 512
  const NONCE_OFF := 32
  const NONCE_LEN := 16

  /** A driver's layout: the two signatures, a planted block, the run it writes, and whether its
      report of the capacity is checked. */
  datatype Kind = Kind(scratch: seq<Byte>, written: seq<Byte>, planted: Option<(nat, seq<Byte>)>, writeLba: nat, writeCount: nat, capacity: bool)

  const NVME_SCRATCH: seq<Byte> :=
    [0x48, 0x4F, 0x52, 0x55, 0x53, 0x2D, 0x4E, 0x56, 0x4D, 0x45, 0x2D, 0x53, 0x43, 0x52, 0x41, 0x54, 0x43, 0x48, 0x2D, 0x56, 0x31, 0x00]
  const NVME_WRITTEN: seq<Byte> :=
    [0x48, 0x4F, 0x52, 0x55, 0x53, 0x2D, 0x4E, 0x56, 0x4D, 0x45, 0x2D, 0x57, 0x52, 0x49, 0x54, 0x54, 0x45, 0x4E, 0x2D, 0x56, 0x31, 0x00]
  const SD_SCRATCH: seq<Byte> :=
    [0x48, 0x4F, 0x52, 0x55, 0x53, 0x2D, 0x53, 0x44, 0x48, 0x43, 0x2D, 0x53, 0x43, 0x52, 0x41, 0x54, 0x43, 0x48, 0x2D, 0x56, 0x31, 0x00]
  const SD_WRITTEN: seq<Byte> :=
    [0x48, 0x4F, 0x52, 0x55, 0x53, 0x2D, 0x53, 0x44, 0x48, 0x43, 0x2D, 0x57, 0x52, 0x49, 0x54, 0x54, 0x45, 0x4E, 0x2D, 0x56, 0x31, 0x00]
  const SD_PLANTED: seq<Byte> :=
    [0x48, 0x4F, 0x52, 0x55, 0x53, 0x2D, 0x53, 0x44, 0x48, 0x43, 0x2D, 0x42, 0x4C, 0x4F, 0x43, 0x4B, 0x31, 0x30, 0x30, 0x2D, 0x56, 0x31, 0x00]
  const ATA_SCRATCH: seq<Byte> :=
    [0x48, 0x4F, 0x52, 0x55, 0x53, 0x2D, 0x41, 0x54, 0x41, 0x44, 0x2D, 0x53, 0x43, 0x52, 0x41, 0x54, 0x43, 0x48, 0x2D, 0x56, 0x31, 0x00]
  const ATA_WRITTEN: seq<Byte> :=
    [0x48, 0x4F, 0x52, 0x55, 0x53, 0x2D, 0x41, 0x54, 0x41, 0x44, 0x2D, 0x57, 0x52, 0x49, 0x54, 0x54, 0x45, 0x4E, 0x2D, 0x56, 0x31, 0x00]
  const ATA_PLANTED: seq<Byte> :=
    [0x48, 0x4F, 0x52, 0x55, 0x53, 0x2D, 0x41, 0x54, 0x41, 0x44, 0x2D, 0x50, 0x4C, 0x41, 0x4E, 0x54, 0x45, 0x44, 0x2D, 0x56, 0x31, 0x00]
  const BLK_SCRATCH: seq<Byte> :=
    [0x48, 0x4F, 0x52, 0x55, 0x53, 0x2D, 0x42, 0x4C, 0x4B, 0x50, 0x2D, 0x53, 0x43, 0x52, 0x41, 0x54, 0x43, 0x48, 0x2D, 0x56, 0x31, 0x00]
  const BLK_WRITTEN: seq<Byte> :=
    [0x48, 0x4F, 0x52, 0x55, 0x53, 0x2D, 0x42, 0x4C, 0x4B, 0x50, 0x2D, 0x57, 0x52, 0x49, 0x54, 0x54, 0x45, 0x4E, 0x2D, 0x56, 0x31, 0x00]
  const NVME := Kind(NVME_SCRATCH, NVME_WRITTEN, None, 1, 1, false)
  const SD := Kind(SD_SCRATCH, SD_WRITTEN, Some((100, SD_PLANTED)), 8, 8, true)
  const ATA := Kind(ATA_SCRATCH, ATA_WRITTEN, Some((0x10205, ATA_PLANTED)), 8, 8, true)
  const BLK := Kind(BLK_SCRATCH, BLK_WRITTEN, None, 2048, 8, false)

  const KINDS: set<Kind> := {NVME, SD, ATA, BLK}

  /** A block with a signature in front and the nonce behind it. */
  function Signed(magic: seq<Byte>, nonce: seq<Byte>): (r: seq<Byte>)
    requires |magic| <= NONCE_OFF && |nonce| == NONCE_LEN
    ensures |r| == BLOCK
  {
    PadTo(PadTo(magic, NONCE_OFF) + nonce, BLOCK)
  }

  function Mask(i: nat, m: nat, a: nat): Byte {
    ByteOf((i * m + a) % 256)
  }

  /** The byte at place `i` of sector `index` of the run. */
  function Pattern(nonce: seq<Byte>, index: nat, i: nat): Byte
    requires |nonce| == NONCE_LEN
  {
    nonce[i % NONCE_LEN] ^ Mask(i, 31, 7) ^ Mask(index, 13, 0)
  }

  /** Sector `index` of the run a driver derives from the nonce. */
  function Expected(k: Kind, nonce: seq<Byte>, index: nat): (r: seq<Byte>)
    requires |k.written| <= NONCE_OFF && |nonce| == NONCE_LEN
    ensures |r| == BLOCK
  {
    PadTo(k.written, NONCE_OFF) + nonce + seq(BLOCK - 48, i requires 0 <= i < BLOCK - 48 => Pattern(nonce, index, i + 48))
  }

  method ExpectedSector(k: Kind, nonce: seq<Byte>, index: nat) returns (r: seq<Byte>)
    requires |k.written| <= NONCE_OFF && |nonce| == NONCE_LEN
    ensures r == Expected(k, nonce, index)
  {
    hide Pattern;
    var b := new Byte[BLOCK](_ => 0);
    var w := k.written;
    for i := 0 to |w|
      invariant b[..i] == w[..i] && forall j :: i <= j < BLOCK ==> b[j] == 0
    {
      b[i] := w[i];
    }
    assert b[..NONCE_OFF] == PadTo(w, NONCE_OFF);
    for i := 0 to NONCE_LEN
      invariant b[..NONCE_OFF] == PadTo(w, NONCE_OFF) && b[NONCE_OFF..NONCE_OFF + i] == nonce[..i]
    {
      b[NONCE_OFF + i] := nonce[i];
    }
    assert b[..48] == PadTo(w, NONCE_OFF) + nonce;
    for i := NONCE_OFF + NONCE_LEN to BLOCK
      invariant b[..48] == PadTo(w, NONCE_OFF) + nonce
      invariant forall j :: 48 <= j < i ==> b[j] == Pattern(nonce, index, j)
    {
      b[i] := Pattern(nonce, index, i);
    }
    r := b[..];
    assert r == b[..48] + b[48..];
    assert b[48..] == seq(BLOCK - 48, i requires 0 <= i < BLOCK - 48 => Pattern(nonce, index, i + 48));
  }

  // ----- Sectors differ -----

  /** Multiplication by 13 can be undone modulo 256: 197 is its inverse. */
  lemma ThirteenIsInjective(i: nat, j: nat)
    requires i < 256 && j < 256 && (i * 13) % 256 == (j * 13) % 256
    ensures i == j
  {
    var q := (i * 13) / 256 - (j * 13) / 256;
    assert 13 * (i - j) == 256 * q;
    assert 2561 * (i - j) == 256 * (197 * q);
    assert i - j == 256 * (197 * q - 10 * (i - j));
  }

  lemma MasksDiffer(i: nat, j: nat)
    requires i < 256 && j < 256 && i != j
    ensures Mask(i, 13, 0) != Mask(j, 13, 0)
  {
    if (i * 13) % 256 == (j * 13) % 256 {
      ThirteenIsInjective(i, j);
    }
    ByteRoundTrip((i * 13) % 256);
    ByteRoundTrip((j * 13) % 256);
  }

  lemma XorDiffers(n: Byte, c: Byte, x: Byte, y: Byte)
    requires x != y
    ensures n ^ c ^ x != n ^ c ^ y
  {
  }

  /** Two different sectors of a run differ. */
  lemma RunSectorsDiffer(k: Kind, nonce: seq<Byte>, i: nat, j: nat)
    requires |k.written| <= NONCE_OFF && |nonce| == NONCE_LEN && i < 256 && j < 256 && i != j
    ensures Expected(k, nonce, i) != Expected(k, nonce, j)
  {
    hide Mask;
    MasksDiffer(i, j);
    XorDiffers(nonce[0], Mask(48, 31, 7), Mask(i, 13, 0), Mask(j, 13, 0));
    assert Expected(k, nonce, i)[48] == Pattern(nonce, i, 48) && Expected(k, nonce, j)[48] == Pattern(nonce, j, 48);
  }

  /** Runs of different nonces differ in every sector. */
  lemma NoncesShow(k: Kind, nonce: seq<Byte>, other: seq<Byte>, i: nat, j: nat)
    requires |k.written| <= NONCE_OFF && |nonce| == NONCE_LEN && |other| == NONCE_LEN && nonce != other
    ensures Expected(k, nonce, i) != Expected(k, other, j)
  {
    hide Pattern;
    assert Expected(k, nonce, i)[NONCE_OFF..48] == nonce && Expected(k, other, j)[NONCE_OFF..48] == other;
  }

  // ----- Making the disk -----

  /** What every kind has: signatures that fit and differ, a run that is not in block 0, and a
      planted block that is in neither. */
  predicate WellPlaced(k: Kind) {
    && |k.scratch| <= NONCE_OFF && |k.written| <= NONCE_OFF && |k.scratch| > 11 && |k.written| > 11 && k.scratch[11] != k.written[11]
    && k.written[0] != 0 && k.writeLba >= 1 && 0 < k.writeCount < 256
    && (k.planted.Some? ==> k.planted.value.0 >= k.writeLba + k.writeCount && |k.planted.value.1| <= NONCE_OFF)
  }

  lemma KindsAreWellPlaced()
    ensures forall k :: k in KINDS ==> WellPlaced(k)
  {
  }

  const MEBI := 1024 * 1024

  /** `data` cut or padded to `n` bytes. */
  function Resized(data: seq<Byte>, n: nat): (r: seq<Byte>)
    ensures |r| == n
  {
    if |data| < n then PadTo(data, n) else data[..n]
  }

  lemma PlacedFits(k: Kind)
    requires WellPlaced(k)
    ensures |k.scratch| <= NONCE_OFF && |k.written| <= NONCE_OFF && (k.planted.Some? ==> |k.planted.value.1| <= NONCE_OFF)
  {
  }

  lemma WrittenAll(b: seq<Byte>)
    ensures Written([], 0, b) == b
  {
  }

  /** The disk as it is handed to the driver. */
  function Made(k: Kind, nonce: seq<Byte>, mib: nat): (r: seq<Byte>)
    requires WellPlaced(k) && |nonce| == NONCE_LEN
    ensures |r| == mib * MEBI
  {
    var d := Signed(k.scratch, nonce);
    var e := if k.planted.Some? then Written(d, k.planted.value.0 * BLOCK, Signed(k.planted.value.1, nonce)) else d;
    Resized(e, mib * MEBI)
  }

  method Make(f: ImageFile, k: Kind, nonce: seq<Byte>, mib: nat)
    requires WellPlaced(k) && |nonce| == NONCE_LEN && f.data == [] && f.pos == 0
    modifies f
    ensures f.data == Made(k, nonce, mib)
  {
    hide Signed, WellPlaced, Written;
    PlacedFits(k);
    WrittenAll(Signed(k.scratch, nonce));
    f.Write(Signed(k.scratch, nonce));
    if k.planted.Some? {
      f.Seek(k.planted.value.0 * BLOCK);
      f.Write(Signed(k.planted.value.1, nonce));
    }
    f.Truncate(mib * MEBI);
  }

  function Sector(data: seq<Byte>, lba: nat): seq<Byte> {
    Cut(data, lba * BLOCK, (lba + 1) * BLOCK)
  }

  /** Block 0 is the signature and the nonce, the planted block has its own signature and the same
      nonce, and everything between them is empty. */
  lemma MadeHolds(k: Kind, nonce: seq<Byte>, mib: nat)
    requires WellPlaced(k) && |nonce| == NONCE_LEN && mib > 0
    ensures Sector(Made(k, nonce, mib), 0) == Signed(k.scratch, nonce)
    ensures forall i :: BLOCK <= i < mib * MEBI && (k.planted.Some? ==> i < k.planted.value.0 * BLOCK) ==> Made(k, nonce, mib)[i] == 0
    ensures k.planted.Some? && (k.planted.value.0 + 1) * BLOCK <= mib * MEBI ==>
              Sector(Made(k, nonce, mib), k.planted.value.0) == Signed(k.planted.value.1, nonce)
  {
    hide Signed;
    var d := Signed(k.scratch, nonce);
    var e := if k.planted.Some? then Written(d, k.planted.value.0 * BLOCK, Signed(k.planted.value.1, nonce)) else d;
    assert e[..BLOCK] == d;
    assert Resized(e, mib * MEBI)[..BLOCK] == e[..BLOCK];
  }

  // ----- Checking the disk -----

  function NonceOf(block0: seq<Byte>): (r: seq<Byte>)
    requires |block0| >= 48
    ensures |r| == NONCE_LEN
  {
    block0[NONCE_OFF..48]
  }

  /** Block 0 still has its signature. */
  predicate Signature(k: Kind, data: seq<Byte>) {
    k.scratch <= Sector(data, 0)
  }

  predicate SectorHolds(k: Kind, data: seq<Byte>, n: nat)
    requires |k.written| <= NONCE_OFF && |Sector(data, 0)| >= 48
  {
    Sector(data, k.writeLba + n) == Expected(k, NonceOf(Sector(data, 0)), n)
  }

  /** The disk holds, in the right place, the run derived from the nonce in its own block 0. */
  predicate RunHolds(k: Kind, data: seq<Byte>)
    requires |k.written| <= NONCE_OFF
  {
    Signature(k, data) && |Sector(data, 0)| >= 48 && forall n :: 0 <= n < k.writeCount ==> SectorHolds(k, data, n)
  }

  /** Sector `n` is the first of the run that does not hold what it should. */
  predicate FirstBad(k: Kind, data: seq<Byte>, n: nat)
    requires |k.written| <= NONCE_OFF
  {
    && Signature(k, data) && |Sector(data, 0)| >= 48 && n < k.writeCount
    && !SectorHolds(k, data, n) && forall m :: 0 <= m < n ==> SectorHolds(k, data, m)
  }

  datatype Verdict = Passed | LostSignature | Crashed | BadBlock(lba: nat) | NeedsLog | NoCapacity | WrongCapacity

  /** Check the disk. `log` is the driver's log, if there is one, reduced to the capacity it
      reports, if it reports one. A file too short to hold a nonce makes the tool crash. */
  method Verify(f: ImageFile, k: Kind, log: Option<Option<nat>>) returns (v: Verdict)
    requires WellPlaced(k) && f.pos == 0
    modifies f`pos
    ensures v.LostSignature? <==> !Signature(k, f.data)
    ensures v.Crashed? <==> Signature(k, f.data) && |Sector(f.data, 0)| < 48
    ensures v.BadBlock? ==> v.lba >= k.writeLba && FirstBad(k, f.data, v.lba - k.writeLba)
    ensures v.Passed? || v.NeedsLog? || v.NoCapacity? || v.WrongCapacity? <==> RunHolds(k, f.data)
    ensures v.Passed? <==> RunHolds(k, f.data) && (k.capacity ==> log == Some(Some(|f.data| / BLOCK)))
    ensures RunHolds(k, f.data) && k.capacity ==> (v.NeedsLog? <==> log == None) && (v.NoCapacity? <==> log == Some(None))
  {
    hide WellPlaced, Expected, Cut;
    PlacedFits(k);
    var block0 := f.Read(BLOCK);
    assert block0 == Sector(f.data, 0);
    f.Seek(k.writeLba * BLOCK);
    var got := f.Read(BLOCK * k.writeCount);
    if !(k.scratch <= block0) { return LostSignature; }
    if |block0| < 48 { return Crashed; }
    var nonce := NonceOf(block0);
    for n := 0 to k.writeCount
      invariant forall m :: 0 <= m < n ==> SectorHolds(k, f.data, m)
    {
      var sector := Cut(got, n * BLOCK, (n + 1) * BLOCK);
      CutCut(f.data, k.writeLba * BLOCK, BLOCK * k.writeCount, n * BLOCK, (n + 1) * BLOCK);
      assert sector == Sector(f.data, k.writeLba + n);
      var want := ExpectedSector(k, nonce, n);
      if sector != want {
        assert !SectorHolds(k, f.data, n);
        return BadBlock(k.writeLba + n);
      }
    }
    if k.capacity {
      match log {
        case None => return NeedsLog;
        case Some(None) => return NoCapacity;
        case Some(Some(c)) =>
          if c != |f.data| / BLOCK { return WrongCapacity; }
      }
    }
    return Passed;
  }

  // ----- What a pass proves -----

  /** The first `n` sectors of the run. */
  function Run(k: Kind, nonce: seq<Byte>, n: nat): (r: seq<Byte>)
    requires |k.written| <= NONCE_OFF && |nonce| == NONCE_LEN
    ensures |r| == n * BLOCK
  {
    if n == 0 then [] else Run(k, nonce, n - 1) + Expected(k, nonce, n - 1)
  }

  lemma {:induction false} RunSector(k: Kind, nonce: seq<Byte>, n: nat, i: nat)
    requires |k.written| <= NONCE_OFF && |nonce| == NONCE_LEN && i < n
    ensures Run(k, nonce, n)[i * BLOCK..(i + 1) * BLOCK] == Expected(k, nonce, i)
    decreases n
  {
    hide Expected;
    var a, b := Run(k, nonce, n - 1), Expected(k, nonce, n - 1);
    if i < n - 1 {
      RunSector(k, nonce, n - 1, i);
      assert (a + b)[i * BLOCK..(i + 1) * BLOCK] == a[i * BLOCK..(i + 1) * BLOCK];
    } else {
      assert (a + b)[i * BLOCK..(i + 1) * BLOCK] == b;
    }
  }

  /** The disk after the run was written at sector `s`. */
  function After(disk: seq<Byte>, k: Kind, nonce: seq<Byte>, s: nat): seq<Byte>
    requires |k.written| <= NONCE_OFF && |nonce| == NONCE_LEN
  {
    Written(disk, s * BLOCK, Run(k, nonce, k.writeCount))
  }

  lemma SectorCovered(disk: seq<Byte>, k: Kind, nonce: seq<Byte>, s: nat, i: nat)
    requires |k.written| <= NONCE_OFF && |nonce| == NONCE_LEN && i < k.writeCount && (s + k.writeCount) * BLOCK <= |disk|
    ensures Sector(After(disk, k, nonce, s), s + i) == Expected(k, nonce, i)
  {
    hide Expected, Written, Run;
    var run := Run(k, nonce, k.writeCount);
    var d := After(disk, k, nonce, s);
    WrittenGives(disk, s * BLOCK, run);
    RunSector(k, nonce, k.writeCount, i);
    Subslice(d, s * BLOCK, s * BLOCK + |run|, i * BLOCK, (i + 1) * BLOCK);
  }

  lemma SectorKept(disk: seq<Byte>, k: Kind, nonce: seq<Byte>, s: nat, lba: nat)
    requires |k.written| <= NONCE_OFF && |nonce| == NONCE_LEN && (s + k.writeCount) * BLOCK <= |disk|
    requires (lba + 1) * BLOCK <= |disk| && (lba < s || s + k.writeCount <= lba)
    ensures Sector(After(disk, k, nonce, s), lba) == Sector(disk, lba)
  {
    hide Written, Run;
    WrittenKeeps(disk, s * BLOCK, Run(k, nonce, k.writeCount), lba * BLOCK, (lba + 1) * BLOCK);
  }

  lemma SignedShows(magic: seq<Byte>, nonce: seq<Byte>)
    requires |magic| <= NONCE_OFF && |nonce| == NONCE_LEN
    ensures magic <= Signed(magic, nonce) && NonceOf(Signed(magic, nonce)) == nonce
  {
  }

  predicate LargeEnough(k: Kind, mib: nat) {
    (k.writeLba + k.writeCount) * BLOCK <= mib * MEBI
  }

  lemma CorrectWritePasses(k: Kind, nonce: seq<Byte>, mib: nat)
    requires WellPlaced(k) && |nonce| == NONCE_LEN && LargeEnough(k, mib)
    ensures RunHolds(k, After(Made(k, nonce, mib), k, nonce, k.writeLba))
  {
    hide Expected, Made, After, Signed, Cut;
    var disk := Made(k, nonce, mib);
    var d := After(disk, k, nonce, k.writeLba);
    MadeHolds(k, nonce, mib);
    SectorKept(disk, k, nonce, k.writeLba, 0);
    SignedShows(k.scratch, nonce);
    forall n | 0 <= n < k.writeCount
      ensures SectorHolds(k, d, n)
    {
      SectorCovered(disk, k, nonce, k.writeLba, n);
    }
  }

  lemma EmptyIsNotExpected(k: Kind, nonce: seq<Byte>, mib: nat)
    requires WellPlaced(k) && |nonce| == NONCE_LEN && LargeEnough(k, mib)
    ensures Sector(Made(k, nonce, mib), k.writeLba) != Expected(k, nonce, 0)
  {
    hide Made;
    MadeHolds(k, nonce, mib);
    assert Sector(Made(k, nonce, mib), k.writeLba)[0] == 0;
    assert Expected(k, nonce, 0)[0] == k.written[0];
  }

  lemma WrongWriteFails(k: Kind, nonce: seq<Byte>, mib: nat, s: nat)
    requires WellPlaced(k) && |nonce| == NONCE_LEN && LargeEnough(k, mib)
    requires s != k.writeLba && (s + k.writeCount) * BLOCK <= mib * MEBI
    ensures !RunHolds(k, After(Made(k, nonce, mib), k, nonce, s))
  {
    hide Made, After, Signed, Cut, Expected;
    var disk := Made(k, nonce, mib);
    var d := After(disk, k, nonce, s);
    if s == 0 {
      SectorCovered(disk, k, nonce, 0, 0);
      ExpectedIsNotSigned(k, nonce);
    } else {
      MadeHolds(k, nonce, mib);
      SectorKept(disk, k, nonce, s, 0);
      SignedShows(k.scratch, nonce);
      if s < k.writeLba < s + k.writeCount {
        SectorCovered(disk, k, nonce, s, k.writeLba - s);
        RunSectorsDiffer(k, nonce, 0, k.writeLba - s);
      } else {
        SectorKept(disk, k, nonce, s, k.writeLba);
        EmptyIsNotExpected(k, nonce, mib);
      }
      assert !SectorHolds(k, d, 0);
    }
  }

  lemma ExpectedIsNotSigned(k: Kind, nonce: seq<Byte>)
    requires WellPlaced(k) && |nonce| == NONCE_LEN
    ensures !(k.scratch <= Expected(k, nonce, 0))
  {
    assert Expected(k, nonce, 0)[11] == k.written[11];
  }

  /** ONLY THE RIGHT PLACE PASSES: whatever the nonce, the kind and the size of the disk, the run
      written at sector `s` passes the check of the sectors exactly when `s` is where it belongs. */
  lemma PassesExactlyInPlace(k: Kind, nonce: seq<Byte>, mib: nat, s: nat)
    requires k in KINDS && |nonce| == NONCE_LEN && LargeEnough(k, mib) && (s + k.writeCount) * BLOCK <= mib * MEBI
    ensures |k.written| <= NONCE_OFF && WellPlaced(k)
    ensures RunHolds(k, After(Made(k, nonce, mib), k, nonce, s)) <==> s == k.writeLba
  {
    hide WellPlaced, RunHolds, KINDS;
    KindsAreWellPlaced();
    PlacedFits(k);
    if s == k.writeLba {
      CorrectWritePasses(k, nonce, mib);
    } else {
      WrongWriteFails(k, nonce, mib, s);
    }
  }

  /** A disk that passes holds the sectors of the run in order, each once, derived from the nonce
      of this disk: a sector out of place, fed twice, or left from another run is found. */
  lemma PassMeansInOrder(k: Kind, data: seq<Byte>, n: nat, nonce: seq<Byte>, i: nat)
    requires WellPlaced(k) && RunHolds(k, data) && n < k.writeCount && |nonce| == NONCE_LEN && i < 256
    requires Sector(data, k.writeLba + n) == Expected(k, nonce, i)
    ensures i == n && nonce == NonceOf(Sector(data, 0))
  {
    hide Expected, Sector;
    var own := NonceOf(Sector(data, 0));
    assert SectorHolds(k, data, n);
    if nonce != own {
      NoncesShow(k, nonce, own, i, n);
    } else if i != n {
      RunSectorsDiffer(k, nonce, i, n);
    }
  }
}
