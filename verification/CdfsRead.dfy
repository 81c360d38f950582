/**
 * Reading a file of a CD-ROM file system: where its bytes lie on the medium,
 * how cd_bmap finds them, and what cdfs_rd delivers.
 */
module CdfsRead {
  import opened Common
  import opened CdfsGeometry

  const CHUNK := 8192       // bytes asked for at once: SECTOR << FILE_CHUNK_SHIFT
  const CHUNKSECTORS := 4   // FILE_CHUNK

  // Location, length of the extended attribute record, and file unit and gap
  // size, all in logical blocks; size in bytes. A file unit size of 0 means
  // that the file is not interleaved.
  datatype File = File(loc: nat, xarlen: nat, fusize: nat, fugsize: nat, size: nat)

  // ------------------------------------------------------------- arithmetic

  // Products, quotients and remainders, by repeated addition and subtraction;
  // see TimesIs and QuotientIs.
  function Times(u: nat, d: nat): nat { if u == 0 then 0 else d + Times(u - 1, d) }

  function Quot(i: nat, m: nat): nat
    requires m > 0
  {
    if i < m then 0 else 1 + Quot(i - m, m)
  }

  function Rem(i: nat, m: nat): nat
    requires m > 0
  {
    if i < m then i else Rem(i - m, m)
  }

  lemma {:induction false} TimesIs(u: nat, d: nat)
    ensures Times(u, d) == u * d
  {
    if u > 0 {
      TimesIs(u - 1, d);
      assert u * d == (u - 1) * d + d;
    }
  }

  lemma {:induction false} Parts(i: nat, m: nat)
    requires m > 0
    ensures i == Times(Quot(i, m), m) + Rem(i, m) && Rem(i, m) < m
  {
    if i >= m { Parts(i - m, m); }
  }

  lemma {:induction false} Whole(q: nat, r: nat, m: nat)
    requires r < m
    ensures Quot(Times(q, m) + r, m) == q && Rem(Times(q, m) + r, m) == r
  {
    if q > 0 {
      Whole(q - 1, r, m);
      assert Times(q, m) + r - m == Times(q - 1, m) + r;
    }
  }

  lemma QuotientIs(i: nat, m: nat)
    requires m > 0
    ensures Quot(i, m) == i / m && Rem(i, m) == i % m
  {
    Parts(i, m);
    TimesIs(Quot(i, m), m);
    Quotient(i, m, Quot(i, m), Rem(i, m));
  }

  // A step that does not leave the unit.
  lemma StepInUnit(i: nat, d: nat, m: nat)
    requires m > 0 && Rem(i, m) + d <= m
    ensures Rem(i, m) + d < m ==> Quot(i + d, m) == Quot(i, m) && Rem(i + d, m) == Rem(i, m) + d
    ensures Rem(i, m) + d == m ==> Rem(i + d, m) == 0
  {
    Parts(i, m);
    if Rem(i, m) + d < m { Whole(Quot(i, m), Rem(i, m) + d, m); }
    else { Whole(Quot(i, m) + 1, 0, m); }
  }

  // The size in bytes of logical blocks.
  function Bytes(fs: Cdfs, blocks: nat): nat
    requires Sound(fs)
  {
    if fs.lbsize == 512 then 512 * blocks else if fs.lbsize == 1024 then 1024 * blocks else 2048 * blocks
  }

  lemma BytesIs(fs: Cdfs, blocks: nat)
    requires Sound(fs)
    ensures Bytes(fs, blocks) == blocks * fs.lbsize
  { }

  // ------------------------------------------------ where ISO 9660 puts a byte

  // The first logical block of a file unit: section 6.4 of ISO 9660.
  function UnitStart(f: File, u: nat): nat {
    f.loc + f.xarlen + (if f.xarlen > 0 then f.fugsize else 0) + Times(u, f.fusize + f.fugsize)
  }

  function UnitBytes(fs: Cdfs, f: File): nat requires Sound(fs) { Bytes(fs, f.fusize) }

  // The address in bytes of byte i of a file.
  function AddressOf(fs: Cdfs, f: File, i: nat): nat
    requires Sound(fs)
  {
    if f.fusize == 0 then Bytes(fs, f.loc + f.xarlen) + i
    else Bytes(fs, UnitStart(f, Quot(i, UnitBytes(fs, f)))) + Rem(i, UnitBytes(fs, f))
  }

  // The same address in ordinary arithmetic: the unit with the byte comes after
  // as many units and gaps as there are whole units before the byte.
  lemma AddressIs(fs: Cdfs, f: File, i: nat)
    requires Sound(fs)
    ensures f.fusize == 0 ==> AddressOf(fs, f, i) == (f.loc + f.xarlen) * fs.lbsize + i
    ensures f.fusize > 0 ==>
      && f.fusize * fs.lbsize > 0
      && AddressOf(fs, f, i) ==
        (f.loc + f.xarlen + (if f.xarlen > 0 then f.fugsize else 0)
         + i / (f.fusize * fs.lbsize) * (f.fusize + f.fugsize)) * fs.lbsize
        + i % (f.fusize * fs.lbsize)
  {
    if f.fusize == 0 {
      BytesIs(fs, f.loc + f.xarlen);
    } else {
      var unit := UnitBytes(fs, f);
      BytesIs(fs, f.fusize);
      QuotientIs(i, unit);
      TimesIs(i / unit, f.fusize + f.fugsize);
      BytesIs(fs, UnitStart(f, i / unit));
    }
  }

  // --------------------------------------------------------------- cd_bmap

  // Arithmetic on u_int.
  const WIDTH := 0x1_0000_0000

  function U32(x: int): nat {
    if 0 <= x < WIDTH then x else if -WIDTH <= x < 0 then x + WIDTH else x % WIDTH
  }

  function SectorRoundUp(x: nat): nat { (x + SECTOR - 1) / SECTOR * SECTOR }
  function SectorToDeviceBlock(fs: Cdfs, sector: nat): nat { Shl(sector, fs.lstodb) }

  // What cd_bmap finds for an offset: the sector to read from, how many bytes
  // from there are wanted, where among them the byte at the offset is, and the
  // block and size of the next read.
  datatype Extent = Extent(sn: nat, size: nat, on: nat, rablock: nat, rasize: nat)

  // How many bytes lie between the start of the sector and the file's first byte.
  function Pad(fs: Cdfs, f: File): nat
    requires Sound(fs)
  {
    var at := f.loc + f.xarlen;
    BlocksPerSector(fs, at);
    if fs.lbsize != SECTOR then Shl(at - Shl(Shr(at, fs.lbtolsc), fs.lbtolsc), fs.lbshift) else 0
  }

  // Where a byte lies, counted from the start of the sector that holds the first
  // byte of the file: a sum of unsigned integers.
  function FromSector(fs: Cdfs, f: File, i: nat): nat
    requires Sound(fs)
  {
    U32(i + Pad(fs, f))
  }

  function SectorOf(fs: Cdfs, at: nat): nat
    requires fs.lbtolsc >= 0
  {
    if fs.lbsize != SECTOR then Shr(at, fs.lbtolsc) else at
  }

  // The bytes from the start of the buffer to the end of the file.
  function Remaining(size: nat, start: nat, on: nat): nat { U32(size - U32(start - on)) }

  function Contiguous(fs: Cdfs, f: File, start: nat): Extent
    requires Sound(fs)
  {
    var at := FromSector(fs, f, start);
    var on := at % CHUNK;
    var size := Least(CHUNK, Remaining(f.size, start, on));
    var sn := SectorOf(fs, f.loc + f.xarlen) + Shr(at, fs.lsshift + 2) * CHUNKSECTORS;
    if f.size > U32(U32(start - on) + size) then
      Extent(sn, size, on, SectorToDeviceBlock(fs, sn + CHUNKSECTORS),
             SectorRoundUp(Least(CHUNK, U32(f.size - U32(start - on + CHUNK)))))
    else Extent(sn, size, on, 0, 0)
  }

  function Interleaved(fs: Cdfs, f: File, start: nat): Extent
    requires Sound(fs) && f.fusize > 0
  {
    var unit := UnitBytes(fs, f);
    var sector := SectorOf(fs, UnitStart(f, Quot(Shr(start, fs.lbshift), f.fusize)));
    var dist := SectorOf(fs, f.fusize + f.fugsize);
    var inUnit := Rem(start, unit);
    var boff := inUnit - inUnit % CHUNK;
    var on := inUnit - boff;
    var sn := sector + Shr(boff, fs.lsshift);
    var rest := unit - boff;
    Parts(start, unit);
    var size := Least(rest, Least(Remaining(f.size, start, on), CHUNK));
    if rest > size then
      Extent(sn, size, on, SectorToDeviceBlock(fs, sn + CHUNKSECTORS), Least(rest - size, CHUNK))
    else
      Extent(sn, size, on, SectorToDeviceBlock(fs, sector + dist), Least(CHUNK, unit))
  }

  function Bmap(fs: Cdfs, f: File, start: nat): Option<Extent>
    requires Sound(fs)
  {
    if start >= f.size then None
    else if f.fusize == 0 then Some(Contiguous(fs, f, start))
    else Some(Interleaved(fs, f, start))
  }

  // Sizes are u_int, and what is left from start on keeps a chunk away from
  // that width.
  predicate Fits(f: File, start: nat) { f.size < WIDTH && f.size - start + CHUNK <= WIDTH }

  // ---------------------------------------------------------- what cd_bmap finds

  // The address the block map leads to: a unit that does not start on a sector
  // is looked for at the start of the sector it begins in, and the place in a
  // file that does not start on a sector wraps around.
  function Where(fs: Cdfs, f: File, i: nat): nat
    requires Sound(fs)
  {
    if f.fusize == 0 then Bytes(fs, f.loc + f.xarlen) / SECTOR * SECTOR + FromSector(fs, f, i)
    else Bytes(fs, UnitStart(f, Quot(i, UnitBytes(fs, f)))) / SECTOR * SECTOR + Rem(i, UnitBytes(fs, f))
  }

  lemma Shifts(fs: Cdfs, x: nat)
    requires Sound(fs)
    ensures Shr(x, fs.lsshift) == x / SECTOR && Shr(x, fs.lsshift + 2) == x / CHUNK
    ensures SectorToDeviceBlock(fs, x) == 2 * x
    ensures Shl(x, fs.lbshift) == Bytes(fs, x) && Shr(x, fs.lbshift) == x / fs.lbsize
  {
    ShrIs(x, fs.lsshift, SECTOR);
    assert Pow2(fs.lsshift + 2) == 2 * Pow2(fs.lsshift + 1) == 4 * Pow2(fs.lsshift);
    ShrIs(x, fs.lsshift + 2, CHUNK);
    ShlIs(x, fs.lstodb, 2);
    ShlIs(x, fs.lbshift, fs.lbsize);
    ShrIs(x, fs.lbshift, fs.lbsize);
  }

  lemma BlocksPerSector(fs: Cdfs, x: nat)
    requires Sound(fs)
    ensures SectorOf(fs, x) == Bytes(fs, x) / SECTOR
    ensures Shl(Shr(x, fs.lbtolsc), fs.lbtolsc) <= x
    ensures fs.lbsize != SECTOR ==> Bytes(fs, x - Shl(Shr(x, fs.lbtolsc), fs.lbtolsc)) == Bytes(fs, x) % SECTOR
  {
    var ratio := Pow2(fs.lbtolsc);
    assert ratio == if fs.lbsize == 512 then 4 else if fs.lbsize == 1024 then 2 else 1;
    ShrIs(x, fs.lbtolsc, ratio);
    ShlIs(Shr(x, fs.lbtolsc), fs.lbtolsc, ratio);
  }

  lemma PadIs(fs: Cdfs, f: File)
    requires Sound(fs)
    ensures Pad(fs, f) == Bytes(fs, f.loc + f.xarlen) % SECTOR
  {
    var at := f.loc + f.xarlen;
    BlocksPerSector(fs, at);
    if fs.lbsize != SECTOR { Shifts(fs, at - Shl(Shr(at, fs.lbtolsc), fs.lbtolsc)); }
  }

  // No difference wraps around for long.
  lemma Unwrapped(size: nat, start: nat, on: nat, n: nat)
    requires size < WIDTH && size - start + CHUNK <= WIDTH && start < size && on < CHUNK && n <= CHUNK
    ensures Remaining(size, start, on) == size - start + on
    ensures 0 <= start - on + n <= size ==> U32(U32(start - on) + n) == start - on + n
    ensures 0 <= start - on + n < size ==> U32(size - U32(start - on + n)) == size - (start - on + n)
  { }

  lemma ContiguousAt(fs: Cdfs, f: File, start: nat)
    requires Sound(fs) && f.fusize == 0
    ensures var e := Contiguous(fs, f, start);
      e.sn * SECTOR + e.on == Where(fs, f, start) && e.on == FromSector(fs, f, start) % CHUNK
  {
    BlocksPerSector(fs, f.loc + f.xarlen);
    Shifts(fs, FromSector(fs, f, start));
  }

  // Within a chunk the place does not wrap around.
  lemma SameChunk(x: nat, k: nat)
    requires x < WIDTH + SECTOR && U32(x) % CHUNK + k < CHUNK
    ensures U32(x + k) == U32(x) + k
  {
    var y := U32(x);
    assert y == CHUNK * (y / CHUNK) + y % CHUNK;
    assert y / CHUNK < WIDTH / CHUNK;
  }

  lemma PadIsLess(fs: Cdfs, f: File)
    requires Sound(fs)
    ensures Pad(fs, f) < SECTOR
  {
    PadIs(fs, f);
  }

  // The extent of a file that is not interleaved.
  lemma ContiguousFinds(fs: Cdfs, f: File, start: nat)
    requires Sound(fs) && Fits(f, start) && f.fusize == 0 && start < f.size
    ensures var e := Contiguous(fs, f, start);
      && e.sn * SECTOR + e.on == Where(fs, f, start)
      && e.on == FromSector(fs, f, start) % CHUNK
      && e.size == Least(CHUNK, f.size - start + e.on)
      && (if f.size > start - e.on + e.size then e.size == CHUNK && e.rablock == 2 * (e.sn + CHUNKSECTORS)
            && e.rasize == SectorRoundUp(Least(CHUNK, f.size - (start - e.on + CHUNK)))
          else e.rablock == 0)
  {
    ContiguousAt(fs, f, start);
    var e := Contiguous(fs, f, start);
    Unwrapped(f.size, start, e.on, CHUNK);
    Unwrapped(f.size, start, e.on, e.size);
    Shifts(fs, e.sn + CHUNKSECTORS);
  }

  lemma {:induction false} UnitNumber(fs: Cdfs, fu: nat, i: nat)
    requires Sound(fs) && fu > 0
    ensures Quot(i / fs.lbsize, fu) == Quot(i, Bytes(fs, fu))
  {
    var unit := Bytes(fs, fu);
    if i >= unit {
      UnitNumber(fs, fu, i - unit);
      assert (i - unit) / fs.lbsize == i / fs.lbsize - fu by {
        if fs.lbsize == 512 { } else if fs.lbsize == 1024 { }
      }
    } else {
      assert i / fs.lbsize < fu by {
        if fs.lbsize == 512 { } else if fs.lbsize == 1024 { }
      }
    }
  }

  lemma ChunkStart(x: nat)
    ensures (x - x % CHUNK) / SECTOR * SECTOR == x - x % CHUNK
  { }

  lemma InterleavedAt(fs: Cdfs, f: File, start: nat)
    requires Sound(fs) && f.fusize > 0
    ensures var e := Interleaved(fs, f, start);
      e.sn * SECTOR + e.on == Where(fs, f, start) && e.on == Rem(start, UnitBytes(fs, f)) % CHUNK
  {
    var unit := UnitBytes(fs, f);
    Shifts(fs, start);
    UnitNumber(fs, f.fusize, start);
    BlocksPerSector(fs, UnitStart(f, Quot(start, unit)));
    var inUnit := Rem(start, unit);
    Shifts(fs, inUnit - inUnit % CHUNK);
    ChunkStart(inUnit);
  }

  lemma InterleavedSize(fs: Cdfs, f: File, start: nat)
    requires Sound(fs) && Fits(f, start) && f.fusize > 0 && start < f.size
    ensures var e, inUnit := Interleaved(fs, f, start), Rem(start, UnitBytes(fs, f));
      && e.size == Least(UnitBytes(fs, f) - (inUnit - e.on), Least(f.size - start + e.on, CHUNK))
      && inUnit < UnitBytes(fs, f) && e.on == inUnit % CHUNK
  {
    Parts(start, UnitBytes(fs, f));
    Unwrapped(f.size, start, Interleaved(fs, f, start).on, 0);
  }

  lemma InterleavedFinds(fs: Cdfs, f: File, start: nat)
    requires Sound(fs) && Fits(f, start) && f.fusize > 0 && start < f.size
    ensures var e, unit := Interleaved(fs, f, start), UnitBytes(fs, f);
      && e.sn * SECTOR + e.on == Where(fs, f, start)
      && e.on == Rem(start, unit) % CHUNK
      && e.size == Least(unit - (Rem(start, unit) - e.on), Least(f.size - start + e.on, CHUNK))
      && e.on < e.size
  {
    InterleavedAt(fs, f, start);
    InterleavedSize(fs, f, start);
  }

  lemma ContiguousHolds(fs: Cdfs, f: File, start: nat, k: nat)
    requires Sound(fs) && f.fusize == 0 && start < WIDTH
    requires var e := Contiguous(fs, f, start); e.on <= k < CHUNK && e.on == FromSector(fs, f, start) % CHUNK
    ensures var e := Contiguous(fs, f, start);
      Where(fs, f, start + (k - e.on)) == Where(fs, f, start) + (k - e.on)
  {
    PadIsLess(fs, f);
    SameChunk(start + Pad(fs, f), k - Contiguous(fs, f, start).on);
  }

  lemma ContiguousExtent(fs: Cdfs, f: File, start: nat, k: nat)
    requires Sound(fs) && Fits(f, start) && start < f.size && f.fusize == 0
    ensures var e := Contiguous(fs, f, start);
      && e.on < e.size <= CHUNK && start + (e.size - e.on) <= f.size
      && (e.on <= k < e.size ==> Where(fs, f, start + (k - e.on)) == e.sn * SECTOR + k)
      && (e.size == CHUNK || start + (e.size - e.on) == f.size)
  {
    ContiguousFinds(fs, f, start);
    var e := Contiguous(fs, f, start);
    if e.on <= k < e.size { ContiguousHolds(fs, f, start, k); }
  }

  lemma InterleavedExtent(fs: Cdfs, f: File, start: nat, k: nat)
    requires Sound(fs) && Fits(f, start) && start < f.size && f.fusize > 0
    ensures var e := Interleaved(fs, f, start);
      && e.on < e.size <= CHUNK && start + (e.size - e.on) <= f.size
      && (e.on <= k < e.size ==> Where(fs, f, start + (k - e.on)) == e.sn * SECTOR + k)
      && (e.size == CHUNK || start + (e.size - e.on) == f.size
          || Rem(start + (e.size - e.on), UnitBytes(fs, f)) == 0)
  {
    InterleavedFinds(fs, f, start);
    var e, unit := Interleaved(fs, f, start), UnitBytes(fs, f);
    if e.on <= k < e.size { StepInUnit(start, k - e.on, unit); }
    StepInUnit(start, e.size - e.on, unit);
  }

  // The bytes of the buffer that cd_bmap calls valid are the file's own bytes
  // in order, from the byte asked for up to the end of the buffer, of the file
  // unit or of the file.
  lemma ExtentHoldsTheFile(fs: Cdfs, f: File, start: nat, k: nat)
    requires Sound(fs) && Fits(f, start) && start < f.size
    ensures var e := Bmap(fs, f, start).value;
      && e.on < e.size <= CHUNK
      && start + (e.size - e.on) <= f.size
      && (e.on <= k < e.size ==> Where(fs, f, start + (k - e.on)) == e.sn * SECTOR + k)
    ensures var e := Bmap(fs, f, start).value;
      || e.size == CHUNK || start + (e.size - e.on) == f.size
      || (f.fusize > 0 && Rem(start + (e.size - e.on), UnitBytes(fs, f)) == 0)
  {
    if f.fusize == 0 { ContiguousExtent(fs, f, start, k); } else { InterleavedExtent(fs, f, start, k); }
  }

  // The block map finds the byte where ISO 9660 puts it exactly when the unit
  // with the byte starts on a sector, or, in a file that is not interleaved,
  // when the place does not wrap around.
  lemma FoundWhereItIsExactly(fs: Cdfs, f: File, i: nat)
    requires Sound(fs)
    ensures Where(fs, f, i) == AddressOf(fs, f, i) <==>
      if f.fusize == 0 then i + Pad(fs, f) < WIDTH
      else Bytes(fs, UnitStart(f, Quot(i, UnitBytes(fs, f)))) % SECTOR == 0
  {
    PadIs(fs, f);
  }

  lemma SumAligned(a: nat, b: nat)
    requires a % SECTOR == 0 && b % SECTOR == 0
    ensures (a + b) % SECTOR == 0
  { }

  // All units start on a sector when the first one does and the distance
  // between two units is a whole number of sectors.
  lemma {:induction false} AlignedUnits(fs: Cdfs, f: File, u: nat)
    requires Sound(fs)
    requires Bytes(fs, UnitStart(f, 0)) % SECTOR == 0 && Bytes(fs, f.fusize + f.fugsize) % SECTOR == 0
    ensures Bytes(fs, UnitStart(f, u)) % SECTOR == 0
  {
    if u > 0 {
      AlignedUnits(fs, f, u - 1);
      var d := f.fusize + f.fugsize;
      assert UnitStart(f, u) == UnitStart(f, u - 1) + d;
      SumAligned(Bytes(fs, UnitStart(f, u - 1)), Bytes(fs, d));
    }
  }

  // ---------------------------------------------------------------- read ahead

  // What cdfs_rd asks the device for: block and size.
  function Request(fs: Cdfs, e: Extent): (nat, nat) {
    (SectorToDeviceBlock(fs, e.sn), SectorRoundUp(e.size))
  }

  // A block to read ahead is named exactly if the file goes on after the chunk.
  lemma AheadIsNamed(fs: Cdfs, f: File, start: nat)
    requires Sound(fs) && Fits(f, start) && f.fusize == 0 && start < f.size
    ensures var e := Bmap(fs, f, start).value;
      && (e.rablock != 0 <==> start + (CHUNK - e.on) < f.size)
      && (e.rablock != 0 ==> e.rablock == 2 * (e.sn + CHUNKSECTORS))
      && (e.rablock != 0 ==> e.rasize == SectorRoundUp(Least(CHUNK, f.size - (start - e.on + CHUNK))))
  {
    ContiguousFinds(fs, f, start);
  }

  // For a file that is not interleaved, what is read ahead is what the read of
  // the next chunk will ask for, unless that wraps around; and nothing is read
  // ahead past the end.
  lemma ReadAheadIsTheNextRead(fs: Cdfs, f: File, start: nat)
    requires Sound(fs) && Fits(f, start) && f.fusize == 0 && start < f.size
    ensures var e := Bmap(fs, f, start).value;
      var next := start + (CHUNK - e.on);
      && (e.rablock != 0 <==> next < f.size)
      && (next < f.size && next + Pad(fs, f) < WIDTH ==>
            Bmap(fs, f, next).value.on == 0 && Request(fs, Bmap(fs, f, next).value) == (e.rablock, e.rasize))
  {
    AheadIsNamed(fs, f, start);
    ContiguousFinds(fs, f, start);
    var e := Contiguous(fs, f, start);
    var next := start + (CHUNK - e.on);
    if next < f.size && next + Pad(fs, f) < WIDTH {
      ContiguousFinds(fs, f, next);
      NextChunk(start, Pad(fs, f));
      NextSector(fs, f, start, next, e, Contiguous(fs, f, next));
      Shifts(fs, Contiguous(fs, f, next).sn);
    }
  }

  lemma NextSector(fs: Cdfs, f: File, start: nat, next: nat, e: Extent, e2: Extent)
    requires Sound(fs) && f.fusize == 0 && e.on < CHUNK && next == start + (CHUNK - e.on) && e2.on == 0
    requires next + Pad(fs, f) < WIDTH
    requires e.sn * SECTOR + e.on == Where(fs, f, start) && e2.sn * SECTOR + e2.on == Where(fs, f, next)
    ensures e2.sn == e.sn + CHUNKSECTORS
  { }

  lemma NextChunk(start: nat, pad: nat)
    ensures ((start + (CHUNK - (start + pad) % CHUNK)) + pad) % CHUNK == 0
  {
    var q := (start + pad) / CHUNK;
    assert (start + (CHUNK - (start + pad) % CHUNK)) + pad == (q + 1) * CHUNK;
  }

  // For an interleaved file whose units lie whole sectors apart, what is read
  // ahead begins where the next sequential read will, in the same unit or at the
  // start of the next one.
  lemma InterleavedReadAhead(fs: Cdfs, f: File, start: nat)
    requires Sound(fs) && Fits(f, start) && f.fusize > 0 && start < f.size
    requires Bytes(fs, f.fusize + f.fugsize) % SECTOR == 0
    ensures Bmap(fs, f, start).value.on < Bmap(fs, f, start).value.size
    ensures var e := Bmap(fs, f, start).value;
      var next := start + (e.size - e.on);
      next < f.size ==> Bmap(fs, f, next).value.on == 0 && Request(fs, Bmap(fs, f, next).value).0 == e.rablock
  {
    var e, unit := Interleaved(fs, f, start), UnitBytes(fs, f);
    InterleavedFinds(fs, f, start);
    var next := start + (e.size - e.on);
    if next < f.size {
      if Rem(start, unit) + (e.size - e.on) < unit {
        NextInUnit(fs, f, start, e.size - e.on);
      } else {
        NextUnit(fs, f, start, next);
      }
    }
  }

  // It is as long as that read will be, unless the file ends before.
  lemma InterleavedAheadSize(fs: Cdfs, f: File, start: nat, next: nat)
    requires Sound(fs) && Fits(f, start) && f.fusize > 0 && start < f.size && next < f.size
    requires var e := Bmap(fs, f, start).value; next + e.on == start + e.size
    ensures Bmap(fs, f, next).value.size == Least(Bmap(fs, f, start).value.rasize, f.size - next)
  {
    InterleavedFinds(fs, f, start);
    NextSize(fs, f, start, next);
  }

  lemma NextSize(fs: Cdfs, f: File, start: nat, next: nat)
    requires Sound(fs) && Fits(f, start) && f.fusize > 0 && start < f.size
    requires var e := Interleaved(fs, f, start); e.on < e.size && next == start + (e.size - e.on) < f.size
    ensures Interleaved(fs, f, next).size == Least(Interleaved(fs, f, start).rasize, f.size - next)
  {
    var d, unit := next - start, UnitBytes(fs, f);
    StepInUnit(start, d, unit);
    if Rem(start, unit) + d < unit {
      AheadInUnit(fs, f, start);
      SizeAt(fs, f, next, Rem(start, unit) + d);
    } else {
      AheadOfUnit(fs, f, start);
      SizeAt(fs, f, next, 0);
    }
  }

  lemma SizeAt(fs: Cdfs, f: File, start: nat, inUnit: nat)
    requires Sound(fs) && Fits(f, start) && f.fusize > 0 && start < f.size
    requires Rem(start, UnitBytes(fs, f)) == inUnit && inUnit % CHUNK == 0
    ensures Interleaved(fs, f, start).size == Least(UnitBytes(fs, f) - inUnit, Least(f.size - start, CHUNK))
  {
    InterleavedSize(fs, f, start);
  }

  lemma AheadInUnit(fs: Cdfs, f: File, start: nat)
    requires Sound(fs) && Fits(f, start) && f.fusize > 0 && start < f.size
    requires var e := Interleaved(fs, f, start); Rem(start, UnitBytes(fs, f)) + (e.size - e.on) < UnitBytes(fs, f)
    ensures var e, unit := Interleaved(fs, f, start), UnitBytes(fs, f);
      && (start + (e.size - e.on) < f.size ==> (Rem(start, unit) + (e.size - e.on)) % CHUNK == 0)
      && e.rasize == Least(unit - (Rem(start, unit) + (e.size - e.on)), CHUNK)
  {
    InterleavedSize(fs, f, start);
    var e, unit := Interleaved(fs, f, start), UnitBytes(fs, f);
    if start + (e.size - e.on) < f.size { WholeChunks(Rem(start, unit), e.size - e.on); }
  }

  lemma AheadOfUnit(fs: Cdfs, f: File, start: nat)
    requires Sound(fs) && Fits(f, start) && f.fusize > 0 && start < f.size
    requires var e := Interleaved(fs, f, start); Rem(start, UnitBytes(fs, f)) + (e.size - e.on) >= UnitBytes(fs, f)
    ensures var e, unit := Interleaved(fs, f, start), UnitBytes(fs, f);
      Rem(start, unit) + (e.size - e.on) == unit && e.rasize == Least(CHUNK, unit)
  {
    InterleavedSize(fs, f, start);
  }

  lemma NextInUnit(fs: Cdfs, f: File, start: nat, d: nat)
    requires Sound(fs) && Fits(f, start) && f.fusize > 0 && start + d < f.size
    requires var e := Interleaved(fs, f, start); e.on + d == e.size && d > 0
    requires Rem(start, UnitBytes(fs, f)) + d < UnitBytes(fs, f)
    ensures var e, e2 := Interleaved(fs, f, start), Interleaved(fs, f, start + d);
      e2.on == 0 && e.rablock == SectorToDeviceBlock(fs, e2.sn)
  {
    NamedInUnit(fs, f, start);
    OnInUnit(fs, f, start, d);
    InterleavedAt(fs, f, start);
    ChunkBegins(fs, f, start + d, Rem(start, UnitBytes(fs, f)), d);
    NextSn(Interleaved(fs, f, start), Interleaved(fs, f, start + d).sn, Where(fs, f, start), d);
  }

  lemma OnInUnit(fs: Cdfs, f: File, start: nat, d: nat)
    requires Sound(fs) && f.fusize > 0 && Rem(start, UnitBytes(fs, f)) + d < UnitBytes(fs, f)
    ensures Where(fs, f, start + d) == Where(fs, f, start) + d
    ensures Rem(start + d, UnitBytes(fs, f)) == Rem(start, UnitBytes(fs, f)) + d
  {
    StepInUnit(start, d, UnitBytes(fs, f));
  }

  lemma ChunkBegins(fs: Cdfs, f: File, next: nat, inUnit: nat, d: nat)
    requires Sound(fs) && f.fusize > 0 && inUnit % CHUNK + d == CHUNK && Rem(next, UnitBytes(fs, f)) == inUnit + d
    ensures var e2 := Interleaved(fs, f, next); e2.on == 0 && e2.sn * SECTOR == Where(fs, f, next)
  {
    InterleavedAt(fs, f, next);
    WholeChunks(inUnit, d);
  }

  lemma NextSn(e: Extent, sn2: nat, at: nat, d: nat)
    requires e.sn * SECTOR + e.on == at && e.on + d == CHUNK && sn2 * SECTOR == at + d
    ensures sn2 == e.sn + CHUNKSECTORS
  { }

  lemma NamedInUnit(fs: Cdfs, f: File, start: nat)
    requires Sound(fs) && Fits(f, start) && f.fusize > 0 && start < f.size
    requires var e := Interleaved(fs, f, start);
      start + (e.size - e.on) < f.size && Rem(start, UnitBytes(fs, f)) + (e.size - e.on) < UnitBytes(fs, f)
    ensures var e := Interleaved(fs, f, start);
      e.size == CHUNK && e.rablock == SectorToDeviceBlock(fs, e.sn + CHUNKSECTORS)
  {
    InterleavedSize(fs, f, start);
  }

  lemma WholeChunks(inUnit: nat, d: nat)
    requires inUnit % CHUNK + d == CHUNK
    ensures (inUnit + d) % CHUNK == 0
  {
    assert inUnit + d == CHUNK * (inUnit / CHUNK + 1);
  }

  lemma NextUnit(fs: Cdfs, f: File, start: nat, next: nat)
    requires Sound(fs) && Fits(f, start) && f.fusize > 0 && start < f.size
    requires Bytes(fs, f.fusize + f.fugsize) % SECTOR == 0
    requires var e := Interleaved(fs, f, start);
      && next == start + (e.size - e.on) < f.size && e.on < e.size
      && Rem(start, UnitBytes(fs, f)) + (e.size - e.on) >= UnitBytes(fs, f)
    ensures var e, e2 := Interleaved(fs, f, start), Interleaved(fs, f, next);
      e2.on == 0 && e.rablock == SectorToDeviceBlock(fs, e2.sn)
  {
    var unit := UnitBytes(fs, f);
    var u := Quot(start, unit);
    NamedAtUnitEnd(fs, f, start);
    Parts(start, unit);
    assert next == Times(u + 1, unit) + 0;
    UnitBegins(fs, f, next, u + 1);
    UnitSectors(fs, f, u);
  }

  lemma NamedAtUnitEnd(fs: Cdfs, f: File, start: nat)
    requires Sound(fs) && Fits(f, start) && f.fusize > 0 && start < f.size
    requires var e := Interleaved(fs, f, start);
      Rem(start, UnitBytes(fs, f)) + (e.size - e.on) >= UnitBytes(fs, f)
    ensures var e, u := Interleaved(fs, f, start), Quot(start, UnitBytes(fs, f));
      && Rem(start, UnitBytes(fs, f)) + (e.size - e.on) == UnitBytes(fs, f)
      && e.rablock == SectorToDeviceBlock(fs, SectorOf(fs, UnitStart(f, u)) + SectorOf(fs, f.fusize + f.fugsize))
  {
    InterleavedSize(fs, f, start);
    Shifts(fs, start);
    UnitNumber(fs, f.fusize, start);
  }

  // The extent at the start of a unit.
  lemma UnitBegins(fs: Cdfs, f: File, start: nat, u: nat)
    requires Sound(fs) && f.fusize > 0 && start == Times(u, UnitBytes(fs, f)) + 0
    ensures var e := Interleaved(fs, f, start); e.on == 0 && e.sn == SectorOf(fs, UnitStart(f, u))
  {
    Whole(u, 0, UnitBytes(fs, f));
    InterleavedAt(fs, f, start);
    BlocksPerSector(fs, UnitStart(f, u));
  }

  lemma UnitSectors(fs: Cdfs, f: File, u: nat)
    requires Sound(fs) && Bytes(fs, f.fusize + f.fugsize) % SECTOR == 0
    ensures SectorOf(fs, UnitStart(f, u + 1)) == SectorOf(fs, UnitStart(f, u)) + SectorOf(fs, f.fusize + f.fugsize)
    ensures SectorOf(fs, UnitStart(f, u + 1)) == Bytes(fs, UnitStart(f, u + 1)) / SECTOR
  {
    BlocksPerSector(fs, UnitStart(f, u));
    BlocksPerSector(fs, UnitStart(f, u + 1));
    BlocksPerSector(fs, f.fusize + f.fugsize);
    assert UnitStart(f, u + 1) == UnitStart(f, u) + (f.fusize + f.fugsize);
    WholeSum(Bytes(fs, UnitStart(f, u)), Bytes(fs, f.fusize + f.fugsize));
  }

  lemma WholeSum(a: nat, b: nat)
    requires b % SECTOR == 0
    ensures (a + b) / SECTOR == a / SECTOR + b / SECTOR
  {
    assert a + b == SECTOR * (a / SECTOR + b / SECTOR) + a % SECTOR;
  }

  // cdfs_rd reads ahead when the block to read ahead is the one that the read
  // before named. Two reads of a contiguous file name the same block exactly
  // when they are in the same chunk: a reader that takes whole chunks in
  // sequence never gets one read ahead.
  lemma ReadAheadOnlyWithinOneChunk(fs: Cdfs, f: File, a: nat, b: nat)
    requires Sound(fs) && Fits(f, a) && Fits(f, b) && f.fusize == 0 && a < f.size && b < f.size
    ensures var ra, rb := Bmap(fs, f, a).value.rablock, Bmap(fs, f, b).value.rablock;
      rb != 0 && ra == rb <==>
        FromSector(fs, f, a) / CHUNK == FromSector(fs, f, b) / CHUNK && b + (CHUNK - Bmap(fs, f, b).value.on) < f.size
  {
    AheadIsNamed(fs, f, a);
    AheadIsNamed(fs, f, b);
    SectorsOfChunks(fs, f, a, b);
    if FromSector(fs, f, a) / CHUNK == FromSector(fs, f, b) / CHUNK { OneStart(fs, f, a, b); }
  }

  lemma SectorsOfChunks(fs: Cdfs, f: File, a: nat, b: nat)
    requires Sound(fs) && Fits(f, a) && Fits(f, b) && f.fusize == 0 && a < f.size && b < f.size
    ensures Bmap(fs, f, a).value.sn == Bmap(fs, f, b).value.sn <==>
      FromSector(fs, f, a) / CHUNK == FromSector(fs, f, b) / CHUNK
  {
    ContiguousFinds(fs, f, a);
    ContiguousFinds(fs, f, b);
    SectorOfChunk(Bytes(fs, f.loc + f.xarlen) / SECTOR, FromSector(fs, f, a), Contiguous(fs, f, a).sn,
                  FromSector(fs, f, b), Contiguous(fs, f, b).sn);
  }

  // Two bytes of one chunk: neither wraps around without the other.
  lemma OneStart(fs: Cdfs, f: File, a: nat, b: nat)
    requires Sound(fs) && Fits(f, a) && Fits(f, b) && f.fusize == 0 && a < f.size && b < f.size
    requires FromSector(fs, f, a) / CHUNK == FromSector(fs, f, b) / CHUNK
    ensures a - Bmap(fs, f, a).value.on == b - Bmap(fs, f, b).value.on
  {
    PadIsLess(fs, f);
    ContiguousAt(fs, f, a);
    ContiguousAt(fs, f, b);
    OneTurn(f.size, Pad(fs, f), a, b);
  }

  lemma OneTurn(size: nat, pad: nat, a: nat, b: nat)
    requires size < WIDTH && a < size && b < size && size - a + CHUNK <= WIDTH && size - b + CHUNK <= WIDTH
    requires pad < SECTOR && U32(a + pad) / CHUNK == U32(b + pad) / CHUNK
    ensures a - U32(a + pad) % CHUNK == b - U32(b + pad) % CHUNK
  {
    var x, y := U32(a + pad), U32(b + pad);
    assert x == CHUNK * (x / CHUNK) + x % CHUNK && y == CHUNK * (y / CHUNK) + y % CHUNK;
    assert a + pad == x || a + pad == x + WIDTH;
    assert b + pad == y || b + pad == y + WIDTH;
  }

  // Two places are in one chunk exactly if their chunks begin with one sector.
  lemma SectorOfChunk(first: nat, x: nat, sx: nat, y: nat, sy: nat)
    requires sx * SECTOR + x % CHUNK == first * SECTOR + x && sy * SECTOR + y % CHUNK == first * SECTOR + y
    ensures sx == sy <==> x / CHUNK == y / CHUNK
  {
    assert x == CHUNK * (x / CHUNK) + x % CHUNK && y == CHUNK * (y / CHUNK) + y % CHUNK;
  }

  // ----------------------------------------------------------------- cdfs_rd

  // Bytes of the medium from an address on.
  function From(dev: nat -> byte, at: nat, n: nat): (s: seq<byte>)
    ensures |s| == n
  {
    seq<byte>(n, k requires 0 <= k < n => dev(at + k))
  }

  // Bytes i to i + n of the file, as the block map finds them.
  function FileBytes(fs: Cdfs, f: File, dev: nat -> byte, i: nat, n: nat): (s: seq<byte>)
    requires Sound(fs)
    ensures |s| == n
  {
    seq<byte>(n, k requires 0 <= k < n => dev(Where(fs, f, i + k)))
  }

  // One read of the device: what is read, and what is read ahead, if anything.
  datatype Asked = Asked(block: nat, size: nat, ahead: Option<(nat, nat)>)

  // The read starts on a sector and takes whole sectors, at most a chunk; what
  // is read ahead of a file that is not interleaved is the read of a chunk of it.
  predicate WholeSectors(block: nat, size: nat) {
    block % (SECTOR / DEVBSIZE) == 0 && size % SECTOR == 0 && 0 < size <= CHUNK
  }

  ghost predicate ReadOf(fs: Cdfs, f: File, r: (nat, nat))
    requires Sound(fs)
  {
    exists s: nat :: s < f.size && Request(fs, Bmap(fs, f, s).value) == r
  }

  ghost predicate Proper(fs: Cdfs, f: File, a: Asked)
    requires Sound(fs)
  {
    && WholeSectors(a.block, a.size)
    && ReadOf(fs, f, (a.block, a.size))
    && (f.fusize == 0 && f.size + Pad(fs, f) <= WIDTH && a.ahead.Some? ==> ReadOf(fs, f, a.ahead.value))
  }

  lemma RoundedUp(size: nat)
    ensures SectorRoundUp(size) % SECTOR == 0 && size <= SectorRoundUp(size) < size + SECTOR
    ensures size <= CHUNK ==> SectorRoundUp(size) <= CHUNK
  { }

  lemma RequestIsWhole(fs: Cdfs, e: Extent)
    requires Sound(fs) && 0 < e.size <= CHUNK
    ensures var r := Request(fs, e);
      r.0 == 2 * e.sn && r.1 >= e.size && WholeSectors(r.0, r.1)
  {
    RoundedUp(e.size);
    Shifts(fs, e.sn);
  }

  lemma AheadIsProper(fs: Cdfs, f: File, start: nat)
    requires Sound(fs) && Fits(f, start) && start < f.size && f.fusize == 0 && f.size + Pad(fs, f) <= WIDTH
    requires Bmap(fs, f, start).value.rablock != 0
    ensures var e := Bmap(fs, f, start).value; ReadOf(fs, f, (e.rablock, e.rasize))
  {
    ReadAheadIsTheNextRead(fs, f, start);
    ContiguousAt(fs, f, start);
    var next := start + (CHUNK - Bmap(fs, f, start).value.on);
    assert next < f.size;
  }

  // The valid bytes of an extent are the bytes of the file from start on.
  ghost predicate Holds(fs: Cdfs, f: File, start: nat, e: Extent)
    requires Sound(fs)
  {
    && e.on < e.size <= CHUNK && start + (e.size - e.on) <= f.size
    && forall k: nat :: e.on + k < e.size ==> HoldsAt(fs, f, start, e, k)
  }

  predicate HoldsAt(fs: Cdfs, f: File, start: nat, e: Extent, k: nat)
    requires Sound(fs)
  {
    Where(fs, f, start + k) == e.sn * SECTOR + e.on + k
  }

  lemma BmapHolds(fs: Cdfs, f: File, start: nat)
    requires Sound(fs) && Fits(f, start) && start < f.size
    ensures Holds(fs, f, start, Bmap(fs, f, start).value)
  {
    var e := Bmap(fs, f, start).value;
    ExtentHoldsTheFile(fs, f, start, 0);
    forall k: nat | e.on + k < e.size ensures HoldsAt(fs, f, start, e, k) {
      ExtentHoldsTheFile(fs, f, start, e.on + k);
    }
  }

  lemma FileBytesInTwo(fs: Cdfs, f: File, dev: nat -> byte, i: nat, m: nat, n: nat)
    requires Sound(fs)
    ensures FileBytes(fs, f, dev, i, m) + FileBytes(fs, f, dev, i + m, n) == FileBytes(fs, f, dev, i, m + n)
  { }

  const MAXINT := 0x7fff_ffff

  // A u_int assigned to an int.
  function AsInt(x: nat): int { if x <= MAXINT then x else x - WIDTH }

  // How many bytes a read should deliver.
  function Demanded(f: File, offset: nat, resid: nat): nat {
    if offset >= f.size then 0 else Least(resid, f.size - offset)
  }

  // How many cdfs_rd delivers: what is left of the file is kept in an int, so
  // that a read which starts 2 gigabytes or more before the end seems to start
  // after it.
  function Delivered(f: File, offset: nat, resid: nat): nat {
    if offset < f.size && f.size - offset > MAXINT then 0 else Demanded(f, offset, resid)
  }

  // Which bytes those are: every byte asked for that the file has.
  lemma DemandedAre(f: File, offset: nat, resid: nat, k: nat)
    ensures k < Demanded(f, offset, resid) <==> k < resid && offset + k < f.size
  { }

  lemma DeliveredExactly(f: File, offset: nat, resid: nat)
    ensures Delivered(f, offset, resid) == Demanded(f, offset, resid) <==>
      resid == 0 || offset >= f.size || f.size - offset < 0x8000_0000
  { }

  // The first bytes of a file of 2 gigabytes cannot be read.
  method ReadTwoGigabytes(fs: Cdfs, loc: nat, dev: nat -> byte) returns (f: File, data: seq<byte>)
    requires Sound(fs)
    ensures f == File(loc, 0, 0, 0, 0x8000_0000)
    ensures data == [] && Demanded(f, 0, 10) == 10
  {
    f := File(loc, 0, 0, 0, 0x8000_0000);
    var node := new Cdnode(f);
    var offset, resid, asked;
    data, offset, resid, asked := node.CdfsRd(fs, dev, 0, 10);
  }

  class Cdnode {
    const f: File
    var nextr: nat     // the block that the last read would have read ahead

    constructor (f: File)
      ensures this.f == f && nextr == 0
    {
      this.f, nextr := f, 0;
    }

    // Reads an extent and copies out the bytes wanted, at most those left.
    method Copy(fs: Cdfs, dev: nat -> byte, offset: nat, resid: nat, e: Extent, diff: int)
      returns (piece: seq<byte>)
      requires Sound(fs) && resid > 0 && Holds(fs, f, offset, e) && diff == f.size - offset
      ensures 0 < |piece| <= Least(resid, f.size - offset)
      ensures piece == FileBytes(fs, f, dev, offset, |piece|)
    {
      var (bn, size) := Request(fs, e);
      RequestIsWhole(fs, e);
      var n := Least(resid, e.size - e.on);
      if diff < n { n := diff; }
      var buffer := From(dev, bn * DEVBSIZE, size);
      n := Least(n, size);
      piece := buffer[e.on..e.on + n];
      forall k: nat | k < n ensures piece[k] == FileBytes(fs, f, dev, offset, n)[k] {
        assert HoldsAt(fs, f, offset, e, k);
      }
    }

    // What cdfs_rd asks for, and the block it remembers.
    method Ask(fs: Cdfs, offset: nat) returns (asked: Asked)
      requires Sound(fs) && Fits(f, offset) && offset < f.size
      modifies this`nextr
      ensures Proper(fs, f, asked)
      ensures nextr == Bmap(fs, f, offset).value.rablock
      ensures asked.ahead.Some? <==> nextr != 0 && old(nextr) == nextr
    {
      var e := Bmap(fs, f, offset).value;
      BmapHolds(fs, f, offset);
      RequestIsWhole(fs, e);
      var (bn, size) := Request(fs, e);
      var nextread := nextr;
      nextr := e.rablock;
      if e.rablock != 0 && nextread == e.rablock {
        if f.fusize == 0 && f.size + Pad(fs, f) <= WIDTH { AheadIsProper(fs, f, offset); }
        asked := Asked(bn, size, Some((e.rablock, e.rasize)));
      } else {
        asked := Asked(bn, size, None);
      }
    }

    // Reads a regular file or a directory; offset and resid are those of the
    // uio structure, data is what has been copied out.
    method CdfsRd(fs: Cdfs, dev: nat -> byte, offset0: nat, resid0: nat)
      returns (data: seq<byte>, offset: nat, resid: nat, asked: seq<Asked>)
      requires Sound(fs) && f.size < WIDTH
      modifies this`nextr
      ensures data == FileBytes(fs, f, dev, offset0, Delivered(f, offset0, resid0))
      ensures offset == offset0 + |data| && resid == resid0 - |data|
      ensures forall k: nat :: k < |asked| ==> Proper(fs, f, asked[k])
      ensures data == [] ==> asked == [] && nextr == old(nextr)
    {
      data, offset, resid, asked := [], offset0, resid0, [];
      while resid > 0
        modifies this`nextr
        invariant offset == offset0 + |data| && resid == resid0 - |data|
        invariant |data| <= Delivered(f, offset0, resid0)
        invariant data == FileBytes(fs, f, dev, offset0, |data|)
        invariant forall k: nat :: k < |asked| ==> Proper(fs, f, asked[k])
        invariant data == [] ==> asked == [] && nextr == old(nextr)
      {
        if offset >= f.size { return; }
        var diff := AsInt(U32(f.size - offset));
        if diff <= 0 { return; }
        BmapHolds(fs, f, offset);
        var a := Ask(fs, offset);
        var piece := Copy(fs, dev, offset, resid, Bmap(fs, f, offset).value, diff);
        asked := asked + [a];
        FileBytesInTwo(fs, f, dev, offset0, |data|, |piece|);
        data := data + piece;
        offset, resid := offset + |piece|, resid - |piece|;
      }
    }
  }

  // Reads of the device itself, which pass the block map by.
  method DeviceRd(dev: nat -> byte, offset0: nat, resid0: nat) returns (data: seq<byte>)
    ensures data == From(dev, offset0, resid0)
  {
    var offset: nat, resid: nat := offset0, resid0;
    data := [];
    while resid > 0
      invariant resid <= resid0 && offset == offset0 + (resid0 - resid)
      invariant data == From(dev, offset0, resid0 - resid)
    {
      var bn := offset / SECTOR * (SECTOR / DEVBSIZE);
      var on := offset % SECTOR;
      var n := Least(resid, SECTOR - on);
      var buffer := From(dev, bn * DEVBSIZE, SECTOR);
      data := data + buffer[on..on + n];
      offset, resid := offset + n, resid - n;
    }
  }

  // Bytes i to i + n of the file, as ISO 9660 lays them out.
  function IsoBytes(fs: Cdfs, f: File, dev: nat -> byte, i: nat, n: nat): seq<byte>
    requires Sound(fs)
  {
    seq<byte>(n, k requires 0 <= k < n => dev(AddressOf(fs, f, i + k)))
  }

  // What cdfs_rd delivers is the file, when its units start on sectors or, if it
  // is not interleaved, up to where the place wraps around.
  lemma DeliversTheFile(fs: Cdfs, f: File, dev: nat -> byte, i: nat, n: nat)
    requires Sound(fs)
    requires if f.fusize == 0 then i + n + Pad(fs, f) <= WIDTH
      else Bytes(fs, UnitStart(f, 0)) % SECTOR == 0 && Bytes(fs, f.fusize + f.fugsize) % SECTOR == 0
    ensures FileBytes(fs, f, dev, i, n) == IsoBytes(fs, f, dev, i, n)
  {
    forall k: nat | k < n ensures FileBytes(fs, f, dev, i, n)[k] == IsoBytes(fs, f, dev, i, n)[k] {
      if f.fusize > 0 { AlignedUnits(fs, f, Quot(i + k, UnitBytes(fs, f))); }
      FoundWhereItIsExactly(fs, f, i + k);
    }
  }
}
