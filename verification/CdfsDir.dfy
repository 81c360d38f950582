/**
 * Directories of a CD-ROM file system: the records in their sectors (section
 * 6.8.1.1 of ISO 9660) and the cursor with which get_dir_rec goes round them.
 */
module CdfsDir {
  import opened Common
  import opened CdfsGeometry
  import opened CdfsRead

  // Places in a directory record: section 9.1 of ISO 9660.
  const MINRECORD := 34     // sizeof (struct min_cddir)
  const FULLRECORD := 70    // sizeof (struct cddir)
  const XARLEN := 1
  const LOCATION := 6       // the most significant byte first
  const TIMEZONE := 24      // where the older HSG format has its flags
  const FLAGS := 25
  const IDLEN := 32
  const ID := 33

  // Bits of the flags: a directory, an associated file, and a section of a
  // file that is not the last.
  predicate IsDir(flags: byte) { flags / 2 % 2 == 1 }
  predicate IsAssociated(flags: byte) { flags / 4 % 2 == 1 }
  predicate IsNotLast(flags: byte) { flags / 0x80 == 1 }

  // -------------------------------------------------------------- the records

  function SectorEnd(p: nat): (e: nat)
    ensures p < e <= p + SECTOR && e % SECTOR == 0
  {
    p / SECTOR * SECTOR + SECTOR
  }

  // The record at p holds its own fields.
  predicate HasFields(b: seq<byte>, p: nat) {
    && p < |b| && MINRECORD <= b[p] && p + b[p] <= |b|
    && b[p + IDLEN] >= 1 && ID + b[p + IDLEN] <= b[p]
  }

  // ... and ends in its sector.
  predicate RecordAt(b: seq<byte>, p: nat) {
    HasFields(b, p) && p + b[p] <= SectorEnd(p)
  }

  predicate Zeros(b: seq<byte>, p: nat, e: nat) {
    forall k: nat :: p <= k < e && k < |b| ==> b[k] == 0
  }

  // From p on, records follow each other; each sector begins with one and is
  // filled with zeros after its last.
  predicate WellFormed(b: seq<byte>, p: nat)
    decreases |b| - p
  {
    if p >= |b| then true
    else if b[p] == 0 then p % SECTOR != 0 && Zeros(b, p, SectorEnd(p)) && WellFormed(b, SectorEnd(p))
    else RecordAt(b, p) && WellFormed(b, p + b[p])
  }

  // Where the records from p on begin.
  function Starts(b: seq<byte>, p: nat): seq<nat>
    decreases |b| - p
  {
    if p >= |b| then []
    else if b[p] == 0 then Starts(b, SectorEnd(p))
    else [p] + Starts(b, p + b[p])
  }

  // The record after the one at p, which is the first one after the last.
  function NextStart(b: seq<byte>, p: nat): nat {
    if p >= |b| then 0
    else
      var rest := Starts(b, p + b[p]);
      if rest == [] then 0 else rest[0]
  }

  function Revolve(b: seq<byte>, p: nat, k: nat): nat {
    if k == 0 then p else NextStart(b, Revolve(b, p, k - 1))
  }

  lemma {:induction false} StartsAreRecords(b: seq<byte>, p: nat)
    requires WellFormed(b, p)
    ensures forall i: nat :: i < |Starts(b, p)| ==> p <= Starts(b, p)[i] && RecordAt(b, Starts(b, p)[i])
    ensures forall i: nat, j: nat :: i < j < |Starts(b, p)| ==> Starts(b, p)[i] < Starts(b, p)[j]
    decreases |b| - p
  {
    if p < |b| {
      StartsAreRecords(b, if b[p] == 0 then SectorEnd(p) else p + b[p]);
    }
  }

  lemma {:induction false} StartsFrom(b: seq<byte>, p: nat, i: nat)
    requires WellFormed(b, p) && i < |Starts(b, p)|
    ensures Starts(b, Starts(b, p)[i]) == Starts(b, p)[i..] && WellFormed(b, Starts(b, p)[i])
    decreases |b| - p
  {
    if b[p] == 0 { StartsFrom(b, SectorEnd(p), i); }
    else if i > 0 { StartsFrom(b, p + b[p], i - 1); }
  }

  // One step of the cursor, as an index into the records.
  lemma NextStartIs(b: seq<byte>, i: nat)
    requires WellFormed(b, 0) && i < |Starts(b, 0)|
    ensures NextStart(b, Starts(b, 0)[i]) == if i + 1 < |Starts(b, 0)| then Starts(b, 0)[i + 1] else Starts(b, 0)[0]
  {
    var s := Starts(b, 0);
    StartsFrom(b, 0, i);
    StartsAreRecords(b, 0);
    assert Starts(b, s[i]) == [s[i]] + Starts(b, s[i] + b[s[i]]);
  }

  function Turn(i: nat, k: nat, n: nat): nat
    requires i < n && k <= n
  {
    if i + k < n then i + k else i + k - n
  }

  // The cursor goes round: from any record it comes to every record once
  // before it is back.
  lemma {:induction false} CursorIsACycle(b: seq<byte>, i: nat, k: nat)
    requires WellFormed(b, 0) && i < |Starts(b, 0)| && k <= |Starts(b, 0)|
    ensures Revolve(b, Starts(b, 0)[i], k) == Starts(b, 0)[Turn(i, k, |Starts(b, 0)|)]
  {
    if k > 0 {
      CursorIsACycle(b, i, k - 1);
      NextStartIs(b, Turn(i, k - 1, |Starts(b, 0)|));
    }
  }

  // After k steps, 0 < k, the cursor is back exactly when k is the number of
  // records; and every record is met on the way.
  lemma BackAfterOneRound(b: seq<byte>, i: nat, k: nat)
    requires WellFormed(b, 0) && i < |Starts(b, 0)| && 0 < k <= |Starts(b, 0)|
    ensures Revolve(b, Starts(b, 0)[i], k) == Starts(b, 0)[i] <==> k == |Starts(b, 0)|
  {
    CursorIsACycle(b, i, k);
    StartsAreRecords(b, 0);
  }

  lemma EveryRecordIsMet(b: seq<byte>, i: nat, j: nat) returns (k: nat)
    requires WellFormed(b, 0) && i < |Starts(b, 0)| && j < |Starts(b, 0)|
    ensures k < |Starts(b, 0)| && Revolve(b, Starts(b, 0)[i], k) == Starts(b, 0)[j]
  {
    k := if i <= j then j - i else j + |Starts(b, 0)| - i;
    CursorIsACycle(b, i, k);
  }

  // --------------------------------------------------------------- get_dir_rec

  function Word(b: seq<byte>, p: nat): nat
    requires p + 4 <= |b|
  {
    0x100_0000 * (b[p] as int) + 0x1_0000 * (b[p + 1] as int) + 0x100 * (b[p + 2] as int) + b[p + 3] as int
  }

  function FlagsOf(r: seq<byte>, iso: bool): byte
    requires |r| >= MINRECORD
  {
    r[if iso then FLAGS else TIMEZONE]
  }

  // The cdnode number of a record at place p of a directory whose first byte
  // has the address base: of a directory the address of its first record, of
  // anything else the address of the record.
  function CdnoOf(fs: Cdfs, base: nat, iso: bool, r: seq<byte>, p: nat): nat
    requires |r| >= MINRECORD
  {
    if IsDir(FlagsOf(r, iso)) then U32(Shl(Word(r, LOCATION) + r[XARLEN], fs.lbshift))
    else U32(base + p)
  }

  datatype Error = EIO | ENOENT | EINVAL
  datatype Fetch = Got(rec: seq<byte>, cdno: nat) | Failed(error: Error)

  // The cdnode number that the record at p gives to a directory.
  function ParentNumber(fs: Cdfs, d: seq<byte>, p: nat): nat
    requires RecordAt(d, p)
  {
    U32(Shl(Word(d[p..p + d[p]], LOCATION) + d[p + XARLEN], fs.lbshift))
  }

  function Copied(truncate: bool, reclen: nat): nat { if truncate then Least(FULLRECORD, reclen) else reclen }

  class Directory {
    const fs: Cdfs
    const f: File
    const dev: nat -> byte
    const iso: bool
    var diroff: nat    // the cursor: where the next record is looked for
    var pnum: nat      // the cdnode number of the parent, 0 while it is not known

    // A directory lies in one piece and starts on a sector, and its places fit
    // the cursor, an int.
    predicate Placed() {
      Sound(fs) && f.size <= MAXINT && f.fusize == 0 && Bytes(fs, f.loc + f.xarlen) % SECTOR == 0
    }

    function Contents(): seq<byte>
      requires Sound(fs)
    {
      FileBytes(fs, f, dev, 0, f.size)
    }

    function Base(): nat { Shl(f.loc + f.xarlen, fs.lbshift) }

    constructor (fs: Cdfs, f: File, dev: nat -> byte, iso: bool)
      ensures this.fs == fs && this.f == f && this.dev == dev && this.iso == iso && diroff == 0 && pnum == 0
    {
      this.fs, this.f, this.dev, this.iso := fs, f, dev, iso;
      diroff, pnum := 0, 0;
    }

    // The chunk of the directory that holds the cursor.
    method GetDirBuffer() returns (ok: bool, buf: seq<byte>)
      requires Placed()
      ensures ok <==> diroff < f.size
      ensures ok ==> buf == ChunkOf(Contents(), diroff)
    {
      ok, buf := diroff < f.size, [];
      if !ok { return; }
      var fchunk := diroff - diroff % CHUNK;
      var size := Least(CHUNK, f.size - fchunk);
      var sector := SectorOf(fs, f.loc + f.xarlen) + Shr(fchunk, fs.lsshift);
      var bn := SectorToDeviceBlock(fs, sector);
      ChunkAddress(fchunk);
      var read := From(dev, bn * DEVBSIZE, SectorRoundUp(size));
      RoundedUp(size);
      PadIs(fs, f);
      buf := read[..size];
      forall k: nat | k < size ensures buf[k] == Contents()[fchunk + k] {
        assert buf[k] == dev(bn * DEVBSIZE + k);
        assert Contents()[fchunk + k] == dev(Where(fs, f, fchunk + k));
      }
    }

    lemma ChunkAddress(fchunk: nat)
      requires Placed() && fchunk % CHUNK == 0
      ensures SectorToDeviceBlock(fs, SectorOf(fs, f.loc + f.xarlen) + Shr(fchunk, fs.lsshift)) * DEVBSIZE
        == Bytes(fs, f.loc + f.xarlen) + fchunk
    {
      BlocksPerSector(fs, f.loc + f.xarlen);
      Shifts(fs, fchunk);
      Shifts(fs, SectorOf(fs, f.loc + f.xarlen) + Shr(fchunk, fs.lsshift));
      ChunkStart(fchunk);
    }

    // The record at the cursor, which moves on to the next.
    method GetDirRec(truncate: bool) returns (r: Fetch)
      requires Placed()
      requires var p := if diroff > f.size then 0 else diroff;
        p < f.size && Contents()[p] >= MINRECORD ==> WellFormed(Contents(), p)
      modifies this`diroff
      ensures var p := if old(diroff) > f.size then 0 else old(diroff);
        r == FetchAt(Contents(), p, truncate) && diroff == if r.Got? then NextStart(Contents(), p) else p
    {
      if diroff > f.size { diroff := 0; }
      var ok, buf := GetDirBuffer();
      if !ok { return Failed(EIO); }
      r := RecordHere(truncate, buf, Contents());
    }

    method RecordHere(truncate: bool, buf: seq<byte>, ghost d: seq<byte>) returns (r: Fetch)
      requires diroff < f.size == |d| && buf == ChunkOf(d, diroff)
      requires d[diroff] >= MINRECORD ==> WellFormed(d, diroff)
      modifies this`diroff
      ensures r == FetchAt(d, old(diroff), truncate)
      ensures diroff == if r.Got? then NextStart(d, old(diroff)) else old(diroff)
    {
      var found, rec := TakeRecord(truncate, diroff, buf, d);
      if !found { return Failed(ENOENT); }
      r := Got(rec, CdnoOf(fs, Base(), iso, rec, diroff));
      InChunk(d, diroff, 1);
      Advance(buf, buf[diroff % CHUNK], d);
    }

    // The record at place p, from the chunk that holds it.
    static method TakeRecord(truncate: bool, p: nat, buf: seq<byte>, ghost d: seq<byte>)
      returns (found: bool, rec: seq<byte>)
      requires p < |d| && buf == ChunkOf(d, p)
      requires d[p] >= MINRECORD ==> RecordAt(d, p)
      ensures found <==> d[p] >= MINRECORD
      ensures found ==> rec == d[p..p + Copied(truncate, d[p])]
    {
      var at := p % CHUNK;
      InChunk(d, p, 1);
      var reclen := buf[at];
      found, rec := reclen >= MINRECORD, [];
      if found {
        var size := Copied(truncate, reclen);
        RecordInChunk(d, p, size);
        rec := buf[at..at + size];
      }
    }

    // The end of get_dir_rec: from a record of reclen bytes to the next.
    method Advance(buf: seq<byte>, reclen: nat, ghost d: seq<byte>)
      requires diroff < f.size == |d| && WellFormed(d, diroff) && reclen == d[diroff] > 0
      requires buf == ChunkOf(d, diroff)
      modifies this`diroff
      ensures diroff == NextStart(d, old(diroff))
    {
      var at, offset := diroff % CHUNK, diroff + reclen;
      NextInChunk(d, diroff);
      if offset < f.size {
        if at + reclen != CHUNK && buf[at + reclen] != 0 {
          diroff := offset;
        } else {
          diroff := SectorRoundUp(offset);
        }
      }
      if offset >= f.size || diroff >= f.size { diroff := 0; }
    }

    // second_cddir_entry: the record of the parent. The cursor is left at the
    // third record, or at the first if there is none.
    method SecondCddirEntry() returns (ok: bool, rec: seq<byte>)
      requires Placed() && WellFormed(Contents(), 0) && |Starts(Contents(), 0)| >= 2
      modifies this`diroff
      ensures diroff in Starts(Contents(), 0)
      ensures var p := Starts(Contents(), 0)[1];
        && RecordAt(Contents(), p) && ok == (Contents()[p + ID] == 1)
        && rec == Contents()[p..p + Copied(true, Contents()[p])]
    {
      ghost var d := Contents();
      FirstTwo(d);
      diroff := 0;
      var dot := GetDirRec(true);
      assert diroff == Starts(d, 0)[1];
      var dotdot := GetDirRec(true);
      rec := dotdot.rec;
      ok := rec[ID] == 1;
    }

    method FillPnum() returns (ok: bool)
      requires Placed() && WellFormed(Contents(), 0) && |Starts(Contents(), 0)| >= 2
      modifies this`diroff, this`pnum
      ensures diroff in Starts(Contents(), 0)
      ensures var p := Starts(Contents(), 0)[1];
        && RecordAt(Contents(), p)
        && ok == (Contents()[p + ID] == 1)
        && pnum == if ok then ParentNumber(fs, Contents(), p) else old(pnum)
    {
      var rec;
      ok, rec := SecondCddirEntry();
      ghost var d := Contents();
      ghost var p := Starts(d, 0)[1];
      SameLocation(d, p);
      if ok { pnum := U32(Shl(Word(rec, LOCATION) + rec[XARLEN], fs.lbshift)); }
    }

    // What get_dir_rec returns for a cursor at p.
    function FetchAt(d: seq<byte>, p: nat, truncate: bool): Fetch {
      if p >= |d| then Failed(EIO)
      else if d[p] < MINRECORD || p + d[p] > |d| then Failed(if d[p] < MINRECORD then ENOENT else EIO)
      else
        var rec := d[p..p + Copied(truncate, d[p])];
        Got(rec, CdnoOf(fs, Base(), iso, rec, p))
    }
  }

  // What get_dir_rec answers for a cursor at p: EIO at the end of the directory,
  // ENOENT at a record that is too short to be one, and else the record, or the
  // part of it that fits a struct cddir.
  lemma FetchFacts(dir: Directory, d: seq<byte>, p: nat, truncate: bool)
    requires p < |d| && d[p] >= MINRECORD ==> RecordAt(d, p)
    ensures var r := dir.FetchAt(d, p, truncate);
      && (r == Failed(EIO) <==> p >= |d|)
      && (r == Failed(ENOENT) <==> p < |d| && d[p] < 34)
      && (r.Got? ==> |r.rec| == (if truncate && d[p] > 70 then 70 else d[p] as int) && p + |r.rec| <= |d|)
      && (r.Got? ==> forall k: nat :: k < |r.rec| ==> r.rec[k] == d[p + k])
  { }

  // The number of a record that is not of a directory: the address in bytes of
  // the record itself, on 32 bits.
  lemma FileNumberIs(fs: Cdfs, f: File, iso: bool, r: seq<byte>, p: nat)
    requires Sound(fs) && |r| >= MINRECORD && r[if iso then 25 else 24] / 2 % 2 == 0
    ensures CdnoOf(fs, Shl(f.loc + f.xarlen, fs.lbshift), iso, r, p) ==
      ((f.loc + f.xarlen) * fs.lbsize + p) % 0x1_0000_0000
  {
    ShlIs(f.loc + f.xarlen, fs.lbshift, fs.lbsize);
  }

  // Of one that is: the address of the directory's first record, after its
  // attribute record, from the fields of the record; as the root has it.
  lemma DirectoryNumberIs(fs: Cdfs, base: nat, iso: bool, r: seq<byte>, p: nat)
    requires Sound(fs) && |r| >= MINRECORD && r[if iso then 25 else 24] / 2 % 2 == 1
    ensures var loc := 0x100_0000 * (r[6] as int) + 0x1_0000 * (r[7] as int) + 0x100 * (r[8] as int) + r[9] as int;
      && CdnoOf(fs, base, iso, r, p) == (loc + r[1] as int) * fs.lbsize % 0x1_0000_0000
      && CdnoOf(fs, base, iso, r, p) == RootCdno(fs, loc, r[1]) % 0x1_0000_0000
  {
    RootIsFirstRecord(fs, Word(r, LOCATION), r[1]);
  }

  // The number of the parent is had in the same way, from the second record.
  lemma ParentNumberIs(fs: Cdfs, d: seq<byte>, p: nat)
    requires Sound(fs) && RecordAt(d, p)
    ensures var loc := 0x100_0000 * (d[p + 6] as int) + 0x1_0000 * (d[p + 7] as int) + 0x100 * (d[p + 8] as int)
                       + d[p + 9] as int;
      ParentNumber(fs, d, p) == (loc + d[p + 1] as int) * fs.lbsize % 0x1_0000_0000
  {
    var r := d[p..p + d[p]];
    assert r[6] == d[p + 6] && r[7] == d[p + 7] && r[8] == d[p + 8] && r[9] == d[p + 9];
    RootIsFirstRecord(fs, Word(r, LOCATION), d[p + XARLEN]);
  }

  // So two files of a directory never have one number.
  lemma FilesHaveTheirOwnNumbers(fs: Cdfs, f: File, iso: bool, r: seq<byte>, p: nat, r2: seq<byte>, p2: nat)
    requires Sound(fs) && p < f.size <= MAXINT && p2 < f.size && |r| >= MINRECORD && |r2| >= MINRECORD
    requires !IsDir(FlagsOf(r, iso)) && !IsDir(FlagsOf(r2, iso))
    requires CdnoOf(fs, Shl(f.loc + f.xarlen, fs.lbshift), iso, r, p) ==
      CdnoOf(fs, Shl(f.loc + f.xarlen, fs.lbshift), iso, r2, p2)
    ensures p == p2
  {
    FileNumberIs(fs, f, iso, r, p);
    FileNumberIs(fs, f, iso, r2, p2);
    SameRemainder((f.loc + f.xarlen) * fs.lbsize, p, p2);
  }

  lemma SameRemainder(a: nat, p: nat, q: nat)
    requires p <= MAXINT && q <= MAXINT && (a + p) % 0x1_0000_0000 == (a + q) % 0x1_0000_0000
    ensures p == q
  { }

  lemma FirstTwo(d: seq<byte>)
    requires WellFormed(d, 0) && |Starts(d, 0)| >= 2
    ensures var s := Starts(d, 0);
      && s[0] == 0 && WellFormed(d, 0) && RecordAt(d, 0) && NextStart(d, 0) == s[1]
      && WellFormed(d, s[1]) && RecordAt(d, s[1]) && NextStart(d, s[1]) in s
  {
    StartsAreRecords(d, 0);
    StartsFrom(d, 0, 1);
    SectorBegins(d, 0);
    NextStartIs(d, 0);
    NextStartIs(d, 1);
  }

  lemma SameLocation(d: seq<byte>, p: nat)
    requires RecordAt(d, p)
    ensures var rec := d[p..p + Copied(true, d[p])];
      |rec| >= MINRECORD && Word(rec, LOCATION) == Word(d[p..p + d[p]], LOCATION) && rec[XARLEN] == d[p + XARLEN]
  { }

  // The chunk that place p is in.
  function ChunkOf(d: seq<byte>, p: nat): seq<byte>
    requires p < |d|
  {
    var c := p - p % CHUNK;
    d[c..c + Least(CHUNK, |d| - c)]
  }

  lemma InChunk(d: seq<byte>, p: nat, n: nat)
    requires p % CHUNK + n <= CHUNK && p + n <= |d| && n > 0
    ensures p % CHUNK + n <= |ChunkOf(d, p)| && ChunkOf(d, p)[p % CHUNK..p % CHUNK + n] == d[p..p + n]
    ensures ChunkOf(d, p)[p % CHUNK] == d[p]
  {
    var c := p - p % CHUNK;
    SliceOfSlice(d, c, c + Least(CHUNK, |d| - c), p % CHUNK, n);
  }

  lemma SliceOfSlice(d: seq<byte>, c: nat, e: nat, a: nat, n: nat)
    requires c <= e <= |d| && a + n <= e - c
    ensures d[c..e][a..a + n] == d[c + a..c + a + n]
  {
    var x, y := d[c..e][a..a + n], d[c + a..c + a + n];
    forall k | 0 <= k < n ensures x[k] == y[k] {
      assert x[k] == d[c..e][a + k] == d[c + (a + k)];
    }
  }

  lemma RecordInChunk(d: seq<byte>, p: nat, n: nat)
    requires RecordAt(d, p) && 0 < n <= d[p]
    ensures p % CHUNK + n <= |ChunkOf(d, p)| && ChunkOf(d, p)[p % CHUNK..p % CHUNK + n] == d[p..p + n]
  {
    FitsInChunk(d, p);
    InChunk(d, p, n);
  }

  // The byte after a record.
  lemma SameByte(d: seq<byte>, p: nat, n: nat)
    requires p % CHUNK + n <= CHUNK && p + n < |d| && n > 0
    ensures (p + n) % CHUNK == 0 <==> p % CHUNK + n == CHUNK
    ensures p % CHUNK + n < CHUNK ==> p % CHUNK + n < |ChunkOf(d, p)| && ChunkOf(d, p)[p % CHUNK + n] == d[p + n]
  { }

  lemma FitsInChunk(d: seq<byte>, p: nat)
    requires RecordAt(d, p)
    ensures p % CHUNK + d[p] <= CHUNK && p + d[p] <= |d|
  {
    var q, x := p / SECTOR, p % SECTOR;
    assert p == CHUNK * (q / 4) + (SECTOR * (q % 4) + x);
    ChunkRemainder(q / 4, SECTOR * (q % 4) + x);
  }

  lemma ChunkRemainder(c: nat, x: nat)
    requires x < CHUNK
    ensures (CHUNK * c + x) % CHUNK == x
  { }

  lemma RoundUpIs(q: nat)
    ensures SectorRoundUp(q) == if q % SECTOR == 0 then q else SectorEnd(q)
    ensures q % CHUNK == 0 ==> q % SECTOR == 0
  { }

  lemma SectorBegins(d: seq<byte>, e: nat)
    requires WellFormed(d, e) && e < |d| && e % SECTOR == 0
    ensures d[e] != 0 && Starts(d, e) == [e] + Starts(d, e + d[e])
  { }

  lemma FirstStart(d: seq<byte>, q: nat, e: nat)
    requires WellFormed(d, q) && q < |d| && e == SectorEnd(q)
    ensures d[q] == 0 ==> q % SECTOR != 0
    ensures d[q] != 0 ==> Starts(d, q) == [q] + Starts(d, q + d[q])
    ensures d[q] == 0 && e >= |d| ==> Starts(d, q) == []
    ensures d[q] == 0 && e < |d| ==> Starts(d, q) == [e] + Starts(d, e + d[e])
  {
    if d[q] == 0 && e < |d| { SectorBegins(d, e); }
  }

  // How the cursor finds the next record: at the end of this one, or else at
  // the start of the next sector, or else at the start of the directory.
  lemma NextStartScan(d: seq<byte>, p: nat)
    requires WellFormed(d, p) && p < |d| && d[p] != 0
    ensures RecordAt(d, p)
    ensures var q := p + d[p];
      NextStart(d, p) ==
        if q >= |d| then 0
        else if q % CHUNK != 0 && d[q] != 0 then q
        else if SectorRoundUp(q) >= |d| then 0
        else SectorRoundUp(q)
  {
    var q := p + d[p];
    if q < |d| {
      FirstStart(d, q, SectorEnd(q));
      RoundUpIs(q);
    }
  }

  // The same, seen from the chunk that holds the record at p.
  lemma NextInChunk(d: seq<byte>, p: nat)
    requires WellFormed(d, p) && p < |d| && d[p] != 0
    ensures var q, over := p + d[p], p % CHUNK + d[p];
      && (q < |d| && over != CHUNK ==> over < |ChunkOf(d, p)|)
      && NextStart(d, p) ==
           if q >= |d| then 0
           else
             var next := if over != CHUNK && ChunkOf(d, p)[over] != 0 then q else SectorRoundUp(q);
             if next >= |d| then 0 else next
  {
    NextStartScan(d, p);
    FitsInChunk(d, p);
    if p + d[p] < |d| { SameByte(d, p, d[p]); }
  }
}
