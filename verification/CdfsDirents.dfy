/**
 * Directory records turned, in place, into the entries that readers of
 * directories expect. Records are aligned to two bytes and the entries to
 * four, so an entry may start two bytes before its record.
 */
module CdfsDirents {
  import opened Common
  import opened CdfsGeometry
  import opened CdfsRead
  import opened CdfsDir

  // Places in struct direct; the numbers have their most significant byte first.
  const FILENO := 0
  const RECLEN := 4
  const NAMLEN := 6
  const NAME := 8
  const PERIOD: byte := 46

  // An entry; name is what precedes the 0 that ends it, which is shorter than
  // d_namlen says for a first record whose name has more than one byte.
  datatype Dirent = Dirent(fileno: nat, reclen: nat, namlen: nat, name: seq<byte>)

  // What the conversion knows besides the buffer: the file system, the address
  // and format of the directory, how far into it the buffer starts, its cdnode
  // number, and that of its parent if it can be found out.
  datatype Context = Context(fs: Cdfs, base: nat, iso: bool, offset: nat, num: nat, parent: Option<nat>)

  function Half(b: seq<byte>, p: nat): nat
    requires p + 2 <= |b|
  {
    0x100 * (b[p] as int) + b[p + 1] as int
  }

  // The place of the entry of a record at p.
  function Down(p: nat): nat { p - p % 4 }

  predicate HasNumbers(b: seq<byte>, q: nat, fileno: nat, reclen: nat, namlen: nat) {
    q + NAME <= |b| && Word(b, q + FILENO) == fileno && Half(b, q + RECLEN) == reclen && Half(b, q + NAMLEN) == namlen
  }

  predicate HasName(b: seq<byte>, q: nat, name: seq<byte>) {
    q + NAME + |name| <= |b| && b[q + NAME..q + NAME + |name|] == name
  }

  // The entry at q, whose name ends with a 0.
  predicate IsEntry(b: seq<byte>, q: nat, e: Dirent) {
    && HasNumbers(b, q, e.fileno, e.reclen, e.namlen) && HasName(b, q, e.name) && |e.name| <= e.namlen
    && q + NAME + |e.name| < |b| && b[q + NAME + |e.name|] == 0
  }

  // Bytes outside [lo, hi) are the same.
  ghost predicate SameBut(b: seq<byte>, b2: seq<byte>, lo: nat, hi: nat) {
    |b| == |b2| && forall x: nat {:trigger b2[x]} :: x < |b| && !(lo <= x < hi) ==> b[x] == b2[x]
  }

  lemma NumbersKept(b: seq<byte>, b2: seq<byte>, q: nat, fileno: nat, reclen: nat, namlen: nat, lo: nat, hi: nat)
    requires HasNumbers(b, q, fileno, reclen, namlen) && SameBut(b, b2, lo, hi) && (hi <= q || q + NAME <= lo)
    ensures HasNumbers(b2, q, fileno, reclen, namlen)
  { }

  lemma NameKept(b: seq<byte>, b2: seq<byte>, q: nat, name: seq<byte>, lo: nat, hi: nat)
    requires HasName(b, q, name) && SameBut(b, b2, lo, hi) && (hi <= q + NAME || q + NAME + |name| <= lo)
    ensures HasName(b2, q, name)
  {
    forall k | 0 <= k < |name| ensures b2[q + NAME + k] == name[k] {
      assert b[q + NAME..q + NAME + |name|][k] == b[q + NAME + k];
    }
    assert b2[q + NAME..q + NAME + |name|] == name;
  }

  lemma EntryKept(b: seq<byte>, b2: seq<byte>, q: nat, e: Dirent, lo: nat, hi: nat)
    requires IsEntry(b, q, e) && SameBut(b, b2, lo, hi) && (hi <= q || q + NAME + |e.name| + 1 <= lo)
    ensures IsEntry(b2, q, e)
  {
    NumbersKept(b, b2, q, e.fileno, e.reclen, e.namlen, lo, hi);
    NameKept(b, b2, q, e.name, lo, hi);
  }

  // --------------------------------------------- what becomes of the record at p

  function IdOf(b: seq<byte>, p: nat): seq<byte>
    requires HasFields(b, p)
  {
    b[p + ID..p + ID + b[p + IDLEN]]
  }

  predicate IsFirst(c: Context, p: nat) { c.offset + p == 0 }

  // The first record is the directory itself; a name of one byte 1 is the parent.
  function NameFor(first: bool, id: seq<byte>): seq<byte> {
    if first then [PERIOD] else if id == [1] then [PERIOD, PERIOD] else id
  }

  function NamlenFor(first: bool, id: seq<byte>): nat { if !first && id == [1] then 2 else |id| }

  function FilenoFor(c: Context, first: bool, id: seq<byte>, cdno: nat): nat {
    if first then U32(c.num) else if id == [1] && c.parent.Some? then U32(c.parent.value) else cdno
  }

  predicate IdFits(c: Context, first: bool, id: seq<byte>) {
    id != [] && if first then id[0] == 0 else id == [1] ==> c.parent.Some?
  }

  function NameOf(c: Context, b: seq<byte>, p: nat): seq<byte>
    requires HasFields(b, p)
  {
    NameFor(IsFirst(c, p), IdOf(b, p))
  }

  function NamlenOf(c: Context, b: seq<byte>, p: nat): nat
    requires HasFields(b, p)
  {
    NamlenFor(IsFirst(c, p), IdOf(b, p))
  }

  // The number get_dir_rec gives the record, but for the first two.
  function FilenoOf(c: Context, b: seq<byte>, p: nat): nat
    requires HasFields(b, p)
  {
    FilenoFor(c, IsFirst(c, p), IdOf(b, p), CdnoOf(c.fs, c.base, c.iso, b[p..p + b[p]], c.offset + p))
  }

  // The entry of the record at p, when the next one begins at q.
  function EntryOf(c: Context, b: seq<byte>, p: nat, q: nat): Dirent
    requires HasFields(b, p)
  {
    Dirent(FilenoOf(c, b, p), if q >= Down(p) then q - Down(p) else 0, NamlenOf(c, b, p), NameOf(c, b, p))
  }

  // What the conversion demands of a record.
  predicate RecordFits(c: Context, b: seq<byte>, p: nat) {
    && HasFields(b, p)
    && b[p] % 2 == 0
    && IdFits(c, IsFirst(c, p), IdOf(b, p))
  }

  // ------------------------------------------------------------------- stores

  method PutHalf(buf: array<byte>, p: nat, v: nat)
    requires p + 2 <= buf.Length && v < 0x1_0000
    modifies buf
    ensures Half(buf[..], p) == v && SameBut(old(buf[..]), buf[..], p, p + 2)
  {
    buf[p] := v / 0x100;
    buf[p + 1] := v % 0x100;
  }

  method PutWord(buf: array<byte>, p: nat, v: nat)
    requires p + 4 <= buf.Length && v < 0x1_0000_0000
    modifies buf
    ensures Word(buf[..], p) == v && SameBut(old(buf[..]), buf[..], p, p + 4)
  {
    var high, low := v / 0x1_0000, v % 0x1_0000;
    PutHalf(buf, p, high);
    PutHalf(buf, p + 2, low);
    assert Word(buf[..], p) == 0x1_0000 * Half(buf[..], p) + Half(buf[..], p + 2);
  }

  method PutByte(buf: array<byte>, p: nat, v: byte)
    requires p < buf.Length
    modifies buf
    ensures buf[p] == v && SameBut(old(buf[..]), buf[..], p, p + 1)
  {
    buf[p] := v;
  }

  // --------------------------------------------------------------- one record

  // d_reclen as the code adjusts it: it is the distance of the two entries.
  function Adjusted(p: nat, reclen: nat): nat
    requires reclen >= 2
  {
    if reclen % 4 == 0 then reclen else if p % 4 != 0 then reclen + 2 else reclen - 2
  }

  lemma Mod4(k: nat, r: nat)
    requires r < 4
    ensures (4 * k + r) % 4 == r
  { }

  lemma Even(p: nat)
    requires p % 2 == 0
    ensures p % 4 == 0 || p % 4 == 2
  { }

  lemma Halves(p: nat, reclen: nat)
    requires p % 2 == 0 && reclen % 2 == 0
    ensures (p % 4 == 0 || p % 4 == 2) && (reclen % 4 == 0 || reclen % 4 == 2)
    ensures (p + reclen) % 4 == if p % 4 == reclen % 4 then 0 else 2
  {
    var i, j := p / 4, reclen / 4;
    Even(p);
    Even(reclen);
    if p % 4 + reclen % 4 == 4 { Mod4(i + j + 1, 0); } else { Mod4(i + j, p % 4 + reclen % 4); }
  }

  lemma AdjustedIsDistance(p: nat, reclen: nat)
    requires p % 2 == 0 && reclen % 2 == 0 && reclen >= 2
    ensures Adjusted(p, reclen) == Down(p + reclen) - Down(p)
  {
    Halves(p, reclen);
  }

  // Copies the name down. The places read lie beyond the places written.
  method CopyName(buf: array<byte>, from: nat, to: nat, n: nat)
    requires to <= from && from + n <= buf.Length
    modifies buf
    ensures buf[to..to + n] == old(buf[from..from + n])
    ensures SameBut(old(buf[..]), buf[..], to, to + n)
  {
    ghost var was := buf[..];
    for i := 0 to n
      modifies buf
      invariant buf[to..to + i] == was[from..from + i]
      invariant SameBut(was, buf[..], to, to + i)
    {
      buf[to + i] := buf[from + i];
      assert buf[to..to + i] == was[from..from + i];
    }
  }

  // The fields of the record at p are still there, but for what lies below lo.
  ghost predicate Left(buf: seq<byte>, b: seq<byte>, lo: nat) {
    |buf| == |b| && forall x: nat {:trigger buf[x]} :: lo <= x < |b| ==> buf[x] == b[x]
  }

  lemma LeftSlice(buf: seq<byte>, b: seq<byte>, lo: nat, i: nat, n: nat)
    requires Left(buf, b, lo) && lo <= i && i + n <= |b|
    ensures buf[i..i + n] == b[i..i + n]
  { }

  // The cdnode number, from what is left of the record.
  method NumberOf(buf: array<byte>, p: nat, isDir: bool, c: Context, ghost b: seq<byte>) returns (fileno: nat)
    requires HasFields(b, p) && Left(buf[..], b, p + LOCATION) && buf[p + XARLEN] == b[p + XARLEN]
    requires isDir == IsDir(b[p + (if c.iso then FLAGS else TIMEZONE)])
    ensures fileno == CdnoOf(c.fs, c.base, c.iso, b[p..p + b[p]], c.offset + p) < 0x1_0000_0000
  {
    if isDir {
      fileno := U32(Shl(Word(buf[..], p + LOCATION) + buf[p + XARLEN], c.fs.lbshift));
      assert Word(buf[..], p + LOCATION) == Word(b[p..p + b[p]], LOCATION);
    } else {
      fileno := U32(c.base + c.offset + p);
    }
  }

  // The numbers of the entry, which go in first: every field of the record that
  // they are made of is read before it is overwritten.
  method PutNumbers(buf: array<byte>, p: nat, q: nat, c: Context, ghost b: seq<byte>) returns (ok: bool)
    requires HasFields(b, p) && q <= p <= q + 2 && Left(buf[..], b, p)
    modifies buf
    ensures ok <==> b[p] % 2 == 0
    ensures SameBut(old(buf[..]), buf[..], q, q + NAME)
    ensures ok ==>
      HasNumbers(buf[..], q, CdnoOf(c.fs, c.base, c.iso, b[p..p + b[p]], c.offset + p), Adjusted(p, b[p]), b[p + IDLEN])
  {
    var reclen := buf[p];
    var isDir := IsDir(buf[p + (if c.iso then FLAGS else TIMEZONE)]);
    if reclen % 4 != 0 && reclen % 2 != 0 { return false; }
    PutHalf(buf, q + RECLEN, Adjusted(p, reclen));
    var namlen := buf[p + IDLEN];
    var fileno := NumberOf(buf, p, isDir, c, b);
    PutWord(buf, q + FILENO, fileno);
    PutHalf(buf, q + NAMLEN, namlen);
    ok := true;
  }

  // The name, and the other numbers that go with a special name.
  method PutName(buf: array<byte>, p: nat, q: nat, c: Context, first: bool, n: nat, ghost id: seq<byte>,
                 ghost cdno: nat, ghost e: Dirent)
    returns (ok: bool)
    requires q <= p <= q + 2 && p + ID + n <= buf.Length && n > 0 && buf[p + ID..p + ID + n] == id
    requires HasNumbers(buf[..], q, cdno, e.reclen, n)
    requires e.fileno == FilenoFor(c, first, id, cdno) && e.name == NameFor(first, id)
    requires e.namlen == NamlenFor(first, id)
    modifies buf
    ensures ok == IdFits(c, first, id)
    ensures ok ==> IsEntry(buf[..], q, e)
    ensures SameBut(old(buf[..]), buf[..], q, q + NAME + 1 + |e.name|)
  {
    ok := true;
    FirstByte(buf[..], p + ID, n, id);
    if first || (buf[p + ID] == 1 && n == 1) {
      ok := PutSpecial(buf, q, c, first, buf[p + ID], n, id, cdno, e);
    } else {
      PutPlain(buf, p + ID, q, n, e);
    }
  }

  lemma FirstByte(b: seq<byte>, p: nat, n: nat, id: seq<byte>)
    requires n > 0 && p + n <= |b| && b[p..p + n] == id
    ensures |id| == n && id[0] == b[p] && (id == [1] <==> n == 1 && b[p] == 1)
  { }

  // The first two records.
  method PutSpecial(buf: array<byte>, q: nat, c: Context, first: bool, id0: byte, n: nat, ghost id: seq<byte>,
                    ghost cdno: nat, ghost e: Dirent)
    returns (ok: bool)
    requires q + NAME + 2 < buf.Length && n == |id| > 0 && id[0] == id0 && (first || id == [1])
    requires HasNumbers(buf[..], q, cdno, e.reclen, n)
    requires e.fileno == FilenoFor(c, first, id, cdno) && e.name == NameFor(first, id)
    requires e.namlen == NamlenFor(first, id)
    modifies buf
    ensures ok == IdFits(c, first, id)
    ensures ok ==> IsEntry(buf[..], q, e)
    ensures SameBut(old(buf[..]), buf[..], q, q + NAME + 1 + |e.name|)
  {
    ok := true;
    if first {
      if id0 != 0 { return false; }
      PutDot(buf, q, U32(c.num), n, e.reclen);
    } else if c.parent.None? {
      PutHalf(buf, q + NAMLEN, 2);
      return false;
    } else {
      PutDotDot(buf, q, U32(c.parent.value), e.reclen);
    }
  }

  method EndName(buf: array<byte>, q: nat, n: nat, ghost e: Dirent)
    requires n == |e.name| <= e.namlen && q + NAME + n < buf.Length
    requires HasNumbers(buf[..], q, e.fileno, e.reclen, e.namlen) && HasName(buf[..], q, e.name)
    modifies buf
    ensures IsEntry(buf[..], q, e) && SameBut(old(buf[..]), buf[..], q + NAME + n, q + NAME + n + 1)
  {
    ghost var was := buf[..];
    PutByte(buf, q + NAME + n, 0);
    NumbersKept(was, buf[..], q, e.fileno, e.reclen, e.namlen, q + NAME + n, q + NAME + n + 1);
    NameKept(was, buf[..], q, e.name, q + NAME + n, q + NAME + n + 1);
  }

  method PutPlain(buf: array<byte>, from: nat, q: nat, n: nat, ghost e: Dirent)
    requires q + NAME < from && from + n <= buf.Length && HasNumbers(buf[..], q, e.fileno, e.reclen, n)
    requires e.namlen == n && e.name == buf[from..from + n]
    modifies buf
    ensures IsEntry(buf[..], q, e)
    ensures SameBut(old(buf[..]), buf[..], q, q + NAME + 1 + n)
  {
    ghost var was := buf[..];
    CopyName(buf, from, q + NAME, n);
    NumbersKept(was, buf[..], q, e.fileno, e.reclen, n, q + NAME, q + NAME + n);
    EndName(buf, q, n, e);
  }

  method PutDot(buf: array<byte>, q: nat, fileno: nat, namlen: nat, ghost reclen: nat)
    requires q + NAME + 1 < buf.Length && fileno < 0x1_0000_0000 && namlen >= 1
    requires Half(buf[..], q + NAMLEN) == namlen && Half(buf[..], q + RECLEN) == reclen
    modifies buf
    ensures IsEntry(buf[..], q, Dirent(fileno, reclen, namlen, [PERIOD]))
    ensures SameBut(old(buf[..]), buf[..], q, q + NAME + 2)
  {
    PutWord(buf, q + FILENO, fileno);
    PutByte(buf, q + NAME, PERIOD);
    EndName(buf, q, 1, Dirent(fileno, reclen, namlen, [PERIOD]));
  }

  method PutDotDot(buf: array<byte>, q: nat, fileno: nat, ghost reclen: nat)
    requires q + NAME + 2 < buf.Length && fileno < 0x1_0000_0000
    requires Half(buf[..], q + RECLEN) == reclen
    modifies buf
    ensures IsEntry(buf[..], q, Dirent(fileno, reclen, 2, [PERIOD, PERIOD]))
    ensures SameBut(old(buf[..]), buf[..], q, q + NAME + 3)
  {
    PutHalf(buf, q + NAMLEN, 2);
    PutWord(buf, q + FILENO, fileno);
    PutByte(buf, q + NAME, PERIOD);
    PutByte(buf, q + NAME + 1, PERIOD);
    assert buf[q + NAME..q + NAME + 2] == [PERIOD, PERIOD];
    EndName(buf, q, 2, Dirent(fileno, reclen, 2, [PERIOD, PERIOD]));
  }

  // One round of the loop over the records of a sector, for an entry at q.
  method PutEntry(buf: array<byte>, p: nat, q: nat, c: Context, ghost b: seq<byte>) returns (ok: bool)
    requires HasFields(b, p) && q <= p <= q + 2 && Left(buf[..], b, p)
    modifies buf
    ensures ok <==> RecordFits(c, b, p)
    ensures ok ==> IsEntry(buf[..], q, Dirent(FilenoOf(c, b, p), Adjusted(p, b[p]), NamlenOf(c, b, p), NameOf(c, b, p)))
    ensures SameBut(old(buf[..]), buf[..], q, q + NAME + 1 + |NameOf(c, b, p)|)
  {
    ghost var e := Dirent(FilenoOf(c, b, p), Adjusted(p, b[p]), NamlenOf(c, b, p), NameOf(c, b, p));
    var n := buf[p + IDLEN];
    ok := PutNumbers(buf, p, q, c, b);
    if ok {
      LeftSlice(buf[..], b, p + NAME, p + ID, n);
      ghost var cdno := CdnoOf(c.fs, c.base, c.iso, b[p..p + b[p]], c.offset + p);
      ok := PutName(buf, p, q, c, IsFirst(c, p), n, IdOf(b, p), cdno, e);
    }
  }

  // ---------------------------------------------------------- the whole buffer

  // Where the sector of p, or the buffer, ends.
  function PartEnd(p: nat, n: nat): nat { Least(SectorEnd(p), n) }

  // The loop over a sector goes on at p: there is room for a record, and one
  // begins.
  predicate AtRecord(b: seq<byte>, p: nat) {
    p < |b| && PartEnd(p, |b|) - p >= MINRECORD && b[p] != 0
  }

  // Where the records from p on begin; a sector may have any number of them, and
  // what follows the last is passed over.
  function Recs(b: seq<byte>, p: nat): seq<nat>
    decreases |b| - p
  {
    if p >= |b| then []
    else if AtRecord(b, p) then [p] + Recs(b, p + b[p])
    else Recs(b, SectorEnd(p))
  }

  // From p on, every record ends in its sector, and in the buffer.
  predicate Records(b: seq<byte>, p: nat)
    decreases |b| - p
  {
    if p >= |b| then true
    else if AtRecord(b, p) then HasFields(b, p) && p + b[p] <= PartEnd(p, |b|) && Records(b, p + b[p])
    else Records(b, SectorEnd(p))
  }

  // In a directory as ISO 9660 has it these are its records.
  lemma {:induction false} RecsAreStarts(b: seq<byte>, p: nat)
    requires WellFormed(b, p)
    ensures Records(b, p) && Recs(b, p) == Starts(b, p)
    decreases |b| - p
  {
    if p < |b| { RecsAreStarts(b, if b[p] == 0 then SectorEnd(p) else p + b[p]); }
  }

  // What the length of the last entry of a sector gets in addition to the bytes
  // left over; q is where the last record ends.
  function More(q: nat): nat { if q % 4 == 0 then 0 else 2 }

  // Sectors from s on without a record: they stretch the entry before them.
  function Stretched(b: seq<byte>, s: nat, end: nat, more: nat): nat
    decreases |b| - s
  {
    if s >= |b| || AtRecord(b, s) then end
    else Stretched(b, SectorEnd(s), end + (PartEnd(s, |b|) - s) + more, more)
  }

  // How far the entry of the record at p reaches.
  function Reach(b: seq<byte>, p: nat): nat
    requires HasFields(b, p)
  {
    var q := p + b[p];
    if q < PartEnd(p, |b|) && AtRecord(b, q) then Down(q)
    else Stretched(b, SectorEnd(p), PartEnd(p, |b|), More(q))
  }

  predicate EntryIn(buf: seq<byte>, c: Context, b: seq<byte>, ps: seq<nat>, j: nat, next: nat)
    requires j < |ps|
  {
    HasFields(b, ps[j]) && Down(ps[j]) <= next && IsEntry(buf, Down(ps[j]), EntryOf(c, b, ps[j], next))
  }

  // The first k records are entries now, the last of which reaches to last.
  ghost predicate Done(buf: seq<byte>, c: Context, b: seq<byte>, ps: seq<nat>, k: nat, last: nat)
    requires k <= |ps|
  {
    forall j: nat :: j < k ==> EntryDone(buf, c, b, ps, j, k, last)
  }

  predicate EntryDone(buf: seq<byte>, c: Context, b: seq<byte>, ps: seq<nat>, j: nat, k: nat, last: nat)
    requires j < k <= |ps|
  {
    HasFields(b, ps[j]) && EntryIn(buf, c, b, ps, j, if j + 1 < k then Reach(b, ps[j]) else last)
  }

  // All records are entries now.
  ghost predicate AllDone(buf: seq<byte>, c: Context, b: seq<byte>, ps: seq<nat>) {
    forall j: nat :: j < |ps| ==> EntryAt(buf, c, b, ps, j)
  }

  predicate EntryAt(buf: seq<byte>, c: Context, b: seq<byte>, ps: seq<nat>, j: nat)
    requires j < |ps|
  {
    HasFields(b, ps[j]) && EntryIn(buf, c, b, ps, j, Reach(b, ps[j]))
  }

  // Everything that is demanded of the buffer.
  predicate Convertible(c: Context, b: seq<byte>) {
    && (c.offset == 0 ==> |b| >= 2 * MINRECORD)
    && AllFit(c, b, Recs(b, 0))
  }

  predicate AllFit(c: Context, b: seq<byte>, ps: seq<nat>) {
    forall k: nat {:trigger RecordFits(c, b, ps[k])} :: k < |ps| ==> RecordFits(c, b, ps[k])
  }

  lemma {:induction false} RecsFrom(b: seq<byte>, p: nat)
    requires Records(b, p)
    ensures forall i: nat :: i < |Recs(b, p)| ==> p <= Recs(b, p)[i] && RecordEnds(b, Recs(b, p)[i])
    decreases |b| - p
  {
    if p < |b| { RecsFrom(b, if AtRecord(b, p) then p + b[p] else SectorEnd(p)); }
  }

  predicate RecordEnds(b: seq<byte>, p: nat) { HasFields(b, p) && p + b[p] <= PartEnd(p, |b|) }

  lemma {:induction false} RecsApart(b: seq<byte>, p: nat, i: nat, j: nat)
    requires Records(b, p) && i < j < |Recs(b, p)|
    ensures RecordEnds(b, Recs(b, p)[i]) && Recs(b, p)[i] + b[Recs(b, p)[i]] <= Recs(b, p)[j]
    decreases |b| - p
  {
    if !AtRecord(b, p) {
      RecsApart(b, SectorEnd(p), i, j);
    } else if i > 0 {
      RecsApart(b, p + b[p], i - 1, j - 1);
    } else {
      RecsFrom(b, p + b[p]);
    }
  }

  lemma {:induction false} StartsApart(b: seq<byte>, p: nat, i: nat, j: nat)
    requires WellFormed(b, p) && i < j < |Starts(b, p)|
    ensures RecordAt(b, Starts(b, p)[i]) && Starts(b, p)[i] + b[Starts(b, p)[i]] <= Starts(b, p)[j]
    decreases |b| - p
  {
    if b[p] == 0 {
      StartsApart(b, SectorEnd(p), i, j);
    } else if i > 0 {
      StartsApart(b, p + b[p], i - 1, j - 1);
    } else {
      StartsAreRecords(b, p + b[p]);
    }
  }

  // An entry ends before the next one begins.
  lemma EntryIsShort(c: Context, b: seq<byte>, p: nat)
    requires HasFields(b, p)
    ensures Down(p) + NAME + 1 + |NameOf(c, b, p)| <= Down(p + b[p])
  { }

  lemma DownKeepsOrder(p: nat, q: nat)
    requires p <= q
    ensures Down(p) <= Down(q)
  { }

  lemma EntryBefore(c: Context, b: seq<byte>, j: nat, k: nat)
    requires Records(b, 0) && j < k < |Recs(b, 0)|
    ensures var p := Recs(b, 0)[j];
      HasFields(b, p) && Down(p) + NAME + 1 + |NameOf(c, b, p)| <= Down(Recs(b, 0)[k])
  {
    var p := Recs(b, 0)[j];
    RecsApart(b, 0, j, k);
    EntryIsShort(c, b, p);
    DownKeepsOrder(p + b[p], Recs(b, 0)[k]);
  }

  lemma EntryInKept(buf: seq<byte>, buf2: seq<byte>, c: Context, b: seq<byte>, ps: seq<nat>, j: nat, next: nat,
                    lo: nat, hi: nat)
    requires j < |ps| && EntryIn(buf, c, b, ps, j, next) && SameBut(buf, buf2, lo, hi)
    requires Down(ps[j]) + NAME + 1 + |NameOf(c, b, ps[j])| <= lo
    ensures EntryIn(buf2, c, b, ps, j, next)
  {
    EntryKept(buf, buf2, Down(ps[j]), EntryOf(c, b, ps[j], next), lo, hi);
  }

  lemma EarlierKept(buf: seq<byte>, buf2: seq<byte>, c: Context, b: seq<byte>, ps: seq<nat>, j: nat, k: nat, next: nat,
                    lo: nat, hi: nat)
    requires AreRecs(b, ps) && j < k < |ps| && Down(ps[k]) <= lo
    requires EntryIn(buf, c, b, ps, j, next) && SameBut(buf, buf2, lo, hi)
    ensures EntryIn(buf2, c, b, ps, j, next)
  {
    EntryBefore(c, b, j, k);
    EntryInKept(buf, buf2, c, b, ps, j, next, lo, hi);
  }

  // The entry before record k reaches as far as it is to.
  predicate Reached(b: seq<byte>, ps: seq<nat>, k: nat, end: nat)
    requires k <= |ps|
  {
    k > 0 ==> HasFields(b, ps[k - 1]) && end == Reach(b, ps[k - 1])
  }

  // The next record becomes an entry.
  lemma OneMore(buf: seq<byte>, buf2: seq<byte>, c: Context, b: seq<byte>, ps: seq<nat>, k: nat, p: nat, end: nat,
                last: nat, hi: nat)
    requires AreRecs(b, ps) && k < |ps| && ps[k] == p
    requires Done(buf, c, b, ps, k, end) && Reached(b, ps, k, end) && SameBut(buf, buf2, Down(p), hi)
    requires EntryIn(buf2, c, b, ps, k, last)
    ensures Done(buf2, c, b, ps, k + 1, last)
  {
    var n := k + 1;
    forall j: nat | j < n ensures EntryDone(buf2, c, b, ps, j, n, last) {
      if j < k {
        assert EntryDone(buf, c, b, ps, j, k, end);
        EarlierDone(buf, buf2, c, b, ps, j, k, end, last, hi);
      }
    }
  }

  lemma EarlierDone(buf: seq<byte>, buf2: seq<byte>, c: Context, b: seq<byte>, ps: seq<nat>, j: nat, k: nat, end: nat,
                    last: nat, hi: nat)
    requires AreRecs(b, ps) && j < k < |ps| && EntryDone(buf, c, b, ps, j, k, end)
    requires Reached(b, ps, k, end) && SameBut(buf, buf2, Down(ps[k]), hi)
    ensures EntryDone(buf2, c, b, ps, j, k + 1, last)
  {
    EarlierKept(buf, buf2, c, b, ps, j, k, Reach(b, ps[j]), Down(ps[k]), hi);
  }

  // The last entry gets another length.
  lemma LastStretched(buf: seq<byte>, buf2: seq<byte>, c: Context, b: seq<byte>, ps: seq<nat>, k: nat, last: nat,
                      end: nat)
    requires AreRecs(b, ps) && k < |ps|
    requires Done(buf, c, b, ps, k + 1, last) && last <= end
    requires var q := Down(ps[k]);
      q + NAME <= |buf| && SameBut(buf, buf2, q + RECLEN, q + RECLEN + 2) && Half(buf2, q + RECLEN) == end - q
    ensures Done(buf2, c, b, ps, k + 1, end)
  {
    var q := Down(ps[k]);
    var n := k + 1;
    forall j: nat | j < n ensures EntryDone(buf2, c, b, ps, j, n, end) {
      assert EntryDone(buf, c, b, ps, j, n, last);
      if j < k {
        EarlierKept(buf, buf2, c, b, ps, j, k, Reach(b, ps[j]), q + RECLEN, q + RECLEN + 2);
      } else {
        LongerEntry(buf, buf2, c, b, ps, k, last, end);
      }
    }
  }

  lemma LongerEntry(buf: seq<byte>, buf2: seq<byte>, c: Context, b: seq<byte>, ps: seq<nat>, k: nat, last: nat,
                    end: nat)
    requires k < |ps| && EntryIn(buf, c, b, ps, k, last) && last <= end
    requires var q := Down(ps[k]);
      q + NAME <= |buf| && SameBut(buf, buf2, q + RECLEN, q + RECLEN + 2) && Half(buf2, q + RECLEN) == end - q
    ensures EntryIn(buf2, c, b, ps, k, end)
  {
    var q := Down(ps[k]);
    NameKept(buf, buf2, q, NameOf(c, b, ps[k]), q + RECLEN, q + RECLEN + 2);
  }

  ghost predicate AreRecs(b: seq<byte>, ps: seq<nat>) { Records(b, 0) && ps == Recs(b, 0) }

  // k records lie before place p, and all are as demanded.
  ghost predicate Standing(c: Context, b: seq<byte>, ps: seq<nat>, k: nat, p: nat) {
    && k <= |ps| && Recs(b, p) == ps[k..] && Records(b, p) && (p < |b| ==> p % 2 == 0)
    && forall j: nat {:trigger RecordFits(c, b, ps[j])} :: j < k ==> RecordFits(c, b, ps[j]) && ps[j] % 2 == 0
  }

  // They are done, the last up to end, and what follows is still records.
  ghost predicate At(buf: seq<byte>, c: Context, b: seq<byte>, ps: seq<nat>, k: nat, p: nat, end: nat) {
    Standing(c, b, ps, k, p) && Done(buf, c, b, ps, k, end) && Left(buf, b, p)
  }

  // The last of the k records.
  ghost predicate LastIs(b: seq<byte>, ps: seq<nat>, k: nat, lastp: nat, lastreclen: nat) {
    0 < k <= |ps| && lastp == ps[k - 1] && HasFields(b, lastp) && lastreclen == b[lastp]
  }

  lemma StandingOn(c: Context, b: seq<byte>, ps: seq<nat>, k: nat, p: nat)
    requires Standing(c, b, ps, k, p) && AtRecord(b, p) && RecordFits(c, b, p)
    ensures k < |ps| && ps[k] == p && Standing(c, b, ps, k + 1, p + b[p]) && LastIs(b, ps, k + 1, p, b[p])
  {
    FirstOfRest(b, p);
    Uncons(ps, k, p, Recs(b, p + b[p]));
    EvenSum(p, b[p]);
    var n := k + 1;
    forall j: nat {:trigger RecordFits(c, b, ps[j])} | j < n ensures RecordFits(c, b, ps[j]) && ps[j] % 2 == 0 { }
  }

  lemma EvenSum(p: nat, n: nat)
    requires p % 2 == 0 && n % 2 == 0
    ensures (p + n) % 2 == 0
  { }

  lemma FirstOfRest(b: seq<byte>, p: nat)
    requires Records(b, p) && AtRecord(b, p)
    ensures Recs(b, p) == [p] + Recs(b, p + b[p]) && Records(b, p + b[p]) && RecordEnds(b, p)
  { }

  lemma Uncons(ps: seq<nat>, k: nat, x: nat, rest: seq<nat>)
    requires k <= |ps| && ps[k..] == [x] + rest
    ensures k < |ps| && ps[k] == x && ps[k + 1..] == rest
  {
    assert |ps[k..]| >= 1 && ps[k..][0] == ps[k];
    assert ps[k + 1..] == ps[k..][1..];
  }

  lemma LeftOn(buf: seq<byte>, buf2: seq<byte>, b: seq<byte>, p: nat, p2: nat, lo: nat, hi: nat)
    requires Left(buf, b, p) && SameBut(buf, buf2, lo, hi) && p <= p2 && hi <= p2
    ensures Left(buf2, b, p2)
  { }

  // What one more entry leaves.
  lemma Grown(buf: seq<byte>, buf2: seq<byte>, c: Context, b: seq<byte>, ps: seq<nat>, k: nat, p: nat, end: nat)
    requires AreRecs(b, ps) && At(buf, c, b, ps, k, p, end) && Reached(b, ps, k, end) && AtRecord(b, p)
    requires RecordFits(c, b, p)
    requires SameBut(buf, buf2, Down(p), Down(p) + NAME + 1 + |NameOf(c, b, p)|)
    requires IsEntry(buf2, Down(p), Dirent(FilenoOf(c, b, p), Adjusted(p, b[p]), NamlenOf(c, b, p), NameOf(c, b, p)))
    ensures At(buf2, c, b, ps, k + 1, p + b[p], Down(p + b[p])) && LastIs(b, ps, k + 1, p, b[p])
  {
    StandingOn(c, b, ps, k, p);
    NewEntry(buf2, c, b, ps, k, p);
    LeftAfter(buf, buf2, c, b, p);
    OneMore(buf, buf2, c, b, ps, k, p, end, Down(p + b[p]), Down(p) + NAME + 1 + |NameOf(c, b, p)|);
  }

  lemma LeftAfter(buf: seq<byte>, buf2: seq<byte>, c: Context, b: seq<byte>, p: nat)
    requires Left(buf, b, p) && HasFields(b, p)
    requires SameBut(buf, buf2, Down(p), Down(p) + NAME + 1 + |NameOf(c, b, p)|)
    ensures Left(buf2, b, p + b[p])
  {
    EntryIsShort(c, b, p);
    LeftOn(buf, buf2, b, p, p + b[p], Down(p), Down(p) + NAME + 1 + |NameOf(c, b, p)|);
  }

  lemma NewEntry(buf: seq<byte>, c: Context, b: seq<byte>, ps: seq<nat>, k: nat, p: nat)
    requires k < |ps| && ps[k] == p && p % 2 == 0 && RecordFits(c, b, p)
    requires IsEntry(buf, Down(p), Dirent(FilenoOf(c, b, p), Adjusted(p, b[p]), NamlenOf(c, b, p), NameOf(c, b, p)))
    ensures EntryIn(buf, c, b, ps, k, Down(p + b[p]))
  {
    AdjustedIsDistance(p, b[p]);
    DownKeepsOrder(p, p + b[p]);
  }

  // A sector begins at p0; hi is where it, or the buffer, ends.
  predicate InSector(p0: nat, hi: nat, n: nat) {
    p0 % SECTOR == 0 && p0 < hi <= n && hi == p0 + Least(SECTOR, n - p0)
  }

  lemma PartOfPlace(p0: nat, p: nat, hi: nat, n: nat)
    requires InSector(p0, hi, n) && p0 <= p < hi
    ensures PartEnd(p, n) == hi && (hi < n ==> SectorEnd(p) == hi) && SectorEnd(p) >= hi
  { }

  method ConvertRecord(buf: array<byte>, c: Context, p: nat, reclen: nat, ghost end0: nat, ghost b: seq<byte>,
                       ghost ps: seq<nat>, ghost k: nat)
    returns (ok: bool, ghost end: nat)
    requires AreRecs(b, ps) && At(buf[..], c, b, ps, k, p, end0) && Reached(b, ps, k, end0) && AtRecord(b, p)
    requires p < buf.Length && reclen == buf[p]
    modifies buf
    ensures end == Down(p + reclen) && p + reclen <= PartEnd(p, |b|)
    ensures ok ==> At(buf[..], c, b, ps, k + 1, p + reclen, end) && LastIs(b, ps, k + 1, p, reclen)
    ensures !ok ==> !AllFit(c, b, ps)
  {
    end := Down(p + reclen);
    ghost var was := buf[..];
    Ready(was, c, p, end0, b, ps, k);
    var q := Down(p);
    ok := PutEntry(buf, p, q, c, b);
    Attempted(was, buf[..], c, b, ps, k, p, reclen, end0, end, ok);
  }

  lemma Attempted(buf: seq<byte>, buf2: seq<byte>, c: Context, b: seq<byte>, ps: seq<nat>, k: nat, p: nat,
                  reclen: nat, end0: nat, end: nat, ok: bool)
    requires AreRecs(b, ps) && At(buf, c, b, ps, k, p, end0) && Reached(b, ps, k, end0) && AtRecord(b, p)
    requires HasFields(b, p) && reclen == b[p] && end == Down(p + reclen) && (ok <==> RecordFits(c, b, p))
    requires SameBut(buf, buf2, Down(p), Down(p) + NAME + 1 + |NameOf(c, b, p)|)
    requires ok ==>
      IsEntry(buf2, Down(p), Dirent(FilenoOf(c, b, p), Adjusted(p, b[p]), NamlenOf(c, b, p), NameOf(c, b, p)))
    ensures ok ==> At(buf2, c, b, ps, k + 1, p + reclen, end) && LastIs(b, ps, k + 1, p, reclen)
    ensures !ok ==> !AllFit(c, b, ps)
  {
    if ok { Grown(buf, buf2, c, b, ps, k, p, end0); } else { NotFitting(c, b, ps, k, p); }
  }

  lemma Ready(buf: seq<byte>, c: Context, p: nat, end0: nat, b: seq<byte>, ps: seq<nat>, k: nat)
    requires AreRecs(b, ps) && At(buf, c, b, ps, k, p, end0) && AtRecord(b, p)
    ensures RecordEnds(b, p) && buf[p] == b[p]
    ensures Down(p) <= p <= Down(p) + 2
  {
    FirstOfRest(b, p);
    Even(p);
  }

  lemma NotFitting(c: Context, b: seq<byte>, ps: seq<nat>, k: nat, p: nat)
    requires Standing(c, b, ps, k, p) && AtRecord(b, p) && !RecordFits(c, b, p)
    ensures !AllFit(c, b, ps)
  {
    assert Recs(b, p)[0] == p;
    assert ps[k] == ps[k..][0] == p;
  }

  // In the sector that ends at hi, the records up to p are done: the last of
  // them reaches to p, or is the last of an earlier sector and still reaches to
  // end0.
  ghost predicate InLoop(b: seq<byte>, ps: seq<nat>, k0: nat, k: nat, p0: nat, p: nat, hi: nat, lastp: nat,
                         lastreclen: nat, end0: nat, end: nat)
  {
    && p0 <= p <= hi && (k > 0 ==> LastIs(b, ps, k, lastp, lastreclen) && lastp + lastreclen <= p)
    && if p == p0 then k == k0 && end == end0
       else k > k0 && end == Down(p) && p0 <= lastp && p == lastp + lastreclen
  }

  // Then the entry before p reaches as far as it is to.
  lemma ReachedInSector(b: seq<byte>, ps: seq<nat>, k0: nat, k: nat, p0: nat, p: nat, hi: nat, lastp: nat,
                        lastreclen: nat, end0: nat, end: nat)
    requires InSector(p0, hi, |b|) && InLoop(b, ps, k0, k, p0, p, hi, lastp, lastreclen, end0, end)
    requires k <= |ps| && k0 <= |ps| && p < hi && AtRecord(b, p) && (p == p0 ==> Reached(b, ps, k0, end0))
    ensures Reached(b, ps, k, end) && PartEnd(p, |b|) == hi
  {
    PartOfPlace(p0, p, hi, |b|);
    if p != p0 { PartOfPlace(p0, lastp, hi, |b|); }
  }

  // The first loop: the records of one sector, from p0 on.
  method ConvertRecords(buf: array<byte>, c: Context, p0: nat, hi: nat, lastp0: nat, lastreclen0: nat,
                        ghost b: seq<byte>, ghost ps: seq<nat>, ghost k0: nat, ghost end0: nat)
    returns (ok: bool, p: nat, lastp: nat, lastreclen: nat, ghost k: nat, ghost end: nat)
    requires AreRecs(b, ps) && At(buf[..], c, b, ps, k0, p0, end0) && InSector(p0, hi, |b|)
    requires AtRecord(b, p0) ==> Reached(b, ps, k0, end0)
    requires k0 > 0 ==> LastIs(b, ps, k0, lastp0, lastreclen0) && lastp0 + lastreclen0 <= p0
    modifies buf
    ensures ok ==> At(buf[..], c, b, ps, k, p, end)
    ensures ok ==> InLoop(b, ps, k0, k, p0, p, hi, lastp, lastreclen, end0, end)
    ensures ok ==> p == hi || !AtRecord(b, p)
    ensures !ok ==> !AllFit(c, b, ps)
  {
    ok, p, lastp, lastreclen, k, end := true, p0, lastp0, lastreclen0, k0, end0;
    while hi - p >= MINRECORD && buf[p] != 0
      modifies buf
      invariant At(buf[..], c, b, ps, k, p, end)
      invariant InLoop(b, ps, k0, k, p0, p, hi, lastp, lastreclen, end0, end)
      decreases hi - p
    {
      ok, p, lastp, lastreclen, k, end :=
        ConvertNext(buf, c, p, lastp, lastreclen, p0, hi, b, ps, k0, k, end0, end);
      if !ok { return; }
    }
    if p < hi { PartOfPlace(p0, p, hi, |b|); }
  }

  // One round of it.
  method ConvertNext(buf: array<byte>, c: Context, p1: nat, ghost lastp1: nat, ghost lastreclen1: nat, ghost p0: nat,
                     ghost hi: nat, ghost b: seq<byte>, ghost ps: seq<nat>, ghost k0: nat, ghost k1: nat,
                     ghost end0: nat, ghost end1: nat)
    returns (ok: bool, p: nat, lastp: nat, lastreclen: nat, ghost k: nat, ghost end: nat)
    requires AreRecs(b, ps) && At(buf[..], c, b, ps, k1, p1, end1) && InSector(p0, hi, |b|) && k0 <= |ps|
    requires InLoop(b, ps, k0, k1, p0, p1, hi, lastp1, lastreclen1, end0, end1)
    requires AtRecord(b, p0) ==> Reached(b, ps, k0, end0)
    requires p1 < hi && hi - p1 >= MINRECORD && buf[p1] != 0
    modifies buf
    ensures ok ==> At(buf[..], c, b, ps, k, p, end)
    ensures ok ==> InLoop(b, ps, k0, k, p0, p, hi, lastp, lastreclen, end0, end) && p > p1
    ensures !ok ==> !AllFit(c, b, ps)
  {
    PartOfPlace(p0, p1, hi, |b|);
    assert AtRecord(b, p1);
    ReachedInSector(b, ps, k0, k1, p0, p1, hi, lastp1, lastreclen1, end0, end1);
    var reclen := buf[p1];
    ok, end := ConvertRecord(buf, c, p1, reclen, end1, b, ps, k1);
    p, lastp, lastreclen, k := p1 + reclen, p1, reclen, k1 + 1;
  }

  // Where a sector begins at p: how far the last entry reaches now, and how far
  // it is to reach.
  ghost predicate Stands(b: seq<byte>, ps: seq<nat>, k: nat, p: nat, lastp: nat, lastreclen: nat, end: nat) {
    && LastIs(b, ps, k, lastp, lastreclen) && lastp + lastreclen <= p && end <= 3 * p
    && Reach(b, lastp) == Stretched(b, p, end, More(lastp + lastreclen))
  }

  // Where the records of a sector end, the next sector begins.
  lemma SectorDone(b: seq<byte>, p0: nat, p: nat, hi: nat)
    requires Records(b, p) && InSector(p0, hi, |b|) && p0 <= p <= hi && (p == hi || !AtRecord(b, p))
    ensures Recs(b, hi) == Recs(b, p) && Records(b, hi)
  {
    if p < hi { PartOfPlace(p0, p, hi, |b|); }
  }

  lemma StretchOn(b: seq<byte>, p0: nat, hi: nat, end: nat, more: nat)
    requires InSector(p0, hi, |b|) && !AtRecord(b, p0)
    ensures Stretched(b, p0, end, more) == Stretched(b, hi, end + (hi - p0) + more, more)
  {
    PartOfPlace(p0, p0, hi, |b|);
  }

  lemma ReachOn(b: seq<byte>, p0: nat, p: nat, hi: nat, lastp: nat)
    requires InSector(p0, hi, |b|) && p0 <= lastp < p <= hi && HasFields(b, lastp) && p == lastp + b[lastp]
    requires p == hi || !AtRecord(b, p)
    ensures Reach(b, lastp) == Stretched(b, hi, hi, More(p))
  {
    PartOfPlace(p0, lastp, hi, |b|);
  }

  lemma MoreIs(p: nat)
    requires p % 2 == 0
    ensures p - Down(p) == More(p)
  {
    Even(p);
  }

  lemma LastLength(buf: seq<byte>, c: Context, b: seq<byte>, ps: seq<nat>, k: nat, p: nat, lastp: nat,
                   lastreclen: nat, end: nat)
    requires AreRecs(b, ps) && At(buf, c, b, ps, k, p, end) && LastIs(b, ps, k, lastp, lastreclen)
    ensures lastp % 2 == 0 && lastreclen % 2 == 0 && lastreclen >= MINRECORD
    ensures Down(lastp) + NAME < |buf| && Down(lastp) <= end && Half(buf, Down(lastp) + RECLEN) == end - Down(lastp)
  {
    assert EntryDone(buf, c, b, ps, k - 1, k, end);
    assert RecordFits(c, b, ps[k - 1]);
  }

  // The end of the first loop: the last entry, if it is of this sector, reaches
  // to its end; if it is of an earlier sector, it is stretched by this one.
  method EndSector(buf: array<byte>, c: Context, p: nat, hi: nat, lastp: nat, lastreclen: nat, ghost p0: nat,
                   ghost end: nat, ghost b: seq<byte>, ghost ps: seq<nat>, ghost k: nat)
    requires AreRecs(b, ps) && At(buf[..], c, b, ps, k, p, end) && LastIs(b, ps, k, lastp, lastreclen)
    requires lastp + lastreclen <= p
    requires InSector(p0, hi, |b|) && p0 <= p <= hi && (p == hi || !AtRecord(b, p)) && |b| <= CHUNK && end <= 3 * p
    modifies buf
    ensures At(buf[..], c, b, ps, k, hi, end + (hi - p) + More(lastp + lastreclen))
  {
    ghost var was := buf[..];
    LastLength(was, c, b, ps, k, p, lastp, lastreclen, end);
    StretchLast(buf, lastp, lastreclen, hi - p, end);
    SectorEnded(was, buf[..], c, b, ps, k, p, hi, lastp, p0, end, end + (hi - p) + More(lastp + lastreclen));
  }

  method StretchLast(buf: array<byte>, lastp: nat, lastreclen: nat, leftover: nat, ghost end: nat)
    requires lastp % 2 == 0 && lastreclen % 2 == 0 && Down(lastp) + NAME < buf.Length && Down(lastp) <= end
    requires Half(buf[..], Down(lastp) + RECLEN) == end - Down(lastp) && end + leftover + 2 < 0x1_0000
    modifies buf
    ensures Half(buf[..], Down(lastp) + RECLEN) == end + leftover + More(lastp + lastreclen) - Down(lastp)
    ensures SameBut(old(buf[..]), buf[..], Down(lastp) + RECLEN, Down(lastp) + RECLEN + 2)
  {
    Halves(lastp, lastreclen);
    var dirp := Down(lastp);
    PutHalf(buf, dirp + RECLEN, Half(buf[..], dirp + RECLEN) + leftover);
    if (lastp % 4 != 0 && lastreclen % 4 == 0) || (lastp % 4 == 0 && lastreclen % 4 != 0) {
      PutHalf(buf, dirp + RECLEN, Half(buf[..], dirp + RECLEN) + 2);
    }
  }

  lemma SectorEnded(buf: seq<byte>, buf2: seq<byte>, c: Context, b: seq<byte>, ps: seq<nat>, k: nat, p: nat, hi: nat,
                    lastp: nat, p0: nat, end: nat, end2: nat)
    requires AreRecs(b, ps) && At(buf, c, b, ps, k, p, end) && InSector(p0, hi, |b|) && p0 <= p <= hi
    requires (p == hi || !AtRecord(b, p))
    requires 0 < k && lastp == ps[k - 1] && Down(lastp) + NAME <= p && end <= end2
    requires SameBut(buf, buf2, Down(lastp) + RECLEN, Down(lastp) + RECLEN + 2)
    requires Half(buf2, Down(lastp) + RECLEN) == end2 - Down(lastp)
    ensures At(buf2, c, b, ps, k, hi, end2)
  {
    SectorDone(b, p0, p, hi);
    LeftOn(buf, buf2, b, p, hi, Down(lastp) + RECLEN, Down(lastp) + RECLEN + 2);
    LastStretched(buf, buf2, c, b, ps, k - 1, end, end2);
    EvenEnd(p0, hi, |b|);
  }

  // What that makes of it.
  lemma StandsOn(b: seq<byte>, ps: seq<nat>, k0: nat, k: nat, p0: nat, p: nat, hi: nat, lastp: nat,
                 lastreclen: nat, end0: nat, end: nat)
    requires InSector(p0, hi, |b|) && InLoop(b, ps, k0, k, p0, p, hi, lastp, lastreclen, end0, end) && k > 0
    requires (p == hi || !AtRecord(b, p)) && (p != p0 ==> p % 2 == 0)
    requires p == p0 ==> Stands(b, ps, k, p0, lastp, lastreclen, end)
    ensures Stands(b, ps, k, hi, lastp, lastreclen, end + (hi - p) + More(lastp + lastreclen))
  {
    if p == p0 {
      StretchOn(b, p0, hi, end, More(lastp + lastreclen));
    } else {
      MoreIs(p);
      ReachOn(b, p0, p, hi, lastp);
    }
  }

  lemma EvenEnd(p0: nat, hi: nat, n: nat)
    requires p0 % SECTOR == 0 && p0 < hi <= n && hi == p0 + Least(SECTOR, n - p0)
    ensures hi < n ==> hi % SECTOR == 0 && hi % 2 == 0 && Down(hi) == hi
  {
    var m := p0 / SECTOR + 1;
    assert hi < n ==> hi == SECTOR * m;
    Sectors(m);
  }

  lemma SectorIsAligned(p: nat)
    requires p % SECTOR == 0
    ensures Down(p) == p
  {
    Sectors(p / SECTOR);
  }

  lemma Sectors(m: nat)
    ensures (SECTOR * m) % SECTOR == 0 && (SECTOR * m) % 2 == 0 && (SECTOR * m) % 4 == 0
  {
    assert SECTOR * m == 2 * (1024 * m) && SECTOR * m == 4 * (512 * m);
  }

  // One round of the second loop: a sector.
  method ConvertSector(buf: array<byte>, c: Context, p0: nat, lastp0: nat, lastreclen0: nat, ghost b: seq<byte>,
                       ghost ps: seq<nat>, ghost k0: nat, ghost end0: nat)
    returns (ok: bool, p: nat, lastp: nat, lastreclen: nat, ghost k: nat, ghost end: nat)
    requires AreRecs(b, ps) && At(buf[..], c, b, ps, k0, p0, end0) && p0 < |b| <= CHUNK && p0 % SECTOR == 0
    requires if k0 == 0 then AtRecord(b, p0) else Stands(b, ps, k0, p0, lastp0, lastreclen0, end0)
    modifies buf
    ensures ok ==> At(buf[..], c, b, ps, k, p, end) && k > 0 && Stands(b, ps, k, p, lastp, lastreclen, end)
    ensures ok ==> p0 < p <= |b| && (p < |b| ==> p % SECTOR == 0)
    ensures !ok ==> !AllFit(c, b, ps)
  {
    var leftover := Least(buf.Length - p0, SECTOR);
    var hi := p0 + leftover;
    ok, p, lastp, lastreclen, k, end := ConvertRecords(buf, c, p0, hi, lastp0, lastreclen0, b, ps, k0, end0);
    if !ok { return; }
    LastIsKnown(b, ps, k0, k, p0, p, hi, lastp0, lastreclen0, lastp, lastreclen, end0, end);
    end := EndAndStand(buf, c, p, hi, lastp, lastreclen, p0, end, b, ps, k0, k, end0);
    EvenEnd(p0, hi, |b|);
    p := hi;
  }

  method EndAndStand(buf: array<byte>, c: Context, p: nat, hi: nat, lastp: nat, lastreclen: nat, ghost p0: nat,
                     ghost end1: nat, ghost b: seq<byte>, ghost ps: seq<nat>, ghost k0: nat, ghost k: nat,
                     ghost end0: nat)
    returns (ghost end: nat)
    requires AreRecs(b, ps) && At(buf[..], c, b, ps, k, p, end1) && InSector(p0, hi, |b|)
    requires (p == hi || !AtRecord(b, p)) && |b| <= CHUNK
    requires k > 0 && end1 <= 3 * p && InLoop(b, ps, k0, k, p0, p, hi, lastp, lastreclen, end0, end1)
    requires p == p0 ==> Stands(b, ps, k, p0, lastp, lastreclen, end1)
    modifies buf
    ensures At(buf[..], c, b, ps, k, hi, end) && Stands(b, ps, k, hi, lastp, lastreclen, end)
  {
    end := end1 + (hi - p) + More(lastp + lastreclen);
    LastLength(buf[..], c, b, ps, k, p, lastp, lastreclen, end1);
    EvenSum(lastp, lastreclen);
    StandsOn(b, ps, k0, k, p0, p, hi, lastp, lastreclen, end0, end1);
    EndSector(buf, c, p, hi, lastp, lastreclen, p0, end1, b, ps, k);
  }

  lemma LastIsKnown(b: seq<byte>, ps: seq<nat>, k0: nat, k: nat, p0: nat, p: nat, hi: nat, lastp0: nat,
                    lastreclen0: nat, lastp: nat, lastreclen: nat, end0: nat, end: nat)
    requires InSector(p0, hi, |b|) && InLoop(b, ps, k0, k, p0, p, hi, lastp, lastreclen, end0, end)
    requires p == hi || !AtRecord(b, p)
    requires if k0 == 0 then AtRecord(b, p0) else Stands(b, ps, k0, p0, lastp0, lastreclen0, end0)
    ensures k > 0 && LastIs(b, ps, k, lastp, lastreclen) && lastp + lastreclen <= p && end <= 3 * p
    ensures p == p0 ==> Stands(b, ps, k, p0, lastp, lastreclen, end)
  { }

  // The whole conversion. The buffer, of at most a chunk, holds the directory
  // from c.offset on, which is where a sector begins; its first sector has a
  // record.
  method CddirToDir(buf: array<byte>, c: Context) returns (ok: bool)
    requires Records(buf[..], 0) && buf.Length <= CHUNK && c.offset % SECTOR == 0
    requires buf.Length > 0 && (c.offset == 0 ==> buf.Length >= 2 * MINRECORD) ==> AtRecord(buf[..], 0)
    modifies buf
    ensures ok == Convertible(c, old(buf[..]))
    ensures ok ==> AllDone(buf[..], c, old(buf[..]), Recs(old(buf[..]), 0))
  {
    ghost var b := buf[..];
    ghost var ps := Recs(b, 0);
    var size := buf.Length;
    if c.offset == 0 && size < 2 * MINRECORD { return false; }
    ghost var k, end := 0, 0;
    var p, lastp, lastreclen := 0, 0, 0;
    while p < size
      modifies buf
      invariant At(buf[..], c, b, ps, k, p, end) && p <= size && (p < size ==> p % SECTOR == 0)
      invariant if k == 0 then p == 0 else Stands(b, ps, k, p, lastp, lastreclen, end)
    {
      ok, p, lastp, lastreclen, k, end := ConvertSector(buf, c, p, lastp, lastreclen, b, ps, k, end);
      if !ok { return; }
    }
    AtTheEnd(buf[..], c, b, ps, k, p, lastp, lastreclen, end);
    ok := true;
  }

  lemma AtTheEnd(buf: seq<byte>, c: Context, b: seq<byte>, ps: seq<nat>, k: nat, p: nat, lastp: nat, lastreclen: nat,
                 end: nat)
    requires AreRecs(b, ps) && At(buf, c, b, ps, k, p, end) && p == |b|
    requires if k == 0 then p == 0 else Stands(b, ps, k, p, lastp, lastreclen, end)
    ensures AllFit(c, b, ps) && AllDone(buf, c, b, ps)
  {
    assert Recs(b, p) == [] && ps[k..] == [];
    forall j: nat | j < |ps| ensures EntryAt(buf, c, b, ps, j) { assert EntryDone(buf, c, b, ps, j, k, end); }
  }

  // ------------------------------------------------------------------- results

  // Where the entry of record k is, and where the one after it.
  function Place(b: seq<byte>, ps: seq<nat>, k: nat): nat
    requires k <= |ps|
  {
    if k < |ps| then Down(ps[k]) else |b|
  }

  // The entry of record k reaches to the next one.
  predicate TilesAt(b: seq<byte>, ps: seq<nat>, k: nat)
    requires k < |ps|
  {
    HasFields(b, ps[k]) && Reach(b, ps[k]) == Place(b, ps, k + 1)
  }

  ghost predicate AllTile(b: seq<byte>, ps: seq<nat>) {
    forall k: nat {:trigger TilesAt(b, ps, k)} :: k < |ps| ==> TilesAt(b, ps, k)
  }

  lemma {:induction false} RecsTail(b: seq<byte>, p: nat, k: nat)
    requires Records(b, p) && k < |Recs(b, p)|
    ensures HasFields(b, Recs(b, p)[k])
    ensures var q := Recs(b, p)[k];
      Recs(b, q + b[q]) == Recs(b, p)[k + 1..] && Records(b, q + b[q]) && RecordEnds(b, q)
    decreases |b| - p
  {
    if !AtRecord(b, p) {
      RecsTail(b, SectorEnd(p), k);
    } else if k > 0 {
      RecsTail(b, p + b[p], k - 1);
      var q := Recs(b, p)[k];
      assert Recs(b, p)[k + 1..] == Recs(b, p + b[p])[k..];
    }
  }

  // How many sectors from s on have no record.
  function Gaps(b: seq<byte>, s: nat): nat
    decreases |b| - s
  {
    if s >= |b| || AtRecord(b, s) then 0 else 1 + Gaps(b, SectorEnd(s))
  }

  // Where the first record from s on begins.
  function FirstFrom(b: seq<byte>, s: nat): nat { if Recs(b, s) == [] then |b| else Recs(b, s)[0] }

  lemma {:induction false} StretchIs(b: seq<byte>, s: nat, end: nat, more: nat)
    requires Records(b, s) && (s >= |b| || s % SECTOR == 0)
    ensures Stretched(b, s, end, more) == end + (FirstFrom(b, s) - Least(s, |b|)) + Gaps(b, s) * more
    ensures FirstFrom(b, s) >= Least(s, |b|) && (FirstFrom(b, s) == |b| || FirstFrom(b, s) % SECTOR == 0)
    ensures Gaps(b, s) == 0 <==> FirstFrom(b, s) == Least(s, |b|)
    decreases |b| - s
  {
    if s < |b| && !AtRecord(b, s) {
      StretchIs(b, SectorEnd(s), end + (PartEnd(s, |b|) - s) + more, more);
      Doubled(Gaps(b, SectorEnd(s)), more);
    }
  }

  lemma Doubled(n: nat, more: nat)
    ensures (1 + n) * more == more + n * more
  { }

  // An entry reaches to the next one exactly if the next one begins in the same
  // sector or the next, or the bytes of the record end on a multiple of four:
  // otherwise every sector in between adds two bytes too many.
  lemma TilesExactly(b: seq<byte>, k: nat)
    requires Records(b, 0) && k < |Recs(b, 0)|
    ensures var ps := Recs(b, 0);
      && RecordEnds(b, ps[k])
      && (TilesAt(b, ps, k) <==>
            Place(b, ps, k + 1) <= PartEnd(ps[k], |b|) || (ps[k] + b[ps[k]]) % 4 == 0)
  {
    var ps := Recs(b, 0);
    RecsTail(b, 0, k);
    var p := ps[k];
    var q := p + b[p];
    NextPlace(b, ps, k, p);
    if q < PartEnd(p, |b|) && AtRecord(b, q) {
      assert Recs(b, q)[0] == q;
    } else {
      RestOfSector(b, p, q);
      ReachOverGaps(b, p, q);
    }
  }

  lemma ReachOverGaps(b: seq<byte>, p: nat, q: nat)
    requires RecordEnds(b, p) && q == p + b[p] && !(q < PartEnd(p, |b|) && AtRecord(b, q)) && Records(b, SectorEnd(p))
    ensures var first := FirstFrom(b, SectorEnd(p));
      && (Reach(b, p) == first <==> first <= PartEnd(p, |b|) || q % 4 == 0)
      && (Recs(b, SectorEnd(p)) != [] ==> Down(first) == first)
  {
    var first, gaps := FirstFrom(b, SectorEnd(p)), Gaps(b, SectorEnd(p));
    StretchIs(b, SectorEnd(p), PartEnd(p, |b|), More(q));
    AtSectorOrEnd(first, |b|);
    if Recs(b, SectorEnd(p)) != [] { RecsFrom(b, SectorEnd(p)); assert RecordEnds(b, first); }
    NoProduct(gaps, More(q));
  }

  lemma NoProduct(n: nat, more: nat)
    ensures n * more == 0 <==> n == 0 || more == 0
  {
    if n > 0 && more > 0 { ProductNotNegative(n - 1, more); assert n * more == (n - 1) * more + more; }
  }

  lemma NextPlace(b: seq<byte>, ps: seq<nat>, k: nat, p: nat)
    requires k < |ps| && p == ps[k] && p < |b| && Recs(b, p + b[p]) == ps[k + 1..]
    ensures Place(b, ps, k + 1) == if Recs(b, p + b[p]) == [] then |b| else Down(FirstFrom(b, p + b[p]))
  {
    if k + 1 < |ps| { assert ps[k + 1..][0] == ps[k + 1]; }
  }

  // After the last record of a sector the next sector comes.
  lemma RestOfSector(b: seq<byte>, p: nat, q: nat)
    requires RecordEnds(b, p) && q == p + b[p] && !(q < PartEnd(p, |b|) && AtRecord(b, q)) && Records(b, q)
    ensures Recs(b, q) == Recs(b, SectorEnd(p)) && Records(b, SectorEnd(p))
  {
    if q < PartEnd(p, |b|) { assert SectorEnd(q) == SectorEnd(p); }
  }

  lemma AtSectorOrEnd(s: nat, n: nat)
    requires s == n || s % SECTOR == 0
    ensures s < n ==> Down(s) == s
  {
    if s % SECTOR == 0 { SectorIsAligned(s); }
  }

  // In a directory as ISO 9660 has it no sector is without a record.
  lemma NoGap(b: seq<byte>, p: nat)
    requires WellFormed(b, p) && p < |b| && b[p] != 0
    ensures RecordEnds(b, p)
    ensures var q := p + b[p];
      (q < PartEnd(p, |b|) && AtRecord(b, q)) || SectorEnd(p) >= |b| || AtRecord(b, SectorEnd(p))
  {
    var q := p + b[p];
    assert RecordAt(b, p) && WellFormed(b, q);
    if q < |b| && b[q] == 0 {
      SameSector(p, q);
      if SectorEnd(p) < |b| { StartsRecord(b, SectorEnd(p)); }
    } else if q < |b| {
      StartsRecord(b, q);
    }
  }

  lemma StartsRecord(b: seq<byte>, q: nat)
    requires WellFormed(b, q) && q < |b| && (b[q] != 0 || q % SECTOR == 0)
    ensures AtRecord(b, q)
  { }

  lemma SameSector(p: nat, q: nat)
    requires p <= q <= SectorEnd(p) && q % SECTOR != 0
    ensures SectorEnd(q) == SectorEnd(p)
  { }

  lemma WellFormedTiles(b: seq<byte>, k: nat)
    requires WellFormed(b, 0) && k < |Starts(b, 0)|
    ensures Records(b, 0) && Recs(b, 0) == Starts(b, 0) && TilesAt(b, Starts(b, 0), k)
  {
    RecsAreStarts(b, 0);
    StartsFrom(b, 0, k);
    StartsAreRecords(b, 0);
    var ps := Starts(b, 0);
    var p := ps[k];
    assert RecordAt(b, p);
    NoGap(b, p);
    TilesExactly(b, k);
    RecsTail(b, 0, k);
    NextPlace(b, ps, k, p);
    NextIsNear(b, p, p + b[p]);
  }

  lemma NextIsNear(b: seq<byte>, p: nat, q: nat)
    requires RecordEnds(b, p) && q == p + b[p] && Records(b, q)
    requires (q < PartEnd(p, |b|) && AtRecord(b, q)) || SectorEnd(p) >= |b| || AtRecord(b, SectorEnd(p))
    ensures (if Recs(b, q) == [] then |b| else Down(FirstFrom(b, q))) <= PartEnd(p, |b|)
  {
    if q < PartEnd(p, |b|) && AtRecord(b, q) {
      assert Recs(b, q)[0] == q;
    } else {
      RestOfSector(b, p, q);
      StretchIs(b, SectorEnd(p), PartEnd(p, |b|), More(q));
      AtSectorOrEnd(FirstFrom(b, SectorEnd(p)), |b|);
    }
  }

  // What precedes the first 0.
  function UpToZero(s: seq<byte>): seq<byte> {
    if s == [] || s[0] == 0 then [] else [s[0]] + UpToZero(s[1..])
  }

  lemma {:induction false} EndsAtZero(s: seq<byte>, name: seq<byte>)
    requires |name| <= |s| && s[..|name|] == name && (|name| < |s| ==> s[|name|] == 0)
    ensures UpToZero(s) == UpToZero(name)
  {
    if name != [] {
      assert name[0] == s[..|name|][0] == s[0];
      assert s[1..][..|name| - 1] == s[..|name|][1..];
      EndsAtZero(s[1..], name[1..]);
    }
  }

  // A reader that goes from entry to entry by their lengths, and takes a name
  // to end at a 0.
  function Walk(buf: seq<byte>, q: nat): seq<(nat, Dirent)>
    decreases |buf| - q
  {
    if q + NAME > |buf| then []
    else
      var reclen, namlen := Half(buf, q + RECLEN), Half(buf, q + NAMLEN);
      if reclen == 0 || q + NAME + namlen > |buf| then []
      else
        var e := Dirent(Word(buf, q + FILENO), reclen, namlen, UpToZero(buf[q + NAME..q + NAME + namlen]));
        [(q, e)] + Walk(buf, q + reclen)
  }

  lemma WalkStep(buf: seq<byte>, q: nat, e: Dirent)
    requires IsEntry(buf, q, e) && e.reclen > 0 && q + NAME + e.namlen <= |buf|
    ensures Walk(buf, q) == [(q, AsRead(e))] + Walk(buf, q + e.reclen)
  {
    NameAsRead(buf, q, e);
  }

  lemma NameAsRead(buf: seq<byte>, q: nat, e: Dirent)
    requires IsEntry(buf, q, e) && q + NAME + e.namlen <= |buf|
    ensures UpToZero(buf[q + NAME..q + NAME + e.namlen]) == UpToZero(e.name)
  {
    var s := buf[q + NAME..q + NAME + e.namlen];
    assert s[..|e.name|] == buf[q + NAME..q + NAME + |e.name|];
    EndsAtZero(s, e.name);
  }

  function AsRead(e: Dirent): Dirent { e.(name := UpToZero(e.name)) }

  // The entry of record k, as the reader sees it when it reaches to next.
  function Shown(c: Context, b: seq<byte>, ps: seq<nat>, k: nat, next: nat): (nat, Dirent)
    requires k < |ps| && HasFields(b, ps[k])
  {
    (Place(b, ps, k), AsRead(EntryOf(c, b, ps[k], next)))
  }

  // What the reader should find: an entry for every record, in order.
  function Expected(c: Context, b: seq<byte>, ps: seq<nat>, k: nat): seq<(nat, Dirent)>
    requires k <= |ps| && AllFit(c, b, ps)
    decreases |ps| - k
  {
    if k == |ps| then []
    else
      assert RecordFits(c, b, ps[k]);
      [Shown(c, b, ps, k, Place(b, ps, k + 1))] + Expected(c, b, ps, k + 1)
  }

  predicate SeparateAt(b: seq<byte>, ps: seq<nat>, k: nat)
    requires k < |ps|
  {
    Place(b, ps, k) < Place(b, ps, k + 1)
  }

  lemma PlacesApart(c: Context, b: seq<byte>, k: nat)
    requires Records(b, 0) && k < |Recs(b, 0)|
    ensures SeparateAt(b, Recs(b, 0), k)
  {
    RecsFrom(b, 0);
    var p := Recs(b, 0)[k];
    assert RecordEnds(b, p);
    if k + 1 < |Recs(b, 0)| { EntryBefore(c, b, k, k + 1); } else { EntryIsShort(c, b, p); }
  }

  lemma {:induction false} StretchedGrows(b: seq<byte>, s: nat, end: nat, more: nat)
    ensures Stretched(b, s, end, more) >= end
    decreases |b| - s
  {
    if s < |b| && !AtRecord(b, s) { StretchedGrows(b, SectorEnd(s), end + (PartEnd(s, |b|) - s) + more, more); }
  }

  lemma ReachGrows(c: Context, b: seq<byte>, p: nat)
    requires RecordEnds(b, p)
    ensures Reach(b, p) > Down(p)
  {
    var q := p + b[p];
    EntryIsShort(c, b, p);
    StretchedGrows(b, SectorEnd(p), PartEnd(p, |b|), More(q));
  }

  lemma NameInBuffer(c: Context, b: seq<byte>, p: nat)
    requires HasFields(b, p)
    ensures Down(p) + NAME + NamlenOf(c, b, p) <= |b|
  { }

  // The reader at the entry of record k.
  lemma Found(buf: seq<byte>, c: Context, b: seq<byte>, ps: seq<nat>, k: nat)
    requires k < |ps| && RecordEnds(b, ps[k]) && AllDone(buf, c, b, ps) && |buf| == |b|
    ensures Walk(buf, Place(b, ps, k)) == [Shown(c, b, ps, k, Reach(b, ps[k]))] + Walk(buf, Reach(b, ps[k]))
  {
    var p := ps[k];
    assert EntryAt(buf, c, b, ps, k);
    NameInBuffer(c, b, p);
    ReachGrows(c, b, p);
    FoundAt(buf, c, b, p, Reach(b, p));
  }

  lemma FoundAt(buf: seq<byte>, c: Context, b: seq<byte>, p: nat, next: nat)
    requires HasFields(b, p) && next > Down(p) && Down(p) + NAME + NamlenOf(c, b, p) <= |buf|
    requires IsEntry(buf, Down(p), EntryOf(c, b, p, next))
    ensures Walk(buf, Down(p)) == [(Down(p), AsRead(EntryOf(c, b, p, next)))] + Walk(buf, next)
  {
    WalkStep(buf, Down(p), EntryOf(c, b, p, next));
  }

  // The reader goes on from the entry of record k to where it reaches.
  ghost predicate StepAt(buf: seq<byte>, c: Context, b: seq<byte>, ps: seq<nat>, k: nat)
    requires k < |ps|
  {
    && HasFields(b, ps[k]) && Reach(b, ps[k]) > Down(ps[k]) && Place(b, ps, k + 1) > Down(ps[k])
    && Walk(buf, Place(b, ps, k)) == [Shown(c, b, ps, k, Reach(b, ps[k]))] + Walk(buf, Reach(b, ps[k]))
  }

  ghost predicate AllStep(buf: seq<byte>, c: Context, b: seq<byte>, ps: seq<nat>) {
    forall k: nat {:trigger StepAt(buf, c, b, ps, k)} :: k < |ps| ==> StepAt(buf, c, b, ps, k)
  }

  lemma Steps(buf: seq<byte>, c: Context, b: seq<byte>, k: nat)
    requires Records(b, 0) && k < |Recs(b, 0)| && AllDone(buf, c, b, Recs(b, 0)) && |buf| == |b|
    ensures StepAt(buf, c, b, Recs(b, 0), k)
  {
    var ps := Recs(b, 0);
    RecsFrom(b, 0);
    assert RecordEnds(b, ps[k]);
    Found(buf, c, b, ps, k);
    PlacesApart(c, b, k);
    ReachGrows(c, b, ps[k]);
    assert SeparateAt(b, ps, k);
  }

  lemma ExpectedStep(c: Context, b: seq<byte>, ps: seq<nat>, k: nat)
    requires k < |ps| && AllFit(c, b, ps)
    ensures HasFields(b, ps[k])
    ensures Expected(c, b, ps, k) == [Shown(c, b, ps, k, Place(b, ps, k + 1))] + Expected(c, b, ps, k + 1)
  {
    assert RecordFits(c, b, ps[k]);
  }

  // From record k on, the reader finds exactly one entry for every record, in
  // order, if all of them reach to the next.
  lemma {:induction false} WalkFindsEveryRecord(buf: seq<byte>, c: Context, b: seq<byte>, ps: seq<nat>, k: nat)
    requires AllFit(c, b, ps) && k <= |ps| && |buf| == |b| && AllStep(buf, c, b, ps) && AllTile(b, ps)
    ensures Walk(buf, Place(b, ps, k)) == Expected(c, b, ps, k)
    decreases |ps| - k
  {
    if k < |ps| {
      WalkFindsEveryRecord(buf, c, b, ps, k + 1);
      StepIsExpected(buf, c, b, ps, k);
    }
  }

  lemma StepIsExpected(buf: seq<byte>, c: Context, b: seq<byte>, ps: seq<nat>, k: nat)
    requires AllFit(c, b, ps) && k < |ps| && AllStep(buf, c, b, ps) && AllTile(b, ps)
    requires Walk(buf, Place(b, ps, k + 1)) == Expected(c, b, ps, k + 1)
    ensures Walk(buf, Place(b, ps, k)) == Expected(c, b, ps, k)
  {
    ExpectedStep(c, b, ps, k);
    assert StepAt(buf, c, b, ps, k) && TilesAt(b, ps, k);
  }

  // ... and only then.
  lemma {:induction false} WalkThenTiles(buf: seq<byte>, c: Context, b: seq<byte>, ps: seq<nat>, k: nat, j: nat)
    requires AllFit(c, b, ps) && k <= j < |ps| && AllStep(buf, c, b, ps)
    requires Walk(buf, Place(b, ps, k)) == Expected(c, b, ps, k)
    ensures TilesAt(b, ps, j)
    decreases j - k
  {
    ExpectedStep(c, b, ps, k);
    assert StepAt(buf, c, b, ps, k);
    SameHead(c, b, ps, k, Reach(b, ps[k]), Walk(buf, Reach(b, ps[k])), Expected(c, b, ps, k + 1));
    if k < j { WalkThenTiles(buf, c, b, ps, k + 1, j); }
  }

  lemma SameHead(c: Context, b: seq<byte>, ps: seq<nat>, k: nat, reach: nat, rest: seq<(nat, Dirent)>,
                 rest2: seq<(nat, Dirent)>)
    requires k < |ps| && HasFields(b, ps[k]) && reach > Down(ps[k]) && Place(b, ps, k + 1) > Down(ps[k])
    requires [Shown(c, b, ps, k, reach)] + rest == [Shown(c, b, ps, k, Place(b, ps, k + 1))] + rest2
    ensures reach == Place(b, ps, k + 1) && rest == rest2
  {
    var x, y := [Shown(c, b, ps, k, reach)] + rest, [Shown(c, b, ps, k, Place(b, ps, k + 1))] + rest2;
    assert x[0] == y[0] && x[1..] == rest && y[1..] == rest2;
  }

  // A reader of what CddirToDir leaves finds exactly one entry for every record,
  // in order, and ends at the end of the buffer, exactly if every entry reaches
  // to the next: see TilesExactly.
  lemma ConversionTiles(buf: seq<byte>, c: Context, b: seq<byte>)
    requires Records(b, 0) && (b != [] ==> AtRecord(b, 0)) && AllFit(c, b, Recs(b, 0)) && |buf| == |b|
    requires AllDone(buf, c, b, Recs(b, 0))
    ensures Walk(buf, 0) == Expected(c, b, Recs(b, 0), 0) <==> AllTile(b, Recs(b, 0))
  {
    var ps := Recs(b, 0);
    assert Place(b, ps, 0) == 0;
    forall k: nat | k < |ps| ensures StepAt(buf, c, b, ps, k) { Steps(buf, c, b, k); }
    if AllTile(b, ps) { WalkFindsEveryRecord(buf, c, b, ps, 0); }
    if Walk(buf, 0) == Expected(c, b, ps, 0) {
      forall j: nat | j < |ps| ensures TilesAt(b, ps, j) { WalkThenTiles(buf, c, b, ps, 0, j); }
    }
  }

  // In a directory as ISO 9660 has it it does.
  lemma DirectoryTiles(b: seq<byte>)
    requires WellFormed(b, 0)
    ensures Records(b, 0) && (b != [] ==> AtRecord(b, 0)) && Recs(b, 0) == Starts(b, 0) && AllTile(b, Recs(b, 0))
  {
    RecsAreStarts(b, 0);
    if b != [] { SectorBegins(b, 0); }
    forall k: nat | k < |Starts(b, 0)| ensures TilesAt(b, Starts(b, 0), k) {
      WellFormedTiles(b, k);
    }
  }

  lemma StartsSeparate(c: Context, b: seq<byte>, k: nat)
    requires WellFormed(b, 0) && k < |Starts(b, 0)|
    ensures SeparateAt(b, Starts(b, 0), k)
  {
    RecsAreStarts(b, 0);
    PlacesApart(c, b, k);
  }

  // Records of one name each in the first and the third of three sectors.
  lemma AnEmptySectorOvershoots() returns (b: seq<byte>)
    ensures Records(b, 0) && AtRecord(b, 0) && Recs(b, 0) == [0, 4096] && HasFields(b, 0)
    ensures Place(b, Recs(b, 0), 1) == 4096 && Reach(b, 0) == 4098
  {
    b := seq<byte>(6144, k => if k == 0 || k == 4096 then 34 else if k == 32 || k == 4128 then 1
                              else if k == 4129 then 65 else 0);
    assert Records(b, 6144) && Recs(b, 6144) == [];
    assert Records(b, 4130) && Recs(b, 4130) == [];
    assert Records(b, 4096) && Recs(b, 4096) == [4096];
    assert Records(b, 2048) && Recs(b, 2048) == [4096];
    assert Records(b, 34) && Recs(b, 34) == [4096];
    assert Stretched(b, 4096, 4098, 2) == 4098;
  }

  lemma FirstPlace(b: seq<byte>)
    requires WellFormed(b, 0)
    ensures Place(b, Starts(b, 0), 0) == 0
  {
    if b != [] { SectorBegins(b, 0); }
  }

  lemma PlacesAreAligned(b: seq<byte>, ps: seq<nat>, k: nat)
    requires k < |ps|
    ensures Place(b, ps, k) % 4 == 0
  {
    var p := ps[k];
    assert p == 4 * (p / 4) + p % 4;
    Mod4(p / 4, 0);
  }

  // What the conversion demands of a record, in its bytes: an even length; a name
  // that begins with 0 if it is the directory's first; and, if another has a name
  // of one byte 1, that the parent can be found out.
  lemma DemandsAre(c: Context, b: seq<byte>, p: nat)
    requires HasFields(b, p)
    ensures RecordFits(c, b, p) <==>
      && b[p] % 2 == 0
      && (c.offset + p == 0 ==> b[p + 33] == 0)
      && (c.offset + p > 0 && b[p + 32] == 1 && b[p + 33] == 1 ==> c.parent.Some?)
  {
    var id := IdOf(b, p);
    assert id[0] == b[p + 33];
    assert id == [1] <==> |id| == 1 && id[0] == 1;
  }

  // The first two entries of a converted directory, byte by byte: "." with the
  // number of the directory, and ".." with that of its parent.
  lemma DotEntriesAre(buf: seq<byte>, c: Context, b: seq<byte>)
    requires Records(b, 0) && AtRecord(b, 0) && c.offset == 0 && |Recs(b, 0)| >= 2
    requires HasFields(b, Recs(b, 0)[1]) && IdOf(b, Recs(b, 0)[1]) == [1]
    requires AllFit(c, b, Recs(b, 0)) && AllDone(buf, c, b, Recs(b, 0))
    ensures |buf| > 9 && Word(buf, 0) == c.num % 0x1_0000_0000 && buf[8] == 46 && buf[9] == 0
    ensures var q := Down(Recs(b, 0)[1]);
      && c.parent.Some? && q + 10 < |buf|
      && Word(buf, q) == c.parent.value % 0x1_0000_0000 && Half(buf, q + 6) == 2
      && buf[q + 8] == 46 && buf[q + 9] == 46 && buf[q + 10] == 0
  {
    var ps := Recs(b, 0);
    RecsApart(b, 0, 0, 1);
    assert ps[0] == 0 && RecordFits(c, b, ps[0]) && RecordFits(c, b, ps[1]);
    assert EntryAt(buf, c, b, ps, 0) && EntryAt(buf, c, b, ps, 1);
    DotEntryIs(buf, c, b, Reach(b, 0));
    DotDotEntryIs(buf, c, b, ps[1], Reach(b, ps[1]));
  }

  lemma DotEntryIs(buf: seq<byte>, c: Context, b: seq<byte>, next: nat)
    requires HasFields(b, 0) && c.offset == 0 && IsEntry(buf, 0, EntryOf(c, b, 0, next))
    ensures |buf| > 9 && Word(buf, 0) == c.num % 0x1_0000_0000 && buf[8] == 46 && buf[9] == 0
  {
    NameEntry(buf, 0, EntryOf(c, b, 0, next), 0);
  }

  lemma DotDotEntryIs(buf: seq<byte>, c: Context, b: seq<byte>, p: nat, next: nat)
    requires HasFields(b, p) && c.offset + p > 0 && IdOf(b, p) == [1] && c.parent.Some?
    requires IsEntry(buf, Down(p), EntryOf(c, b, p, next))
    ensures var q := Down(p);
      && q + 10 < |buf| && Word(buf, q) == c.parent.value % 0x1_0000_0000 && Half(buf, q + 6) == 2
      && buf[q + 8] == 46 && buf[q + 9] == 46 && buf[q + 10] == 0
  {
    NameEntry(buf, Down(p), EntryOf(c, b, p, next), 0);
    NameEntry(buf, Down(p), EntryOf(c, b, p, next), 1);
  }

  lemma NameEntry(buf: seq<byte>, q: nat, e: Dirent, k: nat)
    requires IsEntry(buf, q, e) && k < |e.name|
    ensures buf[q + NAME + k] == e.name[k]
  {
    assert buf[q + NAME..q + NAME + |e.name|][k] == buf[q + NAME + k];
  }

  // The numbers of the entries are those that the lookup finds in the records,
  // but for the directory itself and its parent.
  lemma NumbersAgreeWithLookup(c: Context, d: seq<byte>, p: nat)
    requires HasFields(d, c.offset + p) && HasFields(d[c.offset..], p)
    requires !IsFirst(c, p) && IdOf(d, c.offset + p) != [1]
    ensures FilenoOf(c, d[c.offset..], p) ==
      CdnoOf(c.fs, c.base, c.iso, d[c.offset + p..c.offset + p + d[c.offset + p]], c.offset + p)
    ensures NameOf(c, d[c.offset..], p) == IdOf(d, c.offset + p)
  {
    var b := d[c.offset..];
    assert b[p..p + b[p]] == d[c.offset + p..c.offset + p + d[c.offset + p]];
    assert IdOf(b, p) == IdOf(d, c.offset + p);
  }
}
