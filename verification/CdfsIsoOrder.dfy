/**
 * The order of directory records in ISO 9660 and the lookup, which takes it to
 * be the order of strncmp: a directory in which a name is found the first time
 * and not the second.
 */
module CdfsIsoOrder {
  import opened Common
  import opened CdfsGeometry
  import opened CdfsRead
  import opened CdfsDir
  import opened CdfsLookup

  // ---------------------------------------------- section 9.3 of ISO 9660

  const SEMICOLON: byte := 59
  const FILLER: byte := 0x20

  // What precedes and what follows the first c.
  function Head(s: seq<byte>, c: byte): seq<byte> {
    if s == [] || s[0] == c then [] else [s[0]] + Head(s[1..], c)
  }

  function Tail(s: seq<byte>, c: byte): seq<byte> {
    if s == [] then [] else if s[0] == c then s[1..] else Tail(s[1..], c)
  }

  // The parts of a file identifier: section 7.5.1.
  function FileName(id: seq<byte>): seq<byte> { Head(Head(id, SEMICOLON), DOT) }
  function Extension(id: seq<byte>): seq<byte> { Tail(Head(id, SEMICOLON), DOT) }
  function Version(id: seq<byte>): seq<byte> { Tail(id, SEMICOLON) }

  // The shorter of two names counts as filled with spaces.
  function Filled(s: seq<byte>, k: nat): byte { if k < |s| then s[k] else FILLER }

  predicate SameUpTo(a: seq<byte>, b: seq<byte>, n: nat) {
    forall k: nat :: k < n ==> Filled(a, k) == Filled(b, k)
  }

  predicate Same(a: seq<byte>, b: seq<byte>) { SameUpTo(a, b, Max(|a|, |b|)) }

  predicate Precedes(a: seq<byte>, b: seq<byte>) {
    exists k: nat :: k < Max(|a|, |b|) && SameUpTo(a, b, k) && Filled(a, k) < Filled(b, k)
  }

  // A version number, in decimal digits.
  function Number(v: seq<byte>): int {
    if v == [] then 0 else 10 * Number(v[..|v| - 1]) + (v[|v| - 1] as int - 48)
  }

  // Names ascend, then extensions; versions descend.
  predicate IsoBefore(a: seq<byte>, b: seq<byte>) {
    || Precedes(FileName(a), FileName(b))
    || (Same(FileName(a), FileName(b)) &&
        (Precedes(Extension(a), Extension(b)) ||
         (Same(Extension(a), Extension(b)) && Number(Version(a)) > Number(Version(b)))))
  }

  // Records of the same name are associated files and file sections but for
  // the last.
  predicate IsoInOrder(e: Entry, f: Entry) { IsoBefore(e.id, f.id) || (e.id == f.id && e.skipped) }

  predicate IsoOrdered(es: seq<Entry>) {
    && Shaped(es)
    && forall j: nat, k: nat {:trigger IsoInOrder(es[j], es[k])} :: 2 <= j < k < |es| ==> IsoInOrder(es[j], es[k])
  }

  // ---------------------------------------------------------- two such names

  const A1: seq<byte> := [65, 46, 59, 49]         // "A.;1"
  const A11: seq<byte> := [65, 46, 49, 59, 49]    // "A.1;1"

  const TWO := [Entry(false, [0]), Entry(false, [1]), Entry(false, A1), Entry(false, A11)]

  lemma TheirParts()
    ensures FileName(A1) == FileName(A11) == [65]
    ensures Extension(A1) == [] && Extension(A11) == [49]
  {
    assert A1[1..] == [46, 59, 49] && A1[1..][1..] == [59, 49];
    assert Head(A1[1..], SEMICOLON) == [46];
    assert Head(A1, SEMICOLON) == [65, 46];
    assert A11[1..] == [46, 49, 59, 49] && A11[1..][1..] == [49, 59, 49] && A11[1..][1..][1..] == [59, 49];
    assert Head(A11[1..][1..], SEMICOLON) == [49];
    assert Head(A11[1..], SEMICOLON) == [46, 49];
    assert Head(A11, SEMICOLON) == [65, 46, 49];
    assert [65, 46][1..] == [46] && [46][1..] == [];
    assert [65, 46, 49][1..] == [46, 49] && [46, 49][1..] == [49];
  }

  // A space comes before the digit, and the digit before the semicolon.
  lemma DigitBeforeSemicolon()
    ensures IsoBefore(A1, A11) && Less(A11, A1) && !Less(A1, A11)
    ensures CString(A1) == A1 && CString(A11) == A11
  {
    TheirParts();
    assert Same([65], [65]) && SameUpTo([], [49], 0) && Filled([], 0) < Filled([49], 0);
    assert Precedes([], [49]);
    assert A11[1..][1..] == [49, 59, 49] && A1[1..][1..] == [59, 49];
    assert Less([49, 59, 49], [59, 49]);
    assert Less(A11[1..], A1[1..]);
    LessOneWay(A11, A1);
  }

  // In a directory in the order of section 9.3, the name "A.;1" is not found
  // when the cursor is on "A.1;1", although it is there.
  lemma IsoOrderIsNotEnough()
    ensures IsoOrdered(TWO) && !Ordered(TWO)
    ensures SearchOf(TWO, A1, 0) == Scan(TWO, A1, 0) == 2
    ensures SearchOf(TWO, A1, 3) == |TWO|
  {
    DigitBeforeSemicolon();
    forall k: nat | 2 <= k < |TWO| ensures NameFits(TWO[k]) { }
    assert IsoInOrder(TWO[2], TWO[3]);
    assert !InOrder(TWO[2], TWO[3]);
    FoundFromTheStart();
    LostFromTheEnd();
  }

  lemma Verdicts()
    ensures VerdictOn(A1, TWO[0]) == VerdictOn(A1, TWO[1]) == VerdictOn(A1, TWO[3]) == After
    ensures VerdictOn(A1, TWO[2]) == Hit
  {
    DigitBeforeSemicolon();
    assert CString([0]) == [] && CString([1]) == [1];
    forall k: nat | k < |TWO| ensures Judged(A1, TWO[k], VerdictOn(A1, TWO[k])) { VerdictMeans(A1, TWO[k]); }
    StrncmpDecides(A1, A1, 4);
  }

  lemma FoundFromTheStart()
    ensures SearchOf(TWO, A1, 0) == Scan(TWO, A1, 0) == 2
  {
    Verdicts();
    assert forall k: nat :: k < |TWO| ==> Judged(A1, TWO[k], VerdictOn(A1, TWO[k])) by {
      forall k: nat | k < |TWO| ensures Judged(A1, TWO[k], VerdictOn(A1, TWO[k])) { VerdictMeans(A1, TWO[k]); }
    }
    assert Scan(TWO, A1, 2) == 2;
    assert Scan(TWO, A1, 1) == 2;
    assert SearchFrom(TWO, A1, Place(2, 0, 2), 0, true) == 2;
    assert SearchFrom(TWO, A1, Place(1, 0, 3), 0, true) == 2;
  }

  lemma LostFromTheEnd()
    ensures SearchOf(TWO, A1, 3) == |TWO|
  {
    Verdicts();
    assert SearchFrom(TWO, A1, Place(0, 0, 0), 3, true) == |TWO|;
  }

  // ----------------------------------------------------- a directory of them

  const LOC := 20
  const BASE := 40960

  // The bytes of one sector: the records begin at 0, 34, 68 and 106.
  function ByteAt(k: nat): byte {
    if k == 0 || k == 34 then 34
    else if k == 68 || k == 106 then 38
    else if k == 9 || k == 43 then LOC
    else if k == 25 || k == 59 then 2
    else if k == 32 || k == 66 || k == 67 then 1
    else if k == 100 then 4
    else if 101 <= k < 105 then A1[k - 101]
    else if k == 138 then 5
    else if 139 <= k < 144 then A11[k - 139]
    else 0
  }

  predicate IsImage(d: seq<byte>) { |d| == SECTOR && forall k: nat :: k < SECTOR ==> d[k] == ByteAt(k) }

  const PLACES: seq<nat> := [0, 34, 68, 106]

  lemma ImageRecords(d: seq<byte>)
    requires IsImage(d)
    ensures WellFormed(d, 0) && Starts(d, 0) == PLACES && AllRecords(d, PLACES)
  {
    assert SectorEnd(144) == SECTOR && Zeros(d, 144, SECTOR);
    assert WellFormed(d, SECTOR) && Starts(d, SECTOR) == [];
    assert WellFormed(d, 144) && Starts(d, 144) == [];
    assert WellFormed(d, 106) && Starts(d, 106) == [106];
    assert WellFormed(d, 68) && Starts(d, 68) == [68, 106];
    assert WellFormed(d, 34) && Starts(d, 34) == [34, 68, 106];
  }

  lemma ImageEntries(d: seq<byte>)
    requires IsImage(d) && AllRecords(d, PLACES)
    ensures Entries(d, PLACES, true) == TWO
  {
    var es := Entries(d, PLACES, true);
    ImageEntry(d, 0, [0]);
    ImageEntry(d, 34, [1]);
    ImageEntry(d, 68, A1);
    ImageEntry(d, 106, A11);
    assert es[0] == TWO[0] && es[1] == TWO[1] && es[2] == TWO[2] && es[3] == TWO[3];
  }

  lemma ImageEntry(d: seq<byte>, p: nat, id: seq<byte>)
    requires IsImage(d) && RecordAt(d, p) && d[p + IDLEN] == |id|
    requires d[p + ID..p + ID + |id|] == id && (d[p + FLAGS] == 0 || d[p + FLAGS] == 2)
    ensures EntryOf(RecordOf(d, p), true) == Entry(false, id)
  {
    var rec := RecordOf(d, p);
    SliceOfSlice(d, p, p + d[p], ID, |id|);
    assert rec[FLAGS] == d[p + FLAGS] && rec[IDLEN] == d[p + IDLEN];
  }

  function Medium(x: nat): byte { if x >= BASE then ByteAt(x - BASE) else 0 }

  const FILE := File(LOC, 0, 0, 0, SECTOR)

  lemma MediumHolds(fs: Cdfs)
    requires Sound(fs) && fs.lbsize == SECTOR
    ensures IsImage(FileBytes(fs, FILE, Medium, 0, SECTOR)) && Bytes(fs, LOC) % SECTOR == 0
  {
    var d := FileBytes(fs, FILE, Medium, 0, SECTOR);
    forall k: nat | k < SECTOR ensures d[k] == ByteAt(k) {
      MediumAt(fs, k);
      assert d[k] == Medium(Where(fs, FILE, 0 + k));
    }
  }

  lemma MediumAt(fs: Cdfs, k: nat)
    requires Sound(fs) && fs.lbsize == SECTOR && k < SECTOR
    ensures Medium(Where(fs, FILE, k)) == ByteAt(k)
  {
    var x := BASE + k;
    PadIs(fs, FILE);
    assert Where(fs, FILE, k) == x && x - BASE == k;
  }

  // The directory, with the cursor on its first record.
  method MakeDirectory() returns (dir: Directory)
    ensures fresh(dir) && Standard(dir) && EntriesOf(dir) == TWO && Starts(dir.Contents(), 0) == PLACES
    ensures dir.diroff == 0
  {
    var fs := Mount(SECTOR);
    MediumHolds(fs);
    dir := new Directory(fs, FILE, Medium, true);
    ImageRecords(dir.Contents());
    ImageEntries(dir.Contents());
    IsoOrderIsNotEnough();
  }

  // A directory in the order of section 9.3, in which "A.;1" is looked up
  // twice: it is found, which leaves the cursor on "A.1;1", and then not.
  method LookUpTwice() returns (dir: Directory, first: Answer, second: Answer)
    ensures Standard(dir) && IsoOrdered(EntriesOf(dir))
    ensures first.Child? && second == NotFound
  {
    dir := MakeDirectory();
    IsoOrderIsNotEnough();
    Verdicts();
    first := Lookup(dir, A1, 0);
    second := Lookup(dir, A1, 3);
  }
}
