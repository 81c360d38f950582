/**
 * What a mount works out about the sizes of a CD-ROM file system: logical
 * blocks, sectors of the medium and blocks of the block device.
 */
module CdfsGeometry {
  import opened Common

  const SECTOR := 2048      // size of a sector, the smallest addressable part
  const DEVBSIZE := 1024    // DEV_BSIZE, the block size drivers are asked in

  function Pow2(k: nat): (p: nat)
    ensures p > 0
  {
    if k == 0 then 1 else 2 * Pow2(k - 1)
  }

  predicate PowerOfTwo(n: nat)
    decreases n
  {
    n == 1 || (n > 0 && n % 2 == 0 && PowerOfTwo(n / 2))
  }

  // The C shifts, for values that are not negative.
  function Shl(x: nat, k: nat): nat decreases k { if k == 0 then x else Shl(2 * x, k - 1) }
  function Shr(x: nat, k: nat): nat decreases k { if k == 0 then x else Shr(x / 2, k - 1) }

  lemma {:induction false} ShlIs(x: nat, k: nat, p: nat)
    requires p == Pow2(k)
    ensures Shl(x, k) == x * p
    decreases k
  {
    if k > 0 {
      ShlIs(2 * x, k - 1, Pow2(k - 1));
      Doubles(x, Pow2(k - 1));
    }
  }

  lemma ShrIs(x: nat, k: nat, p: nat)
    requires p == Pow2(k)
    ensures Shr(x, k) == x / p
  {
    ShrFits(x, k);
    Quotient(x, p, Shr(x, k), x - Shr(x, k) * p);
  }

  lemma {:induction false} ShrFits(x: nat, k: nat)
    ensures var q := Shr(x, k) * Pow2(k); q <= x < q + Pow2(k)
    decreases k
  {
    if k > 0 {
      ShrFits(x / 2, k - 1);
      Doubles(Shr(x, k), Pow2(k - 1));
    }
  }

  lemma Doubles(x: nat, y: nat)
    ensures x * (2 * y) == 2 * (x * y) == (2 * x) * y
  { }

  // Quotient and remainder are the only ones with their property.
  lemma Quotient(i: nat, m: nat, q: nat, r: nat)
    requires m > 0 && r < m && i == q * m + r
    ensures i / m == q && i % m == r
  {
    var d := i / m;
    assert i == d * m + i % m;
    Apart(d, q, m);
    Apart(q, d, m);
  }

  // The fields that mountcdfs fills in and the block map uses.
  datatype Cdfs = Cdfs(lbsize: nat, lbshift: nat, lsshift: nat, lbtolsc: int, lstodb: nat)

  lemma {:induction false} PowersAre(k: nat)
    ensures PowerOfTwo(Pow2(k))
  {
    if k > 0 { PowersAre(k - 1); }
  }

  lemma {:induction false} Exponent(n: nat) returns (k: nat)
    requires PowerOfTwo(n)
    ensures n == Pow2(k)
    decreases n
  {
    k := 0;
    if n > 1 {
      k := Exponent(n / 2);
      k := k + 1;
    }
  }

  lemma PowerOfTwoExactly(n: nat)
    ensures PowerOfTwo(n) <==> exists k: nat :: n == Pow2(k)
  {
    if PowerOfTwo(n) { var k := Exponent(n); }
    if k: nat :| n == Pow2(k) { PowersAre(k); }
  }

  // The shift loops of the mount, which start at the smallest size allowed,
  // 1 << from, with y the size in units of that. The loop ends because y is
  // not 0, which is all the code relies on; the shift is right exactly for the
  // powers of two.
  method FindShift(size: nat, from: nat, y0: nat) returns (x: nat)
    requires y0 > 0 && size / Pow2(from) == y0
    ensures x >= from && Pow2(x) <= size
    ensures Pow2(x) == size <==> size % Pow2(from) == 0 && PowerOfTwo(y0)
  {
    var y := y0;
    x := from;
    while y % 2 == 0
      invariant y > 0 && x >= from
      invariant y * Pow2(x) == y0 * Pow2(from)
      invariant PowerOfTwo(y) == PowerOfTwo(y0)
      decreases y
    {
      assert Pow2(x + 1) == 2 * Pow2(x);
      Halve(y, Pow2(x));
      x, y := x + 1, y / 2;
    }
    var p := Pow2(from);
    assert size == y0 * p + size % p;
    assert PowerOfTwo(y) <==> y == 1;
    AtLeastOnce(y, Pow2(x));
  }

  lemma Halve(y: nat, p: nat)
    requires y % 2 == 0
    ensures (y / 2) * (2 * p) == y * p
  {
    assert y == 2 * (y / 2);
    assert ((y / 2) * 2) * p == (y / 2) * (2 * p);
  }

  lemma AtLeastOnce(y: nat, p: nat)
    requires y > 0 && p > 0
    ensures y * p >= p && (y * p == p <==> y == 1)
  {
    assert y * p == (y - 1) * p + p;
    if y > 1 { assert (y - 1) * p > 0; }
  }

  // The block sizes that fit a sector: 512, 1024 and 2048 bytes.
  predicate BlockSize(lbsize: nat) { lbsize == 512 || lbsize == 1024 || lbsize == 2048 }

  // The shifts of a mount are those of its sizes.
  predicate Consistent(fs: Cdfs) {
    && Pow2(fs.lbshift) == fs.lbsize
    && Pow2(fs.lsshift) == SECTOR
    && fs.lbtolsc >= 0 && fs.lbsize * Pow2(fs.lbtolsc) == SECTOR
    && DEVBSIZE * Pow2(fs.lstodb) == SECTOR
  }

  predicate Sound(fs: Cdfs) { BlockSize(fs.lbsize) && Consistent(fs) }

  lemma SmallPowers()
    ensures Pow2(0) == 1 && Pow2(1) == 2 && Pow2(2) == 4
    ensures Pow2(8) == 256 && Pow2(9) == 512 && Pow2(10) == 1024 && Pow2(11) == 2048
  {
    assert Pow2(4) == 16;
  }

  lemma {:induction false} PowersApart(a: nat, b: nat)
    ensures Pow2(a) == Pow2(b) ==> a == b
  {
    if a > 0 && b > 0 { PowersApart(a - 1, b - 1); }
  }

  // The geometry part of mountcdfs.
  method Mount(lbsize: nat) returns (fs: Cdfs)
    requires lbsize >= 512
    ensures fs.lbsize == lbsize && fs.lsshift == 11 && fs.lstodb == 1
    ensures fs.lbtolsc == fs.lsshift - fs.lbshift
    ensures BlockSize(lbsize) <==> Consistent(fs)
    ensures Pow2(fs.lbshift) == lbsize <==> exists k: nat :: lbsize == Pow2(k)
  {
    SmallPowers();
    var lb: int := FindShift(lbsize, 9, lbsize / 512);
    var ls: int := FindShift(SECTOR, 11, SECTOR / 2048);
    PowersApart(ls, 11);
    fs := Cdfs(lbsize, lb, ls, ls - lb, SECTOR / DEVBSIZE - 1);
    if BlockSize(lbsize) {
      assert PowerOfTwo(2) && PowerOfTwo(4);
      PowersApart(lb, if lbsize == 512 then 9 else if lbsize == 1024 then 10 else 11);
    }
    if Consistent(fs) {
      BigPower(lb);
      assert lb == 9 || lb == 10 || lb == 11;
    }
    if k: nat :| lbsize == Pow2(k) {
      BigPower(k);
      PowerOfTwoExactly(lbsize / 512);
    }
  }

  lemma {:induction false} BigPower(k: nat)
    ensures if k < 9 then Pow2(k) <= 256 else Pow2(k) == 512 * Pow2(k - 9)
    decreases if k < 9 then 9 - k else k
  {
    SmallPowers();
    if k < 8 { BigPower(k + 1); }
    if k > 9 { BigPower(k - 1); }
  }

  // lstodb is a shift by the ratio of the two sizes less one, which is the
  // product with the ratio for the ratios 1 and 2 and no other.
  lemma {:induction false} SectorToDeviceBlockExactly(ratio: nat, sector: nat)
    requires ratio > 0
    ensures sector > 0 ==> (Shl(sector, ratio - 1) == sector * ratio <==> ratio <= 2)
  {
    PowersGrow(ratio);
    ShlIs(sector, ratio - 1, Pow2(ratio - 1));
    if sector > 0 && ratio > 2 {
      Larger(sector, Pow2(ratio - 1), ratio);
    }
  }

  lemma Larger(s: nat, a: nat, b: nat)
    requires s > 0 && a > b
    ensures s * a > s * b
  {
    assert s * a == s * b + s * (a - b);
  }

  lemma {:induction false} PowersGrow(k: nat)
    requires k > 0
    ensures if k <= 2 then Pow2(k - 1) == k else Pow2(k - 1) > k
  {
    if k > 1 { PowersGrow(k - 1); }
  }

  // The cdnode number of the root: the address in bytes of its first record.
  function RootCdno(fs: Cdfs, loc: nat, xarlen: nat): nat { Shl(loc + xarlen, fs.lbshift) }

  lemma RootIsFirstRecord(fs: Cdfs, loc: nat, xarlen: nat)
    requires Sound(fs)
    ensures RootCdno(fs, loc, xarlen) == (loc + xarlen) * fs.lbsize
  {
    ShlIs(loc + xarlen, fs.lbshift, fs.lbsize);
  }
}
