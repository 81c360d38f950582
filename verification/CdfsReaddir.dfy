/**
 * Listing a directory of a CD-ROM file system: each call converts whole sectors
 * and returns as many entries as fit, and the next call goes on from an offset
 * that need not be the start of a sector or of an entry.
 */
module CdfsReaddir {
  import opened Common
  import opened CdfsGeometry
  import opened CdfsRead
  import opened CdfsDir
  import opened CdfsDirents
  import opened CdfsListing

  const SIZEOFDIRECT := 264    // sizeof (struct direct)

  // ------------------------------------------------- a window on the directory

  function Shift(ps: seq<nat>, lo: nat): (s: seq<nat>)
    ensures |s| == |ps|
  {
    seq(|ps|, k requires 0 <= k < |ps| => if ps[k] >= lo then ps[k] - lo else 0)
  }

  lemma NextSectorFirst(p: nat, lo: nat)
    requires p < lo && lo % SECTOR == 0
    ensures SectorEnd(p) <= lo
  { }

  predicate Window(d: seq<byte>, lo: nat, hi: nat) {
    lo <= hi <= |d| && lo % SECTOR == 0 && (hi == |d| || hi % SECTOR == 0)
  }

  lemma RecordInWindow(d: seq<byte>, lo: nat, hi: nat, p: nat)
    requires Window(d, lo, hi) && lo <= p < hi && RecordAt(d, p)
    ensures d[lo..hi][p - lo] == d[p] && RecordAt(d[lo..hi], p - lo) && p + d[p] <= hi
  {
    SectorShifts(p, lo);
    if hi < |d| { NextSectorFirst(p, hi); }
    var b := d[lo..hi];
    assert b[p - lo + IDLEN] == d[p + IDLEN];
  }

  lemma FillInWindow(d: seq<byte>, lo: nat, hi: nat, p: nat)
    requires Window(d, lo, hi) && lo <= p < hi && p % SECTOR != 0 && Zeros(d, p, SectorEnd(p))
    ensures var b := d[lo..hi];
      Zeros(b, p - lo, SectorEnd(p - lo)) && (p - lo) % SECTOR != 0 && SectorEnd(p - lo) == SectorEnd(p) - lo
  {
    SectorShifts(p, lo);
  }

  lemma ShiftCons(p: nat, rest: seq<nat>, lo: nat)
    requires p >= lo
    ensures Shift([p] + rest, lo) == [p - lo] + Shift(rest, lo)
  { }

  // How many records from p on begin before hi.
  function Count(d: seq<byte>, p: nat, hi: nat): nat
    decreases |d| - p
  {
    if p >= |d| || p >= hi then 0
    else if d[p] == 0 then Count(d, SectorEnd(p), hi)
    else 1 + Count(d, p + d[p], hi)
  }

  lemma {:induction false} CountIs(d: seq<byte>, p: nat, hi: nat)
    requires WellFormed(d, p)
    ensures Count(d, p, hi) <= |Starts(d, p)|
    ensures forall k: nat :: k < Count(d, p, hi) ==> Starts(d, p)[k] < hi
    ensures Count(d, p, hi) < |Starts(d, p)| ==> Starts(d, p)[Count(d, p, hi)] >= hi
    decreases |d| - p
  {
    if p >= hi {
      StartsAreRecords(d, p);
    } else if p < |d| {
      CountIs(d, if d[p] == 0 then SectorEnd(p) else p + d[p], hi);
    }
  }

  // A sector that begins at lo is met by the records from p on.
  lemma {:induction false} SectorIsMet(d: seq<byte>, p: nat, lo: nat)
    requires WellFormed(d, p) && p <= lo && lo % SECTOR == 0
    ensures Count(d, p, lo) <= |Starts(d, p)| && Starts(d, p)[Count(d, p, lo)..] == Starts(d, lo) && WellFormed(d, lo)
    decreases |d| - p
  {
    if p < lo && p < |d| {
      NextSectorFirst(p, lo);
      if d[p] == 0 {
        SectorIsMet(d, SectorEnd(p), lo);
      } else {
        SectorIsMet(d, p + d[p], lo);
        Behind(p, Starts(d, p + d[p]), Count(d, p + d[p], lo));
      }
    }
  }

  lemma Behind(p: nat, rest: seq<nat>, n: nat)
    requires n <= |rest|
    ensures ([p] + rest)[n + 1..] == rest[n..]
  { }

  lemma {:induction false} WindowWellFormed(d: seq<byte>, lo: nat, hi: nat, p: nat)
    requires WellFormed(d, p) && lo <= p && Window(d, lo, hi)
    ensures WellFormed(d[lo..hi], p - lo)
    decreases |d| - p
  {
    if p < hi {
      if d[p] == 0 {
        FillInWindow(d, lo, hi, p);
        WindowWellFormed(d, lo, hi, SectorEnd(p));
      } else {
        RecordInWindow(d, lo, hi, p);
        WindowWellFormed(d, lo, hi, p + d[p]);
      }
    }
  }

  // From p on, the records of the window are those of the directory.
  predicate Agree(d: seq<byte>, lo: nat, hi: nat, p: nat) {
    && lo <= p && lo <= hi <= |d| && Count(d, p, hi) <= |Starts(d, p)|
    && Starts(d[lo..hi], p - lo) == Shift(Starts(d, p)[..Count(d, p, hi)], lo)
  }

  lemma {:induction false} WindowRecords(d: seq<byte>, lo: nat, hi: nat, p: nat)
    requires WellFormed(d, p) && lo <= p && Window(d, lo, hi)
    ensures Agree(d, lo, hi, p)
    decreases |d| - p
  {
    if p < hi {
      if d[p] == 0 {
        FillInWindow(d, lo, hi, p);
        WindowRecords(d, lo, hi, SectorEnd(p));
        WindowSkip(d, lo, hi, p, SectorEnd(p));
      } else {
        RecordInWindow(d, lo, hi, p);
        WindowRecords(d, lo, hi, p + d[p]);
        WindowCons(d, lo, hi, p);
      }
    }
  }

  lemma WindowSkip(d: seq<byte>, lo: nat, hi: nat, p: nat, e: nat)
    requires lo <= p < hi <= |d| && d[p] == 0 && e == SectorEnd(p) && SectorEnd(p - lo) == e - lo
    requires Agree(d, lo, hi, e)
    ensures Agree(d, lo, hi, p)
  { }

  lemma WindowCons(d: seq<byte>, lo: nat, hi: nat, p: nat)
    requires lo <= p < hi <= |d| && d[p] != 0 && d[lo..hi][p - lo] == d[p] && p + d[p] <= hi
    requires Agree(d, lo, hi, p + d[p])
    ensures Agree(d, lo, hi, p)
  {
    var rest, m := Starts(d, p + d[p]), Count(d, p + d[p], hi);
    assert Starts(d, p) == [p] + rest && Count(d, p, hi) == 1 + m;
    assert ([p] + rest)[..m + 1] == [p] + rest[..m];
    ShiftCons(p, rest[..m], lo);
    assert Starts(d[lo..hi], p - lo) == [p - lo] + Starts(d[lo..hi], p + d[p] - lo);
  }

  lemma SectorShifts(p: nat, lo: nat)
    requires lo <= p && lo % SECTOR == 0
    ensures SectorEnd(p - lo) == SectorEnd(p) - lo && ((p - lo) % SECTOR == 0 <==> p % SECTOR == 0)
  {
    var q, r := p / SECTOR, lo / SECTOR;
    assert p - lo == SECTOR * (q - r) + p % SECTOR;
  }

  // ----------------------------------------------------- a converted window

  // buf is what CddirToDir makes of b.
  ghost predicate Converted(buf: seq<byte>, c: Context, b: seq<byte>, qs: seq<nat>) {
    && qs == Starts(b, 0) && WellFormed(b, 0) && |buf| == |b|
    && AllFit(c, b, qs) && AllDone(buf, c, b, qs)
  }

  // The entry of record k.
  function Entry(c: Context, b: seq<byte>, qs: seq<nat>, k: nat): Dirent
    requires k < |qs| && HasFields(b, qs[k])
  {
    EntryOf(c, b, qs[k], Place(b, qs, k + 1))
  }

  lemma EntryHere(buf: seq<byte>, c: Context, b: seq<byte>, qs: seq<nat>, k: nat)
    requires Converted(buf, c, b, qs) && k < |qs|
    ensures HasFields(b, qs[k]) && IsEntry(buf, Place(b, qs, k), Entry(c, b, qs, k))
    ensures Place(b, qs, k) < Place(b, qs, k + 1) <= |b|
    ensures Entry(c, b, qs, k).reclen == Place(b, qs, k + 1) - Place(b, qs, k)
  {
    StartsSeparate(c, b, k);
    WellFormedTiles(b, k);
    assert SeparateAt(b, qs, k) && TilesAt(b, qs, k);
    assert EntryAt(buf, c, b, qs, k);
    if k + 1 < |qs| {
      StartsAreRecords(b, 0);
      assert RecordAt(b, qs[k + 1]);
    }
  }

  // An entry is long enough for its own name, and short enough for any buffer.
  lemma EntryHasRoom(c: Context, b: seq<byte>, k: nat)
    requires WellFormed(b, 0) && k < |Starts(b, 0)|
    ensures var qs := Starts(b, 0);
      && HasFields(b, qs[k])
      && Needs(NamlenOf(c, b, qs[k])) <= Place(b, qs, k + 1) - Place(b, qs, k)
      && Needs(NamlenOf(c, b, qs[k])) <= SIZEOFDIRECT
  {
    var qs := Starts(b, 0);
    StartsAreRecords(b, 0);
    assert RecordAt(b, qs[k]);
    var p := qs[k];
    if k + 1 < |qs| {
      StartsApart(b, 0, k, k + 1);
      RoomTo(p, b[p], NamlenOf(c, b, p), qs[k + 1]);
    }
    NeedsLittle(NamlenOf(c, b, p));
  }

  lemma NeedsLittle(n: nat)
    ensures Needs(n) % 4 == 0 && n + NAME + 1 <= Needs(n) <= n + NAME + 4
  { }

  lemma RoomTo(p: nat, reclen: nat, n: nat, next: nat)
    requires n + ID - 1 <= reclen && p + reclen <= next
    ensures Needs(n) <= Down(next) - Down(p)
  {
    NeedsLittle(n);
  }

  // The entries of a buffer, at their places.
  predicate ItemAt(buf: seq<byte>, items: seq<Item>, k: nat)
    requires k < |items|
  {
    var it := items[k];
    && IsEntry(buf, it.pos, it.e) && Tiled(items, k, |buf|)
    && it.pos + it.e.reclen <= |buf| && (it.pos + it.e.reclen < |buf| <==> k + 1 < |items|)
    && Needs(it.e.namlen) <= SIZEOFDIRECT
  }

  ghost predicate Listed(buf: seq<byte>, items: seq<Item>) {
    && Pos(items, 0, |buf|) == 0 && (buf == [] <==> items == [])
    && forall k: nat {:trigger ItemAt(buf, items, k)} :: k < |items| ==> ItemAt(buf, items, k)
  }

  function Items(c: Context, b: seq<byte>, qs: seq<nat>): (s: seq<Item>)
    requires forall k: nat :: k < |qs| ==> HasFields(b, qs[k])
    ensures |s| == |qs|
  {
    seq(|qs|, k requires 0 <= k < |qs| => Item(Place(b, qs, k), Entry(c, b, qs, k)))
  }

  lemma StartsHaveFields(b: seq<byte>)
    requires WellFormed(b, 0)
    ensures forall k: nat :: k < |Starts(b, 0)| ==> HasFields(b, Starts(b, 0)[k])
  {
    StartsAreRecords(b, 0);
    assert forall k: nat :: k < |Starts(b, 0)| ==> RecordAt(b, Starts(b, 0)[k]);
  }

  lemma ItemIsThere(buf: seq<byte>, c: Context, b: seq<byte>, qs: seq<nat>, k: nat)
    requires Converted(buf, c, b, qs) && k < |qs|
    requires forall i: nat :: i < |qs| ==> HasFields(b, qs[i])
    ensures ItemAt(buf, Items(c, b, qs), k)
  {
    EntryHere(buf, c, b, qs, k);
    EntryHasRoom(c, b, k);
    if k + 1 < |qs| { EntryHere(buf, c, b, qs, k + 1); }
    assert Pos(Items(c, b, qs), k + 1, |buf|) == Place(b, qs, k + 1);
  }

  lemma ConvertedIsListed(buf: seq<byte>, c: Context, b: seq<byte>, qs: seq<nat>)
    requires Converted(buf, c, b, qs)
    ensures forall k: nat :: k < |qs| ==> HasFields(b, qs[k])
    ensures Listed(buf, Items(c, b, qs))
  {
    StartsHaveFields(b);
    FirstPlace(b);
    if b != [] { SectorBegins(b, 0); }
    var items := Items(c, b, qs);
    assert Pos(items, 0, |buf|) == Place(b, qs, 0);
    forall k: nat | k < |items| ensures ItemAt(buf, items, k) { ItemIsThere(buf, c, b, qs, k); }
  }

  // ---------------------------------------------------- the loops of one call

  // The numbers of the entry at dp.
  method ReadItem(buf: array<byte>, dp: nat, ghost items: seq<Item>, ghost k: nat)
    returns (fileno: nat, reclen: nat, room: nat)
    requires Listed(buf[..], items) && k < |items| && dp == items[k].pos
    ensures fileno == items[k].e.fileno && reclen == items[k].e.reclen
    ensures room == Needs(items[k].e.namlen) <= SIZEOFDIRECT
    ensures reclen > 0 && dp + reclen == Pos(items, k + 1, buf.Length) <= buf.Length
    ensures dp + reclen < buf.Length <==> k + 1 < |items|
  {
    assert ItemAt(buf[..], items, k);
    fileno, reclen := Word(buf[..], dp + FILENO), Half(buf[..], dp + RECLEN);
    room := Needs(Half(buf[..], dp + NAMLEN));
  }

  // The loop that passes over entries.
  method SkipEntries(buf: array<byte>, lo: nat, u: nat, ghost items: seq<Item>)
    returns (dp: nat, offset: nat, ghost k: nat)
    requires Listed(buf[..], items)
    ensures AllPassed(items, k, lo, u) && dp == Pos(items, k, buf.Length) && offset == lo + dp
    ensures if k < |items| then dp < buf.Length && !Passed(items[k], lo, u) else dp == buf.Length
  {
    dp, offset, k := 0, lo, 0;
    assert items != [] ==> ItemAt(buf[..], items, 0);
    var going := dp < buf.Length;
    while going
      invariant AllPassed(items, k, lo, u) && dp == Pos(items, k, buf.Length) && offset == lo + dp
      invariant going ==> k < |items| && dp < buf.Length
      invariant !going ==> if k < |items| then dp < buf.Length && !Passed(items[k], lo, u) else dp == buf.Length
      decreases going, buf.Length - dp
    {
      var fileno, reclen, room := ReadItem(buf, dp, items, k);
      if offset < u || fileno == 0 {
        offset, dp, k := offset + reclen, dp + reclen, k + 1;
        going := dp < buf.Length;
      } else {
        going := false;
      }
    }
  }

  // The entries from first up to item k fit into resid bytes.
  predicate Fits(it: Item, first: nat, resid: nat) { it.pos - first + Needs(it.e.namlen) <= resid }

  // The loop that counts the entries that fit.
  method TakeEntries(buf: array<byte>, first: nat, resid: nat, ghost items: seq<Item>, ghost k0: nat)
    returns (lastdp: nat, ghost k: nat)
    requires Listed(buf[..], items) && k0 < |items| && first == items[k0].pos && resid >= SIZEOFDIRECT
    ensures k0 < k <= |items| && lastdp == items[k - 1].pos >= first && Fits(items[k - 1], first, resid)
    ensures k < |items| ==> !Fits(items[k], first, resid)
  {
    var fileno, reclen, room := ReadItem(buf, first, items, k0);
    lastdp, k := first, k0;
    var dp := first;
    var going := true;
    while going
      invariant k0 <= k <= |items| && dp == Pos(items, k, buf.Length) >= first && (k == k0 ==> going)
      invariant going ==>
        k < |items| && reclen == items[k].e.reclen > 0 && dp + reclen == Pos(items, k + 1, buf.Length) <= buf.Length
      invariant going ==> (dp + reclen < buf.Length <==> k + 1 < |items|) && Fits(items[k], first, resid)
      invariant k > k0 ==> lastdp == items[k - 1].pos >= first && Fits(items[k - 1], first, resid)
      invariant !going && k < |items| ==> !Fits(items[k], first, resid)
      decreases going, buf.Length - dp
    {
      lastdp := dp;
      dp, k := dp + reclen, k + 1;
      going := dp < buf.Length;
      if going {
        fileno, reclen, room := ReadItem(buf, dp, items, k);
        going := dp - first + room <= resid;
      }
    }
  }

  // --------------------------------------------- the window and the directory

  lemma FieldsInWindow(d: seq<byte>, lo: nat, hi: nat, p: nat)
    requires Window(d, lo, hi) && lo <= p < hi && RecordAt(d, p)
    ensures var b := d[lo..hi];
      && HasFields(b, p - lo) && b[p - lo] == d[p] && IdOf(b, p - lo) == IdOf(d, p)
      && b[p - lo..p - lo + d[p]] == d[p..p + d[p]]
  {
    RecordInWindow(d, lo, hi, p);
    var b, n := d[lo..hi], d[p + IDLEN];
    assert b[p - lo + IDLEN] == n;
    SliceOfSlice(d, lo, hi, p - lo, d[p]);
    SliceOfSlice(d, lo, hi, p - lo + ID, n);
  }

  lemma EntryInWindow(c: Context, d: seq<byte>, lo: nat, hi: nat, p: nat)
    requires c.offset == 0 && Window(d, lo, hi) && lo <= p < hi && RecordAt(d, p)
    ensures var b, cw := d[lo..hi], c.(offset := lo);
      && HasFields(b, p - lo)
      && NameOf(cw, b, p - lo) == NameOf(c, d, p) && NamlenOf(cw, b, p - lo) == NamlenOf(c, d, p)
      && FilenoOf(cw, b, p - lo) == FilenoOf(c, d, p)
      && (RecordFits(cw, b, p - lo) <==> RecordFits(c, d, p))
  {
    FieldsInWindow(d, lo, hi, p);
  }

  lemma DownInWindow(p: nat, lo: nat)
    requires lo <= p && lo % SECTOR == 0
    ensures Down(p - lo) == Down(p) - lo && lo <= Down(p)
  {
    Sectors(lo / SECTOR);
    var q, r := p / 4, lo / 4;
    assert lo == 4 * r;
    assert p - lo == 4 * (q - r) + p % 4;
    Mod4(q - r, p % 4);
  }

  // Record k of the window is record i + k of the directory; the first n of
  // those from i on are in the window.
  lemma WindowIndex(d: seq<byte>, lo: nat, hi: nat) returns (i: nat, n: nat)
    requires WellFormed(d, 0) && Window(d, lo, hi) && lo < hi
    ensures WellFormed(d[lo..hi], 0) && i + n <= |Starts(d, 0)|
    ensures Starts(d[lo..hi], 0) == Shift(Starts(d, 0)[i..i + n], lo)
    ensures forall k: nat :: i <= k < i + n ==> lo <= Starts(d, 0)[k] < hi
    ensures forall k: nat :: k < i ==> Starts(d, 0)[k] < lo
    ensures i + n < |Starts(d, 0)| ==> Starts(d, 0)[i + n] >= hi
  {
    var ps := Starts(d, 0);
    i := Count(d, 0, lo);
    SectorIsMet(d, 0, lo);
    CountIs(d, 0, lo);
    n := Count(d, lo, hi);
    CountIs(d, lo, hi);
    WindowWellFormed(d, lo, hi, lo);
    WindowRecords(d, lo, hi, lo);
    StartsAreRecords(d, lo);
    Slices(ps, Starts(d, lo), i, n);
  }

  lemma Slices(ps: seq<nat>, rest: seq<nat>, i: nat, n: nat)
    requires i <= |ps| && ps[i..] == rest && n <= |rest|
    ensures rest[..n] == ps[i..i + n]
    ensures forall k: nat :: i <= k < |ps| ==> ps[k] == rest[k - i]
  { }

  // The record after the window begins where the window ends.
  lemma WindowEnd(d: seq<byte>, hi: nat, m: nat)
    requires WellFormed(d, 0) && hi <= |d| && (hi == |d| || hi % SECTOR == 0) && m <= |Starts(d, 0)|
    requires forall k: nat :: k < m ==> Starts(d, 0)[k] < hi
    requires m < |Starts(d, 0)| ==> Starts(d, 0)[m] >= hi
    ensures m < |Starts(d, 0)| ==> hi < |d| && Starts(d, 0)[m] == hi
    ensures m == |Starts(d, 0)| ==> hi == |d|
  {
    var ps := Starts(d, 0);
    StartsAreRecords(d, 0);
    assert m < |ps| ==> RecordAt(d, ps[m]);
    if hi < |d| {
      var j := Count(d, 0, hi);
      SectorIsMet(d, 0, hi);
      CountIs(d, 0, hi);
      SectorBegins(d, hi);
      assert ps[j..][0] == ps[j] == hi;
    }
  }

  predicate AllHaveFields(d: seq<byte>, ps: seq<nat>) { forall k: nat :: k < |ps| ==> HasFields(d, ps[k]) }

  // Of the records ps of d, those from i on, n of them, are the records qs of the window.
  ghost predicate InWindow(d: seq<byte>, ps: seq<nat>, qs: seq<nat>, lo: nat, hi: nat, i: nat, n: nat) {
    && Window(d, lo, hi) && i + n <= |ps| && |qs| == n
    && (forall k: nat :: k < n ==> InWindowAt(d, ps, qs, lo, hi, i, k))
    && (if i + n < |ps| then ps[i + n] == hi && hi % SECTOR == 0 else hi == |d|)
  }

  ghost predicate InWindowAt(d: seq<byte>, ps: seq<nat>, qs: seq<nat>, lo: nat, hi: nat, i: nat, k: nat)
    requires k < |qs| && i + k < |ps|
  {
    lo <= ps[i + k] < hi && qs[k] == ps[i + k] - lo && RecordAt(d, ps[i + k])
  }

  lemma PlaceInWindow(d: seq<byte>, ps: seq<nat>, qs: seq<nat>, lo: nat, hi: nat, i: nat, n: nat, k: nat)
    requires InWindow(d, ps, qs, lo, hi, i, n) && k <= n
    ensures Place(d, ps, i + k) == lo + Place(d[lo..hi], qs, k)
  {
    if k < n {
      assert InWindowAt(d, ps, qs, lo, hi, i, k);
      DownInWindow(ps[i + k], lo);
    } else if i + n < |ps| {
      SectorIsAligned(hi);
    }
  }

  // The entries of the window are those of the directory.
  lemma EntriesInWindow(c: Context, d: seq<byte>, ps: seq<nat>, qs: seq<nat>, lo: nat, hi: nat, i: nat, n: nat, k: nat)
    requires c.offset == 0 && InWindow(d, ps, qs, lo, hi, i, n) && k < n
    ensures HasFields(d, ps[i + k]) && HasFields(d[lo..hi], qs[k])
    ensures Place(d, ps, i + k) == lo + Place(d[lo..hi], qs, k)
    ensures Entry(c.(offset := lo), d[lo..hi], qs, k) == Entry(c, d, ps, i + k)
  {
    assert InWindowAt(d, ps, qs, lo, hi, i, k);
    var p, next := ps[i + k], Place(d, ps, i + k + 1);
    PlaceInWindow(d, ps, qs, lo, hi, i, n, k);
    PlaceInWindow(d, ps, qs, lo, hi, i, n, k + 1);
    assert qs[k] == p - lo && Place(d[lo..hi], qs, k + 1) == next - lo;
    DirentInWindow(c, d, lo, hi, p, next);
  }

  lemma DirentInWindow(c: Context, d: seq<byte>, lo: nat, hi: nat, p: nat, next: nat)
    requires c.offset == 0 && Window(d, lo, hi) && lo <= p < hi && RecordAt(d, p) && next >= lo
    ensures HasFields(d[lo..hi], p - lo)
    ensures EntryOf(c.(offset := lo), d[lo..hi], p - lo, next - lo) == EntryOf(c, d, p, next)
  {
    EntryInWindow(c, d, lo, hi, p);
    DownInWindow(p, lo);
  }

  // Every window of whole sectors is one.
  lemma EveryWindow(d: seq<byte>, lo: nat, hi: nat) returns (i: nat, n: nat)
    requires WellFormed(d, 0) && Window(d, lo, hi) && lo < hi
    ensures WellFormed(d[lo..hi], 0) && InWindow(d, Starts(d, 0), Starts(d[lo..hi], 0), lo, hi, i, n)
    ensures forall k: nat :: k < i ==> Starts(d, 0)[k] < lo
  {
    i, n := WindowIndex(d, lo, hi);
    assert forall k: nat :: k < i + n ==> Starts(d, 0)[k] < hi;
    WindowEnd(d, hi, i + n);
    var ps, qs := Starts(d, 0), Starts(d[lo..hi], 0);
    StartsAreRecords(d, 0);
    forall k: nat | k < n ensures InWindowAt(d, ps, qs, lo, hi, i, k) {
      assert qs[k] == Shift(ps[i..i + n], lo)[k];
      assert RecordAt(d, ps[i + k]);
    }
  }

  // The entries w of a window that ends at hi, places counted from lo, are
  // those of the table from entry i on.
  ghost predicate Part(items: seq<Item>, w: seq<Item>, lo: nat, hi: nat, size: nat, i: nat) {
    && i + |w| <= |items| && Pos(items, i + |w|, size) == hi
    && (forall m: nat :: m < i ==> items[m].pos < lo)
    && (forall k: nat {:trigger w[k]} :: k < |w| ==> items[i + k] == Item(lo + w[k].pos, w[k].e))
  }

  // The whole directory as a table.
  lemma DirectoryTable(c: Context, d: seq<byte>)
    requires WellFormed(d, 0) && AllHaveFields(d, Starts(d, 0))
    ensures Table(Items(c, d, Starts(d, 0)), |d|)
  {
    var ps := Starts(d, 0);
    var items := Items(c, d, ps);
    FirstPlace(d);
    assert Pos(items, 0, |d|) == Place(d, ps, 0);
    forall k: nat | k < |items| ensures Tiled(items, k, |d|) {
      StartsSeparate(c, d, k);
      assert SeparateAt(d, ps, k);
      EntryHasRoom(c, d, k);
      assert Pos(items, k + 1, |d|) == Place(d, ps, k + 1);
    }
  }

  // items is the table of the records qs of b.
  ghost predicate IsItems(items: seq<Item>, c: Context, b: seq<byte>, qs: seq<nat>) {
    |items| == |qs| && forall k: nat {:trigger items[k]} :: k < |qs| ==> IsItem(items[k], c, b, qs, k)
  }

  predicate IsItem(it: Item, c: Context, b: seq<byte>, qs: seq<nat>, k: nat)
    requires k < |qs|
  {
    HasFields(b, qs[k]) && it.pos == Place(b, qs, k) && it.e == Entry(c, b, qs, k)
  }

  lemma ItemsAre(c: Context, b: seq<byte>, qs: seq<nat>)
    requires AllHaveFields(b, qs)
    ensures IsItems(Items(c, b, qs), c, b, qs)
  { }

  lemma WindowIsPart(c: Context, d: seq<byte>, ps: seq<nat>, qs: seq<nat>, lo: nat, hi: nat, i: nat, n: nat,
                     items: seq<Item>, w: seq<Item>)
    requires c.offset == 0 && InWindow(d, ps, qs, lo, hi, i, n) && (forall k: nat :: k < i ==> ps[k] < lo)
    requires IsItems(items, c, d, ps) && IsItems(w, c.(offset := lo), d[lo..hi], qs)
    ensures Part(items, w, lo, hi, |d|, i)
  {
    if i + n < |ps| {
      SectorIsAligned(hi);
      assert IsItem(items[i + n], c, d, ps, i + n);
    }
    forall m: nat | m < i ensures items[m].pos < lo { assert IsItem(items[m], c, d, ps, m); }
    forall k: nat {:trigger w[k]} | k < |w| ensures items[i + k] == Item(lo + w[k].pos, w[k].e) {
      EntriesInWindow(c, d, ps, qs, lo, hi, i, n, k);
      assert IsItem(items[i + k], c, d, ps, i + k) && IsItem(w[k], c.(offset := lo), d[lo..hi], qs, k);
    }
  }

  lemma WindowFits(c: Context, d: seq<byte>, ps: seq<nat>, qs: seq<nat>, lo: nat, hi: nat, i: nat, n: nat)
    requires c.offset == 0 && AllFit(c, d, ps) && InWindow(d, ps, qs, lo, hi, i, n)
    ensures AllFit(c.(offset := lo), d[lo..hi], qs)
  {
    forall k: nat {:trigger RecordFits(c.(offset := lo), d[lo..hi], qs[k])} | k < |qs|
      ensures RecordFits(c.(offset := lo), d[lo..hi], qs[k])
    {
      FitsInWindow(c, d, ps, qs, lo, hi, i, n, k);
    }
  }

  lemma FitsInWindow(c: Context, d: seq<byte>, ps: seq<nat>, qs: seq<nat>, lo: nat, hi: nat, i: nat, n: nat, k: nat)
    requires c.offset == 0 && AllFit(c, d, ps) && InWindow(d, ps, qs, lo, hi, i, n) && k < n
    ensures RecordFits(c.(offset := lo), d[lo..hi], qs[k])
  {
    assert InWindowAt(d, ps, qs, lo, hi, i, k);
    var p, cw, b := ps[i + k], c.(offset := lo), d[lo..hi];
    assert RecordFits(c, d, p);
    EntryInWindow(c, d, lo, hi, p);
    assert RecordFits(cw, b, p - lo) && qs[k] == p - lo;
  }

  // ---------------------------------------------------------------- one call

  // A directory as ISO 9660 has it, and what the conversion knows of it.
  ghost predicate Listable(dir: Directory, node: Cdnode, c: Context) {
    && dir.Placed() && node.f == dir.f
    && WellFormed(dir.Contents(), 0)
    && c.offset == 0 && c.fs == dir.fs && c.base == dir.Base() && c.iso == dir.iso
  }

  // The number of the parent, as the cdnode of the directory has it or as its
  // second record gives it.
  ghost function KnownParent(dir: Directory): Option<nat>
    reads dir
    requires dir.Placed()
  {
    var d, ps := dir.Contents(), Starts(dir.Contents(), 0);
    if dir.pnum != 0 then Some(dir.pnum)
    else if |ps| >= 2 && RecordAt(d, ps[1]) && d[ps[1] + ID] == 1 then Some(ParentNumber(dir.fs, d, ps[1]))
    else None
  }

  // The numbers that the conversion knows are the directory's own, the address
  // of its first record, and its parent's.
  ghost predicate OwnNumbers(dir: Directory, c: Context)
    reads dir
  {
    dir.Placed() && c.num == U32(dir.Base()) && c.parent == KnownParent(dir)
  }

  ghost function Entries(dir: Directory, node: Cdnode, c: Context): seq<Item>
    requires Listable(dir, node, c)
  {
    StartsHaveFields(dir.Contents());
    Items(c, dir.Contents(), Starts(dir.Contents(), 0))
  }

  lemma ContentsPart(dir: Directory, lo: nat, n: nat)
    requires dir.Placed() && lo + n <= dir.f.size
    ensures FileBytes(dir.fs, dir.f, dir.dev, lo, n) == dir.Contents()[lo..lo + n]
  { }

  lemma WindowOf(lo: nat, readlen: nat, size: nat, d: seq<byte>)
    requires lo % SECTOR == 0 && lo < size == |d| && readlen % SECTOR == 0 && readlen > 0
    ensures Window(d, lo, Least(lo + readlen, size)) && lo < Least(lo + readlen, size)
    ensures lo == 0 && size >= 2 * MINRECORD ==> Least(lo + readlen, size) >= 2 * MINRECORD
  { }

  // What a converted window shows of the directory.
  lemma WindowShows(buf: seq<byte>, c: Context, d: seq<byte>, lo: nat, hi: nat, i: nat, n: nat) returns (w: seq<Item>)
    requires lo <= hi <= |d| && WellFormed(d, 0) && WellFormed(d[lo..hi], 0) && c.offset == 0
    requires AllHaveFields(d, Starts(d, 0))
    requires InWindow(d, Starts(d, 0), Starts(d[lo..hi], 0), lo, hi, i, n)
    requires forall k: nat :: k < i ==> Starts(d, 0)[k] < lo
    requires Converted(buf, c.(offset := lo), d[lo..hi], Starts(d[lo..hi], 0))
    ensures Listed(buf, w) && Part(Items(c, d, Starts(d, 0)), w, lo, hi, |d|, i)
  {
    var cw, b, qs := c.(offset := lo), d[lo..hi], Starts(d[lo..hi], 0);
    ConvertedIsListed(buf, cw, b, qs);
    w := Items(cw, b, qs);
    ItemsAre(cw, b, qs);
    ItemsAre(c, d, Starts(d, 0));
    WindowIsPart(c, d, Starts(d, 0), qs, lo, hi, i, n, Items(c, d, Starts(d, 0)), w);
  }

  // Reads whole sectors from lo on.
  method LoadWindow(dir: Directory, node: Cdnode, lo: nat, readlen: nat) returns (buf: array<byte>)
    requires dir.Placed() && node.f == dir.f && lo < dir.f.size
    modifies node`nextr
    ensures fresh(buf) && lo + buf.Length == Least(lo + readlen, dir.f.size)
    ensures buf[..] == dir.Contents()[lo..lo + buf.Length]
  {
    var data, offset, left, asked := node.CdfsRd(dir.fs, dir.dev, lo, readlen);
    ContentsPart(dir, lo, |data|);
    buf := new byte[|data|](k requires 0 <= k < |data| => data[k]);
    assert buf[..] == data;
  }

  // The conversion of a part of a directory as ISO 9660 has it.
  method ConvertWindow(buf: array<byte>, c: Context) returns (ok: bool)
    requires WellFormed(buf[..], 0) && buf.Length <= CHUNK && c.offset % SECTOR == 0
    modifies buf
    ensures ok ==> Converted(buf[..], c, old(buf[..]), Starts(old(buf[..]), 0))
    ensures (c.offset == 0 ==> buf.Length >= 2 * MINRECORD) && AllFit(c, old(buf[..]), Starts(old(buf[..]), 0)) ==> ok
  {
    DirectoryTiles(buf[..]);
    ok := CddirToDir(buf, c);
  }

  // ... and converts them.
  method ReadWindow(dir: Directory, node: Cdnode, c: Context, lo: nat, readlen: nat)
    returns (ok: bool, buf: array<byte>, ghost w: seq<Item>, ghost i: nat)
    requires Listable(dir, node, c)
    requires lo % SECTOR == 0 && lo < dir.f.size && readlen % SECTOR == 0 && 0 < readlen <= CHUNK
    modifies node`nextr
    ensures fresh(buf) && lo + buf.Length == Least(lo + readlen, dir.f.size) > lo
    ensures ok ==> Listed(buf[..], w) && Part(Entries(dir, node, c), w, lo, lo + buf.Length, dir.f.size, i)
    ensures Convertible(c, dir.Contents()) ==> ok
  {
    ghost var d := dir.Contents();
    buf := LoadWindow(dir, node, lo, readlen);
    WindowOf(lo, readlen, dir.f.size, d);
    ghost var hi, b := lo + buf.Length, buf[..];
    ghost var n;
    i, n := EveryWindow(d, lo, hi);
    ok := ConvertWindow(buf, c.(offset := lo));
    StartsHaveFields(d);
    RecsAreStarts(d, 0);
    if Convertible(c, d) { WindowFits(c, d, Starts(d, 0), Starts(b, 0), lo, hi, i, n); }
    w := [];
    if ok { w := WindowShows(buf[..], c, d, lo, hi, i, n); }
  }

  // The entries i to j, as returned: the last one just as long as it needs.
  ghost predicate Holds(data: seq<byte>, items: seq<Item>, i: nat, j: nat) {
    i < j <= |items| && forall m: nat :: i <= m < j ==> HoldsAt(data, items, i, j, m)
  }

  ghost predicate HoldsAt(data: seq<byte>, items: seq<Item>, i: nat, j: nat, m: nat)
    requires i <= m < j <= |items|
  {
    var e := items[m].e;
    items[m].pos >= items[i].pos
    && IsEntry(data, items[m].pos - items[i].pos, if m == j - 1 then e.(reclen := Needs(e.namlen)) else e)
  }

  lemma EntryInSlice(buf: seq<byte>, q: nat, e: Dirent, a: nat, z: nat)
    requires IsEntry(buf, q, e) && a <= q && q + NAME + |e.name| + 1 <= z <= |buf|
    ensures IsEntry(buf[a..z], q - a, e)
  {
    SliceOfSlice(buf, a, z, q - a + NAME, |e.name|);
  }

  lemma ShortenedEntry(buf: seq<byte>, buf2: seq<byte>, q: nat, e: Dirent, reclen: nat)
    requires IsEntry(buf, q, e) && SameBut(buf, buf2, q + RECLEN, q + RECLEN + 2) && Half(buf2, q + RECLEN) == reclen
    ensures IsEntry(buf2, q, e.(reclen := reclen))
  {
    NameKept(buf, buf2, q, e.name, q + RECLEN, q + RECLEN + 2);
  }

  // The buffer but for the length of the last entry to return, which is room.
  ghost predicate Shortened(buf: seq<byte>, buf2: seq<byte>, last: Item, room: nat) {
    && last.pos + NAME <= |buf| && SameBut(buf, buf2, last.pos + RECLEN, last.pos + RECLEN + 2)
    && Half(buf2, last.pos + RECLEN) == room == Needs(last.e.namlen)
  }

  lemma ShortenedBefore(buf: seq<byte>, buf2: seq<byte>, w: seq<Item>, m: nat, k2: nat, room: nat, a: nat, z: nat)
    requires Listed(buf, w) && m < k2 < |w| && Shortened(buf, buf2, w[k2], room) && a <= w[m].pos && a <= z <= |buf2|
    requires w[k2].pos <= z
    ensures IsEntry(buf2[a..z], w[m].pos - a, w[m].e)
  {
    var last := w[k2];
    assert ItemAt(buf, w, m);
    NeedsLittle(w[m].e.namlen);
    ListedGrow(buf, w, m, k2);
    EntryKept(buf, buf2, w[m].pos, w[m].e, last.pos + RECLEN, last.pos + RECLEN + 2);
    EntryInSlice(buf2, w[m].pos, w[m].e, a, z);
  }

  lemma ShortenedLast(buf: seq<byte>, buf2: seq<byte>, w: seq<Item>, k2: nat, room: nat, a: nat, z: nat)
    requires Listed(buf, w) && k2 < |w| && Shortened(buf, buf2, w[k2], room) && a <= w[k2].pos
    requires z == w[k2].pos + room <= |buf2|
    ensures IsEntry(buf2[a..z], w[k2].pos - a, w[k2].e.(reclen := room))
  {
    var last := w[k2];
    assert ItemAt(buf, w, k2);
    NeedsLittle(last.e.namlen);
    ShortenedEntry(buf, buf2, last.pos, last.e, room);
    EntryInSlice(buf2, last.pos, last.e.(reclen := room), a, z);
  }

  // The entries k to k2 of the buffer, once the last one is shortened.
  lemma ShortenedHolds(buf: seq<byte>, buf2: seq<byte>, w: seq<Item>, k: nat, k2: nat, z: nat)
    requires Listed(buf, w) && k < k2 <= |w| && z >= w[k2 - 1].pos
    requires Shortened(buf, buf2, w[k2 - 1], z - w[k2 - 1].pos)
    ensures w[k].pos <= z <= |buf2| && Holds(buf2[w[k].pos..z], w, k, k2)
  {
    assert ItemAt(buf, w, k2 - 1);
    ListedGrow(buf, w, k, k2 - 1);
    var data := buf2[w[k].pos..z];
    forall m: nat | k <= m < k2 ensures HoldsAt(data, w, k, k2, m) {
      ShortenedAt(buf, buf2, w, k, k2, z, m);
    }
  }

  lemma ShortenedAt(buf: seq<byte>, buf2: seq<byte>, w: seq<Item>, k: nat, k2: nat, z: nat, m: nat)
    requires Listed(buf, w) && k <= m < k2 <= |w| && w[k].pos <= z <= |buf2| && z >= w[k2 - 1].pos
    requires Shortened(buf, buf2, w[k2 - 1], z - w[k2 - 1].pos)
    ensures HoldsAt(buf2[w[k].pos..z], w, k, k2, m)
  {
    ListedGrow(buf, w, k, m);
    var room := z - w[k2 - 1].pos;
    if m < k2 - 1 { ShortenedBefore(buf, buf2, w, m, k2 - 1, room, w[k].pos, z); }
    else { ShortenedLast(buf, buf2, w, m, room, w[k].pos, z); }
  }

  lemma {:induction false} ListedGrow(buf: seq<byte>, w: seq<Item>, a: nat, b: nat)
    requires Listed(buf, w) && a <= b < |w|
    ensures w[a].pos <= w[b].pos && (a < b ==> w[a].pos + w[a].e.reclen <= w[b].pos)
    decreases b - a
  {
    if a < b {
      assert ItemAt(buf, w, a);
      ListedGrow(buf, w, a + 1, b);
    }
  }

  // What holds of the window holds of the directory.
  lemma HoldsInDirectory(data: seq<byte>, items: seq<Item>, w: seq<Item>, lo: nat, hi: nat, size: nat, i: nat,
                         k: nat, k2: nat)
    requires Part(items, w, lo, hi, size, i) && Holds(data, w, k, k2)
    ensures Holds(data, items, i + k, i + k2)
  {
    var a, b := i + k, i + k2;
    assert items[a] == Item(lo + w[k].pos, w[k].e);
    forall m: nat | a <= m < b ensures HoldsAt(data, items, a, b, m) {
      var x := m - i;
      assert HoldsAt(data, w, k, k2, x) && items[i + x] == Item(lo + w[x].pos, w[x].e);
    }
  }

  // Copies the entries that fit out of the buffer.
  method ReturnEntries(buf: array<byte>, first: nat, resid: nat, ghost w: seq<Item>, ghost k: nat)
    returns (data: seq<byte>, ghost k2: nat)
    requires Listed(buf[..], w) && k < |w| && first == w[k].pos && resid >= SIZEOFDIRECT
    modifies buf
    ensures Holds(data, w, k, k2) && |data| == w[k2 - 1].pos + Needs(w[k2 - 1].e.namlen) - first <= resid
    ensures k2 < |w| ==> !Fits(w[k2], first, resid)
  {
    var lastdp;
    lastdp, k2 := TakeEntries(buf, first, resid, w, k);
    ghost var was := buf[..];
    assert ItemAt(was, w, k2 - 1);
    NeedsLittle(w[k2 - 1].e.namlen);
    var room := Needs(Half(buf[..], lastdp + NAMLEN));
    PutHalf(buf, lastdp + RECLEN, room);
    ShortenedHolds(was, buf[..], w, k, k2, lastdp + room);
    data := buf[first..lastdp + room];
  }

  // Every entry before place lo has been passed over.
  ghost predicate PassedBefore(items: seq<Item>, lo: nat, u: nat) {
    forall m: nat :: m < |items| && items[m].pos < lo ==> Passed(items[m], 0, u)
  }

  // The first entry to return is one of the window's, or none is.
  lemma PassedOn(items: seq<Item>, w: seq<Item>, lo: nat, hi: nat, size: nat, i: nat, k: nat, u: nat)
    requires Table(items, size) && Part(items, w, lo, hi, size, i) && PassedBefore(items, lo, u)
    requires AllPassed(w, k, lo, u)
    ensures AllPassed(items, i + k, 0, u)
    ensures k < |w| && !Passed(w[k], lo, u) ==> !Passed(items[i + k], 0, u)
    ensures k == |w| ==> PassedBefore(items, hi, u)
  {
    forall m: nat | m < i + k ensures Passed(items[m], 0, u) {
      if m >= i { assert items[i + (m - i)] == Item(lo + w[m - i].pos, w[m - i].e); }
    }
    if k < |w| { assert items[i + k] == Item(lo + w[k].pos, w[k].e); }
    if k == |w| {
      forall m: nat | m < |items| && items[m].pos < hi ensures Passed(items[m], 0, u) {
        if m >= i + k { PlacesGrow(items, size, i + k, m); }
      }
    }
  }

  lemma AllBeforeTheEnd(items: seq<Item>, size: nat, u: nat)
    requires Table(items, size) && PassedBefore(items, size, u)
    ensures AllPassed(items, |items|, 0, u)
  {
    forall m: nat | m < |items| ensures Passed(items[m], 0, u) {
      assert Tiled(items, m, size);
      PlacesGrow(items, size, m, |items|);
    }
  }

  // The first entry to return is entry k of the window that begins at lo.
  ghost predicate FirstIs(buf: seq<byte>, w: seq<Item>, items: seq<Item>, lo: nat, size: nat, i: nat, k: nat,
                          dp: nat, u: nat, readlen: nat) {
    && Listed(buf, w) && Part(items, w, lo, lo + |buf|, size, i)
    && lo + |buf| == Least(lo + readlen, size)
    && k < |w| && dp == w[k].pos
    && AllPassed(items, i + k, 0, u) && !Passed(items[i + k], 0, u)
  }

  // Looks through a window for the first entry to return.
  method Look(buf: array<byte>, u: nat, lo: nat, readlen: nat, size: nat, ghost items: seq<Item>, ghost w: seq<Item>,
              ghost i: nat)
    returns (dp: nat, offset: nat, ghost k: nat)
    requires Listed(buf[..], w) && Part(items, w, lo, lo + buf.Length, size, i) && Table(items, size)
    requires lo % SECTOR == 0 && readlen % SECTOR == 0 && PassedBefore(items, lo, u)
    requires lo + buf.Length == Least(lo + readlen, size)
    ensures dp < buf.Length ==> FirstIs(buf[..], w, items, lo, size, i, k, dp, u, readlen)
    ensures dp >= buf.Length ==> offset == lo + buf.Length && PassedBefore(items, offset, u)
  {
    dp, offset, k := SkipEntries(buf, lo, u, w);
    PassedOn(items, w, lo, lo + buf.Length, size, i, k, u);
  }

  method ReadAndLook(dir: Directory, node: Cdnode, c: Context, u: nat, lo: nat, readlen: nat, ghost items: seq<Item>)
    returns (ok: bool, dp: nat, offset: nat, buf: array<byte>, ghost w: seq<Item>, ghost i: nat, ghost k: nat)
    requires Listable(dir, node, c) && items == Entries(dir, node, c) && Table(items, dir.f.size)
    requires lo % SECTOR == 0 && lo < dir.f.size && readlen % SECTOR == 0 && 0 < readlen <= CHUNK
    requires PassedBefore(items, lo, u)
    modifies node`nextr
    ensures fresh(buf) && (Convertible(c, dir.Contents()) ==> ok)
    ensures ok && dp < buf.Length ==> FirstIs(buf[..], w, items, lo, dir.f.size, i, k, dp, u, readlen)
    ensures ok && dp >= buf.Length ==> lo < offset == Least(lo + readlen, dir.f.size) && PassedBefore(items, offset, u)
  {
    dp, offset, k := 0, lo, 0;
    ok, buf, w, i := ReadWindow(dir, node, c, lo, readlen);
    if ok { dp, offset, k := Look(buf, u, lo, readlen, dir.f.size, items, w, i); }
  }

  // Reads on until there is an entry to return, or the directory ends.
  method FindFirst(dir: Directory, node: Cdnode, c: Context, u: nat, lo0: nat, readlen: nat, ghost items: seq<Item>)
    returns (ok: bool, found: bool, lo: nat, dp: nat, buf: array<byte>, ghost w: seq<Item>, ghost i: nat, ghost k: nat)
    requires Listable(dir, node, c) && items == Entries(dir, node, c) && Table(items, dir.f.size)
    requires lo0 % SECTOR == 0 && lo0 < dir.f.size && lo0 <= u && readlen % SECTOR == 0 && 0 < readlen <= CHUNK
    modifies node`nextr
    ensures fresh(buf) && (Convertible(c, dir.Contents()) ==> ok)
    ensures ok && found ==> FirstIs(buf[..], w, items, lo, dir.f.size, i, k, dp, u, readlen)
    ensures ok && found ==> EndOfWindow(lo0, readlen, lo + dp) == lo + readlen
    ensures ok && !found ==> AllPassed(items, |items|, 0, u)
  {
    lo, found := lo0, false;
    while true
      modifies node`nextr
      invariant lo % SECTOR == 0 && lo < dir.f.size && PassedBefore(items, lo, u)
      invariant forall p: nat :: p >= lo ==> EndOfWindow(lo0, readlen, p) == EndOfWindow(lo, readlen, p)
      decreases dir.f.size - lo
    {
      var offset;
      ok, dp, offset, buf, w, i, k := ReadAndLook(dir, node, c, u, lo, readlen, items);
      if !ok { return; }
      if dp < buf.Length {
        found := true;
        return;
      }
      if offset >= dir.f.size {
        AllBeforeTheEnd(items, dir.f.size, u);
        return;
      }
      NextWindow(lo, readlen, offset, dir.f.size);
      lo := offset;
    }
  }

  lemma NextWindow(lo: nat, readlen: nat, offset: nat, size: nat)
    requires lo % SECTOR == 0 && readlen % SECTOR == 0 && offset == Least(lo + readlen, size) && offset < size
    ensures offset % SECTOR == 0
  { }

  // How much of the directory is read at a time, for a buffer of resid bytes.
  function ReadLength(u: nat, resid: nat): nat { Least(SectorRoundUp(u % SECTOR + resid), CHUNK) }

  // The end of the window that place p is in, of those that follow each other
  // from lo on.
  function EndOfWindow(lo: nat, readlen: nat, p: nat): nat
    requires readlen > 0
    decreases p - lo
  {
    if p < lo + readlen then lo + readlen else EndOfWindow(lo + readlen, readlen, p)
  }

  // As much was returned as fits, or as the window holds.
  predicate Full(items: seq<Item>, i: nat, j: nat, u: nat, resid: nat)
    requires i < |items| && resid > 0
  {
    Rounded(u, u % SECTOR + resid);
    j >= |items| || !Fits(items[j], items[i].pos, resid)
    || items[j].pos == EndOfWindow(u - u % SECTOR, ReadLength(u, resid), items[i].pos)
  }

  // So a call for the place of an entry leaves out the entry after the last one
  // returned only if the buffer has no room for its number and lengths, its name
  // and a closing 0, rounded up to a multiple of 4, or if it begins the fifth
  // sector.
  lemma FullMeans(items: seq<Item>, i: nat, j: nat, u: nat, resid: nat, need: nat)
    requires i < j < |items| && items[i].pos == u <= items[j].pos && resid > 0 && Full(items, i, j, u, resid)
    requires need % 4 == 0 && 8 + items[j].e.namlen < need <= 8 + items[j].e.namlen + 4
    ensures resid < items[j].pos + need - u || items[j].pos == u / 2048 * 2048 + 4 * 2048
  {
    Rounded(u, u % SECTOR + resid);
    RoundedUp(u % SECTOR + resid);
  }

  // One call of readdir for the offset u and a buffer of resid bytes.
  method CdfsReaddir(dir: Directory, node: Cdnode, c: Context, u: nat, resid: nat)
    returns (ok: bool, data: seq<byte>, to: nat, ghost i: nat, ghost j: nat)
    requires Listable(dir, node, c) && OwnNumbers(dir, c)
    modifies node`nextr
    ensures Convertible(c, dir.Contents()) && resid >= SIZEOFDIRECT ==> ok
    ensures u < dir.f.size && resid < SIZEOFDIRECT ==> !ok
    ensures ok ==> Answers(Entries(dir, node, c), dir.f.size, Call(u, i, j, to))
    ensures ok && i == j ==> data == []
    ensures ok && i != j ==>
      Holds(data, Entries(dir, node, c), i, j) && |data| == to - Entries(dir, node, c)[i].pos <= resid
    ensures ok && i != j ==> Full(Entries(dir, node, c), i, j, u, resid)
  {
    ghost var items := Entries(dir, node, c);
    ok, data, to, i, j := true, [], u, |items|, |items|;
    if u >= dir.f.size { return; }
    if resid < SIZEOFDIRECT { ok := false; return; }
    Rounded(u, u % SECTOR + resid);
    var lo, readlen := u - u % SECTOR, Least(SectorRoundUp(u % SECTOR + resid), CHUNK);
    var found, dp, buf;
    ghost var w, k, part;
    StartsHaveFields(dir.Contents());
    DirectoryTable(c, dir.Contents());
    ok, found, lo, dp, buf, w, part, k := FindFirst(dir, node, c, u, lo, readlen, items);
    if !ok { return; }
    if !found {
      to := dir.f.size;
      return;
    }
    data, to, i, j := Deliver(buf, lo, dp, u, resid, dir.f.size, items, w, part, k);
  }

  // ----------------------------------------------------------- a whole listing

  // The calls of a listing, the last of which began at to, and what they returned.
  ghost predicate Listing(items: seq<Item>, size: nat, calls: seq<Call>, pieces: seq<seq<byte>>, to: nat) {
    && Series(items, size, calls) && |pieces| == |calls|
    && to == (if calls == [] then 0 else calls[|calls| - 1].to)
    && forall t: nat :: t < |calls| ==> PieceAt(items, calls, pieces, t)
  }

  ghost predicate PieceAt(items: seq<Item>, calls: seq<Call>, pieces: seq<seq<byte>>, t: nat)
    requires t < |calls| && t < |pieces|
  {
    if calls[t].i == calls[t].j then pieces[t] == [] else Holds(pieces[t], items, calls[t].i, calls[t].j)
  }

  // Exactly one of the calls returned the entry.
  predicate Once(calls: seq<Call>, m: nat) {
    && (exists s: nat :: s < |calls| && Returns(calls[s], m))
    && forall s: nat, t: nat :: s < |calls| && t < |calls| && Returns(calls[s], m) && Returns(calls[t], m) ==> s == t
  }

  predicate Returns(c: Call, m: nat) { c.i <= m < c.j }

  lemma OneMoreCall(items: seq<Item>, size: nat, calls: seq<Call>, pieces: seq<seq<byte>>, to: nat, c: Call,
                    data: seq<byte>)
    requires Listing(items, size, calls, pieces, to) && Answers(items, size, c) && c.from == to
    requires if c.i == c.j then data == [] else Holds(data, items, c.i, c.j)
    ensures Listing(items, size, calls + [c], pieces + [data], c.to)
  {
    var calls2, pieces2 := calls + [c], pieces + [data];
    forall t: nat | t < |calls2| ensures Answers(items, size, calls2[t]) && GoesOn(calls2, t) {
      if t < |calls| { assert Answers(items, size, calls[t]) && GoesOn(calls, t); }
    }
    forall t: nat | t < |calls2| ensures PieceAt(items, calls2, pieces2, t) {
      if t < |calls| { assert PieceAt(items, calls, pieces, t); }
    }
  }

  lemma AllOnce(items: seq<Item>, size: nat, calls: seq<Call>)
    requires Table(items, size) && Series(items, size, calls) && calls != [] && AtEnd(items, calls[|calls| - 1])
    ensures forall m: nat :: m < |items| && items[m].e.fileno != 0 ==> Once(calls, m)
  {
    forall m: nat | m < |items| && items[m].e.fileno != 0 ensures Once(calls, m) {
      var s := EveryEntryOnce(items, size, calls, m);
      assert Returns(calls[s], m);
    }
  }

  // A call that returns nothing is at the end; the others are not.
  lemma EmptyAtEnd(items: seq<Item>, size: nat, c: Call)
    requires Table(items, size) && Answers(items, size, c)
    ensures AtEnd(items, c) <==> c.i == c.j
  { }

  lemma LastPlace(items: seq<Item>, size: nat, i: nat, j: nat)
    requires Table(items, size) && i < j <= |items|
    ensures items[j - 1].pos + Needs(items[j - 1].e.namlen) > items[i].pos
  {
    PlacesGrow(items, size, i, j - 1);
    NeedsLittle(items[j - 1].e.namlen);
  }

  // Reads a directory to its end, with a buffer of sizes(t) bytes for call t:
  // the calls end, and return every entry that has a number exactly once.
  method ListAll(dir: Directory, node: Cdnode, c: Context, sizes: nat -> nat)
    returns (ok: bool, pieces: seq<seq<byte>>, ghost calls: seq<Call>)
    requires Listable(dir, node, c) && OwnNumbers(dir, c)
    modifies node`nextr
    ensures Convertible(c, dir.Contents()) && (forall t: nat :: sizes(t) >= SIZEOFDIRECT) ==> ok
    ensures ok ==> exists to :: Listing(Entries(dir, node, c), dir.f.size, calls, pieces, to)
    ensures ok ==>
      forall m: nat :: m < |Entries(dir, node, c)| && Entries(dir, node, c)[m].e.fileno != 0 ==> Once(calls, m)
  {
    ghost var items, size := Entries(dir, node, c), dir.f.size;
    EntriesAreTable(dir, node, c);
    pieces, calls := [], [];
    var to := 0;
    var going := true;
    while going
      modifies node`nextr
      invariant Listing(items, size, calls, pieces, to)
      invariant GoingOn(items, calls, going)
      decreases going, |items| - |calls|
    {
      var data;
      ghost var call;
      ok, data, to, call := ListNext(dir, node, c, sizes(|pieces|), to, items, calls, pieces);
      if !ok { return; }
      assert (calls + [call])[..|calls|] == calls;
      calls, pieces := calls + [call], pieces + [data];
      going := data != [];
      StillGoingOn(items, size, calls, going);
    }
    ok := true;
    AllOnce(items, size, calls);
  }

  // No call but perhaps the last was at the end.
  ghost predicate GoingOn(items: seq<Item>, calls: seq<Call>, going: bool) {
    && (forall t: nat :: t < |calls| - 1 ==> !AtEnd(items, calls[t]))
    && (going ==> |calls| <= |items| && (calls == [] || !AtEnd(items, calls[|calls| - 1])))
    && (!going ==> calls != [] && AtEnd(items, calls[|calls| - 1]))
  }

  lemma StillGoingOn(items: seq<Item>, size: nat, calls: seq<Call>, going: bool)
    requires Table(items, size) && Series(items, size, calls) && calls != []
    requires GoingOn(items, calls[..|calls| - 1], true) && going == !AtEnd(items, calls[|calls| - 1])
    ensures GoingOn(items, calls, going)
  {
    var was := calls[..|calls| - 1];
    forall t: nat | t < |calls| - 1 ensures !AtEnd(items, calls[t]) {
      assert was[t] == calls[t];
      if t < |was| - 1 { assert !AtEnd(items, was[t]); }
    }
    if going { TheEndComes(items, size, calls, |calls| - 1); }
  }

  lemma EntriesAreTable(dir: Directory, node: Cdnode, c: Context)
    requires Listable(dir, node, c)
    ensures Table(Entries(dir, node, c), dir.f.size)
  {
    StartsHaveFields(dir.Contents());
    DirectoryTable(c, dir.Contents());
  }

  // One call more; it returns nothing exactly at the end.
  method ListNext(dir: Directory, node: Cdnode, c: Context, resid: nat, from: nat,
                  ghost items: seq<Item>, ghost calls: seq<Call>, ghost pieces: seq<seq<byte>>)
    returns (ok: bool, data: seq<byte>, to: nat, ghost call: Call)
    requires Listable(dir, node, c) && items == Entries(dir, node, c) && Table(items, dir.f.size)
    requires OwnNumbers(dir, c) && Listing(items, dir.f.size, calls, pieces, from)
    modifies node`nextr
    ensures Convertible(c, dir.Contents()) && resid >= SIZEOFDIRECT ==> ok
    ensures ok ==> Listing(items, dir.f.size, calls + [call], pieces + [data], to)
    ensures ok ==> (data == [] <==> AtEnd(items, call))
  {
    ghost var i, j;
    ok, data, to, i, j := CdfsReaddir(dir, node, c, from, resid);
    call := Call(from, i, j, to);
    if ok { CallNoted(items, dir.f.size, calls, pieces, call, data); }
  }

  lemma CallNoted(items: seq<Item>, size: nat, calls: seq<Call>, pieces: seq<seq<byte>>, c: Call, data: seq<byte>)
    requires Table(items, size) && Listing(items, size, calls, pieces, c.from) && Answers(items, size, c)
    requires c.i == c.j ==> data == []
    requires c.i != c.j ==> Holds(data, items, c.i, c.j) && |data| == c.to - items[c.i].pos
    ensures Listing(items, size, calls + [c], pieces + [data], c.to)
    ensures data == [] <==> AtEnd(items, c)
  {
    EmptyAtEnd(items, size, c);
    if c.i != c.j { LastPlace(items, size, c.i, c.j); }
    OneMoreCall(items, size, calls, pieces, c.from, c, data);
  }

  method Deliver(buf: array<byte>, lo: nat, dp: nat, u: nat, resid: nat, size: nat,
                 ghost items: seq<Item>, ghost w: seq<Item>, ghost part: nat, ghost k: nat)
    returns (data: seq<byte>, to: nat, ghost i: nat, ghost j: nat)
    requires FirstIs(buf[..], w, items, lo, size, part, k, dp, u, ReadLength(u, resid))
    requires Table(items, size) && resid >= SIZEOFDIRECT && u < size
    requires var readlen := ReadLength(u, resid);
      readlen > 0 && EndOfWindow(u - u % SECTOR, readlen, lo + dp) == lo + readlen
    modifies buf
    ensures Answers(items, size, Call(u, i, j, to)) && i < j
    ensures Holds(data, items, i, j) && |data| == to - items[i].pos <= resid
    ensures Full(items, i, j, u, resid)
  {
    ghost var k2;
    data, k2 := ReturnEntries(buf, dp, resid, w, k);
    HoldsInDirectory(data, items, w, lo, lo + buf.Length, size, part, k, k2);
    i, j, to := part + k, part + k2, lo + dp + |data|;
    assert items[part + k] == Item(lo + w[k].pos, w[k].e);
    assert items[part + (k2 - 1)] == Item(lo + w[k2 - 1].pos, w[k2 - 1].e);
    if k2 < |w| {
      assert items[j] == Item(lo + w[k2].pos, w[k2].e);
    } else if j < |items| {
      assert Tiled(items, j, size);
      PlacesGrow(items, size, j, |items|);
    }
  }

  lemma Rounded(u: nat, n: nat)
    requires n > 0
    ensures (u - u % SECTOR) % SECTOR == 0
    ensures Least(SectorRoundUp(n), CHUNK) % SECTOR == 0 && Least(SectorRoundUp(n), CHUNK) > 0
  {
    RoundedUp(n);
  }
}
