/**
 * Looking a name up in a directory of a CD-ROM file system. The search starts
 * at the cursor, not at the first record, and uses the order of the names once
 * to leave part of the directory out.
 */
module CdfsLookup {
  import opened Common
  import opened CdfsGeometry
  import opened CdfsRead
  import opened CdfsDir

  const MAXNAME := 37       // CDMAXNAMLEN
  const DOT := 46           // '.'

  // ---------------------------------------------------------------- the order

  // The C string that begins a sequence of bytes: what is before the first 0.
  function CString(b: seq<byte>): (s: seq<byte>)
    ensures |s| <= |b|
    ensures forall k: nat :: k < |s| ==> s[k] != 0
    ensures (forall k: nat :: k < |b| ==> b[k] != 0) ==> s == b
  {
    if b == [] || b[0] == 0 then [] else [b[0]] + CString(b[1..])
  }

  // A byte as a char, which is signed.
  function Signed(b: byte): int { if b < 128 then b else b - 256 }

  // The first character of a string without its closing 0.
  function Char(s: seq<byte>): int { if s == [] then 0 else Signed(s[0]) }

  // strncmp on such strings.
  function Strncmp(a: seq<byte>, b: seq<byte>, n: nat): int
    decreases n
  {
    if n == 0 then 0
    else if Char(a) != Char(b) then Char(a) - Char(b)
    else if a == [] || b == [] then 0
    else Strncmp(a[1..], b[1..], n - 1)
  }

  predicate Proper(s: seq<byte>) { forall k: nat :: k < |s| ==> s[k] != 0 }

  // The order of names that the lookup relies on: a is less where the two first
  // differ, the 0 at their ends included.
  predicate Less(a: seq<byte>, b: seq<byte>)
    decreases |b|
  {
    Char(a) < Char(b) || (a != [] && b != [] && a[0] == b[0] && Less(a[1..], b[1..]))
  }

  // With a length that covers both names, strncmp decides that order.
  lemma {:induction false} StrncmpDecides(a: seq<byte>, b: seq<byte>, n: nat)
    requires Proper(a) && Proper(b) && |a| <= n && |b| <= n
    ensures Strncmp(a, b, n) == 0 <==> a == b
    ensures Strncmp(a, b, n) < 0 <==> Less(a, b)
    ensures Strncmp(a, b, n) > 0 <==> Less(b, a)
    decreases n
  {
    if a != [] && b != [] {
      StrncmpDecides(a[1..], b[1..], n - 1);
      assert a == [a[0]] + a[1..] && b == [b[0]] + b[1..];
    }
  }

  // Character k of a string of bytes from -128 to 127, the 0 at its end included.
  function CharAt(s: seq<byte>, k: nat): int { if k < |s| then (s[k] as int + 128) % 256 - 128 else 0 }

  // The strings differ first at k, where a is less.
  predicate LessFrom(a: seq<byte>, b: seq<byte>, k: nat) {
    && k <= |a| && k <= |b| && CharAt(a, k) < CharAt(b, k)
    && forall m: nat :: m < k ==> a[m] == b[m]
  }

  lemma {:induction false} LessExactly(a: seq<byte>, b: seq<byte>)
    ensures Less(a, b) <==> exists k: nat :: LessFrom(a, b, k)
    decreases |b|
  {
    assert forall s: seq<byte> :: CharAt(s, 0) == Char(s);
    if CharAt(a, 0) < CharAt(b, 0) {
      assert LessFrom(a, b, 0);
    } else if a != [] && b != [] && a[0] == b[0] {
      LessExactly(a[1..], b[1..]);
      LessLater(a, b);
    }
  }

  lemma LessLater(a: seq<byte>, b: seq<byte>)
    requires a != [] && b != [] && a[0] == b[0]
    ensures (exists k: nat :: LessFrom(a, b, k)) <==> exists k: nat :: LessFrom(a[1..], b[1..], k)
  {
    forall k: nat ensures LessFrom(a[1..], b[1..], k) <==> LessFrom(a, b, k + 1) {
      if LessFrom(a[1..], b[1..], k) {
        forall m: nat | m < k + 1 ensures a[m] == b[m] {
          if m > 0 { assert a[1..][m - 1] == b[1..][m - 1]; }
        }
      }
    }
    assert !LessFrom(a, b, 0);
    if k: nat :| LessFrom(a, b, k) { assert LessFrom(a[1..], b[1..], k - 1); }
    if k: nat :| LessFrom(a[1..], b[1..], k) { assert LessFrom(a, b, k + 1); }
  }

  lemma {:induction false} LessIsStrict(a: seq<byte>, b: seq<byte>)
    requires Less(a, b)
    ensures a != b
    decreases |b|
  {
    if a != [] && b != [] && a[0] == b[0] { LessIsStrict(a[1..], b[1..]); }
  }

  lemma {:induction false} LessChains(a: seq<byte>, b: seq<byte>, c: seq<byte>)
    requires Less(a, b) && Less(b, c)
    ensures Less(a, c)
    decreases |c|
  {
    if a != [] && b != [] && c != [] && a[0] == b[0] == c[0] { LessChains(a[1..], b[1..], c[1..]); }
  }

  lemma LessOneWay(a: seq<byte>, b: seq<byte>)
    requires Less(a, b)
    ensures !Less(b, a)
  {
    if Less(b, a) {
      LessChains(a, b, a);
      LessIsStrict(a, a);
    }
  }

  // ---------------------------------------------------------- what is looked up

  // What the lookup sees of a record: whether it is passed over, and its name.
  datatype Entry = Entry(skipped: bool, id: seq<byte>)

  function EntryOf(rec: seq<byte>, iso: bool): Entry
    requires |rec| >= MINRECORD && ID + rec[IDLEN] <= |rec|
  {
    var flags := FlagsOf(rec, iso);
    Entry(IsAssociated(flags) || IsNotLast(flags), rec[ID..ID + rec[IDLEN]])
  }

  predicate IsDotDot(nm: seq<byte>) { nm == [DOT, DOT] }

  predicate IsParent(nm: seq<byte>, e: Entry) { IsDotDot(nm) && e.id == [1] }

  predicate Matches(nm: seq<byte>, e: Entry) {
    !e.skipped && (IsParent(nm, e) || nm == CString(e.id))
  }

  // The first match of a scan from the first entry on, |es| if there is none.
  function Scan(es: seq<Entry>, nm: seq<byte>, k: nat): (r: nat)
    requires k <= |es|
    ensures k <= r <= |es|
    ensures forall j: nat :: k <= j < r ==> !Matches(nm, es[j])
    ensures r < |es| ==> Matches(nm, es[r])
    decreases |es| - k
  {
    if k == |es| || Matches(nm, es[k]) then k else Scan(es, nm, k + 1)
  }

  // The directory itself, its parent, and then entries with proper names.
  predicate Shaped(es: seq<Entry>) {
    && |es| >= 2
    && es[0] == Entry(false, [0]) && es[1] == Entry(false, [1])
    && forall k: nat {:trigger NameFits(es[k])} :: 2 <= k < |es| ==> NameFits(es[k])
  }

  predicate NameFits(e: Entry) { Proper(e.id) && |e.id| <= MAXNAME }

  // The order that the lookup relies on: the names are in the order of strncmp,
  // all after "..".
  predicate Ordered(es: seq<Entry>) {
    && Shaped(es)
    && (forall k: nat {:trigger AfterDots(es[k])} :: 2 <= k < |es| ==> AfterDots(es[k]))
    && (forall j: nat, k: nat {:trigger InOrder(es[j], es[k])} :: 2 <= j < k < |es| ==> InOrder(es[j], es[k]))
  }

  predicate AfterDots(e: Entry) { e.skipped || Less([DOT, DOT], e.id) }

  predicate InOrder(e: Entry, f: Entry) { e.skipped || f.skipped || Less(e.id, f.id) }

  // The entries that the shortcut leaves out when the name comes before entry k.
  lemma NoneAfter(es: seq<Entry>, nm: seq<byte>, k: nat, j: nat)
    requires Ordered(es) && 2 <= k <= j < |es| && !es[k].skipped && Less(nm, es[k].id)
    ensures !Matches(nm, es[j])
  {
    assert NameFits(es[j]) && NameFits(es[k]);
    if !es[j].skipped {
      if k < j {
        assert InOrder(es[k], es[j]);
        LessChains(nm, es[k].id, es[j].id);
      }
      LessIsStrict(nm, es[j].id);
    }
  }

  // ... and when it comes after it.
  lemma NoneBefore(es: seq<Entry>, nm: seq<byte>, k: nat, j: nat)
    requires Ordered(es) && j <= k < |es| && !es[k].skipped && !IsParent(nm, es[k])
    requires Char(nm) >= DOT && Less(CString(es[k].id), nm)
    ensures !Matches(nm, es[j])
  {
    if k < 2 {
      LessIsStrict(CString(es[k].id), nm);
    } else if IsDotDot(nm) {
      assert NameFits(es[k]) && AfterDots(es[k]);
      LessOneWay([DOT, DOT], es[k].id);
    } else if j >= 2 {
      NamesBefore(es, nm, k, j);
    }
  }

  lemma NamesBefore(es: seq<Entry>, nm: seq<byte>, k: nat, j: nat)
    requires Ordered(es) && 2 <= j <= k < |es| && !es[k].skipped && !IsDotDot(nm) && Less(CString(es[k].id), nm)
    ensures !Matches(nm, es[j])
  {
    assert NameFits(es[k]) && NameFits(es[j]);
    if !es[j].skipped {
      if j < k {
        assert InOrder(es[j], es[k]);
        LessChains(es[j].id, es[k].id, nm);
      }
      LessIsStrict(es[j].id, nm);
    }
  }

  lemma OnlyMatch(es: seq<Entry>, nm: seq<byte>, j: nat)
    requires Ordered(es) && j < |es| && Matches(nm, es[j])
    ensures Scan(es, nm, 0) == j
  {
    var i := Scan(es, nm, 0);
    assert (i >= 2 ==> NameFits(es[i])) && (j >= 2 ==> NameFits(es[j]) && AfterDots(es[j]));
    if i < j && i >= 2 {
      assert InOrder(es[i], es[j]);
      LessIsStrict(es[i].id, es[j].id);
    }
    if j >= 2 && IsDotDot(nm) { LessIsStrict([DOT, DOT], es[j].id); }
  }

  // -------------------------------------------------------------- cdfs_lookup

  predicate AllRecords(d: seq<byte>, ps: seq<nat>) {
    forall k: nat :: k < |ps| ==> RecordAt(d, ps[k])
  }

  function RecordOf(d: seq<byte>, p: nat): seq<byte>
    requires RecordAt(d, p)
  {
    d[p..p + d[p]]
  }

  function Entries(d: seq<byte>, ps: seq<nat>, iso: bool): (es: seq<Entry>)
    requires AllRecords(d, ps)
    ensures |es| == |ps|
  {
    seq(|ps|, k requires 0 <= k < |ps| => EntryOf(RecordOf(d, ps[k]), iso))
  }

  // A directory with the records that ISO 9660 demands, in any order of names.
  ghost predicate Standard(dir: Directory) {
    && dir.Placed()
    && WellFormed(dir.Contents(), 0)
    && AllRecords(dir.Contents(), Starts(dir.Contents(), 0))
    && Shaped(Entries(dir.Contents(), Starts(dir.Contents(), 0), dir.iso))
  }

  // ... with the cursor on a record.
  ghost predicate Searchable(dir: Directory)
    reads dir
  {
    Standard(dir) && dir.diroff in Starts(dir.Contents(), 0)
  }

  datatype Answer = TooLong | Self | Parent(cdno: nat) | Child(cdno: nat) | NotFound

  // The answer for a name whose search ends at entry k, or finds nothing.
  ghost function AnswerAt(dir: Directory, nm: seq<byte>, k: nat): Answer
    requires Standard(dir) && k <= |Starts(dir.Contents(), 0)|
    reads dir
  {
    var d := dir.Contents();
    var ps := Starts(d, 0);
    var es := Entries(d, ps, dir.iso);
    if |nm| > MAXNAME then TooLong
    else if nm == [DOT] then Self
    else if k == |es| then NotFound
    else if IsParent(nm, es[k]) then
      Parent(if dir.pnum != 0 then dir.pnum else ParentNumber(dir.fs, d, ps[1]))
    else Child(CdnoOf(dir.fs, dir.Base(), dir.iso, RecordOf(d, ps[k]), ps[k]))
  }

  ghost function EntriesOf(dir: Directory): seq<Entry>
    requires Standard(dir)
  {
    Entries(dir.Contents(), Starts(dir.Contents(), 0), dir.iso)
  }

  // How far entry j lies ahead of entry i, going round.
  function Ahead(i: nat, j: nat, n: nat): int { if j >= i then j - i else j + n - i }

  // No entry matches that is not among the left next ones from i on.
  ghost predicate Excluded(es: seq<Entry>, nm: seq<byte>, i: nat, left: nat) {
    forall j: nat {:trigger Matches(nm, es[j])} :: j < |es| && Ahead(i, j, |es|) >= left ==> !Matches(nm, es[j])
  }

  // Passing over entry i.
  lemma Passed(es: seq<Entry>, nm: seq<byte>, i: nat, left: nat)
    requires i < |es| && 0 < left <= |es| && Excluded(es, nm, i, left) && !Matches(nm, es[i])
    ensures Excluded(es, nm, Turn(i, 1, |es|), left - 1)
  {
    var next := Turn(i, 1, |es|);
    forall j: nat | j < |es| && Ahead(next, j, |es|) >= left - 1 ensures !Matches(nm, es[j]) {
      if j != i { assert Ahead(i, j, |es|) == Ahead(next, j, |es|) + 1; }
    }
  }

  // The shortcut for a name before that of entry e: only the entries before the
  // one the search started at can match.
  lemma ShortcutBack(es: seq<Entry>, nm: seq<byte>, start: nat, e: nat, left: nat)
    requires Ordered(es) && start <= e < |es| && left == |es| - (e - start) && Excluded(es, nm, e, left)
    requires !es[e].skipped && e >= 2 && Less(nm, es[e].id)
    ensures Excluded(es, nm, 0, start)
  {
    forall j: nat | j < |es| && Ahead(0, j, |es|) >= start ensures !Matches(nm, es[j]) {
      if j >= e { NoneAfter(es, nm, e, j); }
    }
  }

  // ... and for a name after it: only the entries after this one.
  lemma ShortcutAhead(es: seq<Entry>, nm: seq<byte>, e: nat)
    requires Ordered(es) && e < |es| && !es[e].skipped && !IsParent(nm, es[e])
    requires Char(nm) >= DOT && Less(CString(es[e].id), nm)
    ensures Excluded(es, nm, Turn(e, 1, |es|), |es| - 1 - e)
  {
    var next := Turn(e, 1, |es|);
    forall j: nat | j < |es| && Ahead(next, j, |es|) >= |es| - 1 - e ensures !Matches(nm, es[j]) {
      assert j <= e;
      NoneBefore(es, nm, e, j);
    }
  }

  // The first entries, and so every entry whose name is less than that of the
  // name looked up only by being one of them, never send the search back.
  lemma OnlyNamesSendBack(es: seq<Entry>, nm: seq<byte>, e: nat)
    requires Ordered(es) && e < |es| && Char(nm) >= DOT && Less(nm, CString(es[e].id))
    ensures e >= 2 && CString(es[e].id) == es[e].id
  {
    assert e >= 2 ==> NameFits(es[e]);
  }

  // What one record tells about the name: that it is passed over, that it is
  // the parent or the name looked up, or that the name comes before or after.
  datatype Verdict = Pass | TheParent | Hit | Before | After

  function Max(a: nat, b: nat): nat { if a > b then a else b }

  function VerdictOn(nm: seq<byte>, e: Entry): Verdict {
    if e.skipped then Pass
    else if IsParent(nm, e) then TheParent
    else
      var direction := Strncmp(nm, CString(e.id), Max(|nm|, |e.id|));
      if direction == 0 then Hit else if direction < 0 then Before else After
  }

  // Before and After are what they say, and the others are the only matches.
  ghost predicate Judged(nm: seq<byte>, e: Entry, v: Verdict) {
    && (v.Pass? <==> e.skipped)
    && (v.TheParent? <==> !e.skipped && IsParent(nm, e))
    && (v.Hit? ==> Matches(nm, e) && !IsParent(nm, e))
    && (v.Pass? || v.Before? || v.After? ==> !Matches(nm, e))
    && (v.Before? <==> !e.skipped && !IsParent(nm, e) && Less(nm, CString(e.id)))
    && (v.After? <==> !e.skipped && !IsParent(nm, e) && Less(CString(e.id), nm))
  }

  // Passed over are associated files and all sections of a file but the last:
  // bits 2 and 7 of the flags, which the older HSG format has one byte earlier.
  lemma PassedOverIs(rec: seq<byte>, iso: bool)
    requires |rec| >= MINRECORD && ID + rec[IDLEN] <= |rec|
    ensures var flags := rec[if iso then 25 else 24];
      EntryOf(rec, iso).skipped <==> flags % 8 >= 4 || flags >= 128
    ensures |EntryOf(rec, iso).id| == rec[32] as int
    ensures forall k: nat :: k < rec[32] ==> EntryOf(rec, iso).id[k] == rec[33 + k]
  {
    var flags := rec[if iso then 25 else 24];
    assert flags / 4 == 2 * (flags / 8) + (flags % 8) / 4;
  }

  lemma VerdictMeans(nm: seq<byte>, e: Entry)
    requires Proper(nm)
    ensures Judged(nm, e, VerdictOn(nm, e))
  {
    StrncmpDecides(nm, CString(e.id), Max(|nm|, |e.id|));
  }

  method Judge(nm: seq<byte>, rec: seq<byte>, iso: bool) returns (v: Verdict)
    requires Proper(nm) && Legible(rec)
    ensures v == VerdictOn(nm, EntryOf(rec, iso)) && Judged(nm, EntryOf(rec, iso), v)
  {
    VerdictMeans(nm, EntryOf(rec, iso));
    var flags := FlagsOf(rec, iso);
    if IsAssociated(flags) || IsNotLast(flags) { return Pass; }
    var idlen := rec[IDLEN];
    var id := rec[ID..ID + idlen];
    assert id == [1] <==> id[0] == 1 && idlen == 1;
    if IsDotDot(nm) && id[0] == 1 && idlen == 1 { return TheParent; }
    var direction := Strncmp(nm, CString(id), Max(|nm|, idlen));
    v := if direction == 0 then Hit else if direction < 0 then Before else After;
  }

  predicate Legible(rec: seq<byte>) {
    |rec| >= MINRECORD && 1 <= rec[IDLEN] <= MAXNAME && ID + rec[IDLEN] <= |rec|
  }

  // The record that get_dir_rec copies tells the same.
  lemma CopyTellsAll(fs: Cdfs, base: nat, d: seq<byte>, p: nat, iso: bool)
    requires RecordAt(d, p) && d[p + IDLEN] <= MAXNAME
    ensures var rec := d[p..p + Copied(true, d[p])];
      && |rec| >= MINRECORD && ID + rec[IDLEN] <= |rec| && rec[IDLEN] == d[p + IDLEN]
      && EntryOf(rec, iso) == EntryOf(RecordOf(d, p), iso)
      && CdnoOf(fs, base, iso, rec, p) == CdnoOf(fs, base, iso, RecordOf(d, p), p)
  {
    var n := Copied(true, d[p]);
    PartTellsAll(d, p, n);
    SameBytes(d[p..p + n], RecordOf(d, p));
  }

  lemma PartTellsAll(d: seq<byte>, p: nat, n: nat)
    requires RecordAt(d, p) && MINRECORD <= n <= d[p] && ID + d[p + IDLEN] <= n
    ensures var rec, all := d[p..p + n], d[p..p + d[p]];
      && |rec| == n && |all| == d[p]
      && (forall k: nat :: k < MINRECORD ==> rec[k] == all[k])
      && all[IDLEN] == d[p + IDLEN] && rec[ID..ID + all[IDLEN]] == all[ID..ID + all[IDLEN]]
  {
    SliceOfSlice(d, p, p + n, ID, d[p + IDLEN]);
    SliceOfSlice(d, p, p + d[p], ID, d[p + IDLEN]);
  }

  lemma SameBytes(rec: seq<byte>, all: seq<byte>)
    requires MINRECORD <= |rec| <= |all| && forall k: nat :: k < MINRECORD ==> rec[k] == all[k]
    ensures forall iso: bool :: FlagsOf(rec, iso) == FlagsOf(all, iso)
    ensures Word(rec, LOCATION) == Word(all, LOCATION) && rec[XARLEN] == all[XARLEN] && rec[IDLEN] == all[IDLEN]
  { }

  lemma ParentRecord(d: seq<byte>, ps: seq<nat>, iso: bool)
    requires AllRecords(d, ps) && Shaped(Entries(d, ps, iso))
    ensures d[ps[1] + ID] == 1
  {
    var p := ps[1];
    var rec := RecordOf(d, p);
    assert EntryOf(rec, iso).id == [1];
    assert rec[IDLEN] == d[p + IDLEN] && rec[ID] == d[p + ID];
    assert rec[ID..ID + rec[IDLEN]][0] == rec[ID];
  }

  // The cdnode number of the parent, worked out when it is not known yet.
  method ParentOf(dir: Directory) returns (cdno: nat)
    requires Standard(dir) && dir.diroff in Starts(dir.Contents(), 0)
    modifies dir`diroff, dir`pnum
    ensures dir.diroff in Starts(dir.Contents(), 0)
    ensures cdno ==
      old(if dir.pnum != 0 then dir.pnum else ParentNumber(dir.fs, dir.Contents(), Starts(dir.Contents(), 0)[1]))
  {
    if dir.pnum == 0 {
      ghost var d := dir.Contents();
      ParentRecord(d, Starts(d, 0), dir.iso);
      var ok := dir.FillPnum();
    }
    cdno := dir.pnum;
  }

  // Where the search is: at entry i, with left entries to look at before it
  // comes to entry stop, where it ends.
  datatype Place = Place(i: nat, stop: nat, left: nat)

  // The place is one among n entries, for a search that began with entry start.
  predicate InTurn(n: nat, w: Place, start: nat) {
    && w.i < n && w.stop < n && w.left <= n && start < n
    && (w.left == n || w.left == Ahead(w.i, w.stop, n))
    && (w.left == n ==> w.i == w.stop)
  }

  // What the search of an ordered directory relies on; shortcut is whether it
  // was taken.
  ghost predicate InSearch(es: seq<Entry>, nm: seq<byte>, w: Place, start: nat, shortcut: bool) {
    && InTurn(|es|, w, start)
    && Excluded(es, nm, w.i, w.left)
    && (!shortcut ==> w.stop == start)
    && (!shortcut ==> (w.i >= start && w.left == |es| - (w.i - start)) || (w.i == 0 && w.left == start))
  }

  function StepOn(w: Place, n: nat): Place
    requires w.i < n && w.left > 0
  {
    Place(Turn(w.i, 1, n), w.stop, w.left - 1)
  }

  lemma StepKeeps(es: seq<Entry>, nm: seq<byte>, w: Place, start: nat, shortcut: bool)
    requires Ordered(es) && InSearch(es, nm, w, start, shortcut) && w.left > 0 && !Matches(nm, es[w.i])
    requires shortcut || es[w.i].skipped
    ensures InSearch(es, nm, StepOn(w, |es|), start, shortcut) && StepOn(w, |es|).left < |es|
  {
    Passed(es, nm, w.i, w.left);
  }

  lemma BackKeeps(es: seq<Entry>, nm: seq<byte>, w: Place, start: nat)
    requires Ordered(es) && InSearch(es, nm, w, start, false) && w.left > 0
    requires Char(nm) >= DOT && !es[w.i].skipped && Less(nm, CString(es[w.i].id))
    ensures InSearch(es, nm, Place(0, start, start), start, true)
  {
    OnlyNamesSendBack(es, nm, w.i);
    ShortcutBack(es, nm, start, w.i, w.left);
  }

  lemma AheadKeeps(es: seq<Entry>, nm: seq<byte>, w: Place, start: nat)
    requires Ordered(es) && InSearch(es, nm, w, start, false)
    requires Char(nm) >= DOT && !es[w.i].skipped && !IsParent(nm, es[w.i]) && Less(CString(es[w.i].id), nm)
    ensures InSearch(es, nm, Place(Turn(w.i, 1, |es|), 0, |es| - 1 - w.i), start, true)
  {
    ShortcutAhead(es, nm, w.i);
  }

  lemma NothingLeft(es: seq<Entry>, nm: seq<byte>, i: nat)
    requires Excluded(es, nm, i, 0) && i < |es|
    ensures Scan(es, nm, 0) == |es|
  { }

  predicate Increasing(ps: seq<nat>) {
    forall i: nat, j: nat :: i < j < |ps| ==> ps[i] < ps[j]
  }

  // Where the search goes after entry w.i was judged v.
  function Move(w: Place, v: Verdict, shortcut: bool, start: nat, n: nat): Place
    requires w.i < n && w.left > 0
  {
    if shortcut || v.Pass? then StepOn(w, n)
    else if v.Before? then Place(0, start, start)
    else Place(Turn(w.i, 1, n), 0, n - 1 - w.i)
  }

  // The search is over exactly when the cursor is where it was to stop.
  lemma MoveStays(ps: seq<nat>, w: Place, v: Verdict, start: nat, shortcut: bool)
    requires Increasing(ps) && InTurn(|ps|, w, start) && w.left > 0
    ensures var w2 := Move(w, v, shortcut, start, |ps|);
      InTurn(|ps|, w2, start) && (ps[w2.i] == ps[w2.stop] <==> w2.left == 0)
    ensures shortcut || v.Pass? ==> Move(w, v, shortcut, start, |ps|).left < w.left
  { }

  // Every move in an ordered directory leaves out only entries that do not match.
  lemma MoveKeeps(es: seq<Entry>, nm: seq<byte>, w: Place, v: Verdict, start: nat, shortcut: bool)
    requires Ordered(es) && InSearch(es, nm, w, start, shortcut) && w.left > 0
    requires Judged(nm, es[w.i], v) && (v.Pass? || v.Before? || v.After?)
    requires !shortcut ==> Char(nm) >= DOT
    ensures InSearch(es, nm, Move(w, v, shortcut, start, |es|), start, shortcut || !v.Pass?)
  {
    if shortcut || v.Pass? { StepKeeps(es, nm, w, start, shortcut); }
    else if v.Before? { BackKeeps(es, nm, w, start); }
    else { AheadKeeps(es, nm, w, start); }
  }

  // The entry at which the search ends, |es| if it finds nothing.
  function SearchFrom(es: seq<Entry>, nm: seq<byte>, w: Place, start: nat, shortcut: bool): (k: nat)
    requires InTurn(|es|, w, start)
    ensures k <= |es|
    decreases if shortcut then 0 else 1, w.left
  {
    if w.left == 0 then |es|
    else
      var v := VerdictOn(nm, es[w.i]);
      if v.Hit? || v.TheParent? then w.i
      else SearchFrom(es, nm, Move(w, v, shortcut, start, |es|), start, shortcut || !v.Pass?)
  }

  // The search for a name with the cursor on entry start.
  function SearchOf(es: seq<Entry>, nm: seq<byte>, start: nat): (k: nat)
    requires start < |es|
    ensures k <= |es|
  {
    SearchFrom(es, nm, Place(start, start, |es|), start, Char(nm) < DOT)
  }

  lemma {:induction false} SearchFinds(es: seq<Entry>, nm: seq<byte>, w: Place, start: nat, shortcut: bool)
    requires Ordered(es) && Proper(nm) && InSearch(es, nm, w, start, shortcut)
    requires !shortcut ==> Char(nm) >= DOT
    ensures SearchFrom(es, nm, w, start, shortcut) == Scan(es, nm, 0)
    decreases if shortcut then 0 else 1, w.left
  {
    if w.left == 0 {
      NothingLeft(es, nm, w.i);
    } else {
      var v := VerdictOn(nm, es[w.i]);
      VerdictMeans(nm, es[w.i]);
      if v.Hit? || v.TheParent? {
        OnlyMatch(es, nm, w.i);
      } else {
        MoveKeeps(es, nm, w, v, start, shortcut);
        SearchFinds(es, nm, Move(w, v, shortcut, start, |es|), start, shortcut || !v.Pass?);
      }
    }
  }

  // What can be looked up in the records: no name too long, and not ".".
  predicate LookedUp(nm: seq<byte>) { Proper(nm) && |nm| <= MAXNAME && nm != [DOT] }

  // From any entry on, any name is found as a scan from the first entry on
  // finds it.
  ghost predicate FindsAsScan(es: seq<Entry>) {
    forall nm: seq<byte>, start: nat :: LookedUp(nm) && start < |es| ==> SearchOf(es, nm, start) == Scan(es, nm, 0)
  }

  // ... exactly when the names are in the order of strncmp.
  lemma FindsAsScanExactly(es: seq<Entry>)
    requires Shaped(es)
    ensures FindsAsScan(es) <==> Ordered(es)
  {
    if Ordered(es) {
      forall nm: seq<byte>, start: nat | LookedUp(nm) && start < |es|
        ensures SearchOf(es, nm, start) == Scan(es, nm, 0)
      {
        SearchFinds(es, nm, Place(start, start, |es|), start, Char(nm) < DOT);
      }
    }
    if FindsAsScan(es) {
      forall k: nat | 2 <= k < |es| ensures AfterDots(es[k]) { MustComeAfterDots(es, k); }
      forall j: nat, k: nat | 2 <= j < k < |es| ensures InOrder(es[j], es[k]) { MustBeInOrder(es, j, k); }
    }
  }

  // A name before "." is looked for all the way round, in any order: what is
  // found is the first match from the cursor on, and nothing only if there is none.
  lemma FullRound(es: seq<Entry>, nm: seq<byte>, start: nat)
    requires start < |es| && Proper(nm) && Char(nm) < DOT
    ensures var k := SearchOf(es, nm, start);
      && (k < |es| ==> Matches(nm, es[k]))
      && forall j: nat :: j < |es| && Matches(nm, es[j]) ==> k < |es| && Ahead(start, k, |es|) <= Ahead(start, j, |es|)
  {
    RoundFrom(es, nm, Place(start, start, |es|), start);
  }

  lemma {:induction false} RoundFrom(es: seq<Entry>, nm: seq<byte>, w: Place, start: nat)
    requires InTurn(|es|, w, start) && w.stop == start && Proper(nm)
    requires Excluded(es, nm, w.i, w.left)
    ensures var k := SearchFrom(es, nm, w, start, true);
      && (k < |es| ==> Matches(nm, es[k]) && Ahead(w.i, k, |es|) < w.left)
      && forall j: nat :: j < |es| && Matches(nm, es[j]) ==> k < |es| && Ahead(w.i, k, |es|) <= Ahead(w.i, j, |es|)
    decreases w.left
  {
    if w.left == 0 {
      NothingLeft(es, nm, w.i);
    } else {
      VerdictMeans(nm, es[w.i]);
      if !Matches(nm, es[w.i]) {
        Passed(es, nm, w.i, w.left);
        var next := StepOn(w, |es|);
        RoundFrom(es, nm, next, start);
        forall j: nat | j < |es| && j != w.i ensures Ahead(w.i, j, |es|) == Ahead(next.i, j, |es|) + 1 { }
      }
    }
  }

  // What the lookup of a name in an ordered directory answers: the directory for
  // ".", the parent for "..", and for any other name that is not too long the
  // one entry that has it, if there is one and it is not passed over.
  lemma AnswerFacts(dir: Directory, nm: seq<byte>)
    requires Standard(dir) && Ordered(EntriesOf(dir)) && Proper(nm)
    ensures var es := EntriesOf(dir);
      var a := AnswerAt(dir, nm, Scan(es, nm, 0));
      && (a.TooLong? <==> |nm| > 37)
      && (a.Self? <==> nm == [46])
      && (a.Parent? <==> nm == [46, 46])
      && (a.Child? <==> |nm| <= 37 && nm != [46] && nm != [46, 46]
                        && exists k: nat :: k < |es| && !es[k].skipped && CString(es[k].id) == nm)
  {
    var es := EntriesOf(dir);
    var k := Scan(es, nm, 0);
    if nm == [46, 46] {
      assert Matches(nm, es[1]) && !Matches(nm, es[0]);
      assert Scan(es, nm, 1) == 1;
    } else if k < |es| {
      assert !es[k].skipped && CString(es[k].id) == nm;
    } else {
      assert forall j: nat :: j < |es| ==> !Matches(nm, es[j]);
    }
  }

  // From the last entry back: a search that comes to look for the end of the
  // directory finds nothing before it.
  lemma {:induction false} OnlyAhead(es: seq<Entry>, nm: seq<byte>, i: nat, start: nat)
    requires i < |es| && start < |es|
    ensures var w := Place(Turn(i, 1, |es|), 0, |es| - 1 - i);
      InTurn(|es|, w, start) && SearchFrom(es, nm, w, start, true) > i
    decreases |es| - i
  {
    if i + 1 < |es| { OnlyAhead(es, nm, i + 1, start); }
  }

  // A name that comes after the entry at the cursor is looked for beyond it,
  // and one that is the entry's is found there.
  lemma NotBefore(es: seq<Entry>, nm: seq<byte>, k: nat)
    requires k < |es| && Proper(nm) && Char(nm) >= DOT && !es[k].skipped && !IsParent(nm, es[k])
    requires !Less(nm, CString(es[k].id))
    ensures SearchOf(es, nm, k) >= k
  {
    VerdictMeans(nm, es[k]);
    StrncmpDecides(nm, CString(es[k].id), Max(|nm|, |es[k].id|));
    OnlyAhead(es, nm, k, k);
  }

  lemma MustComeAfterDots(es: seq<Entry>, k: nat)
    requires Shaped(es) && FindsAsScan(es) && 2 <= k < |es|
    ensures AfterDots(es[k])
  {
    assert NameFits(es[k]);
    var nm := [DOT, DOT];
    if !AfterDots(es[k]) {
      assert Scan(es, nm, 1) == 1 && !Matches(nm, es[0]);
      assert LookedUp(nm) && SearchOf(es, nm, k) == 1;
      if es[k].id != [1] {
        NotBefore(es, nm, k);
      }
    }
  }

  lemma MustBeInOrder(es: seq<Entry>, j: nat, k: nat)
    requires Shaped(es) && FindsAsScan(es) && 2 <= j < k < |es|
    ensures InOrder(es[j], es[k])
  {
    assert NameFits(es[j]) && NameFits(es[k]);
    if !InOrder(es[j], es[k]) {
      MustComeAfterDots(es, j);
      MustComeAfterDots(es, k);
      var nm := es[j].id;
      assert [DOT, DOT][1..] == [DOT] && !Less([DOT, DOT], [DOT]);
      assert LookedUp(nm) && Matches(nm, es[j]);
      assert SearchOf(es, nm, k) == Scan(es, nm, 0);
      NotBefore(es, nm, k);
    }
  }

  // The entry at the cursor, which moves on.
  method NextEntry(dir: Directory, ghost d: seq<byte>, ghost ps: seq<nat>, ghost i: nat)
    returns (rec: seq<byte>, cdno: nat)
    requires Standard(dir) && d == dir.Contents() && ps == Starts(d, 0)
    requires i < |ps| && dir.diroff == ps[i]
    modifies dir`diroff
    ensures dir.diroff == ps[Turn(i, 1, |ps|)]
    ensures Legible(rec) && EntryOf(rec, dir.iso) == Entries(d, ps, dir.iso)[i]
    ensures cdno == CdnoOf(dir.fs, dir.Base(), dir.iso, RecordOf(d, ps[i]), ps[i])
  {
    StartsFrom(d, 0, i);
    NextStartIs(d, i);
    FetchTells(dir, d, ps, i);
    var got := dir.GetDirRec(true);
    rec, cdno := got.rec, got.cdno;
  }

  lemma FetchTells(dir: Directory, d: seq<byte>, ps: seq<nat>, i: nat)
    requires AllRecords(d, ps) && Shaped(Entries(d, ps, dir.iso)) && i < |ps|
    ensures var r := dir.FetchAt(d, ps[i], true);
      && r.Got? && Legible(r.rec)
      && EntryOf(r.rec, dir.iso) == Entries(d, ps, dir.iso)[i]
      && r.cdno == CdnoOf(dir.fs, dir.Base(), dir.iso, RecordOf(d, ps[i]), ps[i])
  {
    EntriesAt(d, ps, dir.iso, i);
    ShortNames(d, ps, dir.iso, i);
    FetchTellsAt(dir, d, ps[i]);
  }

  lemma FetchTellsAt(dir: Directory, d: seq<byte>, p: nat)
    requires RecordAt(d, p) && d[p + IDLEN] <= MAXNAME
    ensures var r := dir.FetchAt(d, p, true);
      && r.Got? && Legible(r.rec)
      && EntryOf(r.rec, dir.iso) == EntryOf(RecordOf(d, p), dir.iso)
      && r.cdno == CdnoOf(dir.fs, dir.Base(), dir.iso, RecordOf(d, p), p)
  {
    CopyTellsAll(dir.fs, dir.Base(), d, p, dir.iso);
  }

  lemma EntriesAt(d: seq<byte>, ps: seq<nat>, iso: bool, i: nat)
    requires AllRecords(d, ps) && i < |ps|
    ensures Entries(d, ps, iso)[i] == EntryOf(RecordOf(d, ps[i]), iso)
    ensures |Entries(d, ps, iso)[i].id| == d[ps[i] + IDLEN]
  { }

  lemma ShortNames(d: seq<byte>, ps: seq<nat>, iso: bool, i: nat)
    requires AllRecords(d, ps) && Shaped(Entries(d, ps, iso)) && i < |ps|
    ensures d[ps[i] + IDLEN] <= MAXNAME
  {
    EntriesAt(d, ps, iso, i);
    var es := Entries(d, ps, iso);
    if i < 2 { assert |es[i].id| == 1; } else { assert NameFits(es[i]); }
  }

  lemma StartsIncrease(d: seq<byte>)
    requires WellFormed(d, 0)
    ensures Increasing(Starts(d, 0)) && (|Starts(d, 0)| > 0 ==> Starts(d, 0)[0] == 0)
  {
    StartsAreRecords(d, 0);
    if d != [] { SectorBegins(d, 0); }
  }

  // One round of the search: looks at entry w.i and moves on.
  method Round(dir: Directory, nm: seq<byte>, shortcut0: bool, saved0: nat,
               ghost d: seq<byte>, ghost ps: seq<nat>, ghost es: seq<Entry>, ghost w: Place, ghost start: nat)
    returns (v: Verdict, cdno: nat, shortcut: bool, saved: nat)
    requires Standard(dir) && d == dir.Contents() && ps == Starts(d, 0) && es == Entries(d, ps, dir.iso)
    requires Proper(nm) && Increasing(ps) && ps[0] == 0 && (!shortcut0 ==> w.stop == start)
    requires InTurn(|ps|, w, start) && w.left > 0 && dir.diroff == ps[w.i] && saved0 == ps[w.stop]
    modifies dir`diroff
    ensures v == VerdictOn(nm, es[w.i])
    ensures v.Hit? || v.TheParent? ==>
      dir.diroff == ps[Turn(w.i, 1, |ps|)] && cdno == CdnoOf(dir.fs, dir.Base(), dir.iso, RecordOf(d, ps[w.i]), ps[w.i])
    ensures v.Pass? || v.Before? || v.After? ==>
      && shortcut == (shortcut0 || !v.Pass?)
      && Reached(dir.diroff, saved, ps, Move(w, v, shortcut0, start, |ps|), start, shortcut)
  {
    var rec;
    rec, cdno := NextEntry(dir, d, ps, w.i);
    v := Judge(nm, rec, dir.iso);
    shortcut, saved := shortcut0, saved0;
    if v.TheParent? || v.Hit? { return; }
    MoveStays(ps, w, v, start, shortcut);
    if !shortcut && !v.Pass? {
      shortcut := true;
      if v.Before? { dir.diroff := 0; } else { saved := 0; }
    }
  }

  // The cursor and the end of the search are where w has them.
  ghost predicate Reached(diroff: nat, saved: nat, ps: seq<nat>, w: Place, start: nat, shortcut: bool) {
    && InTurn(|ps|, w, start) && diroff == ps[w.i] && saved == ps[w.stop] && (saved == diroff <==> w.left == 0)
    && (!shortcut ==> w.stop == start)
  }

  // The search: the entry at which it ends, if the name is there.
  method Search(dir: Directory, nm: seq<byte>, ghost d: seq<byte>, ghost ps: seq<nat>, ghost es: seq<Entry>,
                ghost start: nat)
    returns (v: Verdict, cdno: nat, ghost k: nat)
    requires Standard(dir) && d == dir.Contents() && ps == Starts(d, 0) && es == Entries(d, ps, dir.iso)
    requires Proper(nm) && start < |ps| && dir.diroff == ps[start]
    modifies dir`diroff
    ensures dir.diroff in ps && k == SearchOf(es, nm, start)
    ensures if k == |es| then v.Pass? else v == VerdictOn(nm, es[k]) && (v.Hit? || v.TheParent?)
    ensures k < |es| ==> dir.diroff == ps[Turn(k, 1, |ps|)]
    ensures k < |es| ==> cdno == CdnoOf(dir.fs, dir.Base(), dir.iso, RecordOf(d, ps[k]), ps[k])
  {
    StartsIncrease(d);
    var shortcut := Char(nm) < DOT;
    var saved := dir.diroff;
    ghost var w := Place(start, start, |ps|);
    var more := true;
    while more
      modifies dir`diroff
      invariant InTurn(|ps|, w, start) && more == (w.left != 0) && (!shortcut ==> w.stop == start)
      invariant dir.diroff == ps[w.i] && saved == ps[w.stop]
      invariant SearchFrom(es, nm, w, start, shortcut) == SearchOf(es, nm, start)
      decreases if shortcut then 0 else 1, w.left
    {
      ghost var was := shortcut;
      v, cdno, shortcut, saved := Round(dir, nm, shortcut, saved, d, ps, es, w, start);
      if v.TheParent? || v.Hit? {
        k := w.i;
        return;
      }
      w := Move(w, v, was, start, |es|);
      more := saved != dir.diroff;
    }
    v, cdno, k := Pass, 0, |es|;
  }

  // The lookup answers what its search finds, and leaves the cursor on the
  // record after a child; in an ordered directory that is
  // what a scan from the first record on finds, whatever record the cursor is
  // on.
  method Lookup(dir: Directory, nm: seq<byte>, ghost start: nat) returns (a: Answer)
    requires Standard(dir) && Proper(nm)
    requires start < |Starts(dir.Contents(), 0)| && dir.diroff == Starts(dir.Contents(), 0)[start]
    modifies dir`diroff, dir`pnum
    ensures Searchable(dir)
    ensures a == old(AnswerAt(dir, nm, SearchOf(EntriesOf(dir), nm, start)))
    ensures a.Child? ==>
      var ps := Starts(dir.Contents(), 0);
      dir.diroff == ps[Turn(SearchOf(EntriesOf(dir), nm, start), 1, |ps|)]
    ensures Ordered(EntriesOf(dir)) ==> a == old(AnswerAt(dir, nm, Scan(EntriesOf(dir), nm, 0)))
  {
    ghost var d := dir.Contents();
    ghost var ps := Starts(d, 0);
    ghost var es := Entries(d, ps, dir.iso);
    if |nm| > MAXNAME { return TooLong; }
    if nm == [DOT] { return Self; }
    FindsAsScanExactly(es);
    assert LookedUp(nm);
    var v, cdno, k := Search(dir, nm, d, ps, es, start);
    if k < |es| { VerdictMeans(nm, es[k]); }
    if v.TheParent? || v.Hit? {
      if v.TheParent? {
        cdno := ParentOf(dir);
        a := Parent(cdno);
      } else {
        a := Child(cdno);
      }
    } else {
      a := NotFound;
    }
  }

}
