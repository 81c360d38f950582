/**
 * The numbers of a directory's entries: those that a listing returns and those
 * that the lookup of their names answers are the same.
 */
module CdfsNumbers {
  import opened Common
  import opened CdfsGeometry
  import opened CdfsRead
  import opened CdfsDir
  import opened CdfsDirents
  import opened CdfsReaddir
  import L = CdfsLookup

  const DOTDOT: seq<byte> := [46, 46]

  // What is looked at, and listed: a directory with proper names.
  ghost predicate Named(dir: Directory, node: Cdnode, c: Context)
    reads dir
  {
    L.Standard(dir) && Listable(dir, node, c) && OwnNumbers(dir, c) && Convertible(c, dir.Contents())
  }

  lemma IdOfEntry(d: seq<byte>, p: nat, iso: bool)
    requires RecordAt(d, p)
    ensures L.EntryOf(L.RecordOf(d, p), iso).id == IdOf(d, p)
  {
    SliceOfSlice(d, p, p + d[p], ID, d[p + IDLEN]);
  }

  lemma NamesOf(dir: Directory, k: nat)
    requires L.Standard(dir) && k < |Starts(dir.Contents(), 0)|
    ensures var p := Starts(dir.Contents(), 0)[k];
      RecordAt(dir.Contents(), p) && L.EntriesOf(dir)[k].id == IdOf(dir.Contents(), p) && (k == 0 <==> p == 0)
  {
    var d, ps := dir.Contents(), Starts(dir.Contents(), 0);
    assert RecordAt(d, ps[k]);
    IdOfEntry(d, ps[k], dir.iso);
    L.StartsIncrease(d);
    if k > 0 { assert ps[0] < ps[k]; }
  }

  // The entry listed for record k.
  lemma ItemIs(c: Context, d: seq<byte>, k: nat)
    requires WellFormed(d, 0) && k < |Starts(d, 0)|
    ensures AllHaveFields(d, Starts(d, 0))
    ensures var ps, items := Starts(d, 0), Items(c, d, Starts(d, 0));
      && |items| == |ps| && items[k].pos == Down(ps[k]) && items[k].e.fileno == FilenoOf(c, d, ps[k])
      && items[k].e.name == NameOf(c, d, ps[k]) && items[k].e.namlen == NamlenOf(c, d, ps[k])
  {
    StartsHaveFields(d);
  }

  lemma EntriesAre(dir: Directory, node: Cdnode, c: Context)
    requires Listable(dir, node, c)
    ensures AllHaveFields(dir.Contents(), Starts(dir.Contents(), 0))
    ensures Entries(dir, node, c) == Items(c, dir.Contents(), Starts(dir.Contents(), 0))
  {
    StartsHaveFields(dir.Contents());
  }

  // The first entry listed is ".", with the number of the directory: the address
  // in bytes of its first record.
  lemma DotIsListed(dir: Directory, node: Cdnode, c: Context)
    requires Named(dir, node, c)
    ensures var items := Entries(dir, node, c);
      && |items| >= 2 && items[0].pos == 0 && items[0].e.name == [46]
      && items[0].e.fileno == (dir.f.loc + dir.f.xarlen) * dir.fs.lbsize % 0x1_0000_0000
  {
    EntriesAre(dir, node, c);
    ItemIs(c, dir.Contents(), 0);
    NamesOf(dir, 0);
    ShlIs(dir.f.loc + dir.f.xarlen, dir.fs.lbshift, dir.fs.lbsize);
  }

  // The second is "..", with the number that the lookup of ".." answers.
  lemma DotDotIsListed(dir: Directory, node: Cdnode, c: Context)
    requires Named(dir, node, c)
    ensures var items := Entries(dir, node, c);
      && |items| >= 2 && items[1].e.name == DOTDOT && items[1].e.namlen == 2
      && L.Scan(L.EntriesOf(dir), DOTDOT, 0) == 1
      && L.AnswerAt(dir, DOTDOT, 1).Parent?
      && items[1].e.fileno == L.AnswerAt(dir, DOTDOT, 1).cdno % 0x1_0000_0000
  {
    EntriesAre(dir, node, c);
    NamesOf(dir, 1);
    AnswerOfParent(dir);
    ParentItemIs(c, dir.Contents());
  }

  lemma ParentItemIs(c: Context, d: seq<byte>)
    requires WellFormed(d, 0) && |Starts(d, 0)| >= 2 && AllHaveFields(d, Starts(d, 0)) && c.parent.Some?
    requires IdOf(d, Starts(d, 0)[1]) == [1] && Starts(d, 0)[1] > 0
    ensures var e := Items(c, d, Starts(d, 0))[1].e;
      e.name == DOTDOT && e.namlen == 2 && e.fileno == c.parent.value % 0x1_0000_0000
  {
    ItemIs(c, d, 1);
    ParentEntryIs(c, d, Starts(d, 0)[1]);
  }

  lemma ParentEntryIs(c: Context, d: seq<byte>, p: nat)
    requires HasFields(d, p) && p > 0 && IdOf(d, p) == [1] && c.parent.Some?
    ensures FilenoOf(c, d, p) == c.parent.value % 0x1_0000_0000 && NameOf(c, d, p) == DOTDOT && NamlenOf(c, d, p) == 2
  { }

  lemma AnswerOfParent(dir: Directory)
    requires L.Standard(dir)
    ensures L.Scan(L.EntriesOf(dir), DOTDOT, 0) == 1 && KnownParent(dir).Some?
    ensures L.AnswerAt(dir, DOTDOT, 1) == L.Parent(KnownParent(dir).value)
  {
    NamesOf(dir, 1);
    ParentIsFirst(L.EntriesOf(dir));
    var d, ps := dir.Contents(), Starts(dir.Contents(), 0);
    assert IdOf(d, ps[1])[0] == d[ps[1] + ID];
  }

  lemma ParentIsFirst(es: seq<L.Entry>)
    requires L.Shaped(es)
    ensures L.Scan(es, DOTDOT, 0) == 1 && L.IsParent(DOTDOT, es[1])
  {
    assert L.Matches(DOTDOT, es[1]) && !L.Matches(DOTDOT, es[0]);
    assert L.Scan(es, DOTDOT, 1) == 1;
  }

  // Every other entry is listed with its own name, and looking that name up, in
  // an ordered directory, answers the number listed.
  lemma ListedAsLookedUp(dir: Directory, node: Cdnode, c: Context, k: nat)
    requires Named(dir, node, c) && L.Ordered(L.EntriesOf(dir))
    requires 2 <= k < |L.EntriesOf(dir)| && !L.EntriesOf(dir)[k].skipped
    ensures var items, nm := Entries(dir, node, c), L.EntriesOf(dir)[k].id;
      && k < |items| && items[k].e.name == nm && items[k].e.namlen == |nm|
      && L.AnswerAt(dir, nm, L.Scan(L.EntriesOf(dir), nm, 0)) == L.Child(items[k].e.fileno)
  {
    EntriesAre(dir, node, c);
    NamesOf(dir, k);
    OwnNameIsFound(L.EntriesOf(dir), k);
    AnswerOfName(dir, k);
    PlainItemIs(c, dir.Contents(), k);
  }

  lemma PlainItemIs(c: Context, d: seq<byte>, k: nat)
    requires WellFormed(d, 0) && k < |Starts(d, 0)| && AllHaveFields(d, Starts(d, 0)) && c.offset == 0
    requires IdOf(d, Starts(d, 0)[k]) != [1] && Starts(d, 0)[k] > 0
    ensures var e, p := Items(c, d, Starts(d, 0))[k].e, Starts(d, 0)[k];
      && e.name == IdOf(d, p) && e.namlen == |IdOf(d, p)|
      && e.fileno == CdnoOf(c.fs, c.base, c.iso, d[p..p + d[p]], p)
  {
    ItemIs(c, d, k);
  }

  lemma OwnNameIsFound(es: seq<L.Entry>, k: nat)
    requires L.Ordered(es) && 2 <= k < |es| && !es[k].skipped
    ensures var nm := es[k].id;
      && |nm| <= L.MAXNAME && nm != [L.DOT] && !L.IsDotDot(nm) && nm != [1] && L.Scan(es, nm, 0) == k
  {
    assert L.NameFits(es[k]) && L.AfterDots(es[k]);
    NotSpecial(es[k].id);
    assert L.Matches(es[k].id, es[k]);
    L.OnlyMatch(es, es[k].id, k);
  }

  lemma AnswerOfName(dir: Directory, k: nat)
    requires L.Standard(dir) && k < |L.EntriesOf(dir)|
    requires var nm := L.EntriesOf(dir)[k].id; |nm| <= L.MAXNAME && nm != [L.DOT] && !L.IsDotDot(nm)
    ensures var d, ps := dir.Contents(), Starts(dir.Contents(), 0);
      && RecordAt(d, ps[k])
      && L.AnswerAt(dir, L.EntriesOf(dir)[k].id, k) ==
           L.Child(CdnoOf(dir.fs, dir.Base(), dir.iso, d[ps[k]..ps[k] + d[ps[k]]], ps[k]))
  {
    NamesOf(dir, k);
  }

  lemma NotSpecial(nm: seq<byte>)
    requires L.Less([L.DOT, L.DOT], nm)
    ensures nm != [L.DOT] && !L.IsDotDot(nm) && nm != [1]
  {
    L.LessIsStrict([L.DOT, L.DOT], nm);
    assert [L.DOT, L.DOT][1..] == [L.DOT] && !L.Less([L.DOT, L.DOT], [L.DOT]);
  }

  // Record k is not of a directory.
  ghost predicate IsPlain(dir: Directory, k: nat)
    requires L.Standard(dir) && k < |Starts(dir.Contents(), 0)|
  {
    var d, p := dir.Contents(), Starts(dir.Contents(), 0)[k];
    RecordAt(d, p) && !IsDir(FlagsOf(L.RecordOf(d, p), dir.iso))
  }

  // Two names of files that are answered with one number are one name, of one
  // entry.
  lemma NamesHaveTheirOwnNumbers(dir: Directory, nm: seq<byte>, k: nat, nm2: seq<byte>, k2: nat)
    requires L.Standard(dir) && k < |L.EntriesOf(dir)| && k2 < |L.EntriesOf(dir)|
    requires L.Matches(nm, L.EntriesOf(dir)[k]) && L.Matches(nm2, L.EntriesOf(dir)[k2])
    requires L.AnswerAt(dir, nm, k).Child? && L.AnswerAt(dir, nm, k) == L.AnswerAt(dir, nm2, k2)
    requires IsPlain(dir, k) && IsPlain(dir, k2)
    ensures k == k2 && nm == nm2
  {
    ChildIs(dir, nm, k);
    ChildIs(dir, nm2, k2);
    SameNumber(dir, k, k2, L.AnswerAt(dir, nm, k).cdno);
  }

  // The number that get_dir_rec gives record k.
  ghost function NumberAt(dir: Directory, k: nat): nat
    requires L.Standard(dir) && k < |Starts(dir.Contents(), 0)|
    requires RecordAt(dir.Contents(), Starts(dir.Contents(), 0)[k])
  {
    var p := Starts(dir.Contents(), 0)[k];
    CdnoOf(dir.fs, dir.Base(), dir.iso, L.RecordOf(dir.Contents(), p), p)
  }

  lemma ChildIs(dir: Directory, nm: seq<byte>, k: nat)
    requires L.Standard(dir) && k < |L.EntriesOf(dir)| && L.Matches(nm, L.EntriesOf(dir)[k])
    requires L.AnswerAt(dir, nm, k).Child? && IsPlain(dir, k)
    ensures L.CString(L.EntriesOf(dir)[k].id) == nm && NumberAt(dir, k) == L.AnswerAt(dir, nm, k).cdno
  { }

  lemma SameNumber(dir: Directory, k: nat, k2: nat, cdno: nat)
    requires L.Standard(dir) && k < |Starts(dir.Contents(), 0)| && k2 < |Starts(dir.Contents(), 0)|
    requires IsPlain(dir, k) && IsPlain(dir, k2) && NumberAt(dir, k) == cdno == NumberAt(dir, k2)
    ensures k == k2
  {
    L.StartsIncrease(dir.Contents());
    SameRecord(dir.fs, dir.f, dir.iso, dir.Contents(), Starts(dir.Contents(), 0), k, k2);
  }

  lemma SameRecord(fs: Cdfs, f: File, iso: bool, d: seq<byte>, ps: seq<nat>, k: nat, k2: nat)
    requires Sound(fs) && |d| == f.size <= MAXINT && L.Increasing(ps) && k < |ps| && k2 < |ps|
    requires RecordAt(d, ps[k]) && !IsDir(FlagsOf(L.RecordOf(d, ps[k]), iso))
    requires RecordAt(d, ps[k2]) && !IsDir(FlagsOf(L.RecordOf(d, ps[k2]), iso))
    requires CdnoOf(fs, Shl(f.loc + f.xarlen, fs.lbshift), iso, L.RecordOf(d, ps[k]), ps[k]) ==
      CdnoOf(fs, Shl(f.loc + f.xarlen, fs.lbshift), iso, L.RecordOf(d, ps[k2]), ps[k2])
    ensures k == k2
  {
    FilesHaveTheirOwnNumbers(fs, f, iso, L.RecordOf(d, ps[k]), ps[k], L.RecordOf(d, ps[k2]), ps[k2]);
    SamePlace(ps, k, k2);
  }

  lemma SamePlace(ps: seq<nat>, k: nat, k2: nat)
    requires L.Increasing(ps) && k < |ps| && k2 < |ps| && ps[k] == ps[k2]
    ensures k == k2
  { }
}
