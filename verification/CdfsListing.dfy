/**
 * What a series of calls that list a directory returns, seen as a table of
 * entries: each call begins where the one before stopped counting, which is
 * short of the next entry.
 */
module CdfsListing {
  import opened CdfsDirents

  // An entry and its place, counted in bytes.
  datatype Item = Item(pos: nat, e: Dirent)

  // The room that an entry needs: Dreclen.
  function Needs(namlen: nat): nat { (namlen + NAME + 1 + 3) / 4 * 4 }

  function Pos(items: seq<Item>, k: nat, end: nat): nat { if k < |items| then items[k].pos else end }

  // The entries tile the bytes up to size, each with room for its name.
  predicate Tiled(items: seq<Item>, k: nat, size: nat)
    requires k < |items|
  {
    var it := items[k];
    && it.e.reclen > 0 && it.pos + it.e.reclen == Pos(items, k + 1, size)
    && Needs(it.e.namlen) <= it.e.reclen
  }

  predicate Table(items: seq<Item>, size: nat) {
    Pos(items, 0, size) == 0 && forall k: nat :: k < |items| ==> Tiled(items, k, size)
  }

  // Entries passed over: those before the offset asked for, and those without
  // a number. Places count from lo.
  predicate Passed(it: Item, lo: nat, u: nat) { lo + it.pos < u || it.e.fileno == 0 }

  predicate AllPassed(items: seq<Item>, k: nat, lo: nat, u: nat) {
    k <= |items| && forall m: nat :: m < k ==> Passed(items[m], lo, u)
  }

  // One call, for the offset from: it returns the entries i to j, and leaves
  // the offset to.
  datatype Call = Call(from: nat, i: nat, j: nat, to: nat)

  predicate AtEnd(items: seq<Item>, c: Call) { c.i == |items| }

  predicate Answers(items: seq<Item>, size: nat, c: Call) {
    if c.from >= size then c.i == c.j == |items| && c.to == c.from
    else
      && AllPassed(items, c.i, 0, c.from)
      && if c.i == |items| then c.j == c.i && c.to == size
         else
           && !Passed(items[c.i], 0, c.from) && c.i < c.j <= |items|
           && c.to == items[c.j - 1].pos + Needs(items[c.j - 1].e.namlen)
  }

  // Calls from the start of the directory on.
  predicate Series(items: seq<Item>, size: nat, calls: seq<Call>) {
    && (forall t: nat :: t < |calls| ==> Answers(items, size, calls[t]))
    && (forall t: nat :: t < |calls| ==> GoesOn(calls, t))
  }

  // A call begins where the one before ended.
  predicate GoesOn(calls: seq<Call>, t: nat)
    requires t < |calls|
  {
    calls[t].from == if t == 0 then 0 else calls[t - 1].to
  }

  lemma {:induction false} PlacesGrow(items: seq<Item>, size: nat, a: nat, b: nat)
    requires Table(items, size) && a <= b <= |items|
    ensures Pos(items, a, size) <= Pos(items, b, size)
    ensures a < b ==> items[a].pos + items[a].e.reclen <= Pos(items, b, size)
    decreases b - a
  {
    if a < b {
      assert Tiled(items, a, size);
      PlacesGrow(items, size, a + 1, b);
    }
  }

  // A call begins with the first entry at or after the offset that has a number,
  // and leaves the offset after the name of the last one returned, short of the
  // next entry; if there is none, at the end.
  lemma CallBegins(items: seq<Item>, size: nat, c: Call)
    requires Table(items, size) && Answers(items, size, c) && c.from < size
    ensures c.i <= |items| && c.i <= c.j
    ensures forall m: nat :: m < c.i && m < |items| && items[m].pos >= c.from ==> items[m].e.fileno == 0
    ensures c.i < |items| ==> items[c.i].pos >= c.from && items[c.i].e.fileno != 0
    ensures c.i == |items| ==> c.to == size && c.j == |items|
    ensures c.i < |items| ==> c.i < c.j <= |items|
    ensures c.i < |items| ==>
      items[c.j - 1].pos + 8 + items[c.j - 1].e.namlen < c.to <= items[c.j - 1].pos + items[c.j - 1].e.reclen
  {
    forall m: nat | m < c.i && m < |items| && items[m].pos >= c.from ensures items[m].e.fileno == 0 {
      assert Passed(items[m], 0, c.from);
    }
    if c.i < |items| { assert Tiled(items, c.j - 1, size); }
  }

  // A call goes on after the last entry returned, and passes over nothing that
  // has a number.
  lemma NextGoesOn(items: seq<Item>, size: nat, c: Call, c2: Call)
    requires Table(items, size) && Answers(items, size, c) && Answers(items, size, c2) && c2.from == c.to
    ensures c.j <= c2.i
    ensures forall m: nat :: c.j <= m < c2.i && m < |items| ==> items[m].e.fileno == 0
  {
    if c.i < |items| {
      var last := c.j - 1;
      assert Tiled(items, last, size);
      PlacesGrow(items, size, 0, last);
      if c2.from < size && c2.i < c.j {
        PlacesGrow(items, size, c2.i, last);
      }
      forall m: nat | c.j <= m < c2.i && m < |items| ensures items[m].e.fileno == 0 {
        PlacesGrow(items, size, c.j, m);
        PlacesGrow(items, size, m, |items|);
        assert Tiled(items, m, size);
        assert Passed(items[m], 0, c2.from);
      }
    }
  }

  lemma {:induction false} LaterCalls(items: seq<Item>, size: nat, calls: seq<Call>, s: nat, t: nat)
    requires Table(items, size) && Series(items, size, calls) && s < t < |calls|
    ensures calls[s].j <= calls[t].i <= calls[t].j
    decreases t - s
  {
    assert GoesOn(calls, t);
    NextGoesOn(items, size, calls[t - 1], calls[t]);
    if s < t - 1 { LaterCalls(items, size, calls, s, t - 1); }
  }

  lemma FirstCall(items: seq<Item>, size: nat, c: Call, m: nat)
    requires Table(items, size) && Answers(items, size, c) && c.from == 0
    requires m < |items| && items[m].e.fileno != 0
    ensures c.i <= m
  {
    assert Tiled(items, m, size);
    PlacesGrow(items, size, m, |items|);
    assert 0 < size && (m < c.i ==> Passed(items[m], 0, 0));
  }

  // The call that returns entry m.
  lemma {:induction false} Returned(items: seq<Item>, size: nat, calls: seq<Call>, t: nat, m: nat) returns (s: nat)
    requires Table(items, size) && Series(items, size, calls) && t < |calls|
    requires m < calls[t].j && m < |items| && items[m].e.fileno != 0
    ensures s <= t && calls[s].i <= m < calls[s].j
    decreases t
  {
    assert Answers(items, size, calls[t]) && GoesOn(calls, t);
    if t == 0 { FirstCall(items, size, calls[0], m); }
    if calls[t].i <= m {
      s := t;
    } else {
      NextGoesOn(items, size, calls[t - 1], calls[t]);
      s := Returned(items, size, calls, t - 1, m);
    }
  }

  // Repeated calls, whatever their buffers, return every entry that has a
  // number exactly once, and later calls return later entries.
  lemma EveryEntryOnce(items: seq<Item>, size: nat, calls: seq<Call>, m: nat) returns (s: nat)
    requires Table(items, size) && Series(items, size, calls) && calls != [] && AtEnd(items, calls[|calls| - 1])
    requires m < |items| && items[m].e.fileno != 0
    ensures s < |calls| && calls[s].i <= m < calls[s].j
    ensures forall t: nat :: t < |calls| && calls[t].i <= m < calls[t].j ==> t == s
  {
    var last := |calls| - 1;
    assert Answers(items, size, calls[last]);
    s := Returned(items, size, calls, last, m);
    forall t: nat | t < |calls| && calls[t].i <= m < calls[t].j ensures t == s {
      if t < s { LaterCalls(items, size, calls, t, s); }
      if s < t { LaterCalls(items, size, calls, s, t); }
    }
  }

  // Every call before the end returns something, so the end comes.
  lemma {:induction false} TheEndComes(items: seq<Item>, size: nat, calls: seq<Call>, t: nat)
    requires Table(items, size) && Series(items, size, calls) && t < |calls|
    requires forall s: nat :: s <= t ==> !AtEnd(items, calls[s])
    ensures t < calls[t].j <= |items|
  {
    assert Answers(items, size, calls[t]) && !AtEnd(items, calls[t]) && GoesOn(calls, t);
    if t > 0 {
      TheEndComes(items, size, calls, t - 1);
      NextGoesOn(items, size, calls[t - 1], calls[t]);
    }
  }
}
