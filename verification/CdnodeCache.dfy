/**
  The cache of cdnodes: a table of nodes named by device and cdnode number,
  found through hash rings and recycled through a free list.

  `Abs` is what the cache means: a map from names to nodes, and the free nodes
  in the order they will be recycled.  The class is the code; each method's
  contract ties it to a function on `Abs`.
 */
module CdnodeCache {
  import opened Common
  import opened CdnodeLists

  datatype Key = Key(dev: nat, no: nat)

  function Hash(k: Key): (h: nat)
    ensures h < CDNOHSZ
  {
    ((k.dev + k.no) % 0x1_0000_0000) % 63
  }

  datatype Node = Node(dev: nat, num: nat, rdev: nat, ref: bool, locked: bool, want: bool, count: nat) {
    function Name(): Key { Key(dev, num) }
  }

  datatype Abs = Abs(table: map<Key, nat>, free: seq<int>, nodes: seq<Node>)

  /** The table finds the node under its own name. */
  predicate Mapped(a: Abs, n: nat)
    requires n < |a.nodes|
  {
    a.nodes[n].Name() in a.table && a.table[a.nodes[n].Name()] == n
  }

  ghost predicate AbsOk(a: Abs) {
    && Distinct(a.free)
    && (forall i :: 0 <= i < |a.free| ==> 0 <= a.free[i] < |a.nodes|)
    && (forall n :: 0 <= n < |a.nodes| ==> (n in a.free <==> !a.nodes[n].ref))
    && (forall n :: 0 <= n < |a.nodes| && !a.nodes[n].ref ==> a.nodes[n].count == 0 && !a.nodes[n].locked)
    && (forall k {:trigger k in a.table} :: k in a.table ==> a.table[k] < |a.nodes| && a.nodes[a.table[k]].Name() == k)
    && (forall n {:trigger Mapped(a, n)} :: 0 <= n < |a.nodes| && a.nodes[n].ref ==> Mapped(a, n))
  }

  predicate InUse(a: Abs, n: nat) {
    n < |a.nodes| && a.nodes[n].ref
  }

  // ---------------------------------------------------------------- what the operations do

  function Unmap(a: Abs, n: nat): map<Key, nat>
    requires n < |a.nodes|
  {
    if Mapped(a, n) then a.table - {a.nodes[n].Name()} else a.table
  }

  function Unlocked(a: Abs, n: nat): Abs
    requires n < |a.nodes|
  {
    a.(nodes := a.nodes[n := a.nodes[n].(locked := false, want := false)])
  }

  /** Lock a node, or, if someone else has it locked, say that it is wanted. */
  function Locked(a: Abs, n: nat): Abs
    requires n < |a.nodes|
  {
    a.(nodes := a.nodes[n := if a.nodes[n].locked then a.nodes[n].(want := true) else a.nodes[n].(locked := true)])
  }

  function Counted(a: Abs, n: nat, count: nat): Abs
    requires n < |a.nodes|
  {
    a.(nodes := a.nodes[n := a.nodes[n].(count := count)])
  }

  function Inactive(a: Abs, n: nat): Abs
    requires n < |a.nodes|
  {
    Abs(a.table, a.free + [n], a.nodes[n := a.nodes[n].(ref := false, locked := false, want := false)])
  }

  /** Drop one reference; the last one makes the node inactive. */
  function Release(a: Abs, n: nat): Abs
    requires n < |a.nodes| && a.nodes[n].count > 0
  {
    var a1 := Counted(a, n, a.nodes[n].count - 1);
    if a1.nodes[n].count == 0 then Inactive(a1, n) else a1
  }

  function Put(a: Abs, n: nat): Abs
    requires n < |a.nodes| && a.nodes[n].count > 0
  {
    Release(Unlocked(a, n), n)
  }

  /** A reference may be given up; the last one of a locked node never is. */
  predicate CanDrop(a: Abs, n: nat) {
    InUse(a, n) && a.nodes[n].count > 0 && (a.nodes[n].locked ==> a.nodes[n].count > 1)
  }

  /** One purge of the name cache or of the buffers: it may give up a reference to a cdnode. */
  datatype Victim = Other | Drops(n: nat)

  function Purged(a: Abs, v: Victim): Abs
    requires v.Drops? ==> CanDrop(a, v.n)
  {
    if v.Drops? then Release(a, v.n) else a
  }

  predicate CanPurge(a: Abs, ps: seq<Victim>)
    decreases |ps|
  {
    a.free == [] && ps != [] ==> (ps[0].Drops? ==> CanDrop(a, ps[0].n)) && CanPurge(Purged(a, ps[0]), ps[1..])
  }

  /** Purge until a node is free or there is nothing left to purge. */
  function Purge(a: Abs, ps: seq<Victim>): (r: Abs)
    requires CanPurge(a, ps)
    decreases |ps|
  {
    if a.free != [] || ps == [] then a else Purge(Purged(a, ps[0]), ps[1..])
  }

  datatype Outcome = Busy | Full | Hit(n: nat) | Miss(n: nat)

  datatype Got = Got(a: Abs, outcome: Outcome)

  function Taken(a: Abs, n: nat): Abs
    requires n < |a.nodes|
  {
    a.(free := if n in a.free then Without(a.free, PlaceOf(a.free, n)) else a.free,
       nodes := a.nodes[n := a.nodes[n].(ref := true, locked := true, count := a.nodes[n].count + 1)])
  }

  function Recycled(a: Abs, k: Key): Abs
    requires a.free != [] && 0 <= a.free[0] < |a.nodes|
  {
    var n := a.free[0];
    Abs(Unmap(a, n)[k := n], a.free[1..],
        a.nodes[n := a.nodes[n].(dev := k.dev, num := k.no, ref := true, locked := true, want := false)])
  }

  function EGet(a: Abs, k: Key, ps: seq<Victim>): Got
    requires AbsOk(a) && CanPurge(a, ps)
  {
    if k in a.table then
      var n := a.table[k];
      if a.nodes[n].locked then Got(a.(nodes := a.nodes[n := a.nodes[n].(want := true)]), Busy)
      else Got(Taken(a, n), Hit(n))
    else
      var a1 := Purge(a, ps);
      PurgeOk(a, ps);
      if a1.free == [] then Got(a1, Full) else Got(Recycled(a1, k), Miss(a1.free[0]))
  }

  /** The failure path of getting a cdnode whose directory record cannot be read. */
  function Abandoned(a: Abs, n: nat): Abs
    requires n < |a.nodes|
  {
    Abs(Unmap(a, n), a.free + [n],
        a.nodes[n := a.nodes[n].(num := 0, ref := false, locked := false, want := false)])
  }

  /** Give up `d` references. */
  function Drained(a: Abs, n: nat, d: nat): (r: Abs)
    requires n < |a.nodes| && d <= a.nodes[n].count
    ensures |r.nodes| == |a.nodes| && r.table == a.table && r.nodes[n].Name() == a.nodes[n].Name()
    ensures forall m :: 0 <= m < |a.nodes| && m != n ==> r.nodes[m] == a.nodes[m]
    ensures r.nodes[n].count == a.nodes[n].count - d
    ensures d < a.nodes[n].count || d == 0 ==> r.free == a.free && r.nodes[n] == a.nodes[n].(count := r.nodes[n].count)
    ensures 0 < d == a.nodes[n].count ==> r.free == a.free + [n]
    ensures 0 < d == a.nodes[n].count ==>
      r.nodes[n] == a.nodes[n].(ref := false, locked := false, want := false, count := 0)
    decreases d
  {
    if d == 0 then a else Drained(Release(a, n), n, d - 1)
  }

  /** Flushing a device, from node `n` on; `drops` says how many references to a node invalidation gives up. */
  datatype Flushed = Flushed(a: Abs, result: int)

  function DropsAt(drops: map<nat, nat>, n: nat): nat { if n in drops then drops[n] else 0 }

  predicate CanFlush(a: Abs, drops: map<nat, nat>) {
    forall n :: 0 <= n < |a.nodes| && a.nodes[n].ref && DropsAt(drops, n) > 0 ==>
      DropsAt(drops, n) <= a.nodes[n].count && (a.nodes[n].locked ==> DropsAt(drops, n) < a.nodes[n].count)
  }

  /** What invalidation leaves of node `n`. */
  function Invalidated(a: Abs, drops: map<nat, nat>, n: nat): Abs
    requires CanFlush(a, drops) && n < |a.nodes|
  {
    if a.nodes[n].ref then Drained(a, n, DropsAt(drops, n)) else a
  }

  function FlushFrom(a: Abs, dev: nat, drops: map<nat, nat>, n: nat, open: nat): (r: Flushed)
    requires CanFlush(a, drops) && n <= |a.nodes|
    decreases |a.nodes| - n
  {
    if n == |a.nodes| then Flushed(a, open)
    else if a.nodes[n].dev == dev then
      var a1 := Invalidated(a, drops, n);
      if a1.nodes[n].ref then Flushed(a1, -1)
      else FlushFrom(a1.(table := Unmap(a1, n)), dev, drops, n + 1, open)
    else
      FlushFrom(a, dev, drops, n + 1, if a.nodes[n].ref && a.nodes[n].rdev == dev then open + 1 else open)
  }

  const NEW_NODE := Node(0, 0, 0, false, false, false, 0)

  /** At boot every node is free and nameless. */
  function EmptyCache(n: nat): Abs {
    Abs(map[], seq(n, k => k), seq(n, k => NEW_NODE))
  }

  lemma EmptyCacheOk(n: nat)
    ensures AbsOk(EmptyCache(n))
  {
    var free := EmptyCache(n).free;
    forall k | 0 <= k < n ensures k in free { assert free[k] == k; }
  }

  // ---------------------------------------------------------------- every operation keeps the cache in order

  lemma InFreeAppend(free: seq<int>, n: int)
    ensures forall m :: m in free + [n] <==> m in free || m == n
  {
    assert (free + [n])[|free|] == n;
  }

  /** With the same table and names, the table finds the same nodes. */
  lemma SameNames(a: Abs, b: Abs)
    requires |a.nodes| == |b.nodes| && a.table == b.table
    requires forall m :: 0 <= m < |a.nodes| ==> b.nodes[m].Name() == a.nodes[m].Name()
    ensures forall m {:trigger Mapped(a, m)} {:trigger Mapped(b, m)} :: 0 <= m < |a.nodes| ==>
      (Mapped(b, m) <==> Mapped(a, m))
  {
  }

  lemma InactiveOk(a: Abs, n: nat)
    requires AbsOk(a) && InUse(a, n) && a.nodes[n].count == 0
    ensures AbsOk(Inactive(a, n))
    ensures forall m :: 0 <= m < |a.nodes| ==> (Mapped(Inactive(a, n), m) <==> Mapped(a, m))
  {
    InFreeAppend(a.free, n);
    SameNames(a, Inactive(a, n));
  }

  lemma ReleaseOk(a: Abs, n: nat)
    requires AbsOk(a) && CanDrop(a, n)
    ensures AbsOk(Release(a, n))
  {
    var a1 := Counted(a, n, a.nodes[n].count - 1);
    CountedOk(a, n, a.nodes[n].count - 1);
    if a1.nodes[n].count == 0 { InactiveOk(a1, n); }
  }

  lemma CountedOk(a: Abs, n: nat, count: nat)
    requires AbsOk(a) && InUse(a, n)
    ensures AbsOk(Counted(a, n, count))
    ensures forall m :: 0 <= m < |a.nodes| ==> (Mapped(Counted(a, n, count), m) <==> Mapped(a, m))
  {
    SameNames(a, Counted(a, n, count));
  }

  lemma UnlockedOk(a: Abs, n: nat)
    requires AbsOk(a) && n < |a.nodes|
    ensures AbsOk(Unlocked(a, n))
  {
    var a1 := Unlocked(a, n);
    assert forall m :: 0 <= m < |a.nodes| ==> a1.nodes[m].Name() == a.nodes[m].Name();
    assert forall m :: 0 <= m < |a.nodes| && Mapped(a, m) ==> Mapped(a1, m);
  }

  lemma PutOk(a: Abs, n: nat)
    requires AbsOk(a) && InUse(a, n) && a.nodes[n].count > 0
    ensures AbsOk(Put(a, n))
  {
    UnlockedOk(a, n);
    ReleaseOk(Unlocked(a, n), n);
  }

  lemma {:induction false} PurgeOk(a: Abs, ps: seq<Victim>)
    requires AbsOk(a) && CanPurge(a, ps)
    ensures AbsOk(Purge(a, ps)) && |Purge(a, ps).nodes| == |a.nodes| && Purge(a, ps).table == a.table
    ensures forall n :: 0 <= n < |a.nodes| ==> Purge(a, ps).nodes[n].Name() == a.nodes[n].Name()
    ensures a.free != [] ==> Purge(a, ps) == a
    ensures a.free == [] ==> |Purge(a, ps).free| <= 1
    decreases |ps|
  {
    if a.free == [] && ps != [] {
      if ps[0].Drops? { ReleaseOk(a, ps[0].n); }
      PurgeOk(Purged(a, ps[0]), ps[1..]);
    }
  }

  lemma LockedOk(a: Abs, n: nat)
    requires AbsOk(a) && InUse(a, n)
    ensures AbsOk(Locked(a, n))
  {
    SameNames(a, Locked(a, n));
  }

  lemma TakenOk(a: Abs, n: nat)
    requires AbsOk(a) && n < |a.nodes| && Mapped(a, n)
    ensures AbsOk(Taken(a, n))
  {
    var a1 := Taken(a, n);
    if n in a.free { WithoutLoses(a.free, PlaceOf(a.free, n)); WithoutDistinct(a.free, PlaceOf(a.free, n)); }
    assert forall m :: 0 <= m < |a.nodes| ==> a1.nodes[m].Name() == a.nodes[m].Name();
    assert forall m :: 0 <= m < |a.nodes| && Mapped(a, m) ==> Mapped(a1, m);
  }

  lemma UnmapOk(a: Abs, n: nat)
    requires AbsOk(a) && n < |a.nodes| && !a.nodes[n].ref
    ensures AbsOk(a.(table := Unmap(a, n)))
    ensures !Mapped(a.(table := Unmap(a, n)), n)
    ensures forall m :: 0 <= m < |a.nodes| && m != n ==> (Mapped(a.(table := Unmap(a, n)), m) <==> Mapped(a, m))
  {
    var a1 := a.(table := Unmap(a, n));
    forall m | 0 <= m < |a.nodes| && m != n ensures Mapped(a1, m) <==> Mapped(a, m) {
    }
  }

  /** The first free node, known under no name, takes a new one. */
  lemma RenamedOk(a: Abs, k: Key)
    requires AbsOk(a) && a.free != [] && k !in a.table && !Mapped(a, a.free[0])
    ensures AbsOk(Recycled(a, k))
    ensures Mapped(Recycled(a, k), a.free[0])
    ensures forall m :: 0 <= m < |a.nodes| && m != a.free[0] ==> (Mapped(Recycled(a, k), m) <==> Mapped(a, m))
  {
    var n := a.free[0];
    var a1 := Recycled(a, k);
    TailFree(a.free);
    assert a1.table == a.table[k := n] && a1.nodes[n].Name() == k;
    forall m | 0 <= m < |a.nodes| && m != n ensures Mapped(a1, m) <==> Mapped(a, m) {
      assert a1.nodes[m] == a.nodes[m];
    }
    forall j | j in a1.table ensures a1.table[j] < |a1.nodes| && a1.nodes[a1.table[j]].Name() == j {
      if j != k { assert a.nodes[a.table[j]].Name() == j; }
    }
  }

  lemma TailFree(free: seq<int>)
    requires Distinct(free) && free != []
    ensures Distinct(free[1..]) && free[0] in free
    ensures forall m :: m in free[1..] <==> m in free && m != free[0]
  {
    assert free == [free[0]] + free[1..];
  }

  lemma RecycledOk(a: Abs, k: Key)
    requires AbsOk(a) && a.free != [] && k !in a.table
    ensures AbsOk(Recycled(a, k))
    ensures Mapped(Recycled(a, k), a.free[0])
    ensures forall m :: 0 <= m < |a.nodes| && m != a.free[0] ==> (Mapped(Recycled(a, k), m) <==> Mapped(a, m))
  {
    assert a.free[0] in a.free;
    UnmapOk(a, a.free[0]);
    RenamedOk(a.(table := Unmap(a, a.free[0])), k);
  }

  lemma EGetOk(a: Abs, k: Key, ps: seq<Victim>)
    requires AbsOk(a) && CanPurge(a, ps)
    ensures AbsOk(EGet(a, k, ps).a)
  {
    if k in a.table {
      var n := a.table[k];
      if a.nodes[n].locked {
        var a1 := a.(nodes := a.nodes[n := a.nodes[n].(want := true)]);
        assert forall m :: 0 <= m < |a.nodes| ==> a1.nodes[m].Name() == a.nodes[m].Name();
        assert forall m :: 0 <= m < |a.nodes| && Mapped(a, m) ==> Mapped(a1, m);
      } else {
        TakenOk(a, n);
      }
    } else {
      PurgeOk(a, ps);
      if Purge(a, ps).free != [] { RecycledOk(Purge(a, ps), k); }
    }
  }

  lemma WantedOk(a: Abs, n: nat)
    requires AbsOk(a) && n < |a.nodes|
    ensures AbsOk(a.(nodes := a.nodes[n := a.nodes[n].(want := true)]))
    ensures forall m :: 0 <= m < |a.nodes| ==>
      (Mapped(a.(nodes := a.nodes[n := a.nodes[n].(want := true)]), m) <==> Mapped(a, m))
  {
    SameNames(a, a.(nodes := a.nodes[n := a.nodes[n].(want := true)]));
  }

  lemma AbandonedOk(a: Abs, n: nat)
    requires AbsOk(a) && InUse(a, n) && a.nodes[n].count == 0
    ensures AbsOk(Abandoned(a, n))
    ensures !Mapped(Abandoned(a, n), n)
    ensures forall m :: 0 <= m < |a.nodes| && m != n ==> (Mapped(Abandoned(a, n), m) <==> Mapped(a, m))
  {
    InFreeAppend(a.free, n);
    var a1 := Abandoned(a, n);
    forall m | 0 <= m < |a.nodes| && m != n ensures Mapped(a1, m) <==> Mapped(a, m) {
      assert a1.nodes[m] == a.nodes[m];
    }
  }

  /**
    A node that could not be read has no number any more, is neither locked nor
    wanted, and becomes free after all others; nothing is found by its name, and
    all else is as it was.
   */
  lemma AbandonedIsForgotten(a: Abs, n: nat, k: Key)
    requires AbsOk(a) && InUse(a, n)
    ensures var b := Abandoned(a, n);
      && b.nodes[n].num == 0 && !b.nodes[n].locked && !b.nodes[n].want && !InUse(b, n)
      && b.free == a.free + [n]
      && (k in b.table <==> k in a.table && k != a.nodes[n].Name())
      && (k in b.table ==> b.table[k] == a.table[k])
      && |b.nodes| == |a.nodes| && forall m :: 0 <= m < |a.nodes| && m != n ==> b.nodes[m] == a.nodes[m]
  {
    assert Mapped(a, n);
  }

  /** A node is chained exactly where its name belongs, if it is known by it, and alone otherwise. */
  ghost predicate HomesOk(home: seq<int>, a: Abs) {
    |home| == |a.nodes| && forall n :: 0 <= n < |home| ==> home[n] == HomeOf(a, n)
  }

  function HomeOf(a: Abs, n: nat): int
    requires n < |a.nodes|
  {
    if Mapped(a, n) then Hash(a.nodes[n].Name()) else ALONE
  }

  /** Neither the table nor any name changed. */
  lemma SameHomes(home: seq<int>, a: Abs, b: Abs)
    requires HomesOk(home, a) && b.table == a.table && |b.nodes| == |a.nodes|
    requires forall m :: 0 <= m < |a.nodes| ==> b.nodes[m].Name() == a.nodes[m].Name()
    ensures HomesOk(home, b)
  {
    forall n | 0 <= n < |home| ensures home[n] == HomeOf(b, n) {
      assert Mapped(b, n) == Mapped(a, n);
    }
  }

  /** Only node `n` changed its name or its entry. */
  lemma OtherHomes(home: seq<int>, home': seq<int>, a: Abs, b: Abs, n: nat)
    requires HomesOk(home, a) && n < |home| && |b.nodes| == |a.nodes| && home' == home[n := HomeOf(b, n)]
    requires forall m :: 0 <= m < |a.nodes| && m != n ==>
      (Mapped(b, m) <==> Mapped(a, m)) && b.nodes[m].Name() == a.nodes[m].Name()
    ensures HomesOk(home', b)
  {
  }

  // ---------------------------------------------------------------- the code

  class CdCache {
    const ncdnode: nat
    const link: array<Link>
    const fl: array<FreeLink>
    const node: array<Node>
    var cdfreeh: int
    var cdfreet: int
    ghost var chains: seq<seq<int>>
    ghost var home: seq<int>
    ghost var free: seq<int>
    ghost var table: map<Key, nat>

    ghost function Value(): Abs
      reads this, node
    {
      Abs(table, free, node[..])
    }

    /** The lists are well formed. */
    ghost predicate Linked()
      reads this, link, fl, node
    {
      && node.Length == ncdnode && fl.Length == ncdnode
      && RingsOk(link[..], ncdnode, chains, home)
      && FreeOk(fl[..], FreeHead(cdfreeh, cdfreet), free)
    }

    ghost predicate Valid()
      reads this, link, fl, node
    {
      Linked() && AbsOk(Value()) && HomesOk(home, Value())
    }

    /** Build the table: empty rings, and all nodes on the free list in order. */
    static method Build(n: nat) returns (lk: array<Link>, f: array<FreeLink>, tail: int)
      requires n > 0
      ensures fresh(lk) && lk.Length == n + CDNOHSZ && forall m :: 0 <= m < lk.Length ==> lk[m] == Link(m, m)
      ensures fresh(f) && f.Length == n && tail == n - 1
      ensures forall k :: 0 <= k < n ==> f[k] == FreeLink(if k + 1 < n then k + 1 else NIL, k - 1)
    {
      lk := new Link[n + CDNOHSZ];
      f := new FreeLink[n];
      for h := 0 to CDNOHSZ
        invariant forall m :: n <= m < n + h ==> lk[m] == Link(m, m)
      {
        lk[n + h] := Link(n + h, n + h);
      }
      lk[0] := Link(0, 0);
      f[0] := FreeLink(NIL, HEADREF);
      tail := 0;
      for i := 1 to n
        invariant tail == i - 1
        invariant forall m :: 0 <= m < i || n <= m < n + CDNOHSZ ==> lk[m] == Link(m, m)
        invariant forall k :: 0 <= k < i ==> f[k].freeb == k - 1
        invariant forall k :: 0 <= k < i - 1 ==> f[k].freef == k + 1
      {
        lk[i] := Link(i, i);
        f[tail] := f[tail].(freef := i);
        f[i] := FreeLink(NIL, tail);
        tail := i;
      }
      f[n - 1] := f[n - 1].(freef := NIL);
    }

    constructor (n: nat)
      requires n > 0
      ensures Valid() && ncdnode == n && fresh(link) && fresh(fl) && fresh(node)
      ensures Value() == EmptyCache(n)
    {
      var lk, f, tail := Build(n);
      var nd := new Node[n](i => NEW_NODE);
      ncdnode, link, fl, node := n, lk, f, nd;
      cdfreeh, cdfreet := 0, tail;
      chains := seq(CDNOHSZ, h => []);
      home := seq(n, k => ALONE);
      free := seq(n, k => k);
      table := map[];
      new;
      EmptyRings(link[..], n);
      AllFree(fl[..], n);
      assert Value() == EmptyCache(n);
      EmptyCacheOk(n);
    }

    /** Search the chain of the name; -1 is the null pointer. */
    method CdFind(k: Key) returns (cdp: int)
      requires Valid()
      ensures cdp == if k in table then table[k] as int else NIL
    {
      var head := ncdnode + Hash(k);
      ghost var c := chains[Hash(k)];
      ghost var i := 0;
      assert RingAt(link[..], ncdnode, chains, home, Hash(k));
      assert k in table ==>
        home[table[k]] == HomeOf(Value(), table[k]) == Hash(k) && HasPlace(link[..], chains, home, table[k]);
      assert Joined(link[..], head, c, 0);
      cdp := link[head].forw;
      while cdp != head
        invariant 0 <= i <= |c| && cdp == At(head, c, i + 1)
        invariant forall j :: 0 <= j < i ==> node[c[j]].Name() != k
        decreases |c| - i
      {
        assert cdp == c[i] && home[cdp] == Hash(k);
        if node[cdp].num == k.no && node[cdp].dev == k.dev {
          return;
        }
        i := i + 1;
        assert Joined(link[..], head, c, i);
        cdp := link[cdp].forw;
      }
      cdp := NIL;
    }

    /** Put a node on the end of the free list. */
    method AppendFree(n: nat)
      requires n < fl.Length && n !in free && FreeOk(fl[..], FreeHead(cdfreeh, cdfreet), free)
      modifies this`cdfreeh, this`cdfreet, this`free, fl
      ensures free == old(free) + [n] && FreeOk(fl[..], FreeHead(cdfreeh, cdfreet), free)
    {
      FreeAppendOk(fl[..], FreeHead(cdfreeh, cdfreet), free, n);
      ghost var s := FreeAppend(fl[..], FreeHead(cdfreeh, cdfreet), n);
      if cdfreeh != NIL {
        fl[cdfreet] := fl[cdfreet].(freef := n);
        fl[n] := fl[n].(freeb := cdfreet);
      } else {
        cdfreeh := n;
        fl[n] := fl[n].(freeb := HEADREF);
      }
      fl[n] := fl[n].(freef := NIL);
      cdfreet := n;
      free := free + [n];
      assert fl[..] == s.fl;
    }

    method CdInactive(n: nat)
      requires Valid() && InUse(Value(), n) && !node[n].locked && node[n].count == 0
      modifies this`cdfreeh, this`cdfreet, this`free, fl, node
      ensures Valid() && Value() == Inactive(old(Value()), n)
    {
      ghost var a := Value();
      InactiveOk(a, n);
      SameHomes(home, a, Inactive(a, n));
      node[n] := node[n].(ref := false, locked := false, want := false);
      AppendFree(n);
      assert Value() == Inactive(a, n);
    }

    /** Change the count of a node in use. */
    method SetCount(n: nat, count: nat)
      requires Valid() && InUse(Value(), n)
      modifies node
      ensures Valid() && Value() == Counted(old(Value()), n, count)
    {
      ghost var a := Value();
      ghost var b := Counted(a, n, count);
      CountedOk(a, n, count);
      SameHomes(home, a, b);
      node[n] := node[n].(count := count);
      assert Value() == b;
    }

    method VnRele(n: nat)
      requires Valid() && CanDrop(Value(), n)
      modifies this`cdfreeh, this`cdfreet, this`free, fl, node
      ensures Valid() && Value() == Release(old(Value()), n)
    {
      SetCount(n, node[n].count - 1);
      if node[n].count == 0 {
        CdInactive(n);
      }
    }

    method VnHold(n: nat)
      requires Valid() && InUse(Value(), n)
      modifies node
      ensures Valid() && Value() == Counted(old(Value()), n, old(node[n]).count + 1)
    {
      SetCount(n, node[n].count + 1);
    }

    /** Lock a node in use; false stands for going to sleep until it is unlocked. */
    method CdLock(n: nat) returns (ok: bool)
      requires Valid() && InUse(Value(), n)
      modifies node
      ensures Valid() && Value() == Locked(old(Value()), n) && ok == !old(node[n]).locked
    {
      ghost var a := Value();
      LockedOk(a, n);
      SameHomes(home, a, Locked(a, n));
      ok := !node[n].locked;
      node[n] := if ok then node[n].(locked := true) else node[n].(want := true);
      assert Value() == Locked(a, n);
    }

    /** Unlock a node; `wakes` is whether someone sleeps for it. */
    method CdUnlock(n: nat) returns (wakes: bool)
      requires Valid() && n < ncdnode && node[n].locked
      modifies node
      ensures Valid() && Value() == Unlocked(old(Value()), n) && wakes == old(node[n]).want
    {
      ghost var a := Value();
      UnlockedOk(a, n);
      SameHomes(home, a, Unlocked(a, n));
      node[n] := node[n].(locked := false);
      wakes := node[n].want;
      if wakes {
        node[n] := node[n].(want := false);
      }
      assert Value() == Unlocked(a, n);
    }

    method CdPut(n: nat)
      requires Valid() && InUse(Value(), n) && node[n].locked && node[n].count > 0
      modifies this`cdfreeh, this`cdfreet, this`free, fl, node
      ensures Valid() && Value() == Put(old(Value()), n)
    {
      var wakes := CdUnlock(n);
      VnRele(n);
    }

    /** The short cut for a disc that was swapped: it has the same effect as putting the node. */
    method CdDrop(n: nat)
      requires Valid() && InUse(Value(), n) && node[n].locked && node[n].count > 0
      modifies this`cdfreeh, this`cdfreet, this`free, fl, node
      ensures Valid() && Value() == Put(old(Value()), n)
    {
      var wakes := CdUnlock(n);
      SetCount(n, node[n].count - 1);
      if node[n].count == 0 {
        CdInactive(n);
      }
    }

    /** The two reclaim loops: the name cache's holds first, then the buffers'. */
    method Reclaim(ps: seq<Victim>)
      requires Valid() && CanPurge(Value(), ps)
      modifies this`cdfreeh, this`cdfreet, this`free, fl, node
      ensures Valid() && Value() == Purge(old(Value()), ps)
    {
      var i := 0;
      while cdfreeh == NIL
        invariant 0 <= i <= |ps| && Valid()
        invariant CanPurge(Value(), ps[i..])
        invariant Purge(old(Value()), ps) == Purge(Value(), ps[i..])
        decreases |ps| - i
      {
        if i == |ps| {
          break;
        }
        ghost var rest := ps[i..];
        assert rest[0] == ps[i] && rest[1..] == ps[i + 1..];
        assert free == [];
        if ps[i].Drops? {
          VnRele(ps[i].n);
        }
        i := i + 1;
      }
    }

    /** Yank the first node off the free list. */
    method PopFree() returns (n: int)
      requires cdfreeh != NIL && FreeOk(fl[..], FreeHead(cdfreeh, cdfreet), free)
      modifies this`cdfreeh, this`free, fl
      ensures FreeOk(fl[..], FreeHead(cdfreeh, cdfreet), free)
      ensures old(free) != [] && n == old(free)[0] && free == old(free)[1..]
    {
      n := cdfreeh;
      FreePopOk(fl[..], FreeHead(cdfreeh, cdfreet), free);
      ghost var s := FreePop(fl[..], FreeHead(cdfreeh, cdfreet));
      var q := fl[n].freef;
      if q != NIL {
        fl[q] := fl[q].(freeb := HEADREF);
      }
      cdfreeh := q;
      fl[n] := FreeLink(NIL, NOREF);
      free := free[1..];
      assert fl[..] == s.fl;
    }

    /** Take the first free node off the free list and off its chain, and put it on the given one. */
    method EcdGet(h: nat, ps: seq<Victim>) returns (n: int)
      requires Valid() && CanPurge(Value(), ps) && h < CDNOHSZ
      modifies this`cdfreeh, this`cdfreet, this`free, this`chains, this`home, link, fl, node
      ensures Linked()
      ensures var a := Purge(old(Value()), ps);
        if a.free == [] then n == NIL && Valid() && Value() == a
        else n == a.free[0] && Value() == a.(free := a.free[1..]) && 0 <= n < |old(home)| && home == old(home)[n := h]
    {
      Reclaim(ps);
      if cdfreeh == NIL {
        return NIL;
      }
      n := MoveFirst(h);
    }

    method MoveFirst(h: nat) returns (n: int)
      requires Linked() && cdfreeh != NIL && h < CDNOHSZ
      modifies this`cdfreeh, this`free, this`chains, this`home, link, fl
      ensures Linked()
      ensures old(free) != [] && n == old(free)[0] && free == old(free)[1..]
      ensures 0 <= n < |old(home)| && home == old(home)[n := h]
    {
      assert 0 <= free[0] < fl.Length;
      n := PopFree();
      Unchain(n);
      Chain(n, h);
    }

    /** Unlink a node from its chain and leave it as a ring by itself. */
    method Unchain(n: int)
      requires 0 <= n < ncdnode && RingsOk(link[..], ncdnode, chains, home)
      modifies this`chains, this`home, link
      ensures RingsOk(link[..], ncdnode, chains, home) && home == old(home)[n := ALONE]
    {
      RemqueKeepsRings(link[..], ncdnode, chains, home, n);
      ghost var r := Remque(link[..], n);
      link[link[n].back] := link[link[n].back].(forw := link[n].forw);
      link[link[n].forw] := link[link[n].forw].(back := link[n].back);
      link[n] := link[n].(forw := n);
      link[n] := link[n].(back := n);
      assert link[..] == r[n := Link(n, n)];
      chains := ChainsWithout(chains, home, n);
      home := home[n := ALONE];
    }

    /** Insert a lone node between a chain's header and its first member. */
    method Chain(n: int, h: nat)
      requires 0 <= n < ncdnode && h < CDNOHSZ && RingsOk(link[..], ncdnode, chains, home) && home[n] == ALONE
      modifies this`chains, this`home, link
      ensures RingsOk(link[..], ncdnode, chains, home) && home == old(home)[n := h]
    {
      InsertKeepsRings(link[..], ncdnode, chains, home, n, h);
      ghost var r := InsertAfter(link[..], ncdnode + h, n);
      var head := ncdnode + h;
      link[n] := link[n].(back := head);
      link[n] := link[n].(forw := link[head].forw);
      link[link[head].forw] := link[link[head].forw].(back := n);
      link[head] := link[head].(forw := n);
      assert link[..] == r;
      chains := chains[h := [n] + chains[h]];
      home := home[n := h];
    }

    /** Lock and reference a node found in core. */
    method TakeFound(n: nat)
      requires Valid() && n < ncdnode && Mapped(Value(), n)
      modifies this`cdfreeh, this`cdfreet, this`free, fl, node
      ensures Valid() && Value() == Taken(old(Value()), n)
    {
      ghost var b := Taken(Value(), n);
      TakenOk(Value(), n);
      SameHomes(home, Value(), b);
      Unfree(n);
      MarkTaken(n, b);
    }

    method MarkTaken(n: nat, ghost b: Abs)
      requires Linked() && AbsOk(b) && HomesOk(home, b) && n < ncdnode && b.table == table && b.free == free
      requires b.nodes == node[..][n := node[n].(ref := true, locked := true, count := node[n].count + 1)]
      modifies node
      ensures Valid() && Value() == b
    {
      node[n] := node[n].(locked := true, ref := true, count := node[n].count + 1);
      assert Value() == b;
    }

    method Unfree(n: nat)
      requires Valid() && n < ncdnode
      modifies this`cdfreeh, this`cdfreet, this`free, fl
      ensures Linked() && free == if n in old(free) then Without(old(free), PlaceOf(old(free), n)) else old(free)
    {
      if !node[n].ref {
        RemoveFree(n);
      }
    }

    /** Give the recycled node, already on its new chain, its new name. */
    method Rename(n: nat, k: Key, ghost a: Abs)
      requires Linked() && AbsOk(a) && a.free != [] && n == a.free[0] && k !in a.table
      requires Value() == a.(free := a.free[1..])
      requires exists was :: HomesOk(was, a) && home == was[n := Hash(k)]
      modifies this`table, node
      ensures Valid() && Value() == Recycled(a, k)
    {
      RecycledOk(a, k);
      ghost var was :| HomesOk(was, a) && home == was[n := Hash(k)];
      OtherHomes(was, home, a, Recycled(a, k), n);
      node[n] := node[n].(ref := true, locked := true, want := false);
      node[n] := node[n].(dev := k.dev);
      node[n] := node[n].(num := k.no);
      table := Unmap(a, n)[k := n];
      assert Value() == Recycled(a, k);
    }

    /** Someone else has the node locked: say that it is wanted. */
    method MarkWanted(n: nat)
      requires Valid() && n < ncdnode
      modifies node
      ensures Valid() && Value() == old(Value()).(nodes := old(node[..])[n := old(node[n]).(want := true)])
    {
      ghost var a := Value();
      ghost var b := a.(nodes := a.nodes[n := a.nodes[n].(want := true)]);
      WantedOk(a, n);
      SameHomes(home, a, b);
      node[n] := node[n].(want := true);
      assert Value() == b;
    }

    /** The name is not in core: recycle a node for it, if there is one. */
    method GetFresh(k: Key, ps: seq<Victim>) returns (n: int)
      requires Valid() && CanPurge(Value(), ps) && k !in table
      modifies this, link, fl, node
      ensures Valid()
      ensures var a := Purge(old(Value()), ps);
        if a.free == [] then n == NIL && Value() == a
        else 0 <= a.free[0] < |a.nodes| && n == a.free[0] && Value() == Recycled(a, k)
    {
      PurgeOk(Value(), ps);
      ghost var a := Value();
      ghost var a1 := Purge(a, ps);
      SameHomes(home, a, a1);
      n := EcdGet(Hash(k), ps);
      if n != NIL {
        Rename(n, k, a1);
      }
    }

    method CdEGet(k: Key, ps: seq<Victim>) returns (outcome: Outcome)
      requires Valid() && CanPurge(Value(), ps)
      modifies this, link, fl, node
      ensures Valid()
      ensures Got(Value(), outcome) == EGet(old(Value()), k, ps)
    {
      var cdp := CdFind(k);
      if cdp != NIL {
        if node[cdp].locked {
          MarkWanted(cdp);
          return Busy;
        }
        TakeFound(cdp);
        return Hit(cdp);
      }
      var n := GetFresh(k, ps);
      return if n == NIL then Full else Miss(n);
    }

    /** Take a node off the free list, wherever on it it is. */
    method RemoveFree(n: int)
      requires 0 <= n < fl.Length && n in free && FreeOk(fl[..], FreeHead(cdfreeh, cdfreet), free)
      modifies this`cdfreeh, this`cdfreet, this`free, fl
      ensures FreeOk(fl[..], FreeHead(cdfreeh, cdfreet), free) && free == Without(old(free), PlaceOf(old(free), n))
    {
      FreeRemoveOk(fl[..], FreeHead(cdfreeh, cdfreet), free, PlaceOf(free, n));
      ghost var s := FreeRemove(fl[..], FreeHead(cdfreeh, cdfreet), n);
      var cdq := fl[n].freef;
      if cdq != NIL {
        fl[cdq] := fl[cdq].(freeb := fl[n].freeb);
      } else {
        cdfreet := fl[n].freeb;
      }
      if fl[n].freeb == HEADREF {
        cdfreeh := cdq;
      } else {
        fl[fl[n].freeb] := fl[fl[n].freeb].(freef := cdq);
      }
      fl[n] := FreeLink(NIL, NOREF);
      free := Without(free, PlaceOf(free, n));
      assert fl[..] == s.fl;
    }

    /** The record could not be read: off the chain, nameless, unlocked, and back on the free list. */
    method Abandon(n: nat)
      requires Valid() && InUse(Value(), n) && node[n].locked && node[n].count == 0
      modifies this, link, fl, node
      ensures Valid() && Value() == Abandoned(old(Value()), n)
    {
      ghost var a := Value();
      AbandonedOk(a, n);
      OtherHomes(home, home[n := ALONE], a, Abandoned(a, n), n);
      Unchain(n);
      table := Unmap(a, n);
      node[n] := node[n].(num := 0);
      node[n] := node[n].(locked := false);
      if node[n].want {
        node[n] := node[n].(want := false);
      }
      node[n] := node[n].(ref := false);
      AppendFree(n);
      assert Value() == Abandoned(a, n);
    }

    /** What getting a cdnode does after a miss: fill it in, or give it up if its record cannot be read. */
    method FinishGet(n: nat, readable: bool)
      requires Valid() && InUse(Value(), n) && node[n].locked && node[n].count == 0
      modifies this, link, fl, node
      ensures Valid()
      ensures Value() == if readable then Counted(old(Value()), n, 1) else Abandoned(old(Value()), n)
    {
      if readable {
        SetCount(n, 1);
      } else {
        Abandon(n);
      }
    }

    /** Flush the nodes of a device; `drops` are the references that giving up pages and buffers drops. */
    method CdFlush(dev: nat, drops: map<nat, nat>) returns (open: int)
      requires Valid() && CanFlush(Value(), drops)
      modifies this, link, fl, node
      ensures Valid()
      ensures Flushed(Value(), open) == FlushFrom(old(Value()), dev, drops, 0, 0)
    {
      open := 0;
      ghost var goal := FlushFrom(Value(), dev, drops, 0, 0);
      for n := 0 to ncdnode
        invariant Valid() && CanFlush(Value(), drops) && open >= 0
        invariant goal == FlushFrom(Value(), dev, drops, n, open)
      {
        var gone;
        gone, open := FlushNext(n, dev, drops, open);
        if !gone {
          return -1;
        }
      }
    }

    /** One node of the table, and the count of those in use through the device. */
    method FlushNext(n: nat, dev: nat, drops: map<nat, nat>, open0: nat) returns (gone: bool, open: nat)
      requires Valid() && CanFlush(Value(), drops) && n < ncdnode
      modifies this, link, fl, node
      ensures Valid() && (gone ==> CanFlush(Value(), drops))
      ensures FlushFrom(old(Value()), dev, drops, n, open0) ==
        if gone then FlushFrom(Value(), dev, drops, n + 1, open) else Flushed(Value(), -1)
    {
      gone, open := true, open0;
      if node[n].dev == dev {
        FlushUnfolds(Value(), dev, drops, n, open);
        gone := FlushNode(n, dev, drops);
      } else {
        FlushPasses(Value(), dev, drops, n, open);
        if node[n].ref && node[n].rdev == dev { open := open + 1; }
      }
    }

    /** Unlink a node that is, or can be made, free, so that it can no longer be found. */
    method FlushNode(n: nat, dev: nat, drops: map<nat, nat>) returns (gone: bool)
      requires Valid() && CanFlush(Value(), drops) && n < ncdnode && node[n].dev == dev
      modifies this, link, fl, node
      ensures Valid()
      ensures gone == !old(Blocks(Value(), dev, drops, n))
      ensures Value() == if gone then old(Forgotten(Value(), drops, n)) else old(Invalidated(Value(), drops, n))
    {
      gone := true;
      if node[n].ref {
        Invalidate(n, DropsAt(drops, n));
        if node[n].ref {
          return false;
        }
      }
      Unfind(n);
    }

    /** What invalidation does to the node: it gives up references one by one. */
    method Invalidate(n: nat, d: nat)
      requires Valid() && InUse(Value(), n)
      requires d <= node[n].count && (d > 0 && node[n].locked ==> d < node[n].count)
      modifies this`cdfreeh, this`cdfreet, this`free, fl, node
      ensures Valid() && Value() == Drained(old(Value()), n, d)
    {
      for i := 0 to d
        modifies this`cdfreeh, this`cdfreet, this`free, fl, node
        invariant Valid() && d - i <= node[n].count
        invariant i < d ==> CanDrop(Value(), n) && (node[n].locked ==> d - i < node[n].count)
        invariant Drained(old(Value()), n, d) == Drained(Value(), n, d - i)
      {
        VnRele(n);
      }
    }

    method Unfind(n: nat)
      requires Valid() && n < ncdnode && !node[n].ref
      modifies this`table, this`chains, this`home, link
      ensures Valid() && Value() == old(Value()).(table := Unmap(old(Value()), n))
    {
      ghost var a := Value();
      UnmapOk(a, n);
      OtherHomes(home, home[n := ALONE], a, a.(table := Unmap(a, n)), n);
      Unchain(n);
      table := Unmap(a, n);
    }
  }

  // ---------------------------------------------------------------- what a get does

  /** Node `n` is wanted now, and no node has changed but for that. */
  predicate OnlyWanted(a: Abs, b: Abs, n: nat) {
    && |b.nodes| == |a.nodes| && n < |a.nodes| && b.nodes[n].want
    && b.nodes[n].(want := false) == a.nodes[n].(want := false)
    && forall m :: 0 <= m < |a.nodes| && m != n ==> b.nodes[m] == a.nodes[m]
  }

  /** Node `n` alone differs. */
  predicate OnlyAt(a: Abs, b: Abs, n: nat) {
    |b.nodes| == |a.nodes| && n < |a.nodes| && forall m :: 0 <= m < |a.nodes| && m != n ==> b.nodes[m] == a.nodes[m]
  }

  /**
    What a get does to the nodes: the one it returns is in use, locked and of the
    name asked for, with one reference more if it was found and with none yet if
    it was recycled.
   */
  lemma GetReturnsLocked(a: Abs, k: Key, ps: seq<Victim>)
    requires AbsOk(a) && CanPurge(a, ps)
    ensures var g := EGet(a, k, ps);
      match g.outcome
      case Busy => true
      case Full => g.a.nodes == Purge(a, ps).nodes
      case Hit(n) => OnlyAt(a, g.a, n) && InUse(g.a, n) && g.a.nodes[n].locked && g.a.nodes[n].Name() == k
                     && g.a.nodes[n].count == a.nodes[n].count + 1 && g.a.nodes[n].want == a.nodes[n].want
                     && g.a.nodes[n].rdev == a.nodes[n].rdev
      case Miss(n) => OnlyAt(Purge(a, ps), g.a, n) && InUse(g.a, n) && g.a.nodes[n].locked && g.a.nodes[n].Name() == k
                      && g.a.nodes[n].count == 0 && !g.a.nodes[n].want
                      && g.a.nodes[n].rdev == Purge(a, ps).nodes[n].rdev
  {
    PurgeOk(a, ps);
    if k !in a.table && Purge(a, ps).free != [] { assert Purge(a, ps).free[0] in Purge(a, ps).free; }
  }

  /**
    What a get does to the map: the name is found under the node returned,
    every other name keeps its node, except that on a miss the name of the
    recycled node, which no one was using, is forgotten.
   */
  lemma GetUpdatesTheMap(a: Abs, k: Key, ps: seq<Victim>)
    requires AbsOk(a) && CanPurge(a, ps)
    ensures var g := EGet(a, k, ps);
      match g.outcome
      case Busy => k in a.table && a.nodes[a.table[k]].locked
                   && g.a.table == a.table && g.a.free == a.free && OnlyWanted(a, g.a, a.table[k])
      case Full => k !in a.table && g.a.table == a.table && Purge(a, ps).free == []
      case Hit(n) => k in a.table && n == a.table[k] && g.a.table == a.table && n !in g.a.free
      case Miss(n) => k !in a.table && k in g.a.table && g.a.table[k] == n && n !in g.a.free
                      && n < |Purge(a, ps).nodes| && !Purge(a, ps).nodes[n].ref
                      && (forall j :: j != k ==> (j in g.a.table <==> j in a.table && a.table[j] != n))
                      && (forall j :: j != k && j in g.a.table ==> g.a.table[j] == a.table[j])
  {
    EGetOk(a, k, ps);
    var g := EGet(a, k, ps);
    if k !in a.table {
      PurgeOk(a, ps);
      var a1 := Purge(a, ps);
      if a1.free != [] {
        var n := a1.free[0];
        assert n in a1.free;
        assert a1.free == [n] + g.a.free;
        forall j | j != k ensures j in g.a.table <==> j in a.table && a.table[j] != n {
          if j in a.table { assert a1.nodes[a1.table[j]].Name() == j; }
        }
      }
    } else if !a.nodes[a.table[k]].locked && a.table[k] in a.free {
      WithoutLoses(a.free, PlaceOf(a.free, a.table[k]));
    }
  }

  /** How many references to a node the purges may give up. */
  function DropsOf(ps: seq<Victim>, n: nat): nat {
    if ps == [] then 0 else (if ps[0] == Drops(n) then 1 else 0) + DropsOf(ps[1..], n)
  }

  /**
    A get finds no room exactly if no node was free and reclaiming takes the last
    reference from none: it goes on until a node is free.
   */
  lemma NoRoomExactly(a: Abs, k: Key, ps: seq<Victim>)
    requires AbsOk(a) && CanPurge(a, ps) && k !in a.table
    ensures EGet(a, k, ps).outcome.Full? <==>
      a.free == [] && forall n :: 0 <= n < |a.nodes| && a.nodes[n].count > 0 ==> DropsOf(ps, n) < a.nodes[n].count
    ensures !EGet(a, k, ps).outcome.Full? <==> EGet(a, k, ps).outcome.Miss?
  {
    PurgeFreesNone(a, ps);
  }

  lemma {:induction false} PurgeFreesNone(a: Abs, ps: seq<Victim>)
    requires CanPurge(a, ps)
    ensures Purge(a, ps).free == [] <==>
      a.free == [] && forall n :: 0 <= n < |a.nodes| && a.nodes[n].count > 0 ==> DropsOf(ps, n) < a.nodes[n].count
    decreases |ps|
  {
    if a.free == [] && ps != [] {
      var a1 := Purged(a, ps[0]);
      PurgeFreesNone(a1, ps[1..]);
      forall n | 0 <= n < |a.nodes| && a.nodes[n].count > 0
        ensures DropsOf(ps, n) < a.nodes[n].count <==> DropsOf(ps[1..], n) < a1.nodes[n].count
      { }
    }
  }

  /**
    A node in use is never recycled: unless reclaiming gives up all its
    references, it keeps its name and its place in the map through any get.
   */
  lemma InUseIsKept(a: Abs, k: Key, ps: seq<Victim>, n: nat)
    requires AbsOk(a) && CanPurge(a, ps) && InUse(a, n)
    requires a.nodes[n].locked || DropsOf(ps, n) < a.nodes[n].count
    ensures var g := EGet(a, k, ps).a; InUse(g, n) && Mapped(g, n) && g.nodes[n].Name() == a.nodes[n].Name()
  {
    if k in a.table {
      EGetOk(a, k, ps);
    } else {
      PurgeOk(a, ps);
      PurgeLowers(a, ps, n);
      if Purge(a, ps).free != [] { RecycledSpares(Purge(a, ps), k, n); }
    }
  }

  lemma RecycledSpares(a: Abs, k: Key, n: nat)
    requires AbsOk(a) && a.free != [] && k !in a.table && InUse(a, n)
    ensures InUse(Recycled(a, k), n) && Mapped(Recycled(a, k), n) && Recycled(a, k).nodes[n] == a.nodes[n]
  {
    assert a.free[0] in a.free;
    assert Mapped(a, n);
    RecycledOk(a, k);
  }

  /** Purges do nothing to a node but lower its count, by the references they give up at most. */
  lemma {:induction false} PurgeLowers(a: Abs, ps: seq<Victim>, n: nat)
    requires CanPurge(a, ps) && InUse(a, n) && (a.nodes[n].locked || DropsOf(ps, n) < a.nodes[n].count)
    ensures InUse(Purge(a, ps), n)
    ensures a.nodes[n].count - DropsOf(ps, n) <= Purge(a, ps).nodes[n].count <= a.nodes[n].count
    ensures Purge(a, ps).nodes[n] == a.nodes[n].(count := Purge(a, ps).nodes[n].count)
    decreases |ps|
  {
    if a.free == [] && ps != [] {
      PurgeLowers(Purged(a, ps[0]), ps[1..], n);
    }
  }

  /** A node put back is found again, with its name, by the next get, whatever else it was used for in between. */
  lemma PutThenGet(a: Abs, n: nat, ps: seq<Victim>)
    requires AbsOk(a) && InUse(a, n) && a.nodes[n].count > 0 && CanPurge(Put(a, n), ps)
    ensures AbsOk(Put(a, n))
    ensures EGet(Put(a, n), a.nodes[n].Name(), ps).outcome == Hit(n)
    ensures a.nodes[n].locked && !a.nodes[n].want ==> EGet(Put(a, n), a.nodes[n].Name(), ps).a == a
  {
    PutOk(a, n);
    assert Mapped(a, n) && Mapped(Put(a, n), n);
    if a.nodes[n].locked && !a.nodes[n].want { TakenUndoesPut(a, n); }
  }

  lemma TakenUndoesPut(a: Abs, n: nat)
    requires AbsOk(a) && InUse(a, n) && a.nodes[n].count > 0 && a.nodes[n].locked && !a.nodes[n].want
    ensures Taken(Put(a, n), n) == a
  {
    var b := Put(a, n);
    assert n !in a.free;
    if a.nodes[n].count == 1 {
      assert b.free == a.free + [n];
      PlaceAtEnd(a.free, n);
    }
    assert Taken(b, n).nodes == a.nodes;
  }

  lemma {:induction false} PlaceAtEnd(c: seq<int>, n: int)
    requires n !in c
    ensures (c + [n])[|c|] == n && PlaceOf(c + [n], n) == |c| && Without(c + [n], |c|) == c
  {
    assert (c + [n])[|c|] == n;
    if c != [] {
      assert (c + [n])[1..] == c[1..] + [n];
      assert n !in c[1..];
      PlaceAtEnd(c[1..], n);
    }
  }

  /** The state of a flush that has dealt with the nodes before `n`. */
  ghost predicate FlushedUpTo(a: Abs, dev: nat, n: nat) {
    forall k :: k in a.table && k.dev == dev ==> a.table[k] >= n
  }

  /** A node of the device that stays in use whatever is given up. */
  predicate Blocks(a: Abs, dev: nat, drops: map<nat, nat>, n: nat) {
    InUse(a, n) && a.nodes[n].dev == dev && !(0 < DropsAt(drops, n) == a.nodes[n].count)
  }

  /** A node of the device that can be given up, once it is given up. */
  function Forgotten(a: Abs, drops: map<nat, nat>, n: nat): Abs
    requires CanFlush(a, drops) && n < |a.nodes|
  {
    Invalidated(a, drops, n).(table := Unmap(Invalidated(a, drops, n), n))
  }

  lemma FlushUnfolds(a: Abs, dev: nat, drops: map<nat, nat>, n: nat, open: nat)
    requires CanFlush(a, drops) && n < |a.nodes| && a.nodes[n].dev == dev
    ensures Blocks(a, dev, drops, n) ==>
      FlushFrom(a, dev, drops, n, open) == Flushed(Invalidated(a, drops, n), -1)
    ensures !Blocks(a, dev, drops, n) ==>
      CanFlush(Forgotten(a, drops, n), drops) && |Forgotten(a, drops, n).nodes| == |a.nodes|
    ensures !Blocks(a, dev, drops, n) ==>
      FlushFrom(a, dev, drops, n, open) == FlushFrom(Forgotten(a, drops, n), dev, drops, n + 1, open)
  {
  }

  lemma FlushPasses(a: Abs, dev: nat, drops: map<nat, nat>, n: nat, open: nat)
    requires CanFlush(a, drops) && n < |a.nodes| && a.nodes[n].dev != dev
    ensures FlushFrom(a, dev, drops, n, open) ==
      FlushFrom(a, dev, drops, n + 1, if a.nodes[n].ref && a.nodes[n].rdev == dev then open + 1 else open)
  {
  }

  lemma {:induction false} DrainedOk(a: Abs, n: nat, d: nat)
    requires AbsOk(a) && InUse(a, n) && d <= a.nodes[n].count
    requires d > 0 && a.nodes[n].locked ==> d < a.nodes[n].count
    ensures AbsOk(Drained(a, n, d))
    decreases d
  {
    if d > 0 {
      ReleaseOk(a, n);
      if d > 1 { DrainedOk(Release(a, n), n, d - 1); }
    }
  }

  lemma InvalidatedOk(a: Abs, drops: map<nat, nat>, n: nat)
    requires AbsOk(a) && CanFlush(a, drops) && n < |a.nodes|
    ensures AbsOk(Invalidated(a, drops, n))
  {
    if a.nodes[n].ref { DrainedOk(a, n, DropsAt(drops, n)); }
  }

  lemma ForgottenOk(a: Abs, dev: nat, drops: map<nat, nat>, n: nat)
    requires AbsOk(a) && CanFlush(a, drops) && n < |a.nodes| && a.nodes[n].dev == dev && !Blocks(a, dev, drops, n)
    ensures AbsOk(Forgotten(a, drops, n))
  {
    InvalidatedOk(a, drops, n);
    UnmapOk(Invalidated(a, drops, n), n);
  }

  lemma {:induction false} FlushOk(a: Abs, dev: nat, drops: map<nat, nat>, n: nat, open: nat)
    requires AbsOk(a) && CanFlush(a, drops) && n <= |a.nodes|
    ensures AbsOk(FlushFrom(a, dev, drops, n, open).a)
    decreases |a.nodes| - n
  {
    if n < |a.nodes| {
      if a.nodes[n].dev != dev {
        FlushOk(a, dev, drops, n + 1, if a.nodes[n].ref && a.nodes[n].rdev == dev then open + 1 else open);
      } else {
        FlushUnfolds(a, dev, drops, n, open);
        if Blocks(a, dev, drops, n) {
          InvalidatedOk(a, drops, n);
        } else {
          ForgottenOk(a, dev, drops, n);
          FlushOk(Forgotten(a, drops, n), dev, drops, n + 1, open);
        }
      }
    }
  }

  /** One node of a flush: nothing changes for the others, and the node itself is no longer found. */
  lemma FlushStep(a: Abs, dev: nat, drops: map<nat, nat>, n: nat)
    requires AbsOk(a) && CanFlush(a, drops) && n < |a.nodes| && a.nodes[n].dev == dev && !Blocks(a, dev, drops, n)
    ensures var b := Forgotten(a, drops, n);
      && !b.nodes[n].ref && |b.nodes| == |a.nodes|
      && (forall k :: k in b.table <==> k in a.table && a.table[k] != n)
      && (forall k :: k in b.table ==> b.table[k] == a.table[k])
      && (forall m :: 0 <= m < |a.nodes| && m != n ==> b.nodes[m] == a.nodes[m])
  {
    forall k | k in a.table && a.table[k] == n ensures k == a.nodes[n].Name() { }
  }

  ghost predicate NoneBlocks(a: Abs, dev: nat, drops: map<nat, nat>, n: nat) {
    forall m: nat :: n <= m ==> !Blocks(a, dev, drops, m)
  }

  lemma NoneBlocksFrom(a: Abs, b: Abs, dev: nat, drops: map<nat, nat>, n: nat)
    requires |b.nodes| == |a.nodes| && forall m :: n < m < |a.nodes| ==> b.nodes[m] == a.nodes[m]
    ensures NoneBlocks(a, dev, drops, n) <==> !Blocks(a, dev, drops, n) && NoneBlocks(b, dev, drops, n + 1)
  {
    assert forall m: nat :: n < m ==> (Blocks(a, dev, drops, m) <==> Blocks(b, dev, drops, m));
  }

  /** A flush succeeds exactly when no node of the device stays in use. */
  lemma {:induction false} FlushSucceedsExactly(a: Abs, dev: nat, drops: map<nat, nat>, n: nat, open: nat)
    requires AbsOk(a) && CanFlush(a, drops) && n <= |a.nodes|
    ensures FlushFrom(a, dev, drops, n, open).result >= 0 <==> NoneBlocks(a, dev, drops, n)
    ensures FlushFrom(a, dev, drops, n, open).result >= -1
    decreases |a.nodes| - n
  {
    if n < |a.nodes| {
      if a.nodes[n].dev != dev {
        NoneBlocksFrom(a, a, dev, drops, n);
        FlushSucceedsExactly(a, dev, drops, n + 1, if a.nodes[n].ref && a.nodes[n].rdev == dev then open + 1 else open);
      } else if !Blocks(a, dev, drops, n) {
        FlushStep(a, dev, drops, n);
        FlushUnfolds(a, dev, drops, n, open);
        ForgottenOk(a, dev, drops, n);
        NoneBlocksFrom(a, Forgotten(a, drops, n), dev, drops, n);
        FlushSucceedsExactly(Forgotten(a, drops, n), dev, drops, n + 1, open);
      }
    }
  }

  lemma ForgottenUpTo(a: Abs, dev: nat, drops: map<nat, nat>, n: nat)
    requires AbsOk(a) && CanFlush(a, drops) && n < |a.nodes| && a.nodes[n].dev == dev && !Blocks(a, dev, drops, n)
    requires FlushedUpTo(a, dev, n)
    ensures AbsOk(Forgotten(a, drops, n)) && FlushedUpTo(Forgotten(a, drops, n), dev, n + 1)
  {
    FlushStep(a, dev, drops, n);
    ForgottenOk(a, dev, drops, n);
  }

  lemma OtherUpTo(a: Abs, dev: nat, n: nat)
    requires AbsOk(a) && n < |a.nodes| && a.nodes[n].dev != dev && FlushedUpTo(a, dev, n)
    ensures FlushedUpTo(a, dev, n + 1)
  {
    assert forall k :: k in a.table ==> a.nodes[a.table[k]].Name() == k;
  }

  /** The nodes from `n` on that are in use through the device, of other devices' file systems. */
  function Opened(a: Abs, dev: nat, n: nat): set<nat> {
    set m: nat | n <= m < |a.nodes| && a.nodes[m].dev != dev && a.nodes[m].ref && a.nodes[m].rdev == dev
  }

  lemma OpenedFrom(a: Abs, b: Abs, dev: nat, n: nat)
    requires n < |a.nodes| == |b.nodes| && forall m :: n < m < |a.nodes| ==> b.nodes[m] == a.nodes[m]
    ensures Opened(a, dev, n) ==
      (if a.nodes[n].dev != dev && a.nodes[n].ref && a.nodes[n].rdev == dev then {n} else {}) + Opened(b, dev, n + 1)
    ensures n !in Opened(b, dev, n + 1)
  {
  }

  /** A flush that succeeds returns how many there are. */
  lemma {:induction false} FlushCounts(a: Abs, dev: nat, drops: map<nat, nat>, n: nat, open: nat)
    requires CanFlush(a, drops) && n <= |a.nodes|
    requires FlushFrom(a, dev, drops, n, open).result >= 0
    ensures FlushFrom(a, dev, drops, n, open).result == open + |Opened(a, dev, n)|
    decreases |a.nodes| - n
  {
    if n == |a.nodes| {
      assert Opened(a, dev, n) == {};
    } else if a.nodes[n].dev != dev {
      OpenedFrom(a, a, dev, n);
      FlushCounts(a, dev, drops, n + 1, if a.nodes[n].ref && a.nodes[n].rdev == dev then open + 1 else open);
    } else {
      FlushUnfolds(a, dev, drops, n, open);
      OpenedFrom(a, Forgotten(a, drops, n), dev, n);
      FlushCounts(Forgotten(a, drops, n), dev, drops, n + 1, open);
    }
  }

  /** After a successful flush no name of the device is found any more. */
  lemma {:induction false} FlushForgets(a: Abs, dev: nat, drops: map<nat, nat>, n: nat, open: nat)
    requires AbsOk(a) && CanFlush(a, drops) && n <= |a.nodes| && FlushedUpTo(a, dev, n)
    requires FlushFrom(a, dev, drops, n, open).result >= 0
    ensures forall k :: k in FlushFrom(a, dev, drops, n, open).a.table ==> k.dev != dev
    decreases |a.nodes| - n
  {
    if n < |a.nodes| {
      if a.nodes[n].dev != dev {
        OtherUpTo(a, dev, n);
        FlushForgets(a, dev, drops, n + 1, if a.nodes[n].ref && a.nodes[n].rdev == dev then open + 1 else open);
      } else if !Blocks(a, dev, drops, n) {
        ForgottenUpTo(a, dev, drops, n);
        FlushUnfolds(a, dev, drops, n, open);
        FlushForgets(Forgotten(a, drops, n), dev, drops, n + 1, open);
      }
    }
  }

  lemma ForgottenSpares(a: Abs, drops: map<nat, nat>, n: nat, k: Key)
    requires CanFlush(a, drops) && n < |a.nodes| && k in a.table && k.dev != a.nodes[n].dev
    ensures k in Forgotten(a, drops, n).table && Forgotten(a, drops, n).table[k] == a.table[k]
  {
  }

  /** A node in use of which a flush of the device does not give up all references. */
  predicate Stays(a: Abs, dev: nat, drops: map<nat, nat>, n: nat) {
    InUse(a, n) && (a.nodes[n].dev != dev || Blocks(a, dev, drops, n))
  }

  /** Such a node of the device may lose some. */
  function Lowered(a: Abs, dev: nat, drops: map<nat, nat>, n: nat): Node
    requires CanFlush(a, drops) && n < |a.nodes|
  {
    if a.nodes[n].dev == dev then Invalidated(a, drops, n).nodes[n] else a.nodes[n]
  }

  /**
    Successful or not, a flush leaves names of other devices as they were, and
    nodes that stay in use in the map, with the same name and flags.
   */
  lemma FlushKeeps(a: Abs, dev: nat, drops: map<nat, nat>, n: nat, open: nat)
    requires AbsOk(a) && CanFlush(a, drops) && n <= |a.nodes|
    ensures var r := FlushFrom(a, dev, drops, n, open).a;
      && |r.nodes| == |a.nodes|
      && (forall k :: k in a.table && k.dev != dev ==> k in r.table && r.table[k] == a.table[k])
      && (forall m: nat :: Stays(a, dev, drops, m) ==>
            Mapped(r, m) && (r.nodes[m] == a.nodes[m] || r.nodes[m] == Lowered(a, dev, drops, m)))
  {
    FlushOk(a, dev, drops, n, open);
    FlushKeepsSize(a, dev, drops, n, open);
    var r := FlushFrom(a, dev, drops, n, open).a;
    forall k | k in a.table && k.dev != dev ensures k in r.table && r.table[k] == a.table[k] {
      FlushKeepsName(a, dev, drops, n, open, k);
    }
    forall m: nat | Stays(a, dev, drops, m)
      ensures r.nodes[m] == a.nodes[m] || r.nodes[m] == Lowered(a, dev, drops, m)
    {
      FlushKeepsNode(a, dev, drops, n, open, m);
    }
  }

  lemma {:induction false} FlushKeepsSize(a: Abs, dev: nat, drops: map<nat, nat>, n: nat, open: nat)
    requires CanFlush(a, drops) && n <= |a.nodes|
    ensures |FlushFrom(a, dev, drops, n, open).a.nodes| == |a.nodes|
    decreases |a.nodes| - n
  {
    if n < |a.nodes| {
      if a.nodes[n].dev != dev {
        FlushKeepsSize(a, dev, drops, n + 1, if a.nodes[n].ref && a.nodes[n].rdev == dev then open + 1 else open);
      } else {
        FlushUnfolds(a, dev, drops, n, open);
        if !Blocks(a, dev, drops, n) { FlushKeepsSize(Forgotten(a, drops, n), dev, drops, n + 1, open); }
      }
    }
  }

  lemma {:induction false} FlushKeepsName(a: Abs, dev: nat, drops: map<nat, nat>, n: nat, open: nat, k: Key)
    requires CanFlush(a, drops) && n <= |a.nodes| && k in a.table && k.dev != dev
    ensures var r := FlushFrom(a, dev, drops, n, open).a; k in r.table && r.table[k] == a.table[k]
    decreases |a.nodes| - n
  {
    if n < |a.nodes| {
      if a.nodes[n].dev != dev {
        FlushKeepsName(a, dev, drops, n + 1, if a.nodes[n].ref && a.nodes[n].rdev == dev then open + 1 else open, k);
      } else {
        FlushUnfolds(a, dev, drops, n, open);
        if !Blocks(a, dev, drops, n) {
          ForgottenSpares(a, drops, n, k);
          FlushKeepsName(Forgotten(a, drops, n), dev, drops, n + 1, open, k);
        }
      }
    }
  }

  lemma {:induction false} FlushKeepsNode(a: Abs, dev: nat, drops: map<nat, nat>, n: nat, open: nat, m: nat)
    requires CanFlush(a, drops) && n <= |a.nodes| && Stays(a, dev, drops, m)
    ensures m < |FlushFrom(a, dev, drops, n, open).a.nodes|
    ensures var node := FlushFrom(a, dev, drops, n, open).a.nodes[m];
      node == a.nodes[m] || node == Lowered(a, dev, drops, m)
    decreases |a.nodes| - n
  {
    if n < |a.nodes| {
      if a.nodes[n].dev != dev {
        FlushKeepsNode(a, dev, drops, n + 1, if a.nodes[n].ref && a.nodes[n].rdev == dev then open + 1 else open, m);
      } else {
        FlushUnfolds(a, dev, drops, n, open);
        if !Blocks(a, dev, drops, n) { FlushKeepsNode(Forgotten(a, drops, n), dev, drops, n + 1, open, m); }
      }
    }
  }
}
