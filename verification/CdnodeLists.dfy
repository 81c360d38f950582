/**
  The two linked structures threaded through the cdnode table: circular
  doubly linked hash rings, and a free list whose back links point at the
  pointer that points to the node.
 */
module CdnodeLists {
  import opened Common

  const CDNOHSZ: nat := 63

  /** A ring link; nodes are numbered from 0, the ring headers come after the last node. */
  datatype Link = Link(forw: int, back: int)

  // ---------------------------------------------------------------- one ring

  /** The element at place `k` of a ring: the header at both ends, the members of `c` in between. */
  function At(head: int, c: seq<int>, k: int): int
    requires 0 <= k <= |c| + 1
  {
    if k == 0 || k == |c| + 1 then head else c[k - 1]
  }

  ghost predicate Ring(links: seq<Link>, head: int, c: seq<int>) {
    && 0 <= head < |links|
    && head !in c
    && (forall i :: 0 <= i < |c| ==> 0 <= c[i] < |links|)
    && Distinct(c)
    && (forall k :: 0 <= k <= |c| ==> Joined(links, head, c, k))
  }

  /** The elements at places `k` and `k + 1` point at each other. */
  predicate Joined(links: seq<Link>, head: int, c: seq<int>, k: int)
    requires 0 <= k <= |c|
  {
    && 0 <= At(head, c, k) < |links| && 0 <= At(head, c, k + 1) < |links|
    && links[At(head, c, k)].forw == At(head, c, k + 1) && links[At(head, c, k + 1)].back == At(head, c, k)
  }

  lemma WithoutDistinct(c: seq<int>, p: nat)
    requires Distinct(c) && p < |c|
    ensures Distinct(Without(c, p))
  {
  }

  /** The two assignments that take an element out of whatever ring it is on. */
  function Remque(links: seq<Link>, n: int): (r: seq<Link>)
    requires 0 <= n < |links| && 0 <= links[n].back < |links| && 0 <= links[n].forw < |links|
    ensures |r| == |links|
  {
    var b := links[n].back;
    var l1 := links[b := links[b].(forw := links[n].forw)];
    var f := l1[n].forw;
    if 0 <= f < |links| then l1[f := l1[f].(back := l1[n].back)] else l1
  }

  /** The four assignments that put an element right after a ring's header. */
  function InsertAfter(links: seq<Link>, head: int, n: int): (r: seq<Link>)
    requires 0 <= n < |links| && 0 <= head < |links| && 0 <= links[head].forw < |links| && n != head
    ensures |r| == |links|
  {
    var l1 := links[n := Link(links[head].forw, head)];
    var f := l1[head].forw;
    var l2 := l1[f := l1[f].(back := n)];
    l2[head := l2[head].(forw := n)]
  }

  lemma RemqueKeepsRing(links: seq<Link>, head: int, c: seq<int>, p: nat)
    requires Ring(links, head, c) && p < |c|
    ensures 0 <= links[c[p]].back < |links| && 0 <= links[c[p]].forw < |links|
    ensures Ring(Remque(links, c[p]), head, Without(c, p))
    ensures forall m :: 0 <= m < |links| && m != head && m !in c ==> Remque(links, c[p])[m] == links[m]
  {
    var n := c[p];
    var c' := Without(c, p);
    var b, f := At(head, c, p), At(head, c, p + 2);
    assert At(head, c, p + 1) == n;
    assert Joined(links, head, c, p) && Joined(links, head, c, p + 1);
    assert links[n].back == b && links[n].forw == f;
    var r := Remque(links, n);
    assert b != n && f != n;
    assert r == if b == f then links[b := Link(f, b)] else links[b := links[b].(forw := f)][f := links[f].(back := b)];
    forall k | 0 <= k <= |c'| ensures Joined(r, head, c', k) {
      var j := if k <= p then k else k + 1;
      assert At(head, c', k) == At(head, c, j);
      assert Joined(links, head, c, j);
      if k == p {
        assert At(head, c', k) == b && At(head, c', k + 1) == f;
      } else {
        assert At(head, c', k + 1) == At(head, c, j + 1);
      }
    }
  }

  /** Links changed only at the header, on the chain, and at node `n`. */
  ghost predicate ChangedNear(links: seq<Link>, links': seq<Link>, head: int, c: seq<int>, n: int) {
    |links'| == |links| && forall m :: 0 <= m < |links| && m != head && m != n && m !in c ==> links'[m] == links[m]
  }

  /** The same members, but perhaps for `n`. */
  ghost predicate SameOthers(c: seq<int>, d: seq<int>, n: int) {
    forall m :: m != n ==> (m in c <==> m in d)
  }

  /** Unlinked and then made a ring by itself. */
  lemma RemqueThenAlone(links: seq<Link>, head: int, c: seq<int>, p: nat, n: int)
      returns (links': seq<Link>, rest: seq<int>)
    requires Ring(links, head, c) && p < |c| && n == c[p]
    ensures 0 <= links[n].back < |links| && 0 <= links[n].forw < |links|
    ensures links' == Remque(links, n)[n := Link(n, n)] && rest == Without(c, p)
    ensures |links'| == |links| && links'[n] == Link(n, n) && Ring(links', head, rest)
    ensures ChangedNear(links, links', head, c, n)
    ensures n !in rest && SameOthers(rest, c, n)
  {
    rest := Without(c, p);
    RemqueKeepsRing(links, head, c, p);
    WithoutLoses(c, p);
    var links1 := Remque(links, c[p]);
    links' := links1[c[p] := Link(c[p], c[p])];
    assert forall i :: 0 <= i < |Without(c, p)| ==> Without(c, p)[i] in Without(c, p);
    RingFrame(links1, links', head, Without(c, p));
  }

  lemma InsertKeepsRing(links: seq<Link>, head: int, c: seq<int>, n: int)
    requires Ring(links, head, c) && 0 <= n < |links| && n != head && n !in c
    ensures 0 <= links[head].forw < |links|
    ensures Ring(InsertAfter(links, head, n), head, [n] + c)
    ensures ChangedNear(links, InsertAfter(links, head, n), head, c, n)
  {
    var c' := [n] + c;
    var f := At(head, c, 1);
    assert Joined(links, head, c, 0) && links[head].forw == f;
    var r := InsertAfter(links, head, n);
    forall k | 0 <= k <= |c'| ensures Joined(r, head, c', k) {
      if k >= 1 {
        assert At(head, c', k + 1) == At(head, c, k);
        assert Joined(links, head, c, k - 1);
      }
      if k >= 2 { assert At(head, c', k) == At(head, c, k - 1); }
    }
  }

  /** A ring depends only on the links of its header and members. */
  lemma RingFrame(links: seq<Link>, links': seq<Link>, head: int, c: seq<int>)
    requires Ring(links, head, c) && |links'| == |links|
    requires links'[head] == links[head] && forall i :: 0 <= i < |c| ==> links'[c[i]] == links[c[i]]
    ensures Ring(links', head, c)
  {
    forall k | 0 <= k <= |c| ensures Joined(links', head, c, k) {
      assert Joined(links, head, c, k);
    }
  }

  // ---------------------------------------------------------------- all rings

  const ALONE := -1

  /** Every node is on the ring of its home chain, or is a ring by itself. */
  ghost predicate RingsOk(links: seq<Link>, ncdnode: nat, chains: seq<seq<int>>, home: seq<int>) {
    && |links| == ncdnode + CDNOHSZ
    && |chains| == CDNOHSZ
    && |home| == ncdnode
    && (forall h :: 0 <= h < CDNOHSZ ==> RingAt(links, ncdnode, chains, home, h))
    && (forall n {:trigger HasPlace(links, chains, home, n)} :: 0 <= n < ncdnode ==> HasPlace(links, chains, home, n))
  }

  ghost predicate RingAt(links: seq<Link>, ncdnode: nat, chains: seq<seq<int>>, home: seq<int>, h: int)
    requires 0 <= h < |chains|
  {
    Ring(links, ncdnode + h, chains[h]) && LivesAt(chains[h], home, h)
  }

  /** The members of a chain are the nodes that have it as their home. */
  ghost predicate LivesAt(c: seq<int>, home: seq<int>, h: int) {
    forall i :: 0 <= i < |c| ==> 0 <= c[i] < |home| && home[c[i]] == h
  }

  ghost predicate HasPlace(links: seq<Link>, chains: seq<seq<int>>, home: seq<int>, n: nat)
    requires n < |home| <= |links|
  {
    if home[n] == ALONE then links[n] == Link(n, n) else 0 <= home[n] < |chains| && n in chains[home[n]]
  }

  lemma EmptyRings(links: seq<Link>, ncdnode: nat)
    requires |links| == ncdnode + CDNOHSZ && forall m :: 0 <= m < |links| ==> links[m] == Link(m, m)
    ensures RingsOk(links, ncdnode, seq(CDNOHSZ, h => []), seq(ncdnode, k => ALONE))
  {
  }

  function PlaceOf(c: seq<int>, n: int): (p: nat)
    requires n in c
    ensures p < |c| && c[p] == n
  {
    if c[0] == n then 0 else 1 + PlaceOf(c[1..], n)
  }

  function ChainsWithout(chains: seq<seq<int>>, home: seq<int>, n: nat): seq<seq<int>>
    requires n < |home|
  {
    if 0 <= home[n] < |chains| && n in chains[home[n]]
    then chains[home[n] := Without(chains[home[n]], PlaceOf(chains[home[n]], n))]
    else chains
  }

  lemma WithoutLoses(c: seq<int>, p: nat)
    requires Distinct(c) && p < |c|
    ensures forall m :: m in Without(c, p) <==> m in c && m != c[p]
  {
    forall m | m in c && m != c[p] ensures m in Without(c, p) {
      var i :| 0 <= i < |c| && c[i] == m;
      assert Without(c, p)[if i < p then i else i - 1] == m;
    }
  }

  /** Members of different chains are different nodes. */
  lemma ChainsDisjoint(c: seq<int>, d: seq<int>, home: seq<int>, g: int, h: int)
    requires LivesAt(c, home, g) && LivesAt(d, home, h) && g != h
    ensures forall i :: 0 <= i < |c| ==> c[i] !in d
  {
  }

  /** Links changed only on ring `h` and at node `n`, itself on that ring or alone: the other rings stand. */
  lemma OtherRing(links: seq<Link>, links': seq<Link>, ncdnode: nat, chains: seq<seq<int>>, home: seq<int>, h: nat,
                  n: nat, g: nat)
    requires RingsOk(links, ncdnode, chains, home) && h < CDNOHSZ && n < ncdnode
    requires home[n] == h || home[n] == ALONE
    requires ChangedNear(links, links', ncdnode + h, chains[h], n)
    requires g < CDNOHSZ && g != h
    ensures Ring(links', ncdnode + g, chains[g])
  {
    assert RingAt(links, ncdnode, chains, home, g) && RingAt(links, ncdnode, chains, home, h);
    ChainsDisjoint(chains[g], chains[h], home, g, h);
    assert ncdnode + g !in chains[h];
    RingFrame(links, links', ncdnode + g, chains[g]);
  }

  /** A chain that gains or loses only `n`, whose home changes accordingly. */
  lemma NewHomes(c: seq<int>, c': seq<int>, home: seq<int>, h: nat, n: nat, home_n: int)
    requires LivesAt(c, home, h) && n < |home|
    requires SameOthers(c', c, n)
    requires if n in c' then home_n == h else home_n == ALONE
    ensures LivesAt(c', home[n := home_n], h)
  {
    forall i | 0 <= i < |c'| ensures 0 <= c'[i] < |home| && home[n := home_n][c'[i]] == h {
      assert c'[i] in c';
      if c'[i] != n {
        var k :| 0 <= k < |c| && c[k] == c'[i];
      }
    }
  }

  /** Node `n` leaves or joins chain `h`, whose members become `c`; nothing else changes. */
  lemma Assemble(links: seq<Link>, links': seq<Link>, ncdnode: nat, chains: seq<seq<int>>, home: seq<int>,
                 h: nat, n: nat, c: seq<int>, home_n: int)
    requires RingsOk(links, ncdnode, chains, home) && h < CDNOHSZ && n < ncdnode
    requires home[n] == h || home[n] == ALONE
    requires ChangedNear(links, links', ncdnode + h, chains[h], n)
    requires Ring(links', ncdnode + h, c)
    requires SameOthers(c, chains[h], n)
    requires if n in c then home_n == h else home_n == ALONE && links'[n] == Link(n, n)
    ensures RingsOk(links', ncdnode, chains[h := c], home[n := home_n])
  {
    var chains' := chains[h := c];
    var home' := home[n := home_n];
    assert RingAt(links, ncdnode, chains, home, h);
    NewHomes(chains[h], c, home, h, n, home_n);
    forall g | 0 <= g < CDNOHSZ
      ensures RingAt(links', ncdnode, chains', home', g)
    {
      if g != h {
        OtherRing(links, links', ncdnode, chains, home, h, n, g);
        assert RingAt(links, ncdnode, chains, home, g);
      }
    }
    forall m | 0 <= m < ncdnode ensures HasPlace(links', chains', home', m) {
      assert HasPlace(links, chains, home, m);
    }
  }

  lemma TheRing(links: seq<Link>, ncdnode: nat, chains: seq<seq<int>>, home: seq<int>, h: nat)
    requires RingsOk(links, ncdnode, chains, home) && h < CDNOHSZ
    ensures Ring(links, ncdnode + h, chains[h])
  {
    assert RingAt(links, ncdnode, chains, home, h);
  }

  lemma ChainedRemque(links: seq<Link>, ncdnode: nat, chains: seq<seq<int>>, home: seq<int>, n: nat, h: nat, p: nat)
      returns (links': seq<Link>, rest: seq<int>)
    requires RingsOk(links, ncdnode, chains, home) && n < ncdnode && home[n] == h < CDNOHSZ
    requires p < |chains[h]| && chains[h][p] == n
    ensures 0 <= links[n].back < |links| && 0 <= links[n].forw < |links|
    ensures links' == Remque(links, n)[n := Link(n, n)] && rest == Without(chains[h], p)
    ensures RingsOk(links', ncdnode, chains[h := rest], home[n := ALONE])
  {
    TheRing(links, ncdnode, chains, home, h);
    links', rest := RemqueThenAlone(links, ncdnode + h, chains[h], p, n);
    Assemble(links, links', ncdnode, chains, home, h, n, rest, ALONE);
  }

  /** Unlinking a node: its ring closes up, the other rings are untouched. */
  lemma RemqueKeepsRings(links: seq<Link>, ncdnode: nat, chains: seq<seq<int>>, home: seq<int>, n: nat)
    requires RingsOk(links, ncdnode, chains, home) && n < ncdnode
    ensures 0 <= links[n].back < |links| && 0 <= links[n].forw < |links|
    ensures RingsOk(Remque(links, n)[n := Link(n, n)], ncdnode, ChainsWithout(chains, home, n), home[n := ALONE])
  {
    assert HasPlace(links, chains, home, n);
    if home[n] == ALONE {
      assert Remque(links, n)[n := Link(n, n)] == links;
      assert home[n := ALONE] == home;
    } else {
      var links', rest := ChainedRemque(links, ncdnode, chains, home, n, home[n], PlaceOf(chains[home[n]], n));
    }
  }

  /** Putting a lone node at the front of a chain. */
  lemma InsertKeepsRings(links: seq<Link>, ncdnode: nat, chains: seq<seq<int>>, home: seq<int>, n: nat, h: nat)
    requires RingsOk(links, ncdnode, chains, home) && n < ncdnode && home[n] == ALONE && h < CDNOHSZ
    ensures 0 <= links[ncdnode + h].forw < |links|
    ensures RingsOk(InsertAfter(links, ncdnode + h, n), ncdnode, chains[h := [n] + chains[h]], home[n := h])
  {
    var c := [n] + chains[h];
    assert RingAt(links, ncdnode, chains, home, h);
    assert n !in chains[h];
    InsertKeepsRing(links, ncdnode + h, chains[h], n);
    assert c[0] == n;
    Assemble(links, InsertAfter(links, ncdnode + h, n), ncdnode, chains, home, h, n, c, h);
  }

  // ---------------------------------------------------------------- the free list

  const NIL := -1
  const HEADREF := -1  // a back link to the list head itself
  const NOREF := -2

  /** Free list links of a node: the next node, and which pointer points to this one. */
  datatype FreeLink = FreeLink(freef: int, freeb: int)

  /** The head pointer, and the pointer to the last link. */
  datatype FreeHead = FreeHead(freeh: int, freet: int)

  /** The member at place `i` points to the next one, and is pointed to by the previous one or the head. */
  predicate FreeLinked(fl: seq<FreeLink>, free: seq<int>, i: nat)
    requires i < |free| && 0 <= free[i] < |fl|
  {
    fl[free[i]] == FreeLink(if i + 1 < |free| then free[i + 1] else NIL, if i == 0 then HEADREF else free[i - 1])
  }

  /** The tail pointer is right unless the list is empty, when it may be stale. */
  ghost predicate FreeOk(fl: seq<FreeLink>, hd: FreeHead, free: seq<int>) {
    && Distinct(free)
    && (forall i :: 0 <= i < |free| ==> 0 <= free[i] < |fl|)
    && hd.freeh == (if free == [] then NIL else free[0])
    && (free != [] ==> hd.freet == free[|free| - 1])
    && (forall i :: 0 <= i < |free| ==> FreeLinked(fl, free, i))
  }

  lemma AllFree(fl: seq<FreeLink>, n: nat)
    requires n > 0 && |fl| == n
    requires forall k :: 0 <= k < n ==> fl[k] == FreeLink(if k + 1 < n then k + 1 else NIL, k - 1)
    ensures FreeOk(fl, FreeHead(0, n - 1), seq(n, k => k))
  {
    var free := seq(n, k => k);
    assert forall i :: 0 <= i < n ==> FreeLinked(fl, free, i);
  }

  datatype FreeState = FreeState(fl: seq<FreeLink>, hd: FreeHead)

  /** Append at the tail: through the tail pointer, or at the head of an empty list. */
  function FreeAppend(fl: seq<FreeLink>, hd: FreeHead, n: nat): FreeState
    requires n < |fl| && (hd.freeh != NIL ==> 0 <= hd.freet < |fl|)
  {
    if hd.freeh != NIL then
      var fl1 := fl[hd.freet := fl[hd.freet].(freef := n)];
      FreeState(fl1[n := FreeLink(NIL, hd.freet)], FreeHead(hd.freeh, n))
    else
      FreeState(fl[n := FreeLink(NIL, HEADREF)], FreeHead(n, n))
  }

  /** Take a node out of the middle, or either end. */
  function FreeRemove(fl: seq<FreeLink>, hd: FreeHead, n: nat): FreeState
    requires n < |fl| && (fl[n].freef != NIL ==> 0 <= fl[n].freef < |fl|) && HEADREF <= fl[n].freeb < |fl|
  {
    var q := fl[n].freef;
    var fl1 := if q != NIL then fl[q := fl[q].(freeb := fl[n].freeb)] else fl;
    var hd1 := if q != NIL then hd else hd.(freet := fl[n].freeb);
    var b := fl1[n].freeb;
    if HEADREF < b < |fl| then
      FreeState(fl1[b := fl1[b].(freef := q)][n := FreeLink(NIL, NOREF)], hd1)
    else
      FreeState(fl1[n := FreeLink(NIL, NOREF)], hd1.(freeh := q))
  }

  /** Take the first node; the tail pointer is left alone. */
  function FreePop(fl: seq<FreeLink>, hd: FreeHead): FreeState
    requires 0 <= hd.freeh < |fl| && (fl[hd.freeh].freef != NIL ==> 0 <= fl[hd.freeh].freef < |fl|)
  {
    var n := hd.freeh;
    var q := fl[n].freef;
    var fl1 := if q != NIL then fl[q := fl[q].(freeb := HEADREF)] else fl;
    FreeState(fl1[n := FreeLink(NIL, NOREF)], hd.(freeh := q))
  }

  lemma FreeAppendOk(fl: seq<FreeLink>, hd: FreeHead, free: seq<int>, n: nat)
    requires FreeOk(fl, hd, free) && n < |fl| && n !in free
    ensures hd.freeh != NIL ==> 0 <= hd.freet < |fl|
    ensures var s := FreeAppend(fl, hd, n); FreeOk(s.fl, s.hd, free + [n])
  {
    var s := FreeAppend(fl, hd, n);
    var free' := free + [n];
    forall i | 0 <= i < |free'| ensures FreeLinked(s.fl, free', i) {
      if i < |free| {
        assert FreeLinked(fl, free, i);
      }
    }
  }

  /** The links of a list member are in range. */
  lemma FreeLinksInRange(fl: seq<FreeLink>, hd: FreeHead, free: seq<int>, p: nat)
    requires FreeOk(fl, hd, free) && p < |free|
    ensures fl[free[p]].freef != NIL ==> 0 <= fl[free[p]].freef < |fl|
    ensures HEADREF <= fl[free[p]].freeb < |fl|
  {
    assert FreeLinked(fl, free, p);
  }

  /** What removing a member does to the links of the others. */
  lemma FreeRemoved(fl: seq<FreeLink>, hd: FreeHead, free: seq<int>, p: nat)
    requires FreeOk(fl, hd, free) && p < |free|
    ensures fl[free[p]].freef != NIL ==> 0 <= fl[free[p]].freef < |fl|
    ensures HEADREF <= fl[free[p]].freeb < |fl|
    ensures var n, q, b := free[p], fl[free[p]].freef, fl[free[p]].freeb;
      var s := FreeRemove(fl, hd, n);
      && |s.fl| == |fl|
      && s.hd == FreeHead(if b == HEADREF then q else hd.freeh, if q == NIL then b else hd.freet)
      && forall x :: 0 <= x < |fl| && x != n ==>
           s.fl[x] == FreeLink(if x == b then q else fl[x].freef, if x == q then b else fl[x].freeb)
  {
    FreeLinksInRange(fl, hd, free, p);
    assert FreeLinked(fl, free, p);
  }

  lemma FreeRemoveOk(fl: seq<FreeLink>, hd: FreeHead, free: seq<int>, p: nat)
    requires FreeOk(fl, hd, free) && p < |free|
    ensures fl[free[p]].freef != NIL ==> 0 <= fl[free[p]].freef < |fl|
    ensures HEADREF <= fl[free[p]].freeb < |fl|
    ensures var s := FreeRemove(fl, hd, free[p]); FreeOk(s.fl, s.hd, Without(free, p))
  {
    FreeRemoved(fl, hd, free, p);
    var s := FreeRemove(fl, hd, free[p]);
    CloseGap(fl, s.fl, hd, s.hd, free, p);
  }

  /** With the neighbours joined, the members that remain are linked in order. */
  lemma CloseGap(fl: seq<FreeLink>, fl': seq<FreeLink>, hd: FreeHead, hd': FreeHead, free: seq<int>, p: nat)
    requires FreeOk(fl, hd, free) && p < |free| && |fl'| == |fl|
    requires var q, b := fl[free[p]].freef, fl[free[p]].freeb;
      && hd' == FreeHead(if b == HEADREF then q else hd.freeh, if q == NIL then b else hd.freet)
      && forall x :: 0 <= x < |fl| && x != free[p] ==>
           fl'[x] == FreeLink(if x == b then q else fl[x].freef, if x == q then b else fl[x].freeb)
    ensures FreeOk(fl', hd', Without(free, p))
  {
    var free' := Without(free, p);
    WithoutDistinct(free, p);
    assert FreeLinked(fl, free, p);
    CloseGapEnds(fl, hd, hd', free, p);
    forall i | 0 <= i < |free'| ensures 0 <= free'[i] < |fl| {}
    forall i | 0 <= i < |free'| ensures FreeLinked(fl', free', i) {
      var j := if i < p then i else i + 1;
      assert FreeLinked(fl, free, j);
      CloseGapAt(fl, fl', free, p, j);
    }
  }

  lemma CloseGapEnds(fl: seq<FreeLink>, hd: FreeHead, hd': FreeHead, free: seq<int>, p: nat)
    requires p < |free| && forall i :: 0 <= i < |free| ==> 0 <= free[i] < |fl|
    requires FreeLinked(fl, free, p) && hd == FreeHead(free[0], free[|free| - 1])
    requires var q, b := fl[free[p]].freef, fl[free[p]].freeb;
      hd' == FreeHead(if b == HEADREF then q else hd.freeh, if q == NIL then b else hd.freet)
    ensures var free' := Without(free, p);
      && hd'.freeh == (if free' == [] then NIL else free'[0])
      && (free' != [] ==> hd'.freet == free'[|free'| - 1])
  {
  }

  /** The member at place `j`, seen from the shortened list. */
  lemma CloseGapAt(fl: seq<FreeLink>, fl': seq<FreeLink>, free: seq<int>, p: nat, j: nat)
    requires p < |free| && j < |free| && j != p && |fl'| == |fl| && Distinct(free)
    requires forall i :: 0 <= i < |free| ==> 0 <= free[i] < |fl|
    requires FreeLinked(fl, free, p) && FreeLinked(fl, free, j)
    requires var q, b := fl[free[p]].freef, fl[free[p]].freeb; var x := free[j];
      fl'[x] == FreeLink(if x == b then q else fl[x].freef, if x == q then b else fl[x].freeb)
    ensures FreeLinked(fl', Without(free, p), if j < p then j else j - 1)
  {
    var q, b := fl[free[p]].freef, fl[free[p]].freeb;
    assert free[j] == b <==> j + 1 == p;
    assert free[j] == q <==> j == p + 1;
  }

  lemma FreePopOk(fl: seq<FreeLink>, hd: FreeHead, free: seq<int>)
    requires FreeOk(fl, hd, free) && free != []
    ensures 0 <= hd.freeh < |fl| && (fl[hd.freeh].freef != NIL ==> 0 <= fl[hd.freeh].freef < |fl|)
    ensures var s := FreePop(fl, hd); FreeOk(s.fl, s.hd, free[1..])
  {
    FreeLinksInRange(fl, hd, free, 0);
    assert FreeLinked(fl, free, 0);
    var s := FreePop(fl, hd);
    forall i | 0 <= i < |free[1..]| ensures FreeLinked(s.fl, free[1..], i) {
      assert FreeLinked(fl, free, i + 1);
    }
  }
}
