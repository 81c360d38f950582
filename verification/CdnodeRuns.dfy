/**
  Every sequence of operations on the cache of cdnodes: names stay unique, a
  node that nobody has locked is referenced while it is in use, and the free
  nodes are in the order in which they became free.
 */
module CdnodeRuns {
  import opened Common
  import opened CdnodeLists
  import opened CdnodeCache

  /** A sequence of operations, in the order the kernel happens to call them. */
  datatype Op =
    | DoGet(k: Key, ps: seq<Victim>)
    | DoFinish(n: nat, readable: bool)
    | DoPut(n: nat)
    | DoHold(n: nat)
    | DoRelease(n: nat)
    | DoLock(n: nat)
    | DoUnlock(n: nat)
    | DoFlush(dev: nat, drops: map<nat, nat>)

  predicate CanDo(a: Abs, op: Op) {
    match op
    case DoGet(_, ps) => CanPurge(a, ps)
    case DoFinish(n, _) => InUse(a, n) && a.nodes[n].locked && a.nodes[n].count == 0
    case DoPut(n) => InUse(a, n) && a.nodes[n].locked && a.nodes[n].count > 0
    case DoHold(n) => InUse(a, n) && a.nodes[n].count > 0
    case DoRelease(n) => CanDrop(a, n)
    case DoLock(n) => InUse(a, n) && a.nodes[n].count > 0
    case DoUnlock(n) => InUse(a, n) && a.nodes[n].locked && a.nodes[n].count > 0
    case DoFlush(_, drops) => CanFlush(a, drops)
  }

  function After(a: Abs, op: Op): Abs
    requires AbsOk(a) && CanDo(a, op)
  {
    match op
    case DoGet(k, ps) => EGet(a, k, ps).a
    case DoFinish(n, readable) => if readable then Counted(a, n, 1) else Abandoned(a, n)
    case DoPut(n) => Put(a, n)
    case DoHold(n) => Counted(a, n, a.nodes[n].count + 1)
    case DoRelease(n) => Release(a, n)
    case DoLock(n) => Locked(a, n)
    case DoUnlock(n) => Unlocked(a, n)
    case DoFlush(dev, drops) => FlushFrom(a, dev, drops, 0, 0).a
  }

  ghost predicate Runs(ncdnode: nat, states: seq<Abs>, ops: seq<Op>) {
    && |states| == |ops| + 1
    && states[0] == EmptyCache(ncdnode)
    && forall i :: 0 <= i < |ops| ==> Follows(states[i], ops[i], states[i + 1])
  }

  ghost predicate Follows(a: Abs, op: Op, b: Abs) {
    CanDo(a, op) && (AbsOk(a) ==> b == After(a, op))
  }

  // ---------------------------------------------------------------- names

  lemma AfterOk(a: Abs, op: Op)
    requires AbsOk(a) && CanDo(a, op)
    ensures AbsOk(After(a, op))
  {
    match op
    case DoGet(k, ps) => EGetOk(a, k, ps);
    case DoFinish(n, readable) =>
      if readable { CountedOk(a, n, 1); } else { AbandonedOk(a, n); }
    case DoPut(n) => PutOk(a, n);
    case DoHold(n) => CountedOk(a, n, a.nodes[n].count + 1);
    case DoRelease(n) => ReleaseOk(a, n);
    case DoLock(n) => LockedOk(a, n);
    case DoUnlock(n) => UnlockedOk(a, n);
    case DoFlush(dev, drops) => FlushOk(a, dev, drops, 0, 0);
  }

  lemma {:induction false} RunsOk(ncdnode: nat, states: seq<Abs>, ops: seq<Op>, i: nat)
    requires Runs(ncdnode, states, ops) && i < |states|
    ensures AbsOk(states[i])
  {
    if i == 0 {
      EmptyCacheOk(ncdnode);
    } else {
      RunsOk(ncdnode, states, ops, i - 1);
      assert Follows(states[i - 1], ops[i - 1], states[i - 1 + 1]);
      AfterOk(states[i - 1], ops[i - 1]);
    }
  }

  /** After any sequence of operations no two nodes in use carry the same name, and the table finds each of them. */
  lemma NamesAreUnique(ncdnode: nat, states: seq<Abs>, ops: seq<Op>, i: nat, m: nat, n: nat)
    requires Runs(ncdnode, states, ops) && i < |states|
    requires InUse(states[i], m) && InUse(states[i], n) && states[i].nodes[m].Name() == states[i].nodes[n].Name()
    ensures m == n && states[i].nodes[m].Name() in states[i].table && states[i].table[states[i].nodes[m].Name()] == m
  {
    RunsOk(ncdnode, states, ops, i);
    assert Mapped(states[i], m) && Mapped(states[i], n);
  }

  // ---------------------------------------------------------------- references

  /** A node in use that nobody has locked is referenced. */
  ghost predicate Held(a: Abs) {
    forall n: nat :: InUse(a, n) && !a.nodes[n].locked ==> a.nodes[n].count > 0
  }

  lemma {:induction false} PurgeHeld(a: Abs, ps: seq<Victim>)
    requires CanPurge(a, ps) && Held(a)
    ensures Held(Purge(a, ps))
    decreases |ps|
  {
    if a.free == [] && ps != [] { PurgeHeld(Purged(a, ps[0]), ps[1..]); }
  }

  lemma {:induction false} FlushHeld(a: Abs, dev: nat, drops: map<nat, nat>, n: nat, open: nat)
    requires CanFlush(a, drops) && n <= |a.nodes| && Held(a)
    ensures Held(FlushFrom(a, dev, drops, n, open).a)
    decreases |a.nodes| - n
  {
    if n < |a.nodes| {
      if a.nodes[n].dev != dev {
        FlushHeld(a, dev, drops, n + 1, if a.nodes[n].ref && a.nodes[n].rdev == dev then open + 1 else open);
      } else {
        FlushUnfolds(a, dev, drops, n, open);
        assert Held(Invalidated(a, drops, n));
        if !Blocks(a, dev, drops, n) { FlushHeld(Forgotten(a, drops, n), dev, drops, n + 1, open); }
      }
    }
  }

  lemma GetHeld(a: Abs, k: Key, ps: seq<Victim>)
    requires AbsOk(a) && CanPurge(a, ps) && Held(a)
    ensures Held(EGet(a, k, ps).a)
  {
    if k in a.table {
      var n := a.table[k];
      assert forall m: nat :: InUse(EGet(a, k, ps).a, m) && m != n ==> InUse(a, m);
    } else {
      PurgeOk(a, ps);
      PurgeHeld(a, ps);
      var b := Purge(a, ps);
      if b.free != [] { assert forall m: nat :: InUse(Recycled(b, k), m) && m != b.free[0] ==> InUse(b, m); }
    }
  }

  lemma AfterHeld(a: Abs, op: Op)
    requires AbsOk(a) && CanDo(a, op) && Held(a)
    ensures Held(After(a, op))
  {
    match op
    case DoGet(k, ps) => GetHeld(a, k, ps);
    case DoFlush(dev, drops) => FlushHeld(a, dev, drops, 0, 0);
    case _ =>
  }

  /** In every run a node in use whose count is 0 is locked by the get that is still filling it in. */
  lemma {:induction false} UnlockedIsReferenced(ncdnode: nat, states: seq<Abs>, ops: seq<Op>, i: nat)
    requires Runs(ncdnode, states, ops) && i < |states|
    ensures Held(states[i])
  {
    if i > 0 {
      UnlockedIsReferenced(ncdnode, states, ops, i - 1);
      RunsOk(ncdnode, states, ops, i - 1);
      assert Follows(states[i - 1], ops[i - 1], states[i - 1 + 1]);
      AfterHeld(states[i - 1], ops[i - 1]);
    }
  }

  // ---------------------------------------------------------------- sleeping for a lock

  /** Someone sleeps for node `n`: it is wanted, and locked by someone else. */
  predicate SleptFor(a: Abs, n: nat) {
    InUse(a, n) && a.nodes[n].locked && a.nodes[n].want
  }

  /** The operation sends its caller to sleep for node `n`. */
  predicate SleepsFor(a: Abs, op: Op, n: nat)
    requires AbsOk(a) && CanDo(a, op)
  {
    match op
    case DoGet(k, ps) => EGet(a, k, ps).outcome.Busy? && a.table[k] == n
    case DoLock(m) => m == n && a.nodes[n].locked
    case _ => false
  }

  /** The operation unlocks node `n`, and so wakes whoever sleeps for it. */
  predicate Unlocks(op: Op, n: nat) {
    match op
    case DoFinish(m, readable) => m == n && !readable
    case DoPut(m) => m == n
    case DoUnlock(m) => m == n
    case _ => false
  }

  lemma SleepIsKnown(a: Abs, op: Op, n: nat)
    requires AbsOk(a) && CanDo(a, op) && SleepsFor(a, op, n)
    ensures SleptFor(After(a, op), n)
  {
    if op.DoGet? { GetUpdatesTheMap(a, op.k, op.ps); }
  }

  lemma {:induction false} PurgeLeavesLocked(a: Abs, ps: seq<Victim>, n: nat)
    requires CanPurge(a, ps) && SleptFor(a, n)
    ensures SleptFor(Purge(a, ps), n)
    decreases |ps|
  {
    if a.free == [] && ps != [] { PurgeLeavesLocked(Purged(a, ps[0]), ps[1..], n); }
  }

  lemma GetLeavesLocked(a: Abs, k: Key, ps: seq<Victim>, n: nat)
    requires AbsOk(a) && CanPurge(a, ps) && SleptFor(a, n)
    ensures SleptFor(EGet(a, k, ps).a, n)
  {
    GetUpdatesTheMap(a, k, ps);
    GetReturnsLocked(a, k, ps);
    PurgeLeavesLocked(a, ps, n);
  }

  lemma {:induction false} FlushLeavesLocked(a: Abs, dev: nat, drops: map<nat, nat>, n: nat, open: nat, m: nat)
    requires CanFlush(a, drops) && n <= |a.nodes| && SleptFor(a, m)
    ensures SleptFor(FlushFrom(a, dev, drops, n, open).a, m)
    decreases |a.nodes| - n
  {
    if n < |a.nodes| {
      if a.nodes[n].dev != dev {
        FlushLeavesLocked(a, dev, drops, n + 1, if a.nodes[n].ref && a.nodes[n].rdev == dev then open + 1 else open, m);
      } else {
        FlushUnfolds(a, dev, drops, n, open);
        if !Blocks(a, dev, drops, n) { FlushLeavesLocked(Forgotten(a, drops, n), dev, drops, n + 1, open, m); }
      }
    }
  }

  lemma AfterLeavesLocked(a: Abs, op: Op, n: nat)
    requires AbsOk(a) && CanDo(a, op) && SleptFor(a, n) && !Unlocks(op, n)
    ensures SleptFor(After(a, op), n)
  {
    match op
    case DoGet(k, ps) => GetLeavesLocked(a, k, ps, n);
    case DoFlush(dev, drops) => FlushLeavesLocked(a, dev, drops, 0, 0, n);
    case _ =>
  }

  /**
    Whoever is sent to sleep for a node is not forgotten: in every run, as long
    as no operation unlocks the node, it stays locked and wanted, so that the
    operation that does unlock it finds it wanted and wakes the sleeper.
   */
  lemma {:induction false} SleeperIsNotForgotten(ncdnode: nat, states: seq<Abs>, ops: seq<Op>, i: nat, j: nat, n: nat)
    requires Runs(ncdnode, states, ops) && i < j < |states|
    requires AbsOk(states[i]) && CanDo(states[i], ops[i]) && SleepsFor(states[i], ops[i], n)
    requires forall t :: i < t < j ==> !Unlocks(ops[t], n)
    ensures SleptFor(states[j], n)
  {
    RunsOk(ncdnode, states, ops, j - 1);
    assert Follows(states[j - 1], ops[j - 1], states[j - 1 + 1]);
    if i == j - 1 {
      SleepIsKnown(states[i], ops[i], n);
    } else {
      SleeperIsNotForgotten(ncdnode, states, ops, i, j - 1, n);
      AfterLeavesLocked(states[j - 1], ops[j - 1], n);
    }
  }

  /** No node is wanted that nobody has locked. */
  ghost predicate WantedLocked(a: Abs) {
    forall n: nat :: n < |a.nodes| && a.nodes[n].want ==> InUse(a, n) && a.nodes[n].locked
  }

  lemma {:induction false} PurgeWanted(a: Abs, ps: seq<Victim>)
    requires CanPurge(a, ps) && WantedLocked(a)
    ensures WantedLocked(Purge(a, ps))
    decreases |ps|
  {
    if a.free == [] && ps != [] { PurgeWanted(Purged(a, ps[0]), ps[1..]); }
  }

  lemma GetWanted(a: Abs, k: Key, ps: seq<Victim>)
    requires AbsOk(a) && CanPurge(a, ps) && WantedLocked(a)
    ensures WantedLocked(EGet(a, k, ps).a)
  {
    GetUpdatesTheMap(a, k, ps);
    GetReturnsLocked(a, k, ps);
    PurgeWanted(a, ps);
    if EGet(a, k, ps).outcome.Busy? { assert Mapped(a, a.table[k]); }
  }

  lemma {:induction false} FlushWanted(a: Abs, dev: nat, drops: map<nat, nat>, n: nat, open: nat)
    requires CanFlush(a, drops) && n <= |a.nodes| && WantedLocked(a)
    ensures WantedLocked(FlushFrom(a, dev, drops, n, open).a)
    decreases |a.nodes| - n
  {
    if n < |a.nodes| {
      if a.nodes[n].dev != dev {
        FlushWanted(a, dev, drops, n + 1, if a.nodes[n].ref && a.nodes[n].rdev == dev then open + 1 else open);
      } else {
        FlushUnfolds(a, dev, drops, n, open);
        assert WantedLocked(Invalidated(a, drops, n));
        if !Blocks(a, dev, drops, n) { FlushWanted(Forgotten(a, drops, n), dev, drops, n + 1, open); }
      }
    }
  }

  lemma AfterWanted(a: Abs, op: Op)
    requires AbsOk(a) && CanDo(a, op) && WantedLocked(a)
    ensures WantedLocked(After(a, op))
  {
    match op
    case DoGet(k, ps) => GetWanted(a, k, ps);
    case DoFlush(dev, drops) => FlushWanted(a, dev, drops, 0, 0);
    case _ =>
  }

  /** In every run only locked nodes are wanted: an unlock leaves no one behind. */
  lemma {:induction false} WantedIsLocked(ncdnode: nat, states: seq<Abs>, ops: seq<Op>, i: nat)
    requires Runs(ncdnode, states, ops) && i < |states|
    ensures WantedLocked(states[i])
  {
    if i > 0 {
      WantedIsLocked(ncdnode, states, ops, i - 1);
      RunsOk(ncdnode, states, ops, i - 1);
      assert Follows(states[i - 1], ops[i - 1], states[i - 1 + 1]);
      AfterWanted(states[i - 1], ops[i - 1]);
    }
  }

  // ---------------------------------------------------------------- sharing

  /** Node 0 alone is in use, under the name `k`, unlocked and with `count` references. */
  function Shared(ncdnode: nat, k: Key, count: nat): Abs
    requires ncdnode > 0
  {
    Abs(map[k := 0], EmptyCache(ncdnode).free[1..],
        EmptyCache(ncdnode).nodes[0 := Node(k.dev, k.no, 0, true, false, false, count)])
  }

  lemma Extends(ncdnode: nat, states: seq<Abs>, ops: seq<Op>, op: Op, b: Abs) returns (states': seq<Abs>, ops': seq<Op>)
    requires Runs(ncdnode, states, ops) && CanDo(states[|ops|], op)
    requires AbsOk(states[|ops|]) ==> b == After(states[|ops|], op)
    ensures Runs(ncdnode, states', ops') && states' == states + [b] && ops' == ops + [op]
  {
    states', ops' := states + [b], ops + [op];
    forall i | 0 <= i < |ops'| ensures Follows(states'[i], ops'[i], states'[i + 1]) {
      if i < |ops| { assert Follows(states[i], ops[i], states[i + 1]); }
    }
  }

  /** A node is shared by any number of references: each lookup takes one more and unlocks. */
  lemma {:induction false} AnyCountOccurs(ncdnode: nat, k: Key, count: nat) returns (states: seq<Abs>, ops: seq<Op>)
    requires ncdnode > 0 && count > 0
    ensures Runs(ncdnode, states, ops) && states[|ops|] == Shared(ncdnode, k, count)
  {
    if count == 1 {
      states, ops := FirstLookup(ncdnode, k);
    } else {
      states, ops := AnyCountOccurs(ncdnode, k, count - 1);
      states, ops := LookupAgain(ncdnode, k, count - 1, states, ops);
    }
  }

  lemma FirstLookup(ncdnode: nat, k: Key) returns (states: seq<Abs>, ops: seq<Op>)
    requires ncdnode > 0
    ensures Runs(ncdnode, states, ops) && states[|ops|] == Shared(ncdnode, k, 1)
  {
    var a := EmptyCache(ncdnode);
    EmptyCacheOk(ncdnode);
    states, ops := [a], [];
    assert !Mapped(a, 0) && a.free[0] == 0;
    var b := Recycled(a, k);
    states, ops := Extends(ncdnode, states, ops, DoGet(k, []), b);
    states, ops := Extends(ncdnode, states, ops, DoFinish(0, true), Counted(b, 0, 1));
    states, ops := Extends(ncdnode, states, ops, DoUnlock(0), Unlocked(Counted(b, 0, 1), 0));
    assert Unlocked(Counted(b, 0, 1), 0) == Shared(ncdnode, k, 1);
  }

  lemma LookupAgain(ncdnode: nat, k: Key, count: nat, states0: seq<Abs>, ops0: seq<Op>)
    returns (states: seq<Abs>, ops: seq<Op>)
    requires ncdnode > 0 && count > 0 && Runs(ncdnode, states0, ops0) && states0[|ops0|] == Shared(ncdnode, k, count)
    ensures Runs(ncdnode, states, ops) && states[|ops|] == Shared(ncdnode, k, count + 1)
  {
    var a := Shared(ncdnode, k, count);
    RunsOk(ncdnode, states0, ops0, |ops0|);
    assert 0 !in a.free;
    states, ops := Extends(ncdnode, states0, ops0, DoGet(k, []), Taken(a, 0));
    states, ops := Extends(ncdnode, states, ops, DoUnlock(0), Unlocked(Taken(a, 0), 0));
    assert Unlocked(Taken(a, 0), 0) == Shared(ncdnode, k, count + 1);
  }

  // ---------------------------------------------------------------- the order of the free nodes

  predicate Ahead(f: seq<int>, x: int, y: int) {
    exists i, j :: 0 <= i < j < |f| && f[i] == x && f[j] == y
  }

  /** Two free nodes in a row: those free before keep their order and stay in front; new ones are in order of number. */
  predicate Queues(f: seq<int>, x: int, y: int) {
    && (y in f ==> x in f && Ahead(f, x, y))
    && (x !in f && y !in f ==> x < y)
  }

  predicate QueueStep(f: seq<int>, g: seq<int>) {
    forall p, q :: 0 <= p < q < |g| ==> Queues(f, g[p], g[q])
  }

  lemma LeavesQueue(f: seq<int>, p: nat)
    requires Distinct(f) && p < |f|
    ensures QueueStep(f, Without(f, p))
  {
    var g := Without(f, p);
    forall i, j | 0 <= i < j < |g| ensures Queues(f, g[i], g[j]) {
      assert f[if i < p then i else i + 1] == g[i] && f[if j < p then j else j + 1] == g[j];
    }
  }

  lemma JoinsQueue(f: seq<int>, g: seq<int>)
    requires Distinct(g) && |f| <= |g| && g[..|f|] == f
    requires forall p, q :: |f| <= p < q < |g| ==> g[p] < g[q]
    ensures QueueStep(f, g)
  {
    forall p, q | 0 <= p < q < |g| ensures Queues(f, g[p], g[q]) {
      assert forall i :: 0 <= i < |f| ==> f[i] == g[i];
      assert p < |f| ==> f[p] == g[p];
      assert q < |f| ==> f[q] == g[q];
    }
  }

  /** A flush puts the nodes it frees at the end, in order. */
  lemma {:induction false} FlushJoins(a: Abs, dev: nat, drops: map<nat, nat>, n: nat, open: nat)
    requires CanFlush(a, drops) && n <= |a.nodes|
    ensures var g := FlushFrom(a, dev, drops, n, open).a.free;
      && |a.free| <= |g| && g[..|a.free|] == a.free
      && (forall p :: |a.free| <= p < |g| ==> n <= g[p])
      && (forall p, q :: |a.free| <= p < q < |g| ==> g[p] < g[q])
    decreases |a.nodes| - n
  {
    if n < |a.nodes| {
      if a.nodes[n].dev != dev {
        FlushJoins(a, dev, drops, n + 1, if a.nodes[n].ref && a.nodes[n].rdev == dev then open + 1 else open);
      } else {
        FlushUnfolds(a, dev, drops, n, open);
        if !Blocks(a, dev, drops, n) {
          var b := Forgotten(a, drops, n);
          FlushJoins(b, dev, drops, n + 1, open);
          var g := FlushFrom(b, dev, drops, n + 1, open).a.free;
          assert b.free == a.free || b.free == a.free + [n];
          assert g[..|a.free|] == g[..|b.free|][..|a.free|];
          assert |b.free| > |a.free| ==> g[|a.free|] == g[..|b.free|][|a.free|] == n;
        }
      }
    }
  }

  lemma GetQueues(a: Abs, k: Key, ps: seq<Victim>)
    requires AbsOk(a) && CanPurge(a, ps)
    ensures QueueStep(a.free, EGet(a, k, ps).a.free)
  {
    JoinsQueue(a.free, a.free);
    if k in a.table {
      if a.table[k] in a.free { LeavesQueue(a.free, PlaceOf(a.free, a.table[k])); }
    } else {
      PurgeOk(a, ps);
      if a.free != [] { LeavesQueue(a.free, 0); }
    }
  }

  lemma AfterQueues(a: Abs, op: Op)
    requires AbsOk(a) && CanDo(a, op)
    ensures QueueStep(a.free, After(a, op).free)
  {
    AfterOk(a, op);
    var g := After(a, op).free;
    match op
    case DoGet(k, ps) => GetQueues(a, k, ps);
    case DoFlush(dev, drops) =>
      FlushJoins(a, dev, drops, 0, 0);
      JoinsQueue(a.free, g);
    case _ =>
      assert |g| <= |a.free| + 1 && g[..|a.free|] == a.free;
      JoinsQueue(a.free, g);
  }

  /** The state since which node `n`, free in state `i`, has been free. */
  function Since(states: seq<Abs>, i: nat, n: int): (t: nat)
    requires i < |states|
    ensures t <= i
  {
    if i == 0 || n !in states[i - 1].free then i else Since(states, i - 1, n)
  }

  /** Free longer, or as long and with the lower number. */
  predicate Older(states: seq<Abs>, i: nat, x: int, y: int)
    requires i < |states|
  {
    Since(states, i, x) < Since(states, i, y) || (Since(states, i, x) == Since(states, i, y) && x < y)
  }

  /** In every run the free nodes are in the order in which they became free. */
  lemma {:induction false} FreeInOrder(ncdnode: nat, states: seq<Abs>, ops: seq<Op>, i: nat, p: nat, q: nat)
    requires Runs(ncdnode, states, ops) && i < |states| && p < q < |states[i].free|
    ensures Older(states, i, states[i].free[p], states[i].free[q])
  {
    if i > 0 {
      RunsOk(ncdnode, states, ops, i - 1);
      assert Follows(states[i - 1], ops[i - 1], states[i - 1 + 1]);
      AfterQueues(states[i - 1], ops[i - 1]);
      var f, x, y := states[i - 1].free, states[i].free[p], states[i].free[q];
      assert Queues(f, x, y);
      if y in f {
        var p', q' :| 0 <= p' < q' < |f| && f[p'] == x && f[q'] == y;
        FreeInOrder(ncdnode, states, ops, i - 1, p', q');
      }
    }
  }

  /** So a miss recycles, of all free nodes, the one that has been free longest. */
  lemma MissRecyclesOldest(ncdnode: nat, states: seq<Abs>, ops: seq<Op>, i: nat, k: Key, ps: seq<Victim>, m: int)
    requires Runs(ncdnode, states, ops) && i < |states| && AbsOk(states[i]) && CanPurge(states[i], ps)
    requires k !in states[i].table && m in states[i].free
    ensures var g := EGet(states[i], k, ps);
      g.outcome.Miss? && (g.outcome.n == m || Older(states, i, g.outcome.n, m))
  {
    var f := states[i].free;
    var q :| 0 <= q < |f| && f[q] == m;
    if q > 0 { FreeInOrder(ncdnode, states, ops, i, 0, q); }
  }
}
