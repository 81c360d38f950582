/**
  The waiting for preallocated IDs: exactly when a sleeping process is woken,
  and how one can be left asleep.
 */
module PidWakeups {
  import opened Common
  import opened PidTable
  import opened PidSite
  import opened PidCluster
  import opened PidPanic

  // ---------------------------------------------------------------- who is woken

  predicate Waits(n: Node, p: nat) {
    p in n.forkers && n.forkers[p].Waiting?
  }

  predicate Sleeps(n: Node, p: nat) {
    Waits(n, p) && n.forkers[p].asleep
  }

  /** `p` has come to wait since the last reply was consumed. */
  predicate CameSince(n: Node, p: nat) {
    Waits(n, p) && n.forkers[p].since == n.consumed
  }

  /** The count of waiters says whether one came since the last reply was consumed; those before were woken. */
  ghost predicate WaitersOk(n: Node) {
    && (n.waiting > 0 <==> exists q :: CameSince(n, q))
    && (forall q :: Waits(n, q) ==> n.forkers[q].since <= n.consumed)
    && (forall q :: Waits(n, q) && !n.forkers[q].asleep ==> n.forkers[q].since < n.consumed)
  }

  lemma FinishKeepsWaiters(n: Node, isRoot: bool, a: Act)
    requires WaitersOk(n) && Enabled(n, isRoot, a) && a.Finish?
    ensures WaitersOk(Do(n, isRoot, a))
  {
    var n' := Do(n, isRoot, a);
    assert forall q :: Waits(n', q) ==> Waits(n, q) && n'.forkers[q].since == n.forkers[q].since;
  }

  lemma WaitKeepsWaiters(n: Node, isRoot: bool, a: Act)
    requires WaitersOk(n) && Enabled(n, isRoot, a) && a.Wait?
    ensures WaitersOk(Do(n, isRoot, a))
  {
    assert CameSince(Do(n, isRoot, a), a.p);
  }

  lemma LeadOrWakeKeepsWaiters(n: Node, isRoot: bool, a: Act)
    requires WaitersOk(n) && Enabled(n, isRoot, a) && (a.Lead? || a.Wake?)
    ensures WaitersOk(Do(n, isRoot, a))
  {
    assert forall q :: CameSince(Do(n, isRoot, a), q) <==> CameSince(n, q);
  }

  /** The acts of the wait; no other act touches what is said of the waiters. */
  predicate OfTheWait(a: Act) {
    a.Lead? || a.Wait? || a.Finish? || a.Wake?
  }

  lemma OthersLeaveWaiters(n: Node, isRoot: bool, a: Act)
    requires Enabled(n, isRoot, a) && !OfTheWait(a)
    ensures var n' := Do(n, isRoot, a);
      n'.forkers == n.forkers && n'.waiting == n.waiting && n'.consumed == n.consumed
  {
    if OfProcs(a) { ProcsLeaveWaiters(n, isRoot, a); }
  }

  lemma ProcsLeaveWaiters(n: Node, isRoot: bool, a: Act)
    requires Enabled(n, isRoot, a) && OfProcs(a)
    ensures var n' := Do(n, isRoot, a);
      n'.forkers == n.forkers && n'.waiting == n.waiting && n'.consumed == n.consumed
  {
  }

  lemma WaitersKept(n: Node, isRoot: bool, a: Act)
    requires WaitersOk(n) && Enabled(n, isRoot, a)
    ensures WaitersOk(Do(n, isRoot, a))
  {
    if a.Finish? {
      FinishKeepsWaiters(n, isRoot, a);
    } else if a.Wait? {
      WaitKeepsWaiters(n, isRoot, a);
    } else if OfTheWait(a) {
      LeadOrWakeKeepsWaiters(n, isRoot, a);
    } else {
      OthersLeaveWaiters(n, isRoot, a);
      SameWaiters(n, Do(n, isRoot, a));
    }
  }

  lemma SameWaiters(n: Node, n': Node)
    requires WaitersOk(n) && n'.forkers == n.forkers && n'.waiting == n.waiting && n'.consumed == n.consumed
    ensures WaitersOk(n')
  {
    assert forall q :: CameSince(n', q) <==> CameSince(n, q);
  }

  /** Only live processes wait. */
  ghost predicate WaitersAlive(n: Node) {
    forall q :: q in n.forkers ==> IsAlive(n.procs, q)
  }

  lemma ExitKeepsAlive(n: Node, isRoot: bool, a: Act)
    requires WaitersAlive(n) && Enabled(n, isRoot, a) && a.Exit?
    ensures WaitersAlive(Do(n, isRoot, a))
  {
    var n' := Do(n, isRoot, a);
    forall q | q in n'.forkers ensures IsAlive(n'.procs, q) {
      var j :| |BOOT| <= j < |n.procs| && n.procs[j].pid == q;
      assert n'.procs[if j < a.i then j else j - 1] == n.procs[j];
    }
  }

  lemma MoreKeepsAlive(n: Node, isRoot: bool, a: Act)
    requires WaitersAlive(n) && Enabled(n, isRoot, a) && (a.Fork? || a.SpawnSystem?)
    ensures WaitersAlive(Do(n, isRoot, a))
  {
    var n' := Do(n, isRoot, a);
    forall q | q in n'.forkers ensures IsAlive(n'.procs, q) {
      var j :| |BOOT| <= j < |n.procs| && n.procs[j].pid == q;
      assert n'.procs[j] == n.procs[j];
    }
  }

  lemma WaitKeepsAlive(n: Node, isRoot: bool, a: Act)
    requires WaitersAlive(n) && Enabled(n, isRoot, a) && !OfProcs(a)
    ensures WaitersAlive(Do(n, isRoot, a))
  {
    var n' := Do(n, isRoot, a);
    assert n'.procs == n.procs;
    assert forall q :: q in n'.forkers ==> q in n.forkers || IsAlive(n.procs, q);
  }

  lemma AliveKept(n: Node, isRoot: bool, a: Act)
    requires WaitersAlive(n) && Enabled(n, isRoot, a)
    ensures WaitersAlive(Do(n, isRoot, a))
  {
    if a.Exit? {
      ExitKeepsAlive(n, isRoot, a);
    } else if OfProcs(a) {
      MoreKeepsAlive(n, isRoot, a);
    } else {
      WaitKeepsAlive(n, isRoot, a);
    }
  }

  ghost predicate AllWaitersOk(c: Cluster) {
    forall s :: IsUp(c, s) ==> WaitersOk(c.nodes[s]) && WaitersAlive(c.nodes[s])
  }

  lemma StepKeepsWaiters(c: Cluster, st: Step)
    requires AllWaitersOk(c) && CanStep(c, st)
    ensures AllWaitersOk(Perform(c, st))
  {
    var c' := Perform(c, st);
    forall s | IsUp(c', s) ensures WaitersOk(c'.nodes[s]) && WaitersAlive(c'.nodes[s]) {
      if st.Local? && st.s == s {
        WaitersKept(c.nodes[s], s == c.root, st.a);
        AliveKept(c.nodes[s], s == c.root, st.a);
      } else {
        OtherSteps(c, st, s);
        if IsUp(c, s) && SameButTables(c.nodes[s], c'.nodes[s]) { SameWaiters(c.nodes[s], c'.nodes[s]); }
      }
    }
  }

  lemma {:induction false} AlwaysWaiters(trace: seq<Cluster>, i: nat)
    requires Behaviour(trace) && i < |trace|
    ensures AllWaitersOk(trace[i])
  {
    if i == 0 {
      var c := trace[0];
      forall s | IsUp(c, s) ensures WaitersOk(c.nodes[s]) && WaitersAlive(c.nodes[s]) {
        assert IsFresh(c.nodes[s], if s == c.root then Up else Gone);
      }
    } else {
      AlwaysWaiters(trace, i - 1);
      assert Next(trace[i - 1], trace[i - 1 + 1]);
      var st :| CanStep(trace[i - 1], st) && trace[i] == Perform(trace[i - 1], st);
      StepKeepsWaiters(trace[i - 1], st);
    }
  }

  lemma ReachableWaiters(c: Cluster, s: SiteId)
    requires Reachable(c) && IsUp(c, s)
    ensures WaitersOk(c.nodes[s]) && WaitersAlive(c.nodes[s])
  {
    var trace :| Behaviour(trace) && trace[|trace| - 1] == c;
    AlwaysWaiters(trace, |trace| - 1);
  }

  /**
    Exactly which step of its site wakes a sleeping process: the end of an
    allocation for which some process has come to wait since the reply before
    was consumed.  No other step changes anything for it.
   */
  lemma WokenExactly(c: Cluster, s: SiteId, a: Act, p: nat)
    requires Reachable(c) && IsUp(c, s) && Enabled(c.nodes[s], s == c.root, a) && Sleeps(c.nodes[s], p)
    ensures var n, n' := c.nodes[s], Do(c.nodes[s], s == c.root, a);
      && Waits(n', p) && n'.forkers[p].since == n.forkers[p].since
      && (!Sleeps(n', p) <==> a.Finish? && exists q :: CameSince(n, q))
  {
    ReachableWaiters(c, s);
    if OfTheWait(a) {
      SleeperInTheWait(c.nodes[s], s == c.root, a, p);
    } else {
      OthersLeaveWaiters(c.nodes[s], s == c.root, a);
    }
  }

  lemma SleeperInTheWait(n: Node, isRoot: bool, a: Act, p: nat)
    requires WaitersOk(n) && Enabled(n, isRoot, a) && OfTheWait(a) && Sleeps(n, p)
    ensures var n' := Do(n, isRoot, a);
      && Waits(n', p) && n'.forkers[p].since == n.forkers[p].since
      && (Sleeps(n', p) <==> !(a.Finish? && n.waiting > 0))
  {
  }

  /** In particular a process that came since then is woken by the end of the allocation it waits for. */
  lemma NewWaitersAreWoken(c: Cluster, s: SiteId, leader: nat, p: nat)
    requires Reachable(c) && IsUp(c, s) && Enabled(c.nodes[s], s == c.root, Finish(leader)) && CameSince(c.nodes[s], p)
    ensures var n' := Do(c.nodes[s], s == c.root, Finish(leader)); Waits(n', p) && !Sleeps(n', p)
  {
    ReachableWaiters(c, s);
    assert Sleeps(c.nodes[s], p);
    WokenExactly(c, s, Finish(leader), p);
  }

  // ---------------------------------------------------------------- who is not

  /** `p` sleeps although no allocation is under way for which it could be woken. */
  predicate Stranded(n: Node, p: nat) {
    Sleeps(n, p) && !n.initiated && !n.responsible && n.waiting == 0
  }

  lemma Extends(c: Cluster, st: Step)
    requires Reachable(c) && CanStep(c, st)
    ensures Reachable(Perform(c, st))
  {
    var trace :| Behaviour(trace) && trace[|trace| - 1] == c;
    var longer := trace + [Perform(c, st)];
    forall i | 0 <= i < |longer| - 1 ensures Next(longer[i], longer[i + 1]) {
      if i < |trace| - 1 { assert Next(trace[i], trace[i + 1]); }
    }
    assert Behaviour(longer);
  }

  lemma Acts(c: Cluster, s: SiteId, a: Act) returns (c': Cluster)
    requires Reachable(c) && IsUp(c, s) && Enabled(c.nodes[s], s == c.root, a)
    ensures Reachable(c') && c'.root == c.root && IsUp(c', s) && c'.sv == c.sv
    ensures c'.nodes[s] == Do(c.nodes[s], s == c.root, a)
  {
    ReachableOk(c);
    c' := Perform(c, Local(s, a));
    Extends(c, Local(s, a));
  }

  /** A request will be granted. */
  ghost predicate HasFree(sv: Server) {
    && |sv.table| == NUMPIDCHUNKS
    && exists chunk :: 0 <= chunk < NUMPIDCHUNKS && chunk != sv.last && sv.table[chunk] == FREE
  }

  lemma ReturnKeepsFree(sv: Server, pids: seq<int>)
    requires |sv.table| == NUMPIDCHUNKS && ChunkStarts(pids) && HasFree(sv)
    ensures HasFree(ReturnAll(sv, pids))
  {
    var chunk :| 0 <= chunk < NUMPIDCHUNKS && chunk != sv.last && sv.table[chunk] == FREE;
    assert ReturnAll(sv, pids).table[chunk] == FREE;
  }

  lemma FreeIsGranted(sv: Server, pids: seq<int>, last: int, site: SiteId)
    requires ServerOk(sv) && ChunkStarts(pids) && ValidLastPid(last) && site != FREE && HasFree(sv)
    requires forall x :: x in pids ==> PidToChunk(x) in Owned(sv, site)
    ensures GetChunk(ReturnAll(sv, pids), last, site).chunk.Some?
  {
    ReturnKeepsFree(sv, pids);
    ReturnTakes(sv, pids, site);
    RefusedExactly(ReturnAll(sv, pids), last, site);
  }

  /** The server takes a release: nothing is left in flight. */
  lemma ReleaseServed(c: Cluster, s: SiteId) returns (c': Cluster)
    requires Reachable(c) && IsUp(c, s) && c.nodes[s].net != [] && c.nodes[s].net[0].Release?
    ensures Reachable(c') && c'.root == c.root && IsUp(c', s) && c'.nodes[s] == c.nodes[s].(net := [])
    ensures HasFree(c.sv) ==> HasFree(c'.sv)
  {
    ServerNeverStuck(c, s);
    ReachableOk(c);
    assert InOrder(c, s);
    c' := Perform(c, Serve(s, 0));
    Extends(c, Serve(s, 0));
    if HasFree(c.sv) { ReturnKeepsFree(c.sv, c.nodes[s].net[0].chunks); }
  }

  /** The server takes a request, and leaves its reply. */
  lemma RequestServed(c: Cluster, s: SiteId) returns (c': Cluster)
    requires Reachable(c) && IsUp(c, s) && c.nodes[s].net != [] && c.nodes[s].net[0].GetPids?
    ensures Reachable(c') && c'.root == c.root && IsUp(c', s)
    ensures var n, n' := c.nodes[s], c'.nodes[s];
      n' == n.(net := n'.net) && |n'.net| == 1 && (n'.net[0].Grant? || (n'.net[0].Refuse? && !HasFree(c.sv)))
  {
    ServerNeverStuck(c, s);
    ReachableOk(c);
    assert InOrder(c, s);
    c' := Perform(c, Serve(s, 0));
    Extends(c, Serve(s, 0));
    if HasFree(c.sv) {
      var n := c.nodes[s];
      MessageChunksPending(n, Owned(c.sv, s));
      FreeIsGranted(c.sv, n.net[0].chunks, n.net[0].lastNewPid, s);
    }
  }

  /** The same site but for its sweep, its messages and the chunks it holds. */
  predicate OnlySwept(n: Node, n': Node) {
    && n' == n.(pd := n.pd.(slots := n'.pd.slots), sweep := n'.sweep, net := n'.net)
    && |n'.pd.slots| == |n.pd.slots|
  }

  /** The site holds no chunk; a sweep then finds none to release. */
  predicate NoneHeld(n: Node) {
    forall k :: 0 <= k < |n.pd.slots| ==> !n.pd.slots[k].Occupied()
  }

  lemma SweepsOn(c: Cluster, s: SiteId) returns (c': Cluster)
    requires Reachable(c) && IsUp(c, s) && c.nodes[s].sweep.At? && c.nodes[s].net == [] && c.nodes[s].sweep.todo > 0
    ensures Reachable(c') && c'.root == c.root && IsUp(c', s) && OnlySwept(c.nodes[s], c'.nodes[s])
    ensures c'.nodes[s].sweep.At? && c'.nodes[s].sweep.todo == c.nodes[s].sweep.todo - 1 && c'.nodes[s].net == []
    ensures HasFree(c.sv) ==> HasFree(c'.sv)
    ensures NoneHeld(c.nodes[s]) ==> c'.nodes[s].pd == c.nodes[s].pd
  {
    ReachableOk(c);
    assert InOrder(c, s);
    c' := Acts(c, s, SweepNext);
    if c'.nodes[s].net != [] {
      c' := ReleaseServed(c', s);
    }
  }

  /** A sweep goes on to its end. */
  lemma {:induction false} SweepEnds(c: Cluster, s: SiteId) returns (c': Cluster)
    requires Reachable(c) && IsUp(c, s) && c.nodes[s].sweep.At? && c.nodes[s].net == []
    ensures Reachable(c') && c'.root == c.root && IsUp(c', s) && OnlySwept(c.nodes[s], c'.nodes[s])
    ensures c'.nodes[s].sweep.At? && c'.nodes[s].sweep.todo == 0 && c'.nodes[s].net == []
    ensures HasFree(c.sv) ==> HasFree(c'.sv)
    ensures NoneHeld(c.nodes[s]) ==> c'.nodes[s].pd == c.nodes[s].pd
    decreases if IsUp(c, s) && c.nodes[s].sweep.At? then c.nodes[s].sweep.todo else 0
  {
    c' := c;
    if c.nodes[s].sweep.todo > 0 {
      c' := SweepsOn(c, s);
      c' := SweepEnds(c', s);
    }
  }

  /** The processes and the waiting are as they were. */
  predicate SameWaiting(n: Node, n': Node) {
    && n'.procs == n.procs && n'.forkers == n.forkers && n'.waiting == n.waiting && n'.responsible == n.responsible
    && |n'.pd.slots| == |n.pd.slots| && (NoneHeld(n) ==> NoneHeld(n'))
  }

  /** A client that is due to ask for a chunk asks, and gets its answer. */
  lemma Asks(c: Cluster, s: SiteId) returns (c': Cluster)
    requires Reachable(c) && IsUp(c, s) && s != c.root && PidsOk(c.nodes[s].pd) && PreallocationDue(c.nodes[s])
    requires c.nodes[s].sweep.Idle?
    ensures Reachable(c') && c'.root == c.root && IsUp(c', s)
    ensures c'.nodes[s].initiated && c'.nodes[s].complete && c'.nodes[s].sweep.Idle?
    ensures SameWaiting(c.nodes[s], c'.nodes[s]) && (HasFree(c.sv) ==> !c'.nodes[s].failed)
  {
    c' := StartsToAsk(c, s);
    c' := Acts(c', s, SendRequest);
    c' := RequestServed(c', s);
    ReachableOk(c');
    assert InOrder(c', s);
    c' := Acts(c', s, Receive(0));
  }

  /** Its sweep is over and its request not yet sent. */
  lemma StartsToAsk(c: Cluster, s: SiteId) returns (c': Cluster)
    requires Reachable(c) && IsUp(c, s) && s != c.root && PidsOk(c.nodes[s].pd) && PreallocationDue(c.nodes[s])
    requires c.nodes[s].sweep.Idle?
    ensures Reachable(c') && c'.root == c.root && IsUp(c', s) && Enabled(c'.nodes[s], false, SendRequest)
    ensures SameWaiting(c.nodes[s], c'.nodes[s]) && c'.nodes[s].initiated && (HasFree(c.sv) ==> HasFree(c'.sv))
  {
    c' := StartsToSweep(c, s);
    c' := SweepEnds(c', s);
  }

  lemma StartsToSweep(c: Cluster, s: SiteId) returns (c': Cluster)
    requires Reachable(c) && IsUp(c, s) && s != c.root && PidsOk(c.nodes[s].pd) && PreallocationDue(c.nodes[s])
    requires c.nodes[s].sweep.Idle?
    ensures Reachable(c') && c'.root == c.root && IsUp(c', s) && c'.sv == c.sv
    ensures SameWaiting(c.nodes[s], c'.nodes[s]) && c'.nodes[s].initiated && c'.nodes[s].sweep.At?
    ensures c'.nodes[s].net == [] && PidsOk(c'.nodes[s].pd)
  {
    ReachableOk(c);
    assert InOrder(c, s);
    c' := Acts(c, s, StartPrealloc);
  }

  /** One ID is used up: by a process that exits, or for want of room in the process table. */
  lemma SpendsOne(c: Cluster, s: SiteId) returns (c': Cluster)
    requires Reachable(c) && IsUp(c, s) && Enabled(c.nodes[s], s == c.root, Fork({}))
    ensures Reachable(c') && c'.root == c.root && IsUp(c', s) && c'.sv == c.sv
    ensures c'.nodes[s] == c.nodes[s].(pd := c.nodes[s].pd.(cur := Skipped(c.nodes[s].pd).cur + 1))
  {
    NewIsNotWaiting(c, s);
    var n := c.nodes[s];
    c' := Acts(c, s, Fork({}));
    if |n.procs| < |n.pd.slots| {
      c' := ExitsAgain(c', s, n.procs);
    }
  }

  /** The process that was forked last exits. */
  lemma ExitsAgain(c: Cluster, s: SiteId, procs: seq<Proc>) returns (c': Cluster)
    requires Reachable(c) && IsUp(c, s) && PidsOk(c.nodes[s].pd) && |c.nodes[s].procs| == |procs| + 1 > |BOOT|
    requires c.nodes[s].procs[..|procs|] == procs && c.nodes[s].procs[|procs|].pid !in c.nodes[s].forkers
    ensures Reachable(c') && c'.root == c.root && IsUp(c', s) && c'.sv == c.sv
    ensures c'.nodes[s] == c.nodes[s].(procs := procs)
  {
    c' := Acts(c, s, Exit(|procs|));
    assert Without(c.nodes[s].procs, |procs|) == procs;
  }

  lemma NewIsNotWaiting(c: Cluster, s: SiteId)
    requires Reachable(c) && IsUp(c, s) && Enabled(c.nodes[s], s == c.root, Fork({}))
    ensures |c.nodes[s].procs| >= |BOOT|
    ensures Skipped(c.nodes[s].pd).avail[Skipped(c.nodes[s].pd).cur] !in c.nodes[s].forkers
  {
    ReachableOk(c);
    ReachableRoom(c, s);
    ReachableWaiters(c, s);
    assert InOrder(c, s);
    NewIsUnused(c.nodes[s].pd, c.nodes[s].procs);
  }

  lemma NewIsUnused(pd: Pids, procs: seq<Proc>)
    requires AvailOk(pd, procs) && Skipped(pd).cur < pd.last
    ensures PidsOk(Skipped(pd)) && !IsUsed(procs, Skipped(pd).avail[Skipped(pd).cur])
    ensures Skipped(pd).avail[Skipped(pd).cur] == pd.lastNewPid + Skipped(pd).cur > PID_MAXSYS
  {
  }

  /** IDs are used up one by one, until none is left or the client is due to ask for a chunk. */
  lemma {:induction false} Spends(c: Cluster, s: SiteId) returns (c': Cluster)
    requires Reachable(c) && IsUp(c, s) && s != c.root && c.nodes[s].sweep.Idle?
    ensures Reachable(c') && c'.root == c.root && IsUp(c', s) && c'.sv == c.sv
    ensures var n, n' := c.nodes[s], c'.nodes[s];
      && n' == n.(pd := n.pd.(cur := n'.pd.cur)) && PidsOk(n'.pd)
      && if n.initiated then Exhausted(n') else PreallocationDue(n')
    decreases if IsUp(c, s) then PIDCHUNK - c.nodes[s].pd.cur else 0
  {
    ReachableOk(c);
    assert InOrder(c, s);
    var n := c.nodes[s];
    c' := c;
    if if n.initiated then !Exhausted(n) else !PreallocationDue(n) {
      c' := SpendsOne(c, s);
      c' := Spends(c', s);
    }
  }

  /** A client asks for its next chunk, and uses up what it has left. */
  lemma RunsOut(c: Cluster, s: SiteId) returns (c': Cluster)
    requires Reachable(c) && IsUp(c, s) && s != c.root && !c.nodes[s].initiated
    ensures Reachable(c') && c'.root == c.root && IsUp(c', s) && PidsOk(c'.nodes[s].pd)
    ensures SameWaiting(c.nodes[s], c'.nodes[s]) && (HasFree(c.sv) ==> !c'.nodes[s].failed)
    ensures var n' := c'.nodes[s];
      n'.initiated && n'.complete && !n'.responsible && n'.sweep.Idle? && Exhausted(n')
  {
    ReachableOk(c);
    assert InOrder(c, s);
    c' := Spends(c, s);
    c' := Asks(c', s);
    c' := Spends(c', s);
  }

  /** The leader's allocation ends; it never panics. */
  lemma Finishes(c: Cluster, s: SiteId, p: nat) returns (c': Cluster)
    requires Reachable(c) && IsUp(c, s) && c.nodes[s].complete
    requires p in c.nodes[s].forkers && c.nodes[s].forkers[p].Leading?
    ensures Reachable(c') && c'.root == c.root && IsUp(c', s)
    ensures Enabled(c.nodes[s], s == c.root, Finish(p)) && c'.nodes[s] == Do(c.nodes[s], s == c.root, Finish(p))
  {
    ReachableOk(c);
    assert InOrder(c, s);
    if !c.nodes[s].failed { NoPanic(c, s); }
    c' := Acts(c, s, Finish(p));
  }

  /** Three processes that are not of boot. */
  predicate Three(n: Node, p: nat, q: nat, r: nat) {
    p != q && q != r && p != r && IsAlive(n.procs, p) && IsAlive(n.procs, q) && IsAlive(n.procs, r)
  }

  /**
    On every client with three processes beside those of boot, where no process
    is in the wait and no allocation is under way, a waiter can come to be
    stranded: it is woken, but before it runs the IDs are used up and another
    process takes responsibility, so it goes back to sleep uncounted; the end of
    that second allocation does not wake it.
   */
  lemma WaiterCanBeStranded(c: Cluster, s: SiteId, p: nat, q: nat, r: nat) returns (c': Cluster)
    requires Reachable(c) && IsUp(c, s) && s != c.root && c.nodes[s].forkers == map[] && !c.nodes[s].initiated
    requires Three(c.nodes[s], p, q, r)
    ensures Reachable(c') && IsUp(c', s) && Stranded(c'.nodes[s], q)
  {
    c' := LeadsAndWaits(c, s, p, q, r);
    c' := Finishes(c', s, p);
    assert c'.nodes[s].forkers.Keys == {q} && !Sleeps(c'.nodes[s], q);
    c' := WakesTooLate(c', s, q, r);
    c' := Finishes(c', s, r);
  }

  /** A process takes responsibility for the chunk asked for. */
  lemma Leads(c: Cluster, s: SiteId, p: nat) returns (c': Cluster)
    requires Reachable(c) && IsUp(c, s) && s != c.root && Enabled(c.nodes[s], false, Lead(p))
    ensures Reachable(c') && c'.root == c.root && IsUp(c', s) && c'.sv == c.sv
    ensures var n, n' := c.nodes[s], c'.nodes[s];
      && n' == n.(pd := Skipped(n.pd), responsible := true, forkers := n.forkers[p := Leading])
      && PidsOk(n'.pd) && Exhausted(n')
  {
    c' := Acts(c, s, Lead(p));
  }

  /** Process `p` takes responsibility for a chunk asked for, and `q` waits. */
  lemma LeadsAndWaits(c: Cluster, s: SiteId, p: nat, q: nat, r: nat) returns (c': Cluster)
    requires Reachable(c) && IsUp(c, s) && s != c.root && c.nodes[s].forkers == map[] && !c.nodes[s].initiated
    requires Three(c.nodes[s], p, q, r)
    ensures Reachable(c') && c'.root == c.root && IsUp(c', s)
    ensures c'.nodes[s].complete && c'.nodes[s].waiting > 0 && IsAlive(c'.nodes[s].procs, r)
    ensures c'.nodes[s].forkers.Keys == {p, q} && c'.nodes[s].forkers[p].Leading? && Sleeps(c'.nodes[s], q)
  {
    c' := RunsOut(c, s);
    c' := Leads(c', s, p);
    c' := Acts(c', s, Wait(q));
  }

  /** Process `q`, woken, runs only when `r` has taken responsibility for the next chunk. */
  lemma WakesTooLate(c: Cluster, s: SiteId, q: nat, r: nat) returns (c': Cluster)
    requires Reachable(c) && IsUp(c, s) && s != c.root && !c.nodes[s].initiated && c.nodes[s].waiting == 0
    requires c.nodes[s].forkers.Keys == {q} && Waits(c.nodes[s], q) && !Sleeps(c.nodes[s], q)
    requires q != r && IsAlive(c.nodes[s].procs, r)
    ensures Reachable(c') && c'.root == c.root && IsUp(c', s)
    ensures c'.nodes[s].complete && c'.nodes[s].waiting == 0
    ensures c'.nodes[s].forkers.Keys == {q, r} && c'.nodes[s].forkers[r].Leading? && Sleeps(c'.nodes[s], q)
  {
    c' := RunsOut(c, s);
    c' := Leads(c', s, r);
    c' := Acts(c', s, Wake(q));
  }

  // ---------------------------------------------------------------- a cluster in which it happens

  const INIT := Proc(1, true)

  /** A client on which only init runs beside the processes of boot. */
  predicate JustBooted(n: Node) {
    n.procs == BOOT + [INIT] && n.forkers == map[] && !n.initiated && NoneHeld(n) && |n.pd.slots| >= |BOOT| + 3
  }

  /** Init leads. */
  lemma InitLeads(c: Cluster, s: SiteId) returns (c': Cluster)
    requires Reachable(c) && IsUp(c, s) && s != c.root && JustBooted(c.nodes[s]) && HasFree(c.sv)
    ensures Reachable(c') && c'.root == c.root && IsUp(c', s)
    ensures var n := c'.nodes[s];
      && n.procs == BOOT + [INIT] && NoneHeld(n) && |n.pd.slots| >= |BOOT| + 3
      && n.sweep.Idle? && n.complete && !n.failed && n.forkers == map[1 := Leading]
  {
    c' := RunsOut(c, s);
    assert c'.nodes[s].procs[3] == INIT;
    c' := Leads(c', s, 1);
  }

  /** Init gets the first chunk of the client. */
  lemma FirstChunk(c: Cluster, s: SiteId) returns (c': Cluster)
    requires Reachable(c) && IsUp(c, s) && s != c.root && JustBooted(c.nodes[s]) && HasFree(c.sv)
    ensures Reachable(c') && c'.root == c.root && IsUp(c', s)
    ensures var n := c'.nodes[s];
      && n.procs == BOOT + [INIT] && n.forkers == map[] && !n.initiated && |n.pd.slots| >= |BOOT| + 3
      && n.sweep.Idle? && FreshList(n.pd)
  {
    c' := InitLeads(c, s);
    FirstIsGranted(c', s);
    FirstInstalled(c'.nodes[s].pd, c'.nodes[s].procs, c'.nodes[s].first);
    var n := c'.nodes[s];
    c' := Finishes(c', s, 1);
    assert c'.nodes[s].pd == Install(n.pd, n.procs, n.first).value;
  }

  /** A list of IDs none of which is used up but those of the system. */
  predicate FreshList(pd: Pids) {
    && PidsOk(pd) && pd.cur <= PID_MAXSYS + 1 && pd.last == PIDCHUNK
    && forall i :: pd.cur <= i < pd.last ==> pd.avail[i] != 0
  }

  lemma FirstIsGranted(c: Cluster, s: SiteId)
    requires Reachable(c) && IsUp(c, s) && c.nodes[s].complete && !c.nodes[s].failed
    ensures c.nodes[s].first >= 0
  {
    ReachableOk(c);
    assert InOrder(c, s);
    assert Granted(c.nodes[s]).Some?;
  }

  lemma FirstInstalled(pd: Pids, procs: seq<Proc>, first: int)
    requires forall k :: 0 <= k < |pd.slots| ==> !pd.slots[k].Occupied()
    requires first >= 0
    ensures Install(pd, procs, first).Some? ==>
      FreshList(Install(pd, procs, first).value) && |Install(pd, procs, first).value.slots| == |pd.slots|
  {
    assert FoundSlot(pd.slots, first, |pd.slots|).None?;
  }

  /** Init forks: the first available ID goes to a new process. */
  lemma Forks(c: Cluster, s: SiteId) returns (c': Cluster)
    requires Reachable(c) && IsUp(c, s) && PidsOk(c.nodes[s].pd) && |c.nodes[s].procs| < |c.nodes[s].pd.slots|
    requires c.nodes[s].sweep.Idle? && c.nodes[s].pd.cur <= c.nodes[s].pd.last - CHUNK_PREALLOCATE
    requires forall i :: c.nodes[s].pd.cur <= i < c.nodes[s].pd.last ==> c.nodes[s].pd.avail[i] != 0
    ensures Reachable(c') && c'.root == c.root && IsUp(c', s)
    ensures var n := c.nodes[s];
      && c'.nodes[s] == n.(pd := n.pd.(cur := n.pd.cur + 1), procs := n.procs + [Proc(n.pd.avail[n.pd.cur], false)])
      && n.pd.avail[n.pd.cur] == n.pd.lastNewPid + n.pd.cur > PID_MAXSYS
  {
    ReachableOk(c);
    assert InOrder(c, s);
    assert Skipped(c.nodes[s].pd) == c.nodes[s].pd;
    NewIsUnused(c.nodes[s].pd, c.nodes[s].procs);
    c' := Acts(c, s, Fork({}));
  }

  lemma AliveAt(procs: seq<Proc>, i: nat)
    requires |BOOT| <= i < |procs| && procs[i].pid >= 0
    ensures IsAlive(procs, procs[i].pid)
  {
  }

  /** Init forks twice. */
  lemma TwoChildren(c: Cluster, s: SiteId) returns (c': Cluster, q: nat, r: nat)
    requires Reachable(c) && IsUp(c, s) && c.nodes[s].procs == BOOT + [INIT] && |c.nodes[s].pd.slots| >= |BOOT| + 3
    requires c.nodes[s].forkers == map[] && !c.nodes[s].initiated && c.nodes[s].sweep.Idle? && FreshList(c.nodes[s].pd)
    ensures Reachable(c') && c'.root == c.root && IsUp(c', s) && Three(c'.nodes[s], 1, q, r)
    ensures c'.nodes[s].forkers == map[] && !c'.nodes[s].initiated
  {
    assert c.nodes[s].procs[3] == INIT;
    c' := Forks(c, s);
    c' := Forks(c', s);
    var procs := c'.nodes[s].procs;
    assert |procs| == 6 && procs[3] == INIT;
    q, r := procs[4].pid, procs[5].pid;
    AliveAt(procs, 3);
    AliveAt(procs, 4);
    AliveAt(procs, 5);
  }

  /** Init and its two children fork until one of them is stranded. */
  lemma AStrandedWaiter() returns (c: Cluster, p: nat)
    ensures Reachable(c) && IsUp(c, 2) && Stranded(c.nodes[2], p)
  {
    var r;
    c := TwoSites();
    c := FirstChunk(c, 2);
    c, p, r := TwoChildren(c, 2);
    c := WaiterCanBeStranded(c, 2, 1, p, r);
  }

  /** A root and a client that has just booted. */
  lemma TwoSites() returns (c: Cluster)
    ensures Reachable(c) && IsUp(c, 2) && c.root == 1 && JustBooted(c.nodes[2]) && HasFree(c.sv)
  {
    var nproc := |BOOT| + 3;
    c := Cluster(Server(seq(NUMPIDCHUNKS, i => FREE), -1), 1,
                 map[1 := FreshNode(Up, nproc), 2 := FreshNode(Gone, 0)]);
    assert Init(c);
    assert Behaviour([c]) && [c][|[c]| - 1] == c;
    Extends(c, Join(2, nproc));
    c := Perform(c, Join(2, nproc));
    assert c.sv.table[0] == FREE;
    c := Acts(c, 2, SpawnSystem(1));
  }
}
