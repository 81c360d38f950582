/**
  Why a site never runs out of entries for the chunks it holds: there are as
  many entries as processes, three of the processes are started at boot and
  have IDs of one and the same chunk, and a sweep leaves only chunks in use.
 */
module PidPanic {
  import opened Common
  import opened PidTable
  import opened PidSite
  import opened PidCluster

  /** The IDs that came from the allocator. */
  function Users(seen: set<int>): set<int> {
    set x | x in seen && x > PID_MAXSYS
  }

  /** The processes of boot live, all processes fit the table, and so did those a sweep saw. */
  ghost predicate RoomOk(n: Node) {
    && |BOOT| <= |n.procs| <= |n.pd.slots| && n.procs[..|BOOT|] == BOOT
    && (n.initiated ==> |Users(n.seen)| + |BOOT| <= |n.pd.slots|)
  }

  lemma {:induction false} FewIds(procs: seq<Proc>)
    ensures |PidSet(procs)| <= |procs|
  {
    if procs != [] {
      var rest, last := procs[..|procs| - 1], procs[|procs| - 1].pid;
      FewIds(rest);
      assert PidSet(procs) == PidSet(rest) + {last} by {
        forall x | x in PidSet(procs) ensures x in PidSet(rest) + {last} {
          var i :| 0 <= i < |procs| && procs[i].pid == x;
          if i < |rest| { assert rest[i].pid == x; }
        }
        forall x | x in PidSet(rest) ensures x in PidSet(procs) {
          var i :| 0 <= i < |rest| && rest[i].pid == x;
          assert procs[i].pid == x;
        }
        assert procs[|procs| - 1].pid in PidSet(procs);
      }
    }
  }

  lemma Subset(a: set<int>, b: set<int>)
    requires a <= b
    ensures |a| <= |b|
  {
    assert b * a == a;
    assert |b - a| == |b| - |b * a|;
  }

  lemma UsersFew(procs: seq<Proc>)
    requires |BOOT| <= |procs| && procs[..|BOOT|] == BOOT
    ensures |Users(PidSet(procs))| + |BOOT| <= |procs|
  {
    var rest := procs[|BOOT|..];
    forall i | 0 <= i < |BOOT| ensures procs[i].pid <= PID_MAXSYS {
      assert procs[i] == procs[..|BOOT|][i] == BOOT[i];
    }
    forall x | x in Users(PidSet(procs)) ensures x in PidSet(rest) {
      var i :| 0 <= i < |procs| && procs[i].pid == x;
      assert rest[i - |BOOT|].pid == x;
    }
    Subset(Users(PidSet(procs)), PidSet(rest));
    FewIds(rest);
  }

  lemma RoomKept(n: Node, isRoot: bool, a: Act)
    requires RoomOk(n) && Enabled(n, isRoot, a)
    ensures RoomOk(Do(n, isRoot, a))
  {
    var n' := Do(n, isRoot, a);
    if a.StartPrealloc? {
      UsersFew(n.procs);
    } else if OfProcs(a) {
      ProcsKeepRoom(n, isRoot, a);
    }
  }

  predicate OfProcs(a: Act) {
    a.Exit? || a.Fork? || a.SpawnSystem?
  }

  lemma ProcsKeepRoom(n: Node, isRoot: bool, a: Act)
    requires RoomOk(n) && Enabled(n, isRoot, a) && OfProcs(a)
    ensures RoomOk(Do(n, isRoot, a))
  {
    var n' := Do(n, isRoot, a);
    assert n'.procs[..|BOOT|] == n.procs[..|BOOT|];
    assert Users(n'.seen) == Users(n.seen);
  }

  ghost predicate AllHaveRoom(c: Cluster) {
    forall s :: IsUp(c, s) ==> RoomOk(c.nodes[s])
  }

  /** Nothing but the tables and the messages of the site has changed. */
  ghost predicate SameButTables(n: Node, n': Node) {
    && n' == n.(pd := n'.pd, net := n'.net) && |n'.pd.slots| == |n.pd.slots|
  }

  /** A step that is no act of the site touches its tables and messages alone, or starts it afresh. */
  lemma OtherSteps(c: Cluster, st: Step, s: SiteId)
    requires CanStep(c, st) && IsUp(Perform(c, st), s) && !(st.Local? && st.s == s)
    ensures var n' := Perform(c, st).nodes[s];
      || (IsUp(c, s) && SameButTables(c.nodes[s], n'))
      || (st.Join? && st.s == s && st.nproc >= |BOOT| && n' == FreshNode(Up, st.nproc))
  {
    match st
    case RootRefill => RefillSpares(c, s);
    case Serve(t, k) => ServeSpares(c, t, k, s);
    case _ =>
  }

  lemma RefillSpares(c: Cluster, s: SiteId)
    requires CanStep(c, RootRefill) && IsUp(Perform(c, RootRefill), s)
    ensures IsUp(c, s) && SameButTables(c.nodes[s], Perform(c, RootRefill).nodes[s])
  {
  }

  lemma ServeSpares(c: Cluster, t: SiteId, k: nat, s: SiteId)
    requires CanStep(c, Serve(t, k)) && IsUp(Perform(c, Serve(t, k)), s)
    ensures IsUp(c, s) && SameButTables(c.nodes[s], Perform(c, Serve(t, k)).nodes[s])
  {
  }

  lemma StepKeepsRoom(c: Cluster, st: Step)
    requires AllHaveRoom(c) && CanStep(c, st)
    ensures AllHaveRoom(Perform(c, st))
  {
    var c' := Perform(c, st);
    forall s | IsUp(c', s) ensures RoomOk(c'.nodes[s]) {
      if st.Local? && st.s == s { RoomKept(c.nodes[s], s == c.root, st.a); } else { OtherSteps(c, st, s); }
    }
  }

  lemma {:induction false} AlwaysRoom(trace: seq<Cluster>, i: nat)
    requires Behaviour(trace) && i < |trace|
    ensures AllHaveRoom(trace[i])
  {
    if i == 0 {
      var c := trace[0];
      forall s | IsUp(c, s) ensures RoomOk(c.nodes[s]) {
        assert IsFresh(c.nodes[s], if s == c.root then Up else Gone);
      }
    } else {
      AlwaysRoom(trace, i - 1);
      assert Next(trace[i - 1], trace[i - 1 + 1]);
      var st :| CanStep(trace[i - 1], st) && trace[i] == Perform(trace[i - 1], st);
      StepKeepsRoom(trace[i - 1], st);
    }
  }

  lemma ReachableRoom(c: Cluster, s: SiteId)
    requires Reachable(c) && IsUp(c, s)
    ensures RoomOk(c.nodes[s])
  {
    var trace :| Behaviour(trace) && trace[|trace| - 1] == c;
    AlwaysRoom(trace, |trace| - 1);
  }

  /**
    Occupied slots, each in use by an ID of `seen` except perhaps the current
    chunk, number at most the IDs of users among `seen` and two more: IDs of the
    system all lie in the chunk that starts with ID 0.
   */
  lemma {:induction false} PigeonholeOfUsers(slots: seq<Slot>, lastNewPid: int, seen: set<int>, owned: set<int>)
    requires SlotsOk(slots, owned)
    requires forall k :: 0 <= k < |slots| ==> slots[k].Occupied() && KeptFor(slots[k], lastNewPid, seen)
    ensures |slots| <= |Users(seen)| + (if Holds(slots, lastNewPid) then 1 else 0) + (if Holds(slots, 0) then 1 else 0)
  {
    if |slots| > 0 {
      var rest := slots[..|slots| - 1];
      var slot := slots[|slots| - 1];
      assert Holds(slots, slot.start) && !Holds(rest, slot.start);
      assert forall x :: Holds(rest, x) ==> Holds(slots, x);
      if slot.start == lastNewPid || slot.start == 0 {
        PigeonholeOfUsers(rest, lastNewPid, seen, owned);
      } else {
        var pid :| pid in seen && slot.Contains(pid);
        assert pid in Users(seen);
        forall k | 0 <= k < |rest| ensures KeptFor(rest[k], lastNewPid, seen - {pid}) {
          assert KeptFor(slots[k], lastNewPid, seen);
          assert !rest[k].Contains(pid);
        }
        PigeonholeOfUsers(rest, lastNewPid, seen - {pid}, owned);
        assert Users(seen - {pid}) == Users(seen) - {pid};
      }
    }
  }

  lemma AllOccupied(slots: seq<Slot>)
    requires EmptySlot(slots, 0).None?
    ensures forall k :: 0 <= k < |slots| ==> slots[k].Occupied()
  {
  }

  /**
    A chunk that a site was granted always finds an entry: the panic cannot
    happen on any site, in any reachable state of the cluster.
   */
  lemma NoPanic(c: Cluster, s: SiteId)
    requires Reachable(c) && IsUp(c, s) && c.nodes[s].complete && !c.nodes[s].failed
    ensures Install(c.nodes[s].pd, c.nodes[s].procs, c.nodes[s].first).Some?
  {
    ReachableOk(c);
    ReachableRoom(c, s);
    var n := c.nodes[s];
    assert InOrder(c, s);
    if EmptySlot(n.pd.slots, 0).None? {
      AllOccupied(n.pd.slots);
      PigeonholeOfUsers(n.pd.slots, n.pd.lastNewPid, n.seen, Owned(c.sv, s));
    }
  }

  /** Nor can it happen on the server's own site, whose sweep and grant are one step. */
  lemma NoPanicAtRoot(c: Cluster, chunk: nat)
    requires Reachable(c) && chunk < NUMPIDCHUNKS
    ensures c.root in c.nodes
    ensures Install(Swept(c.nodes[c.root].pd, c.nodes[c.root].procs), c.nodes[c.root].procs, ChunkToPid(chunk)).Some?
  {
    ReachableOk(c);
    ReachableRoom(c, c.root);
    var n := c.nodes[c.root];
    var slots := Swept(n.pd, n.procs).slots;
    assert InOrder(c, c.root);
    if EmptySlot(slots, 0).None? {
      AllOccupied(slots);
      assert slots == n.pd.slots;
      forall k | 0 <= k < |slots| ensures KeptFor(slots[k], n.pd.lastNewPid, PidSet(n.procs)) {
        assert !Releasable(n.pd, n.procs, k);
        if slots[k].start != n.pd.lastNewPid {
          var i :| 0 <= i < |n.procs| && slots[k].Contains(n.procs[i].pid);
          assert n.procs[i].pid in PidSet(n.procs);
        }
      }
      PigeonholeOfUsers(slots, n.pd.lastNewPid, PidSet(n.procs), Owned(c.sv, c.root));
      UsersFew(n.procs);
    }
  }
}
