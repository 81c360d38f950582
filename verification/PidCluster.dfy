/**
  The cluster as a state machine: the root server's table, every site's
  tables and flags, the messages in flight, and the processes waiting for
  IDs.  Steps of different sites interleave freely; so do the steps of one
  site wherever its code can sleep.
 */
module PidCluster {
  import opened Common
  import opened PidTable
  import opened PidSite

  datatype Msg =
    | Release(chunks: seq<int>)
    | GetPids(lastNewPid: int, chunks: seq<int>)
    | Grant(first: int, size: int)
    | Refuse

  /** A sweep in progress: slots still to be looked at, and the message being filled. */
  datatype Sweeping = Idle | At(todo: nat, batch: seq<int>)

  /**
    A process, named by its ID, inside the wait for preallocated PIDs; `since`
    counts the replies consumed when it came.
   */
  datatype Forker = Leading | Waiting(since: nat, asleep: bool)

  datatype Status = Up | Crashed | Gone

  datatype Node = Node(
    status: Status,
    pd: Pids,
    procs: seq<Proc>,
    sweep: Sweeping,
    initiated: bool,
    complete: bool,
    responsible: bool,
    waiting: nat,
    first: int,
    size: int,
    failed: bool,
    forkers: map<nat, Forker>,
    net: seq<Msg>,
    // history: requests sent, replies received, replies consumed, and the PIDs live at the last sweep
    requests: nat,
    replies: nat,
    consumed: nat,
    seen: set<int>)

  function PidSet(procs: seq<Proc>): set<int> {
    set i | 0 <= i < |procs| :: procs[i].pid
  }

  /** The swapper, the page-out and the statistics process, which every site starts at boot and which never exit. */
  const BOOT := [Proc(0, true), Proc(2, true), Proc(3, true)]

  /** A site with room for `nproc` processes. */
  function FreshNode(status: Status, nproc: nat): Node {
    Node(status, Pids(seq(nproc, i => Slot(0, 0)), seq(PIDCHUNK, i => 0), 0, 0, -1),
         if status == Up then BOOT else [], Idle, false, false, false, 0, 0, 0, false, map[], [], 0, 0, 0, {})
  }

  // ---------------------------------------------------------------- the steps of one site

  datatype Act =
    // one pass that finds an ID; `busy` are process groups and sessions in use, and an ID for which the
    // process table has no room is lost
    | Fork(busy: set<int>)
    | SpawnSystem(pid: int)
    | Exit(i: nat)
    | StartPrealloc
    | SweepNext
    | SendRequest
    | Receive(k: nat)
    | Lead(p: nat)
    | Wait(p: nat)
    | Finish(p: nat)
    | Wake(p: nat)

  predicate Exhausted(n: Node)
    requires PidsOk(n.pd)
  {
    Skipped(n.pd).cur == n.pd.last
  }

  predicate PreallocationDue(n: Node)
    requires PidsOk(n.pd)
  {
    !n.initiated && n.pd.last - Skipped(n.pd).cur < CHUNK_PREALLOCATE
  }

  /** A live process, other than those of boot, that is not in the wait yet. */
  predicate MayWait(n: Node, p: nat) {
    IsAlive(n.procs, p) && p !in n.forkers
  }

  predicate IsAlive(procs: seq<Proc>, p: nat) {
    exists i :: |BOOT| <= i < |procs| && procs[i].pid == p
  }

  predicate Enabled(n: Node, isRoot: bool, a: Act)
  {
    n.status == Up && PidsOk(n.pd) &&
    match a
    case Fork(_) => n.sweep.Idle? && (isRoot || !PreallocationDue(n)) && !Exhausted(n)
    case SpawnSystem(pid) => 0 <= pid <= PID_MAXSYS && |n.procs| < |n.pd.slots|
    case Exit(i) => |BOOT| <= i < |n.procs| && n.procs[i].pid !in n.forkers
    case StartPrealloc => !isRoot && n.sweep.Idle? && PreallocationDue(n)
    case SweepNext => n.sweep.At? && n.net == [] && 0 < n.sweep.todo <= |n.pd.slots|
    case SendRequest => n.sweep.At? && n.net == [] && n.sweep.todo == 0
    case Receive(k) => k < |n.net| && (n.net[k].Grant? || n.net[k].Refuse?)
    case Lead(p) => !isRoot && n.sweep.Idle? && n.initiated && Exhausted(n) && MayWait(n, p) && !n.responsible
    case Wait(p) => !isRoot && n.sweep.Idle? && n.initiated && Exhausted(n) && MayWait(n, p) && n.responsible
    case Finish(p) => p in n.forkers && n.forkers[p].Leading? && n.complete
                      && (n.failed || Install(n.pd, n.procs, n.first).Some?)
    case Wake(p) => p in n.forkers && n.forkers[p].Waiting? && !n.forkers[p].asleep
  }

  function Woken(forkers: map<nat, Forker>): map<nat, Forker> {
    map q | q in forkers :: if forkers[q].Waiting? then forkers[q].(asleep := false) else forkers[q]
  }

  function Do(n: Node, isRoot: bool, a: Act): Node
    requires Enabled(n, isRoot, a)
  {
    match a
    case Fork(busy) =>
      var pd := Skipped(n.pd);
      var pid := pd.avail[pd.cur];
      n.(pd := pd.(cur := pd.cur + 1),
         procs := if pid in busy || |n.procs| >= |n.pd.slots| then n.procs else n.procs + [Proc(pid, false)])
    case SpawnSystem(pid) =>
      n.(procs := n.procs + [Proc(pid, true)], seen := n.seen + {pid})
    case Exit(i) =>
      n.(procs := Without(n.procs, i))
    case StartPrealloc =>
      n.(pd := Skipped(n.pd), initiated := true, sweep := At(|n.pd.slots|, []), seen := PidSet(n.procs))
    case SweepNext =>
      var s := SweepSlot(n.pd, n.procs, n.sweep.todo - 1, n.sweep.batch);
      n.(pd := s.pd, sweep := At(n.sweep.todo - 1, s.batch),
         net := if s.sent.Some? then [Release(s.sent.value)] else [])
    case SendRequest =>
      n.(sweep := Idle, net := [GetPids(n.pd.lastNewPid, n.sweep.batch)], requests := n.requests + 1)
    case Receive(k) =>
      var m := n.net[k];
      n.(net := Without(n.net, k), complete := true, replies := n.replies + 1,
         failed := m.Refuse?,
         first := if m.Grant? then m.first else n.first,
         size := if m.Grant? then m.size else n.size)
    case Lead(p) =>
      n.(pd := Skipped(n.pd), responsible := true, forkers := n.forkers[p := Leading])
    case Wait(p) =>
      n.(pd := Skipped(n.pd), waiting := n.waiting + 1, forkers := n.forkers[p := Waiting(n.consumed, true)])
    case Finish(p) =>
      var others := n.forkers - {p};
      n.(initiated := false, complete := false, responsible := false, waiting := 0,
         forkers := if n.waiting > 0 then Woken(others) else others,
         consumed := n.consumed + 1,
         pd := if n.failed then n.pd else Install(n.pd, n.procs, n.first).value)
    case Wake(p) =>
      n.(forkers := if n.responsible then n.forkers[p := n.forkers[p].(asleep := true)] else n.forkers - {p})
  }

  // ---------------------------------------------------------------- what every step of one site keeps

  ghost predicate Holds(slots: seq<Slot>, start: int) {
    exists k :: 0 <= k < |slots| && slots[k].Occupied() && slots[k].start == start
  }

  ghost predicate SlotsOk(slots: seq<Slot>, owned: set<int>) {
    && (forall k :: 0 <= k < |slots| && slots[k].Occupied() ==>
          && ChunkStart(slots[k].start) && slots[k].end == slots[k].start + PIDCHUNK
          && PidToChunk(slots[k].start) in owned)
    && (forall i, j :: 0 <= i < j < |slots| && slots[i].Occupied() && slots[j].Occupied() ==>
          slots[i].start != slots[j].start)
  }

  ghost predicate AvailOk(pd: Pids, procs: seq<Proc>) {
    && PidsOk(pd)
    && ValidLastPid(pd.lastNewPid)
    && (pd.cur < pd.last ==> Holds(pd.slots, pd.lastNewPid))
    && (forall i :: pd.cur <= i < pd.last && pd.avail[i] != 0 ==>
          pd.avail[i] == pd.lastNewPid + i && pd.avail[i] > PID_MAXSYS && !IsUsed(procs, pd.avail[i]))
  }

  ghost predicate Home(slots: seq<Slot>, pid: int) {
    exists k :: 0 <= k < |slots| && slots[k].Occupied() && slots[k].Contains(pid)
  }

  ghost predicate ProcsOk(procs: seq<Proc>, slots: seq<Slot>) {
    && (forall i :: 0 <= i < |procs| ==>
          if procs[i].sys then 0 <= procs[i].pid <= PID_MAXSYS
          else procs[i].pid > PID_MAXSYS && Home(slots, procs[i].pid))
    && (forall i, j :: 0 <= i < j < |procs| && !procs[i].sys && !procs[j].sys ==> procs[i].pid != procs[j].pid)
  }

  /** Chunks given up but not yet back in the server's table. */
  function Pending(n: Node): seq<int> {
    (if n.sweep.At? then n.sweep.batch else []) +
    (if n.net == [] then []
     else match n.net[0] case Release(cs) => cs case GetPids(_, cs) => cs case _ => [])
  }

  ghost predicate PendingOk(n: Node, owned: set<int>) {
    && Distinct(Pending(n))
    && forall x :: x in Pending(n) ==> ChunkStart(x) && PidToChunk(x) in owned && !Holds(n.pd.slots, x)
  }

  /** The chunk granted but not yet installed. */
  function Granted(n: Node): Option<int> {
    if n.net != [] && n.net[0].Grant? then Some(n.net[0].first)
    else if n.complete && !n.failed then Some(n.first)
    else None
  }

  ghost predicate GrantOk(n: Node, owned: set<int>) {
    && (Granted(n).Some? ==> ChunkStart(Granted(n).value) && PidToChunk(Granted(n).value) in owned)
    && (n.net != [] && n.net[0].Grant? ==> n.net[0].size == PIDCHUNK)
    && (n.complete && !n.failed ==> n.size == PIDCHUNK)
  }

  ghost predicate Conserved(n: Node, owned: set<int>) {
    forall c :: c in owned ==>
      && 0 <= c < NUMPIDCHUNKS
      && (Holds(n.pd.slots, ChunkToPid(c)) || ChunkToPid(c) in Pending(n) || Granted(n) == Some(ChunkToPid(c)))
  }

  /** A request or its reply is under way. */
  predicate RequestOut(n: Node) {
    n.net != [] && !n.net[0].Release?
  }

  ghost predicate Handshake(n: Node) {
    && |n.net| <= 1
    && (n.sweep.At? ==> n.initiated && !n.complete && !RequestOut(n)
                        && n.sweep.todo <= |n.pd.slots| && |n.sweep.batch| <= MAX_CHUNKS_TO_RELEASE)
    && (n.net != [] && n.net[0].GetPids? ==> n.net[0].lastNewPid == n.pd.lastNewPid)
    && (n.net != [] && n.net[0].Release? ==> n.sweep.At?)
    && (n.initiated <==> n.sweep.At? || RequestOut(n) || n.complete)
    && !(n.complete && RequestOut(n))
    && (n.responsible ==> n.initiated)
    && (n.responsible <==> exists p :: p in n.forkers && n.forkers[p].Leading?)
    && (forall p, q :: p in n.forkers && q in n.forkers && n.forkers[p].Leading? && n.forkers[q].Leading? ==> p == q)
    && (forall p :: p in n.forkers && n.forkers[p].Waiting? ==>
          n.forkers[p].since <= n.consumed && (n.forkers[p].since == n.consumed ==> n.responsible))
    && n.requests == n.replies + (if RequestOut(n) then 1 else 0)
    && n.replies == n.consumed + (if n.complete then 1 else 0)
  }

  ghost predicate KeptFor(slot: Slot, lastNewPid: int, seen: set<int>) {
    slot.Occupied() && slot.start != lastNewPid ==> exists pid :: pid in seen && slot.Contains(pid)
  }

  /** Every slot the sweep has passed holds the current chunk or one in use at the sweep. */
  ghost predicate SweptOk(n: Node) {
    n.initiated ==>
      forall k :: (if n.sweep.At? then n.sweep.todo else 0) <= k < |n.pd.slots| ==>
        KeptFor(n.pd.slots[k], n.pd.lastNewPid, n.seen)
  }

  /** While a sweep runs, no process appears but those it saw. */
  ghost predicate SeenOk(n: Node) {
    n.sweep.At? ==> PidSet(n.procs) <= n.seen
  }

  ghost predicate NodeOk(n: Node, owned: set<int>, isRoot: bool) {
    && SlotsOk(n.pd.slots, owned)
    && AvailOk(n.pd, n.procs)
    && ProcsOk(n.procs, n.pd.slots)
    && PendingOk(n, owned)
    && GrantOk(n, owned)
    && Conserved(n, owned)
    && Handshake(n)
    && SweptOk(n)
    && SeenOk(n)
    && (isRoot ==> !n.initiated)
  }

  lemma SameChunk(slots: seq<Slot>, owned: set<int>, pid: int, start: int)
    requires SlotsOk(slots, owned) && ChunkStart(start) && start <= pid < start + PIDCHUNK
    requires Home(slots, pid)
    ensures Holds(slots, start)
  {
  }

  lemma SkippedOk(pd: Pids, procs: seq<Proc>)
    requires AvailOk(pd, procs)
    ensures AvailOk(Skipped(pd), procs)
  {
  }

  /** Taking the first available ID: it is new on this site, and its chunk is held. */
  lemma TakeOk(pd: Pids, procs: seq<Proc>, owned: set<int>)
    requires SlotsOk(pd.slots, owned) && AvailOk(pd, procs) && ProcsOk(procs, pd.slots)
    requires Skipped(pd).cur < pd.last
    ensures var taken := Skipped(pd);
      var pid := taken.avail[taken.cur];
      var procs' := procs + [Proc(pid, false)];
      && AvailOk(taken.(cur := taken.cur + 1), procs)
      && AvailOk(taken.(cur := taken.cur + 1), procs')
      && ProcsOk(procs', pd.slots)
  {
    SkippedOk(pd, procs);
    var taken := Skipped(pd);
    var pid := taken.avail[taken.cur];
    var procs' := procs + [Proc(pid, false)];
    assert pid == pd.lastNewPid + taken.cur && pid > PID_MAXSYS && !IsUsed(procs, pid);
    assert Home(pd.slots, pid) by {
      var k :| 0 <= k < |pd.slots| && pd.slots[k].Occupied() && pd.slots[k].start == pd.lastNewPid;
      assert pd.slots[k].Contains(pid);
    }
    assert forall i :: 0 <= i < |procs| ==> procs'[i] == procs[i];
    forall i | taken.cur + 1 <= i < taken.last && taken.avail[i] != 0
      ensures !IsUsed(procs', taken.avail[i])
    {
      assert !IsUsed(procs, taken.avail[i]);
    }
  }

  /** A site whose processes alone change, or those a sweep saw. */
  lemma ProcsOnly(n: Node, n': Node, owned: set<int>, isRoot: bool)
    requires NodeOk(n, owned, isRoot) && n' == n.(procs := n'.procs, seen := n'.seen) && n.seen <= n'.seen
    requires AvailOk(n.pd, n'.procs) && ProcsOk(n'.procs, n.pd.slots) && SeenOk(n')
    ensures NodeOk(n', owned, isRoot)
  {
    assert Pending(n') == Pending(n) && Granted(n') == Granted(n);
    assert SweptOk(n');
  }

  /** A site whose place in the list of IDs alone changes. */
  lemma CursorOnly(n: Node, n': Node, owned: set<int>, isRoot: bool)
    requires NodeOk(n, owned, isRoot) && n' == n.(pd := n.pd.(cur := n'.pd.cur)) && AvailOk(n'.pd, n.procs)
    ensures NodeOk(n', owned, isRoot)
  {
    assert Pending(n') == Pending(n) && Granted(n') == Granted(n);
  }

  lemma ForkOk(n: Node, owned: set<int>, isRoot: bool, a: Act)
    requires NodeOk(n, owned, isRoot) && Enabled(n, isRoot, a) && a.Fork?
    ensures NodeOk(Do(n, isRoot, a), owned, isRoot)
  {
    TakeOk(n.pd, n.procs, owned);
    var n' := Do(n, isRoot, a);
    var moved := n.(pd := n'.pd);
    CursorOnly(n, moved, owned, isRoot);
    ProcsOnly(moved, n', owned, isRoot);
  }

  lemma SystemProcOk(pd: Pids, procs: seq<Proc>, pid: int)
    requires AvailOk(pd, procs) && ProcsOk(procs, pd.slots) && 0 <= pid <= PID_MAXSYS
    ensures AvailOk(pd, procs + [Proc(pid, true)]) && ProcsOk(procs + [Proc(pid, true)], pd.slots)
    ensures PidSet(procs + [Proc(pid, true)]) <= PidSet(procs) + {pid}
  {
    var procs' := procs + [Proc(pid, true)];
    assert forall i :: 0 <= i < |procs| ==> procs'[i] == procs[i];
    forall i | pd.cur <= i < pd.last && pd.avail[i] != 0 ensures !IsUsed(procs', pd.avail[i]) {
      assert !IsUsed(procs, pd.avail[i]);
    }
    forall x | x in PidSet(procs') ensures x in PidSet(procs) + {pid} {
      var i :| 0 <= i < |procs'| && procs'[i].pid == x;
      if i < |procs| { assert procs[i].pid in PidSet(procs); }
    }
  }

  lemma SpawnSystemOk(n: Node, owned: set<int>, isRoot: bool, a: Act)
    requires NodeOk(n, owned, isRoot) && Enabled(n, isRoot, a) && a.SpawnSystem?
    ensures NodeOk(Do(n, isRoot, a), owned, isRoot)
  {
    SystemProcOk(n.pd, n.procs, a.pid);
    ProcsOnly(n, Do(n, isRoot, a), owned, isRoot);
  }

  /** One process fewer: the others keep their homes, and IDs stay unused. */
  lemma FewerProcs(pd: Pids, procs: seq<Proc>, i: nat)
    requires AvailOk(pd, procs) && ProcsOk(procs, pd.slots) && i < |procs|
    ensures AvailOk(pd, Without(procs, i)) && ProcsOk(Without(procs, i), pd.slots)
    ensures PidSet(Without(procs, i)) <= PidSet(procs)
  {
    var procs' := Without(procs, i);
    assert forall j :: 0 <= j < |procs'| ==> procs'[j] == procs[if j < i then j else j + 1];
    forall j | pd.cur <= j < pd.last && pd.avail[j] != 0 ensures !IsUsed(procs', pd.avail[j]) {
      assert !IsUsed(procs, pd.avail[j]);
    }
    forall x | x in PidSet(procs') ensures x in PidSet(procs) {
      var j :| 0 <= j < |procs'| && procs'[j].pid == x;
      assert procs'[j] == procs[if j < i then j else j + 1];
    }
  }

  lemma ExitOk(n: Node, owned: set<int>, isRoot: bool, a: Act)
    requires NodeOk(n, owned, isRoot) && Enabled(n, isRoot, a) && a.Exit?
    ensures NodeOk(Do(n, isRoot, a), owned, isRoot)
  {
    FewerProcs(n.pd, n.procs, a.i);
    assert Pending(Do(n, isRoot, a)) == Pending(n);
  }

  lemma StartPreallocOk(n: Node, owned: set<int>, isRoot: bool, a: Act)
    requires NodeOk(n, owned, isRoot) && Enabled(n, isRoot, a) && a.StartPrealloc?
    ensures NodeOk(Do(n, isRoot, a), owned, isRoot)
  {
    var n' := Do(n, isRoot, a);
    SkippedOk(n.pd, n.procs);
    assert Pending(n') == [] == Pending(n);
    assert Conserved(n', owned) && Handshake(n');
  }

  lemma SweepNextOk(n: Node, owned: set<int>, isRoot: bool, a: Act)
    requires NodeOk(n, owned, isRoot) && Enabled(n, isRoot, a) && a.SweepNext?
    ensures NodeOk(Do(n, isRoot, a), owned, isRoot)
  {
    if Releasable(n.pd, n.procs, n.sweep.todo - 1) {
      SweepReleases(n, owned, isRoot, a);
    } else {
      SweepKeeps(n, owned, isRoot, a);
    }
  }

  lemma SweepKeeps(n: Node, owned: set<int>, isRoot: bool, a: Act)
    requires NodeOk(n, owned, isRoot) && Enabled(n, isRoot, a) && a.SweepNext?
    requires !Releasable(n.pd, n.procs, n.sweep.todo - 1)
    ensures NodeOk(Do(n, isRoot, a), owned, isRoot)
  {
    var n' := Do(n, isRoot, a);
    var slot := n.pd.slots[n.sweep.todo - 1];
    assert n'.pd == n.pd && Pending(n') == Pending(n);
    assert KeptFor(slot, n.pd.lastNewPid, n.seen) by {
      if slot.Occupied() && slot.start != n.pd.lastNewPid {
        var i :| 0 <= i < |n.procs| && slot.Contains(n.procs[i].pid);
        assert n.procs[i].pid in PidSet(n.procs);
      }
    }
  }

  lemma SweepReleases(n: Node, owned: set<int>, isRoot: bool, a: Act)
    requires NodeOk(n, owned, isRoot) && Enabled(n, isRoot, a) && a.SweepNext?
    requires Releasable(n.pd, n.procs, n.sweep.todo - 1)
    ensures NodeOk(Do(n, isRoot, a), owned, isRoot)
  {
    var n' := Do(n, isRoot, a);
    var start := n.pd.slots[n.sweep.todo - 1].start;
    SweepFrees(n, owned, n.sweep.todo - 1);
    assert start !in Pending(n) by { assert Holds(n.pd.slots, start); }
    SweptPending(n, isRoot, a);
    SweptHandshake(n, isRoot, a);
    ReleaseConserves(n, n', owned, start);
  }

  /** Moving a chunk from the table of chunks held to the pending releases loses nothing. */
  lemma ReleaseConserves(n: Node, n': Node, owned: set<int>, start: int)
    requires SlotsOk(n.pd.slots, owned) && PendingOk(n, owned) && Conserved(n, owned)
    requires Holds(n.pd.slots, start) && Granted(n).None? && Granted(n').None? && Distinct(Pending(n'))
    requires forall x :: x in Pending(n') <==> x in Pending(n) || x == start
    requires forall x :: Holds(n'.pd.slots, x) <==> Holds(n.pd.slots, x) && x != start
    ensures PendingOk(n', owned) && Conserved(n', owned)
  {
  }

  lemma SweptHandshake(n: Node, isRoot: bool, a: Act)
    requires Handshake(n) && SweptOk(n) && Enabled(n, isRoot, a) && a.SweepNext?
    requires Releasable(n.pd, n.procs, n.sweep.todo - 1)
    ensures Handshake(Do(n, isRoot, a)) && SweptOk(Do(n, isRoot, a))
    ensures Granted(n).None? && Granted(Do(n, isRoot, a)).None?
  {
    var n' := Do(n, isRoot, a);
    var k := n.sweep.todo - 1;
    forall j | k <= j < |n'.pd.slots| ensures KeptFor(n'.pd.slots[j], n'.pd.lastNewPid, n'.seen) {
      assert j != k ==> n'.pd.slots[j] == n.pd.slots[j];
    }
  }

  lemma SweptPending(n: Node, isRoot: bool, a: Act)
    requires Enabled(n, isRoot, a) && a.SweepNext?
    requires Releasable(n.pd, n.procs, n.sweep.todo - 1)
    requires Distinct(Pending(n)) && n.pd.slots[n.sweep.todo - 1].start !in Pending(n)
    ensures var n' := Do(n, isRoot, a);
      && Distinct(Pending(n'))
      && forall x :: x in Pending(n') <==> x in Pending(n) || x == n.pd.slots[n.sweep.todo - 1].start
  {
    var n' := Do(n, isRoot, a);
    var start := n.pd.slots[n.sweep.todo - 1].start;
    assert Pending(n) == n.sweep.batch;
    assert Pending(n') ==
      if |n.sweep.batch| >= MAX_CHUNKS_TO_RELEASE then [start] + n.sweep.batch else n.sweep.batch + [start];
  }

  /** Clearing a releasable slot loses exactly its chunk. */
  lemma SweepFrees(n: Node, owned: set<int>, k: nat)
    requires SlotsOk(n.pd.slots, owned) && AvailOk(n.pd, n.procs) && ProcsOk(n.procs, n.pd.slots)
    requires k < |n.pd.slots| && Releasable(n.pd, n.procs, k)
    ensures var pd' := n.pd.(slots := n.pd.slots[k := Cleared(n.pd.slots[k])]);
      && SlotsOk(pd'.slots, owned)
      && AvailOk(pd', n.procs)
      && ProcsOk(n.procs, pd'.slots)
      && (forall x :: Holds(pd'.slots, x) <==> Holds(n.pd.slots, x) && x != n.pd.slots[k].start)
  {
    var slots := n.pd.slots;
    var slots' := slots[k := Cleared(slots[k])];
    forall x | Holds(slots, x) && x != slots[k].start
      ensures Holds(slots', x)
    {
      var j :| 0 <= j < |slots| && slots[j].Occupied() && slots[j].start == x;
      assert slots'[j] == slots[j];
    }
    forall i | 0 <= i < |n.procs| && !n.procs[i].sys
      ensures Home(slots', n.procs[i].pid)
    {
      var j :| 0 <= j < |slots| && slots[j].Occupied() && slots[j].Contains(n.procs[i].pid);
      assert j != k;
      assert slots'[j] == slots[j];
    }
  }

  lemma SendRequestOk(n: Node, owned: set<int>, isRoot: bool, a: Act)
    requires NodeOk(n, owned, isRoot) && Enabled(n, isRoot, a) && a.SendRequest?
    ensures NodeOk(Do(n, isRoot, a), owned, isRoot)
  {
    assert Pending(Do(n, isRoot, a)) == Pending(n);
  }

  lemma ReceiveOk(n: Node, owned: set<int>, isRoot: bool, a: Act)
    requires NodeOk(n, owned, isRoot) && Enabled(n, isRoot, a) && a.Receive?
    ensures NodeOk(Do(n, isRoot, a), owned, isRoot)
  {
    var n' := Do(n, isRoot, a);
    assert a.k == 0 && n'.net == [];
    assert Pending(n') == [] == Pending(n);
  }

  lemma LeadOrWaitOk(n: Node, owned: set<int>, isRoot: bool, a: Act)
    requires NodeOk(n, owned, isRoot) && Enabled(n, isRoot, a) && (a.Lead? || a.Wait?)
    ensures NodeOk(Do(n, isRoot, a), owned, isRoot)
  {
    var n' := Do(n, isRoot, a);
    assert Pending(n') == Pending(n);
    if a.Wait? {
      var q :| q in n.forkers && n.forkers[q].Leading?;
      assert n'.forkers[q].Leading?;
    } else {
      assert n'.forkers[a.p].Leading?;
    }
  }

  lemma WakeOk(n: Node, owned: set<int>, isRoot: bool, a: Act)
    requires NodeOk(n, owned, isRoot) && Enabled(n, isRoot, a) && a.Wake?
    ensures NodeOk(Do(n, isRoot, a), owned, isRoot)
  {
    var n' := Do(n, isRoot, a);
    assert Pending(n') == Pending(n);
    if n.responsible {
      var q :| q in n.forkers && n.forkers[q].Leading?;
      assert n'.forkers[q].Leading?;
    }
  }

  /** A chunk not held before is entered in the lowest empty slot; no process has an ID in it. */
  lemma EnterOk(slots: seq<Slot>, procs: seq<Proc>, owned: set<int>, first: int, e: nat)
    requires SlotsOk(slots, owned) && ProcsOk(procs, slots)
    requires ChunkStart(first) && PidToChunk(first) in owned && !Holds(slots, first)
    requires e < |slots| && !slots[e].Occupied()
    ensures var slots' := slots[e := Slot(first, first + PIDCHUNK)];
      && SlotsOk(slots', owned)
      && ProcsOk(procs, slots')
      && (forall x :: Holds(slots', x) <==> Holds(slots, x) || x == first)
    ensures forall i :: 0 <= i < |procs| && !procs[i].sys ==> !(first <= procs[i].pid < first + PIDCHUNK)
  {
    var slots' := slots[e := Slot(first, first + PIDCHUNK)];
    assert slots'[e].Occupied() && slots'[e].start == first;
    forall x | Holds(slots, x) ensures Holds(slots', x) {
      var j :| 0 <= j < |slots| && slots[j].Occupied() && slots[j].start == x;
      assert slots'[j] == slots[j];
    }
    forall i | 0 <= i < |procs| && !procs[i].sys
      ensures Home(slots', procs[i].pid) && !(first <= procs[i].pid < first + PIDCHUNK)
    {
      var j :| 0 <= j < |slots| && slots[j].Occupied() && slots[j].Contains(procs[i].pid);
      assert slots'[j] == slots[j];
      if first <= procs[i].pid < first + PIDCHUNK {
        SameChunk(slots, owned, procs[i].pid, first);
      }
    }
  }

  /** Installing an owned chunk keeps the site's tables right and makes the chunk held. */
  lemma InstallOk(pd: Pids, procs: seq<Proc>, owned: set<int>, first: int)
    requires SlotsOk(pd.slots, owned) && AvailOk(pd, procs) && ProcsOk(procs, pd.slots)
    requires ChunkStart(first) && PidToChunk(first) in owned
    requires Install(pd, procs, first).Some?
    ensures var pd' := Install(pd, procs, first).value;
      && SlotsOk(pd'.slots, owned)
      && AvailOk(pd', procs)
      && ProcsOk(procs, pd'.slots)
      && (forall x :: Holds(pd'.slots, x) <==> Holds(pd.slots, x) || x == first)
  {
    var pd' := Install(pd, procs, first).value;
    var found := FoundSlot(pd.slots, first, |pd.slots|);
    if found.Some? {
      assert Holds(pd.slots, first);
    } else {
      EnterOk(pd.slots, procs, owned, first, EmptySlot(pd.slots, 0).value);
    }
    AvailableOk(procs, first, found.Some?);
  }

  lemma AvailableOk(procs: seq<Proc>, first: int, found: bool)
    requires ChunkStart(first)
    requires forall i :: 0 <= i < |procs| && procs[i].sys ==> procs[i].pid <= PID_MAXSYS
    requires !found ==> forall i :: 0 <= i < |procs| && !procs[i].sys ==> !(first <= procs[i].pid < first + PIDCHUNK)
    ensures var avail := Available(procs, first, found);
      forall i :: (if first == 0 then PID_MAXSYS + 1 else 0) <= i < PIDCHUNK && avail[i] != 0 ==>
        avail[i] == first + i && first + i > PID_MAXSYS && !IsUsed(procs, first + i)
  {
  }

  lemma FinishHandshake(n: Node, isRoot: bool, a: Act)
    requires Handshake(n) && Enabled(n, isRoot, a) && a.Finish?
    ensures Handshake(Do(n, isRoot, a))
    ensures n.net == [] && n.sweep.Idle? && Granted(Do(n, isRoot, a)).None?
  {
  }

  lemma FinishOk(n: Node, owned: set<int>, isRoot: bool, a: Act)
    requires NodeOk(n, owned, isRoot) && Enabled(n, isRoot, a) && a.Finish?
    ensures NodeOk(Do(n, isRoot, a), owned, isRoot)
  {
    var n' := Do(n, isRoot, a);
    FinishHandshake(n, isRoot, a);
    assert Pending(n') == [] == Pending(n);
    if !n.failed {
      InstallOk(n.pd, n.procs, owned, n.first);
    }
    assert Conserved(n', owned);
  }

  lemma ActOk(n: Node, owned: set<int>, isRoot: bool, a: Act)
    requires NodeOk(n, owned, isRoot) && Enabled(n, isRoot, a)
    ensures NodeOk(Do(n, isRoot, a), owned, isRoot) && Do(n, isRoot, a).status == Up
  {
    match a
    case Fork(_) => ForkOk(n, owned, isRoot, a);
    case SpawnSystem(_) => SpawnSystemOk(n, owned, isRoot, a);
    case Exit(_) => ExitOk(n, owned, isRoot, a);
    case StartPrealloc => StartPreallocOk(n, owned, isRoot, a);
    case SweepNext => SweepNextOk(n, owned, isRoot, a);
    case SendRequest => SendRequestOk(n, owned, isRoot, a);
    case Receive(_) => ReceiveOk(n, owned, isRoot, a);
    case Lead(_) => LeadOrWaitOk(n, owned, isRoot, a);
    case Wait(_) => LeadOrWaitOk(n, owned, isRoot, a);
    case Finish(_) => FinishOk(n, owned, isRoot, a);
    case Wake(_) => WakeOk(n, owned, isRoot, a);
  }

  // ---------------------------------------------------------------- the whole cluster

  datatype Cluster = Cluster(sv: Server, root: SiteId, nodes: map<SiteId, Node>)

  datatype Step =
    | Local(s: SiteId, a: Act)
    | Serve(s: SiteId, k: nat)   // the server handles a message from `s`
    | RootRefill                 // the server's own site needs a chunk
    | Crash(s: SiteId)
    | Cleanup(s: SiteId)
    | Join(s: SiteId, nproc: nat)

  predicate SeqOfServer(sv: Server) {
    |sv.table| == NUMPIDCHUNKS && -1 <= sv.last < NUMPIDCHUNKS
  }

  function RootSwept(sv: Server, n: Node): Server
    requires SeqOfServer(sv) && ChunkStarts(Freed(n.pd, n.procs, |n.pd.slots|))
  {
    ReturnAll(sv, Freed(n.pd, n.procs, |n.pd.slots|))
  }

  predicate CanStep(c: Cluster, st: Step)
  {
    && SeqOfServer(c.sv)
    && c.root in c.nodes
    && match st
       case Local(s, a) => s in c.nodes && Enabled(c.nodes[s], s == c.root, a)
       case Serve(s, k) =>
         && s in c.nodes && s != c.root && c.nodes[s].status == Up && k < |c.nodes[s].net|
         && (match c.nodes[s].net[k]
             case Release(cs) => ChunkStarts(cs)
             case GetPids(last, cs) => ChunkStarts(cs) && ValidLastPid(last)
             case _ => false)
       case RootRefill =>
         var n := c.nodes[c.root];
         && n.status == Up && PidsOk(n.pd) && Exhausted(n) && ValidLastPid(n.pd.lastNewPid)
         && ChunkStarts(Freed(n.pd, n.procs, |n.pd.slots|))
         && (var a := GetChunk(RootSwept(c.sv, n), n.pd.lastNewPid, c.root);
             a.chunk.Some? ==> Install(Swept(n.pd, n.procs), n.procs, ChunkToPid(a.chunk.value)).Some?)
       case Crash(s) => s in c.nodes && s != c.root && c.nodes[s].status == Up
       case Cleanup(s) => s in c.nodes && c.nodes[s].status == Crashed
       case Join(s, nproc) => s in c.nodes && c.nodes[s].status == Gone && nproc >= |BOOT|
  }

  function Perform(c: Cluster, st: Step): Cluster
    requires CanStep(c, st)
  {
    match st
    case Local(s, a) =>
      c.(nodes := c.nodes[s := Do(c.nodes[s], s == c.root, a)])
    case Serve(s, k) =>
      var n := c.nodes[s];
      (match n.net[k]
       case Release(cs) =>
         Cluster(ReturnAll(c.sv, cs), c.root, c.nodes[s := n.(net := Without(n.net, k))])
       case GetPids(last, cs) =>
         var a := GetChunk(ReturnAll(c.sv, cs), last, s);
         Cluster(a.sv, c.root, c.nodes[s := n.(net := n.net[k := Reply(a.chunk)])])
       case _ => c)
    case RootRefill =>
      var n := c.nodes[c.root];
      var a := GetChunk(RootSwept(c.sv, n), n.pd.lastNewPid, c.root);
      var swept := Swept(n.pd, n.procs).(cur := Skipped(n.pd).cur);
      var pd := if a.chunk.Some? then Install(swept, n.procs, ChunkToPid(a.chunk.value)).value else swept;
      Cluster(a.sv, c.root, c.nodes[c.root := n.(pd := pd)])
    case Crash(s) =>
      c.(nodes := c.nodes[s := FreshNode(Crashed, 0)])
    case Cleanup(s) =>
      Cluster(Sweep(c.sv, s), c.root, c.nodes[s := FreshNode(Gone, 0)])
    case Join(s, nproc) =>
      c.(nodes := c.nodes[s := FreshNode(Up, nproc)])
  }

  predicate IsFresh(n: Node, status: Status) {
    n == FreshNode(status, |n.pd.slots|)
  }

  /** At the start only the root is up, and every chunk is free. */
  ghost predicate Init(c: Cluster) {
    && c.sv == Server(seq(NUMPIDCHUNKS, i => FREE), -1)
    && FREE !in c.nodes
    && c.root in c.nodes
    && |c.nodes[c.root].pd.slots| >= |BOOT|
    && forall s :: s in c.nodes ==> IsFresh(c.nodes[s], if s == c.root then Up else Gone)
  }

  ghost predicate Next(c: Cluster, c': Cluster) {
    exists st :: CanStep(c, st) && c' == Perform(c, st)
  }

  ghost predicate Behaviour(trace: seq<Cluster>) {
    && |trace| > 0
    && Init(trace[0])
    && forall i :: 0 <= i < |trace| - 1 ==> Next(trace[i], trace[i + 1])
  }

  ghost predicate SiteOk(n: Node, owned: set<int>, isRoot: bool) {
    match n.status
    case Up => NodeOk(n, owned, isRoot)
    case Crashed => n.procs == [] && n.net == []
    case Gone => n.procs == [] && n.net == [] && owned == {}
  }

  ghost predicate InOrder(c: Cluster, s: SiteId)
    requires |c.sv.table| == NUMPIDCHUNKS && s in c.nodes
  {
    SiteOk(c.nodes[s], Owned(c.sv, s), s == c.root)
  }

  ghost predicate ClusterOk(c: Cluster) {
    && ServerOk(c.sv)
    && FREE !in c.nodes
    && c.root in c.nodes && c.nodes[c.root].status == Up
    && (forall s {:trigger InOrder(c, s)} :: s in c.nodes ==> InOrder(c, s))
    && (forall s :: s !in c.nodes && s != FREE ==> Owned(c.sv, s) == {})
  }

  lemma FreshOk(nproc: nat)
    ensures NodeOk(FreshNode(Up, nproc), {}, false)
    ensures NodeOk(FreshNode(Up, nproc), {}, true)
  {
  }

  lemma InitOk(c: Cluster)
    requires Init(c)
    ensures ClusterOk(c)
  {
    forall s | s in c.nodes ensures InOrder(c, s) {
      FreshOk(|c.nodes[s].pd.slots|);
      assert IsFresh(c.nodes[s], if s == c.root then Up else Gone);
      assert Owned(c.sv, s) == {};
    }
    forall s | s !in c.nodes && s != FREE ensures Owned(c.sv, s) == {} {
      assert Owned(c.sv, s) == {};
    }
  }

  /** Only site `s` and its chunks changed, and `s` is still in order: then the cluster is. */
  lemma OnlyOneSite(c: Cluster, c': Cluster, s: SiteId)
    requires ClusterOk(c) && ServerOk(c'.sv) && s in c.nodes
    requires c'.root == c.root && s in c'.nodes && c'.nodes == c.nodes[s := c'.nodes[s]]
    requires forall t :: t != s && t != FREE ==> Owned(c'.sv, t) == Owned(c.sv, t)
    requires InOrder(c', s)
    requires s == c.root ==> c'.nodes[s].status == Up
    ensures ClusterOk(c')
  {
    forall t | t in c'.nodes
      ensures InOrder(c', t)
    {
      if t != s { assert InOrder(c, t) && c'.nodes[t] == c.nodes[t]; }
    }
  }

  /** Returning chunks the site owns takes them from it and from nobody else. */
  lemma ReturnTakes(sv: Server, pids: seq<int>, site: SiteId)
    requires ServerOk(sv) && ChunkStarts(pids) && site != FREE
    requires forall x :: x in pids ==> PidToChunk(x) in Owned(sv, site)
    ensures var r := ReturnAll(sv, pids);
      && ServerOk(r)
      && (forall c :: c in Owned(r, site) <==> c in Owned(sv, site) && ChunkToPid(c) !in pids)
      && (forall t :: t != site && t != FREE ==> Owned(r, t) == Owned(sv, t))
  {
    var r := ReturnAll(sv, pids);
    forall t | t != site && t != FREE ensures Owned(r, t) == Owned(sv, t) {
      forall c | c in Owned(sv, t) ensures c in Owned(r, t) {
        assert PidToChunk(ChunkToPid(c)) == c;
      }
    }
  }

  lemma DistinctParts(a: seq<int>, b: seq<int>)
    requires Distinct(a + b)
    ensures Distinct(a)
    ensures forall x :: x in a ==> x !in b
  {
    var s := a + b;
    forall i, j | 0 <= i < |a| && 0 <= j < |b| ensures a[i] != b[j] {
      assert s[i] != s[|a| + j];
    }
    forall i, j | 0 <= i < j < |a| ensures a[i] != a[j] {
      assert s[i] != s[j];
    }
  }

  lemma ServedReleaseOk(n: Node, owned: set<int>, owned': set<int>)
    requires NodeOk(n, owned, false) && |n.net| == 1 && n.net[0].Release?
    requires forall c :: c in owned' <==> c in owned && ChunkToPid(c) !in n.net[0].chunks
    ensures NodeOk(n.(net := []), owned', false)
  {
    var n' := n.(net := []);
    var cs := n.net[0].chunks;
    assert Pending(n) == n.sweep.batch + cs && Pending(n') == n.sweep.batch;
    KeptChunks(n.pd.slots, owned, owned', cs);
    DistinctParts(n.sweep.batch, cs);
    forall x | x in Pending(n') ensures PidToChunk(x) in owned' {
      assert x in Pending(n);
      assert ChunkToPid(PidToChunk(x)) == x;
    }
  }

  lemma KeptChunks(slots: seq<Slot>, owned: set<int>, owned': set<int>, released: seq<int>)
    requires SlotsOk(slots, owned)
    requires forall x :: x in released ==> !Holds(slots, x)
    requires forall c :: c in owned && ChunkToPid(c) !in released ==> c in owned'
    ensures SlotsOk(slots, owned')
  {
    forall k | 0 <= k < |slots| && slots[k].Occupied() ensures PidToChunk(slots[k].start) in owned' {
      assert Holds(slots, slots[k].start);
      assert ChunkToPid(PidToChunk(slots[k].start)) == slots[k].start;
    }
  }

  lemma ServedRequestOk(n: Node, owned: set<int>, owned': set<int>, chunk: Option<nat>)
    requires NodeOk(n, owned, false) && |n.net| == 1 && n.net[0].GetPids?
    requires chunk.Some? ==> chunk.value < NUMPIDCHUNKS
    requires forall c :: c in owned' <==>
      (c in owned && ChunkToPid(c) !in n.net[0].chunks) || (chunk.Some? && c == chunk.value)
    ensures NodeOk(n.(net := [Reply(chunk)]), owned', false)
  {
    var n' := n.(net := [Reply(chunk)]);
    assert Pending(n) == n.net[0].chunks && Pending(n') == [];
    KeptChunks(n.pd.slots, owned, owned', n.net[0].chunks);
    assert Granted(n).None?;
    assert Granted(n') == if chunk.Some? then Some(ChunkToPid(chunk.value)) else None;
    assert Conserved(n', owned');
    assert Handshake(n');
  }

  /** The one message outstanding gives back chunks the site owns. */
  lemma MessageChunksPending(n: Node, owned: set<int>)
    requires NodeOk(n, owned, false) && n.net != [] && (n.net[0].Release? || n.net[0].GetPids?)
    ensures |n.net| == 1 && ChunkStarts(n.net[0].chunks)
    ensures forall x :: x in n.net[0].chunks ==> PidToChunk(x) in owned
  {
    assert forall x :: x in n.net[0].chunks ==> x in Pending(n);
  }

  lemma ServeReleaseOk(c: Cluster, st: Step)
    requires ClusterOk(c) && CanStep(c, st) && st.Serve? && c.nodes[st.s].net[st.k].Release?
    ensures ClusterOk(Perform(c, st))
  {
    var c' := Perform(c, st);
    var n := c.nodes[st.s];
    assert InOrder(c, st.s);
    MessageChunksPending(n, Owned(c.sv, st.s));
    ReturnTakes(c.sv, n.net[0].chunks, st.s);
    ServedReleaseOk(n, Owned(c.sv, st.s), Owned(c'.sv, st.s));
    assert Without(n.net, 0) == [];
    assert c'.nodes[st.s] == n.(net := []);
    OnlyOneSite(c, c', st.s);
  }

  /** Serving a request: the released chunks leave the site, the granted one joins it. */
  lemma RequestMoves(sv: Server, pids: seq<int>, last: int, site: SiteId)
    requires ServerOk(sv) && ChunkStarts(pids) && ValidLastPid(last) && site != FREE
    requires forall x :: x in pids ==> PidToChunk(x) in Owned(sv, site)
    ensures var a := GetChunk(ReturnAll(sv, pids), last, site);
      && ServerOk(a.sv)
      && (a.chunk.Some? ==> a.chunk.value < NUMPIDCHUNKS)
      && (forall c :: c in Owned(a.sv, site) <==>
            (c in Owned(sv, site) && ChunkToPid(c) !in pids) || (a.chunk.Some? && c == a.chunk.value))
      && (forall t :: t != site && t != FREE ==> Owned(a.sv, t) == Owned(sv, t))
  {
    ReturnTakes(sv, pids, site);
    GrantKeepsOthers(ReturnAll(sv, pids), last, site);
  }

  function Reply(chunk: Option<nat>): Msg {
    if chunk.Some? then Grant(ChunkToPid(chunk.value), PIDCHUNK) else Refuse
  }

  lemma OneMessage(c: Cluster, s: SiteId)
    requires ClusterOk(c) && s in c.nodes
    ensures |c.nodes[s].net| <= 1
  {
    assert InOrder(c, s);
  }

  lemma ServedOk(c: Cluster, s: SiteId, last: int, cs: seq<int>)
    requires ClusterOk(c) && s in c.nodes && s != c.root && c.nodes[s].status == Up
    requires c.nodes[s].net == [GetPids(last, cs)] && ChunkStarts(cs) && ValidLastPid(last)
    ensures var a := GetChunk(ReturnAll(c.sv, cs), last, s);
      ClusterOk(Cluster(a.sv, c.root, c.nodes[s := c.nodes[s].(net := [Reply(a.chunk)])]))
  {
    var n := c.nodes[s];
    assert InOrder(c, s);
    MessageChunksPending(n, Owned(c.sv, s));
    RequestMoves(c.sv, cs, last, s);
    var a := GetChunk(ReturnAll(c.sv, cs), last, s);
    ServedRequestOk(n, Owned(c.sv, s), Owned(a.sv, s), a.chunk);
    OnlyOneSite(c, Cluster(a.sv, c.root, c.nodes[s := n.(net := [Reply(a.chunk)])]), s);
  }

  lemma ServeRequestOk(c: Cluster, st: Step)
    requires ClusterOk(c) && CanStep(c, st) && st.Serve? && c.nodes[st.s].net[st.k].GetPids?
    ensures ClusterOk(Perform(c, st))
  {
    var n := c.nodes[st.s];
    OneMessage(c, st.s);
    ServedOk(c, st.s, n.net[0].lastNewPid, n.net[0].chunks);
    var reply := Reply(GetChunk(ReturnAll(c.sv, n.net[0].chunks), n.net[0].lastNewPid, st.s).chunk);
    assert n.net[0 := reply] == [reply];
  }

  /** The server's own sweep keeps every chunk but the freed ones, and a home for every process. */
  lemma SweptHolds(pd: Pids, procs: seq<Proc>, owned: set<int>)
    requires SlotsOk(pd.slots, owned)
    ensures forall x :: Holds(Swept(pd, procs).slots, x) <==> Holds(pd.slots, x) && x !in Freed(pd, procs, |pd.slots|)
    ensures forall i :: 0 <= i < |procs| && Home(pd.slots, procs[i].pid) ==> Home(Swept(pd, procs).slots, procs[i].pid)
  {
    var slots := pd.slots;
    var slots' := Swept(pd, procs).slots;
    var freed := Freed(pd, procs, |slots|);
    forall x | Holds(slots, x) && x !in freed ensures Holds(slots', x) {
      var j :| 0 <= j < |slots| && slots[j].Occupied() && slots[j].start == x;
      assert slots'[j] == slots[j];
    }
    forall x | Holds(slots', x) ensures Holds(slots, x) && x !in freed {
      var j :| 0 <= j < |slots'| && slots'[j].Occupied() && slots'[j].start == x;
      assert slots'[j] == slots[j];
      assert forall k :: 0 <= k < |slots| && Releasable(pd, procs, k) ==> k != j;
    }
    forall i | 0 <= i < |procs| && Home(slots, procs[i].pid) ensures Home(slots', procs[i].pid) {
      var j :| 0 <= j < |slots| && slots[j].Occupied() && slots[j].Contains(procs[i].pid);
      assert slots'[j] == slots[j];
    }
  }

  lemma SweptTablesOk(pd: Pids, procs: seq<Proc>, owned: set<int>, owned': set<int>)
    requires SlotsOk(pd.slots, owned) && AvailOk(pd, procs) && ProcsOk(procs, pd.slots)
    requires forall c :: c in owned && ChunkToPid(c) !in Freed(pd, procs, |pd.slots|) ==> c in owned'
    ensures SlotsOk(Swept(pd, procs).slots, owned')
    ensures AvailOk(Swept(pd, procs), procs)
    ensures ProcsOk(procs, Swept(pd, procs).slots)
  {
    SweptHolds(pd, procs, owned);
    var slots := pd.slots;
    var slots' := Swept(pd, procs).slots;
    forall k | 0 <= k < |slots'| && slots'[k].Occupied() ensures PidToChunk(slots'[k].start) in owned' {
      assert Holds(slots', slots'[k].start) && slots'[k] == slots[k];
      assert ChunkToPid(PidToChunk(slots[k].start)) == slots[k].start;
    }
    assert pd.cur < pd.last ==> pd.lastNewPid !in Freed(pd, procs, |slots|);
  }

  /** New tables on the server's own site, which has no messages: the rest of its state stands. */
  lemma NewTablesOk(n: Node, pd: Pids, owned: set<int>, owned': set<int>)
    requires NodeOk(n, owned, true)
    requires SlotsOk(pd.slots, owned') && AvailOk(pd, n.procs) && ProcsOk(n.procs, pd.slots)
    requires forall c :: c in owned' ==> 0 <= c < NUMPIDCHUNKS && Holds(pd.slots, ChunkToPid(c))
    ensures NodeOk(n.(pd := pd), owned', true)
  {
    var n' := n.(pd := pd);
    assert Pending(n) == [] == Pending(n');
    assert Granted(n').None?;
    assert Handshake(n');
  }

  /** The server's tables after its own sweep. */
  lemma SweptRootOk(n: Node, owned: set<int>, kept: set<int>)
    requires NodeOk(n, owned, true)
    requires forall c :: c in kept <==> c in owned && ChunkToPid(c) !in Freed(n.pd, n.procs, |n.pd.slots|)
    ensures var swept := Swept(n.pd, n.procs).(cur := Skipped(n.pd).cur);
      && SlotsOk(swept.slots, kept) && AvailOk(swept, n.procs) && ProcsOk(n.procs, swept.slots)
      && (forall c :: c in kept ==> 0 <= c < NUMPIDCHUNKS && Holds(swept.slots, ChunkToPid(c)))
  {
    SweptTablesOk(n.pd, n.procs, owned, kept);
    SweptHolds(n.pd, n.procs, owned);
    SkippedOk(Swept(n.pd, n.procs), n.procs);
    assert Pending(n) == [] && Granted(n).None?;
  }

  lemma MoreOwned(slots: seq<Slot>, owned: set<int>, owned': set<int>)
    requires SlotsOk(slots, owned) && owned <= owned'
    ensures SlotsOk(slots, owned')
  {
  }

  lemma InstalledTablesOk(swept: Pids, procs: seq<Proc>, kept: set<int>, chunk: nat, pd: Pids)
    requires SlotsOk(swept.slots, kept) && AvailOk(swept, procs) && ProcsOk(procs, swept.slots) && chunk < NUMPIDCHUNKS
    requires forall c :: c in kept ==> 0 <= c < NUMPIDCHUNKS && Holds(swept.slots, ChunkToPid(c))
    requires Install(swept, procs, ChunkToPid(chunk)) == Some(pd)
    ensures SlotsOk(pd.slots, kept + {chunk}) && AvailOk(pd, procs) && ProcsOk(procs, pd.slots)
    ensures forall c :: c in kept + {chunk} ==> 0 <= c < NUMPIDCHUNKS && Holds(pd.slots, ChunkToPid(c))
  {
    assert PidToChunk(ChunkToPid(chunk)) == chunk;
    MoreOwned(swept.slots, kept, kept + {chunk});
    InstallOk(swept, procs, kept + {chunk}, ChunkToPid(chunk));
    forall c | c in kept + {chunk} ensures 0 <= c < NUMPIDCHUNKS && Holds(pd.slots, ChunkToPid(c)) {
      if c != chunk { assert Holds(swept.slots, ChunkToPid(c)); }
    }
  }

  lemma InstalledRootOk(n: Node, owned: set<int>, swept: Pids, kept: set<int>, chunk: nat, pd: Pids)
    requires NodeOk(n, owned, true) && chunk < NUMPIDCHUNKS
    requires SlotsOk(swept.slots, kept) && AvailOk(swept, n.procs) && ProcsOk(n.procs, swept.slots)
    requires forall c :: c in kept ==> 0 <= c < NUMPIDCHUNKS && Holds(swept.slots, ChunkToPid(c))
    requires Install(swept, n.procs, ChunkToPid(chunk)) == Some(pd)
    ensures NodeOk(n.(pd := pd), kept + {chunk}, true)
  {
    InstalledTablesOk(swept, n.procs, kept, chunk, pd);
    NewTablesOk(n, pd, owned, kept + {chunk});
  }

  /** The server's site after its sweep and, if one is granted, after installing the chunk. */
  lemma RefilledOk(n: Node, owned: set<int>, kept: set<int>, chunk: Option<nat>)
    requires NodeOk(n, owned, true)
    requires chunk.Some? ==> chunk.value < NUMPIDCHUNKS
    requires chunk.Some? ==> Install(Swept(n.pd, n.procs), n.procs, ChunkToPid(chunk.value)).Some?
    requires forall c :: c in kept <==> c in owned && ChunkToPid(c) !in Freed(n.pd, n.procs, |n.pd.slots|)
    ensures var swept := Swept(n.pd, n.procs).(cur := Skipped(n.pd).cur);
      if chunk.Some? then
        NodeOk(n.(pd := Install(swept, n.procs, ChunkToPid(chunk.value)).value), kept + {chunk.value}, true)
      else NodeOk(n.(pd := swept), kept, true)
  {
    var swept := Swept(n.pd, n.procs).(cur := Skipped(n.pd).cur);
    SweptRootOk(n, owned, kept);
    if chunk.Some? {
      InstalledRootOk(n, owned, swept, kept, chunk.value, Install(swept, n.procs, ChunkToPid(chunk.value)).value);
    } else {
      NewTablesOk(n, swept, owned, kept);
    }
  }

  lemma RootRefillOk(c: Cluster, st: Step)
    requires ClusterOk(c) && CanStep(c, st) && st.RootRefill?
    ensures ClusterOk(Perform(c, st))
  {
    var c' := Perform(c, st);
    var n := c.nodes[c.root];
    var owned := Owned(c.sv, c.root);
    assert InOrder(c, c.root);
    forall x | x in Freed(n.pd, n.procs, |n.pd.slots|) ensures PidToChunk(x) in owned {
      assert Holds(n.pd.slots, x);
    }
    var sv1 := RootSwept(c.sv, n);
    ReturnTakes(c.sv, Freed(n.pd, n.procs, |n.pd.slots|), c.root);
    GrantKeepsOthers(sv1, n.pd.lastNewPid, c.root);
    var chunk := GetChunk(sv1, n.pd.lastNewPid, c.root).chunk;
    RefilledOk(n, owned, Owned(sv1, c.root), chunk);
    assert Owned(c'.sv, c.root) == Owned(sv1, c.root) + (if chunk.Some? then {chunk.value} else {});
    OnlyOneSite(c, c', c.root);
  }

  /** Cleaning up after a site takes everything from it and nothing from the others. */
  lemma SweepTakes(sv: Server, site: SiteId)
    requires ServerOk(sv) && site != FREE
    ensures ServerOk(Sweep(sv, site)) && Owned(Sweep(sv, site), site) == {}
    ensures forall t :: t != site && t != FREE ==> Owned(Sweep(sv, site), t) == Owned(sv, t)
  {
  }

  lemma StepOk(c: Cluster, st: Step)
    requires ClusterOk(c) && CanStep(c, st)
    ensures ClusterOk(Perform(c, st))
  {
    var c' := Perform(c, st);
    match st
    case Local(s, a) =>
      assert InOrder(c, s);
      ActOk(c.nodes[s], Owned(c.sv, s), s == c.root, a);
      OnlyOneSite(c, c', s);
    case Serve(s, k) =>
      if c.nodes[s].net[k].Release? { ServeReleaseOk(c, st); } else { ServeRequestOk(c, st); }
    case RootRefill => RootRefillOk(c, st);
    case Crash(s) =>
      OnlyOneSite(c, c', s);
    case Cleanup(s) =>
      SweepTakes(c.sv, s);
      OnlyOneSite(c, c', s);
    case Join(s, nproc) =>
      assert InOrder(c, s);
      FreshOk(nproc);
      OnlyOneSite(c, c', s);
  }

  /** Every state of every behaviour is in order. */
  lemma {:induction false} AlwaysOk(trace: seq<Cluster>, i: nat)
    requires Behaviour(trace) && i < |trace|
    ensures ClusterOk(trace[i])
  {
    if i == 0 {
      InitOk(trace[0]);
    } else {
      AlwaysOk(trace, i - 1);
      assert Next(trace[i - 1], trace[i - 1 + 1]);
      var st :| CanStep(trace[i - 1], st) && trace[i] == Perform(trace[i - 1], st);
      StepOk(trace[i - 1], st);
    }
  }

  // ---------------------------------------------------------------- the main results

  /** The states that can occur: the last ones of behaviours. */
  ghost predicate Reachable(c: Cluster) {
    exists trace :: Behaviour(trace) && trace[|trace| - 1] == c
  }

  lemma ReachableOk(c: Cluster)
    requires Reachable(c)
    ensures ClusterOk(c)
  {
    var trace :| Behaviour(trace) && trace[|trace| - 1] == c;
    AlwaysOk(trace, |trace| - 1);
  }

  predicate IsUp(c: Cluster, s: SiteId) {
    s in c.nodes && c.nodes[s].status == Up
  }

  /** A live process whose ID came from the allocator. */
  predicate IsLive(c: Cluster, s: SiteId, i: nat) {
    s in c.nodes && i < |c.nodes[s].procs| && !c.nodes[s].procs[i].sys
  }

  /** No two live processes with IDs from the allocator, on any sites, ever share an ID. */
  lemma PidsAreUnique(c: Cluster, s: SiteId, i: nat, t: SiteId, j: nat)
    requires Reachable(c) && IsLive(c, s, i) && IsLive(c, t, j)
    requires c.nodes[s].procs[i].pid == c.nodes[t].procs[j].pid
    ensures s == t && i == j
  {
    ReachableOk(c);
    LivesInOwnChunk(c, s, i);
    LivesInOwnChunk(c, t, j);
    OwnedDisjoint(c.sv, s, if s == t then s + 1 else t);
    assert InOrder(c, s);
  }

  /** Every live ID lies in a chunk the table assigns to its process's site. */
  lemma LivesInOwnChunk(c: Cluster, s: SiteId, i: nat)
    requires ClusterOk(c) && IsLive(c, s, i)
    ensures PidToChunk(c.nodes[s].procs[i].pid) in Owned(c.sv, s)
  {
    var n := c.nodes[s];
    assert InOrder(c, s);
    assert Home(n.pd.slots, n.procs[i].pid);
    HomeIsOwned(n.pd.slots, Owned(c.sv, s), n.procs[i].pid);
  }

  lemma HomeIsOwned(slots: seq<Slot>, owned: set<int>, pid: int)
    requires SlotsOk(slots, owned) && Home(slots, pid)
    ensures PidToChunk(pid) in owned
  {
    var k :| 0 <= k < |slots| && slots[k].Occupied() && slots[k].Contains(pid);
    assert PidToChunk(pid) == PidToChunk(slots[k].start);
  }

  /** The places a site can have a chunk: held, given up but not yet returned, or granted but not yet installed. */
  ghost predicate Accounted(n: Node, start: int) {
    Holds(n.pd.slots, start) || start in Pending(n) || Granted(n) == Some(start)
  }

  /** The server's entry names a running site exactly when that site, and no other, accounts for the chunk. */
  lemma ChunksAreConserved(c: Cluster, s: SiteId, chunk: nat)
    requires Reachable(c) && IsUp(c, s) && chunk < NUMPIDCHUNKS
    ensures |c.sv.table| == NUMPIDCHUNKS
    ensures c.sv.table[chunk] == s <==> Accounted(c.nodes[s], ChunkToPid(chunk))
    ensures Accounted(c.nodes[s], ChunkToPid(chunk)) ==>
      forall t :: IsUp(c, t) && t != s ==> !Accounted(c.nodes[t], ChunkToPid(chunk))
  {
    ReachableOk(c);
    forall t | IsUp(c, t)
      ensures c.sv.table[chunk] == t <==> Accounted(c.nodes[t], ChunkToPid(chunk))
    {
      assert InOrder(c, t);
      AccountedExactly(c.nodes[t], Owned(c.sv, t), t == c.root, chunk);
    }
  }

  lemma AccountedExactly(n: Node, owned: set<int>, isRoot: bool, chunk: nat)
    requires NodeOk(n, owned, isRoot)
    ensures chunk in owned <==> Accounted(n, ChunkToPid(chunk))
  {
    assert PidToChunk(ChunkToPid(chunk)) == chunk;
  }

  predicate InChunkAt(start: int, pid: int) {
    start <= pid < start + PIDCHUNK
  }

  /** A chunk on its way back to the server has no live process and no ID left to hand out. */
  lemma ReleasedChunksAreIdle(c: Cluster, s: SiteId, start: int)
    requires Reachable(c) && IsUp(c, s) && start in Pending(c.nodes[s])
    ensures forall i: nat :: IsLive(c, s, i) ==> !InChunkAt(start, c.nodes[s].procs[i].pid)
    ensures PidsOk(c.nodes[s].pd)
    ensures forall i: nat :: c.nodes[s].pd.cur <= i < c.nodes[s].pd.last && c.nodes[s].pd.avail[i] != 0 ==>
      !InChunkAt(start, c.nodes[s].pd.avail[i])
  {
    ReachableOk(c);
    var n := c.nodes[s];
    var owned := Owned(c.sv, s);
    assert InOrder(c, s);
    ReleasedIsNotHeld(n, owned, s == c.root, start);
    forall i: nat | IsLive(c, s, i) ensures !InChunkAt(start, n.procs[i].pid) {
      NotInReleased(n.pd.slots, owned, n.procs[i].pid, start);
    }
    forall i: nat | n.pd.cur <= i < n.pd.last && n.pd.avail[i] != 0 ensures !InChunkAt(start, n.pd.avail[i]) {
      OtherChunk(n.pd.lastNewPid, start, i);
    }
  }

  lemma ReleasedIsNotHeld(n: Node, owned: set<int>, isRoot: bool, start: int)
    requires NodeOk(n, owned, isRoot) && start in Pending(n)
    ensures ChunkStart(start) && !Holds(n.pd.slots, start)
    ensures n.pd.cur < n.pd.last ==> ChunkStart(n.pd.lastNewPid) && n.pd.lastNewPid != start
  {
  }

  lemma NotInReleased(slots: seq<Slot>, owned: set<int>, pid: int, start: int)
    requires SlotsOk(slots, owned) && ChunkStart(start) && !Holds(slots, start) && Home(slots, pid)
    ensures !InChunkAt(start, pid)
  {
  }

  lemma OtherChunk(first: int, start: int, i: nat)
    requires first % PIDCHUNK == 0 && start % PIDCHUNK == 0 && first != start && i < PIDCHUNK
    ensures !InChunkAt(start, first + i)
  {
  }

  /**
    The handshake: at most one message of a site is outstanding; every request
    gets at most one reply and every reply is consumed at most once; and at
    most one process leads, which is when the responsible flag is set.
   */
  lemma HandshakeHolds(c: Cluster, s: SiteId)
    requires Reachable(c) && IsUp(c, s)
    ensures var n := c.nodes[s];
      && |n.net| <= 1
      && n.consumed <= n.replies <= n.requests <= n.consumed + 1
      && (n.requests == n.replies + 1 <==> RequestOut(n))
      && (n.replies == n.consumed + 1 <==> n.complete)
    ensures var n := c.nodes[s];
      && (n.responsible <==> exists p :: p in n.forkers && n.forkers[p].Leading?)
      && (forall p, q :: p in n.forkers && q in n.forkers ==>
            (n.forkers[p].Leading? && n.forkers[q].Leading? ==> p == q))
  {
    ReachableOk(c);
    assert InOrder(c, s);
  }

  /** A waiting process returns only after a reply was consumed since it began to wait. */
  lemma WaitersReturnAfterTheLeader(c: Cluster, s: SiteId, p: nat)
    requires Reachable(c) && s in c.nodes && Enabled(c.nodes[s], s == c.root, Wake(p))
    requires p !in Do(c.nodes[s], s == c.root, Wake(p)).forkers
    ensures c.nodes[s].forkers[p].since < c.nodes[s].consumed
  {
    ReachableOk(c);
    assert InOrder(c, s);
  }

  /** Which of its chunks a request names: the current one of its site, from which the first scan starts. */
  lemma RequestsNameTheCurrentChunk(c: Cluster, s: SiteId)
    requires Reachable(c) && IsUp(c, s) && c.nodes[s].net != [] && c.nodes[s].net[0].GetPids?
    ensures c.nodes[s].net[0].lastNewPid == c.nodes[s].pd.lastNewPid
  {
    ReachableOk(c);
    assert InOrder(c, s);
  }

  /**
    A fork takes the least ID on offer and no other; the child has it, unless a
    group or session does or the process table has no room.
   */
  lemma ForkTakesTheLeast(c: Cluster, s: SiteId, busy: set<int>)
    requires Reachable(c) && IsUp(c, s) && Enabled(c.nodes[s], s == c.root, Fork(busy))
    ensures PidsOk(c.nodes[s].pd) && PidsOk(Do(c.nodes[s], s == c.root, Fork(busy)).pd)
    ensures var n, n' := c.nodes[s], Do(c.nodes[s], s == c.root, Fork(busy));
      exists pid :: pid in Offered(n.pd) && (forall x :: x in Offered(n.pd) ==> pid <= x)
        && Offered(n'.pd) == Offered(n.pd) - {pid}
        && n'.procs == if pid in busy || |n.procs| >= |n.pd.slots| then n.procs else n.procs + [Proc(pid, false)]
  {
    ReachableOk(c);
    assert InOrder(c, s);
    TakesTheLeast(c.nodes[s].pd);
  }

  /**
    A client with no request out asks for the next chunk when fewer than five
    places of its list are left, and forks only before that.
   */
  lemma AsksInTime(c: Cluster, s: SiteId, busy: set<int>)
    requires Reachable(c) && IsUp(c, s) && s != c.root && c.nodes[s].sweep.Idle? && !c.nodes[s].initiated
    ensures Enabled(c.nodes[s], false, StartPrealloc) <==> !Enabled(c.nodes[s], false, Fork(busy))
    ensures Enabled(c.nodes[s], false, Fork(busy)) <==>
      PidsOk(c.nodes[s].pd) && Skipped(c.nodes[s].pd).cur + 5 <= c.nodes[s].pd.last
  {
    ReachableOk(c);
    assert InOrder(c, s);
  }

  /** What the server's own site holds after it fetched a chunk: that one, the one before, and chunks in use. */
  lemma RootKeepsWhatIsUsed(c: Cluster, k: nat)
    requires Reachable(c) && CanStep(c, RootRefill) && c.root in c.nodes && k < |c.nodes[c.root].pd.slots|
    ensures var n, n' := c.nodes[c.root], Perform(c, RootRefill).nodes[c.root];
      && k < |n'.pd.slots|
      && (n'.pd.slots[k].Occupied() ==>
            n'.pd.slots[k].start in {n.pd.lastNewPid, n'.pd.lastNewPid} || InUse(n'.procs, n'.pd.slots[k]))
  {
  }

  /** A waiting process that runs returns exactly if no process leads then; else it sleeps again. */
  lemma RunsOnExactly(c: Cluster, s: SiteId, p: nat)
    requires Reachable(c) && IsUp(c, s) && Enabled(c.nodes[s], s == c.root, Wake(p))
    ensures var n, n' := c.nodes[s], Do(c.nodes[s], s == c.root, Wake(p));
      && (p !in n'.forkers <==> forall q :: q in n.forkers ==> !n.forkers[q].Leading?)
      && (p in n'.forkers ==> n'.forkers[p] == Waiting(n.forkers[p].since, true))
      && n'.forkers - {p} == n.forkers - {p}
  {
    ReachableOk(c);
    assert InOrder(c, s);
    LeaderIsThere(c.nodes[s]);
  }

  lemma LeaderIsThere(n: Node)
    requires Handshake(n)
    ensures n.responsible <==> exists q :: q in n.forkers && n.forkers[q].Leading?
  { }

  /** The server can always handle the message a site has sent it. */
  lemma ServerNeverStuck(c: Cluster, s: SiteId)
    requires Reachable(c) && IsUp(c, s) && c.nodes[s].net != []
    requires c.nodes[s].net[0].Release? || c.nodes[s].net[0].GetPids?
    ensures CanStep(c, Serve(s, 0))
  {
    ReachableOk(c);
    var n := c.nodes[s];
    assert InOrder(c, s);
    assert s != c.root;
    MessageChunksPending(n, Owned(c.sv, s));
  }

  // ---------------------------------------------------------------- the sweep as one run of steps

  datatype Drained = Drained(n: Node, sent: seq<seq<int>>)

  /** Sweep to the end, each full message being served before the next slot is looked at. */
  function Drain(n: Node): Drained
    requires n.status == Up && PidsOk(n.pd) && n.sweep.At? && n.net == [] && n.sweep.todo <= |n.pd.slots|
    decreases if n.sweep.At? then n.sweep.todo else 0
  {
    if n.sweep.todo == 0 then Drained(n, [])
    else
      var n1 := Do(n, false, SweepNext);
      var d := Drain(n1.(net := []));
      Drained(d.n, (if n1.net == [] then [] else [n1.net[0].chunks]) + d.sent)
  }

  /** Left alone, the steps of a sweep send and fill what the code's sweep loop does. */
  lemma {:induction false} DrainIsRunSweep(n: Node)
    requires n.status == Up && PidsOk(n.pd) && n.sweep.At? && n.net == [] && n.sweep.todo <= |n.pd.slots|
    ensures var d := Drain(n);
      var r := RunSweep(n.pd, n.procs, n.sweep.todo, n.sweep.batch);
      d.sent == r.sent && d.n == n.(pd := r.pd, sweep := At(0, r.batch))
    decreases if n.sweep.At? then n.sweep.todo else 0
  {
    if n.sweep.todo > 0 {
      var s := SweepSlot(n.pd, n.procs, n.sweep.todo - 1, n.sweep.batch);
      SweepNextIs(n, s);
      DrainIsRunSweep(n.(pd := s.pd, sweep := At(n.sweep.todo - 1, s.batch)));
    }
  }

  lemma SweepNextIs(n: Node, s: SlotSweep)
    requires n.status == Up && PidsOk(n.pd) && n.sweep.At? && n.net == [] && 0 < n.sweep.todo <= |n.pd.slots|
    requires s == SweepSlot(n.pd, n.procs, n.sweep.todo - 1, n.sweep.batch)
    ensures Do(n, false, SweepNext) ==
      n.(pd := s.pd, sweep := At(n.sweep.todo - 1, s.batch),
         net := if s.sent.Some? then [Release(s.sent.value)] else [])
    ensures Do(n, false, SweepNext).(net := []) == n.(pd := s.pd, sweep := At(n.sweep.todo - 1, s.batch))
  {
  }
}
