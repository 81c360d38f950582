/**
  One site's side of process-ID allocation: the chunks it holds, the list of
  IDs still available in its current chunk, and the sweep that finds chunks
  it can give back.
 */
module PidSite {
  import opened Common
  import opened PidTable

  const PID_MAXSYS := 7
  const CHUNK_PREALLOCATE := 5
  const MAX_CHUNKS_TO_RELEASE := 14

  /** An entry of the table of chunks held; it is empty when `end` is 0. */
  datatype Slot = Slot(start: int, end: int) {
    predicate Occupied() { end != 0 }
    predicate Contains(pid: int) { start <= pid < end }
  }

  /** A process; `sys` marks those whose ID did not come from the allocator. */
  datatype Proc = Proc(pid: int, sys: bool)

  datatype Pids = Pids(slots: seq<Slot>, avail: seq<int>, cur: nat, last: nat, lastNewPid: int)

  predicate PidsOk(pd: Pids) {
    |pd.avail| == PIDCHUNK && pd.cur <= pd.last <= PIDCHUNK
  }

  // ---------------------------------------------------------------- taking a PID

  function SkipTaken(avail: seq<int>, cur: nat, last: nat): (r: nat)
    requires cur <= last <= |avail|
    ensures cur <= r <= last
    ensures r < last ==> avail[r] != 0
    ensures forall i :: cur <= i < r ==> avail[i] == 0
    decreases last - cur
  {
    if cur < last && avail[cur] == 0 then SkipTaken(avail, cur + 1, last) else cur
  }

  function Skipped(pd: Pids): (r: Pids)
    requires PidsOk(pd)
    ensures PidsOk(r)
  {
    pd.(cur := SkipTaken(pd.avail, pd.cur, pd.last))
  }

  predicate IsUsed(procs: seq<Proc>, pid: int) {
    exists i :: 0 <= i < |procs| && procs[i].pid == pid
  }

  /** Some process has its ID inside the slot's chunk. */
  predicate InUse(procs: seq<Proc>, slot: Slot) {
    exists i :: 0 <= i < |procs| && slot.Contains(procs[i].pid)
  }

  // ---------------------------------------------------------------- the release sweep

  predicate Releasable(pd: Pids, procs: seq<Proc>, k: nat)
    requires k < |pd.slots|
  {
    pd.slots[k].Occupied() && pd.slots[k].start != pd.lastNewPid && !InUse(procs, pd.slots[k])
  }

  function Cleared(slot: Slot): Slot { slot.(end := 0) }

  /** Starts of the releasable chunks among the first `n` slots, from the highest slot down. */
  function Freed(pd: Pids, procs: seq<Proc>, n: nat): (r: seq<int>)
    requires n <= |pd.slots|
    ensures forall x :: x in r <==> exists k :: 0 <= k < n && Releasable(pd, procs, k) && pd.slots[k].start == x
  {
    if n == 0 then []
    else if Releasable(pd, procs, n - 1) then
      var rest := Freed(pd, procs, n - 1);
      assert forall x :: x in [pd.slots[n - 1].start] + rest <==> x == pd.slots[n - 1].start || x in rest;
      [pd.slots[n - 1].start] + rest
    else Freed(pd, procs, n - 1)
  }

  function Swept(pd: Pids, procs: seq<Proc>): (r: Pids)
    ensures |r.slots| == |pd.slots|
    ensures r == pd.(slots := r.slots)
    ensures forall k :: 0 <= k < |pd.slots| ==>
      r.slots[k] == if Releasable(pd, procs, k) then Cleared(pd.slots[k]) else pd.slots[k]
  {
    pd.(slots := seq(|pd.slots|, k requires 0 <= k < |pd.slots| =>
      if Releasable(pd, procs, k) then Cleared(pd.slots[k]) else pd.slots[k]))
  }

  /** One slot of a client's sweep: the message being filled, and a full one that had to go first. */
  datatype SlotSweep = SlotSweep(pd: Pids, batch: seq<int>, sent: Option<seq<int>>)

  function SweepSlot(pd: Pids, procs: seq<Proc>, k: nat, batch: seq<int>): (r: SlotSweep)
    requires k < |pd.slots|
  {
    if !Releasable(pd, procs, k) then SlotSweep(pd, batch, None)
    else
      var pd' := pd.(slots := pd.slots[k := Cleared(pd.slots[k])]);
      if |batch| >= MAX_CHUNKS_TO_RELEASE
      then SlotSweep(pd', [pd.slots[k].start], Some(batch))
      else SlotSweep(pd', batch + [pd.slots[k].start], None)
  }

  /** A whole sweep with nothing in between: the messages sent and the one left to fill the request. */
  datatype FullSweep = FullSweep(pd: Pids, sent: seq<seq<int>>, batch: seq<int>)

  function RunSweep(pd: Pids, procs: seq<Proc>, n: nat, batch: seq<int>): (r: FullSweep)
    requires n <= |pd.slots|
    decreases n
  {
    if n == 0 then FullSweep(pd, [], batch)
    else
      var s := SweepSlot(pd, procs, n - 1, batch);
      var r := RunSweep(s.pd, procs, n - 1, s.batch);
      match s.sent
      case None => r
      case Some(m) => r.(sent := [m] + r.sent)
  }

  function Flatten(ms: seq<seq<int>>): seq<int> {
    if ms == [] then [] else ms[0] + Flatten(ms[1..])
  }

  lemma {:induction false} FreedDependsOnSlots(pd: Pids, pd': Pids, procs: seq<Proc>, n: nat)
    requires n <= |pd.slots| == |pd'.slots| && pd.lastNewPid == pd'.lastNewPid
    requires forall k :: 0 <= k < n ==> pd.slots[k] == pd'.slots[k]
    ensures Freed(pd, procs, n) == Freed(pd', procs, n)
  {
    if n > 0 { FreedDependsOnSlots(pd, pd', procs, n - 1); }
  }

  /** What a sweep leaves in the table of chunks held. */
  lemma {:induction false} RunSweepClears(pd: Pids, procs: seq<Proc>, n: nat, batch: seq<int>)
    requires n <= |pd.slots|
    ensures var r := RunSweep(pd, procs, n, batch).pd;
      && |r.slots| == |pd.slots|
      && r == pd.(slots := r.slots)
      && (forall k :: 0 <= k < |pd.slots| ==>
            r.slots[k] == if k < n && Releasable(pd, procs, k) then Cleared(pd.slots[k]) else pd.slots[k])
    decreases n
  {
    if n > 0 {
      var s := SweepSlot(pd, procs, n - 1, batch);
      RunSweepClears(s.pd, procs, n - 1, s.batch);
    }
  }

  /**
    The sweep gives back every chunk without a live process except the current
    one, each once and nothing else, in messages of at most
    14 chunks, all but the last of them full.
   */
  lemma {:induction false} RunSweepReleasesAll(pd: Pids, procs: seq<Proc>, n: nat, batch: seq<int>)
    requires n <= |pd.slots| && |batch| <= MAX_CHUNKS_TO_RELEASE
    ensures var r := RunSweep(pd, procs, n, batch);
      && Flatten(r.sent) + r.batch == batch + Freed(pd, procs, n)
      && |r.batch| <= 14
      && (forall i :: 0 <= i < |r.sent| ==> |r.sent[i]| == 14)
    decreases n
  {
    if n > 0 {
      var s := SweepSlot(pd, procs, n - 1, batch);
      var r := RunSweep(s.pd, procs, n - 1, s.batch);
      RunSweepReleasesAll(s.pd, procs, n - 1, s.batch);
      FreedDependsOnSlots(pd, s.pd, procs, n - 1);
      if s.sent.Some? {
        assert ([batch] + r.sent)[1..] == r.sent;
        assert Flatten([batch] + r.sent) + r.batch == batch + (Flatten(r.sent) + r.batch);
      }
    }
  }

  // ---------------------------------------------------------------- installing a chunk

  /** The highest of the first `n` slots that holds the chunk starting at `first`. */
  function FoundSlot(slots: seq<Slot>, first: int, n: nat): (r: Option<nat>)
    requires n <= |slots|
    ensures r.Some? ==> r.value < n && slots[r.value].Occupied() && slots[r.value].start == first
    ensures r.Some? ==> forall k :: r.value < k < n && slots[k].Occupied() ==> slots[k].start != first
    ensures r.None? ==> forall k :: 0 <= k < n && slots[k].Occupied() ==> slots[k].start != first
  {
    if n == 0 then None
    else if slots[n - 1].Occupied() && slots[n - 1].start == first then Some(n - 1)
    else FoundSlot(slots, first, n - 1)
  }

  /** The lowest empty slot from `k` on. */
  function EmptySlot(slots: seq<Slot>, k: nat): (r: Option<nat>)
    requires k <= |slots|
    ensures r.Some? ==> k <= r.value < |slots| && !slots[r.value].Occupied()
    ensures r.Some? ==> forall j :: k <= j < r.value ==> slots[j].Occupied()
    ensures r.None? ==> forall j :: k <= j < |slots| ==> slots[j].Occupied()
    decreases |slots| - k
  {
    if k == |slots| then None
    else if !slots[k].Occupied() then Some(k)
    else EmptySlot(slots, k + 1)
  }

  function Available(procs: seq<Proc>, first: int, found: bool): (r: seq<int>)
    ensures |r| == PIDCHUNK
    ensures forall i :: 0 <= i < PIDCHUNK ==> r[i] == if found && IsUsed(procs, first + i) then 0 else first + i
  {
    seq(PIDCHUNK, i requires 0 <= i < PIDCHUNK => if found && IsUsed(procs, first + i) then 0 else first + i)
  }

  /** Make the chunk the current one; None is the panic for want of a table entry. */
  function Install(pd: Pids, procs: seq<Proc>, first: int): (r: Option<Pids>)
  {
    var found := FoundSlot(pd.slots, first, |pd.slots|);
    var empty := EmptySlot(pd.slots, 0);
    if found.None? && empty.None? then None
    else
      Some(Pids(
             if found.Some? then pd.slots else pd.slots[empty.value := Slot(first, first + PIDCHUNK)],
             Available(procs, first, found.Some?),
             if first == 0 then PID_MAXSYS + 1 else 0,
             PIDCHUNK,
             first))
  }

  // ---------------------------------------------------------------- the IDs on offer

  /** The IDs that are left to be taken. */
  function Offered(pd: Pids): set<int>
    requires PidsOk(pd)
  {
    set i | pd.cur <= i < pd.last && pd.avail[i] != 0 :: pd.avail[i]
  }

  /** An entry that holds the chunk. */
  predicate IsHeld(slots: seq<Slot>, first: int) {
    exists k :: 0 <= k < |slots| && slots[k].Occupied() && slots[k].start == first
  }

  /**
    What a chunk offers once it is installed: exactly its IDs, without those of
    the system and, if the chunk was held before, without those in use.
   */
  lemma InstallOffers(pd: Pids, procs: seq<Proc>, first: int)
    requires ChunkStart(first) && Install(pd, procs, first).Some?
    ensures var r := Install(pd, procs, first).value;
      && PidsOk(r) && r.lastNewPid == first && IsHeld(r.slots, first)
      && forall pid :: pid in Offered(r) <==>
           first <= pid < first + 50 && pid > 7 && !(IsHeld(pd.slots, first) && IsUsed(procs, pid))
  {
    var r := Install(pd, procs, first).value;
    var found := FoundSlot(pd.slots, first, |pd.slots|);
    assert found.Some? <==> IsHeld(pd.slots, first);
    forall pid | first <= pid < first + 50 && pid > PID_MAXSYS && !(found.Some? && IsUsed(procs, pid))
      ensures pid in Offered(r)
    {
      assert r.avail[pid - first] == pid;
    }
  }

  /** The list is in increasing order, but for IDs struck out. */
  predicate Ascending(pd: Pids)
    requires PidsOk(pd)
  {
    forall i, j :: pd.cur <= i < j < pd.last && pd.avail[i] != 0 && pd.avail[j] != 0 ==> pd.avail[i] < pd.avail[j]
  }

  /** Taking an ID takes the least one on offer, and leaves all others. */
  lemma TakesTheLeast(pd: Pids)
    requires PidsOk(pd) && Ascending(pd) && Skipped(pd).cur < pd.last
    ensures var taken := Skipped(pd);
      var pid := taken.avail[taken.cur];
      && pid in Offered(pd) && (forall x :: x in Offered(pd) ==> pid <= x)
      && Offered(taken.(cur := taken.cur + 1)) == Offered(pd) - {pid}
  {
    var taken := Skipped(pd);
    var pid := taken.avail[taken.cur];
    forall x | x in Offered(pd) ensures pid <= x && (x == pid || x in Offered(taken.(cur := taken.cur + 1))) {
      var i :| pd.cur <= i < pd.last && pd.avail[i] != 0 && pd.avail[i] == x;
      assert i >= taken.cur;
    }
  }

  // ---------------------------------------------------------------- the code

  /** The allocator's global variables on one site, and the process IDs in its process table. */
  class SiteTables {
    var mypidchunks: array<Slot>
    var availpids: array<int>
    var currentavailpid: nat
    var lastavailpid: nat
    var lastnewpid: int
    var procs: seq<Proc>

    ghost function State(): Pids
      reads this, mypidchunks, availpids
    {
      Pids(mypidchunks[..], availpids[..], currentavailpid, lastavailpid, lastnewpid)
    }

    ghost predicate Valid()
      reads this, mypidchunks, availpids
    {
      PidsOk(State())
    }

    constructor (nproc: nat)
      ensures Valid() && fresh(mypidchunks) && fresh(availpids)
      ensures mypidchunks.Length == nproc && procs == []
      ensures forall k :: 0 <= k < nproc ==> !mypidchunks[k].Occupied()
      ensures currentavailpid == lastavailpid == 0 && lastnewpid == -1
    {
      mypidchunks := new Slot[nproc](i => Slot(0, 0));
      availpids := new int[PIDCHUNK](i => 0);
      currentavailpid, lastavailpid, lastnewpid := 0, 0, -1;
      procs := [];
    }

    /** One pass of getting a new PID, once no preallocation is due: the first ID left, if any. */
    method NextPid(busy: set<int>) returns (pid: Option<int>)
      requires Valid()
      modifies this`currentavailpid
      ensures Valid()
      ensures var pd := Skipped(old(State()));
        if pd.cur == pd.last then pid == None && State() == pd
        else State() == pd.(cur := pd.cur + 1)
             && pid == if pd.avail[pd.cur] in busy then None else Some(pd.avail[pd.cur])
    {
      while currentavailpid < lastavailpid && availpids[currentavailpid] == 0
        invariant Valid()
        invariant Skipped(State()) == Skipped(old(State()))
        decreases lastavailpid - currentavailpid
      {
        currentavailpid := currentavailpid + 1;
      }
      if currentavailpid >= lastavailpid {
        return None;
      }
      var newpid := availpids[currentavailpid];
      currentavailpid := currentavailpid + 1;
      return if newpid in busy then None else Some(newpid);
    }

    /** Is any process's ID in the slot's chunk? */
    method ScanProcs(slot: Slot) returns (found: bool)
      ensures found == InUse(procs, slot)
    {
      found := false;
      for i := 0 to |procs|
        invariant forall j :: 0 <= j < i ==> !slot.Contains(procs[j].pid)
      {
        if procs[i].pid >= slot.start && procs[i].pid < slot.end {
          return true;
        }
      }
    }

    /** The sweep, filling messages as a client does. */
    method ReleaseFreePidChunks() returns (sent: seq<seq<int>>, batch: seq<int>)
      requires Valid()
      modifies mypidchunks
      ensures Valid()
      ensures FullSweep(State(), sent, batch) == RunSweep(old(State()), procs, mypidchunks.Length, [])
    {
      sent, batch := [], [];
      var p := mypidchunks.Length;
      ghost var whole := RunSweep(State(), procs, p, []);
      while p > 0
        invariant Valid() && 0 <= p <= mypidchunks.Length
        invariant var r := RunSweep(State(), procs, p, batch); whole == r.(sent := sent + r.sent)
      {
        p := p - 1;
        var slot := mypidchunks[p];
        ghost var before := State();
        if slot.end == 0 || lastnewpid == slot.start {
          continue;
        }
        var found := ScanProcs(slot);
        if !found {
          ghost var s := SweepSlot(before, procs, p, batch);
          ghost var rest := RunSweep(s.pd, procs, p, s.batch).sent;
          assert (sent + [batch]) + rest == sent + ([batch] + rest);
          if |batch| >= MAX_CHUNKS_TO_RELEASE {
            sent := sent + [batch];
            batch := [];
          }
          batch := batch + [slot.start];
          mypidchunks[p] := slot.(end := 0);
          assert State() == s.pd && batch == s.batch;
        }
      }
    }

    /** Fill in the IDs of a chunk, without those in use if the chunk was held before. */
    method FillAvailable(first: int, size: nat, found: bool)
      requires availpids.Length == size == PIDCHUNK
      modifies availpids
      ensures availpids[..] == Available(procs, first, found)
    {
      for i := 0 to size
        modifies availpids
        invariant forall j :: 0 <= j < i ==> availpids[j] == first + j
      {
        availpids[i] := first + i;
      }
      if found {
        for i := 0 to |procs|
          modifies availpids
          invariant forall j :: 0 <= j < size ==>
            availpids[j] == if exists k :: 0 <= k < i && procs[k].pid == first + j then 0 else first + j
        {
          if procs[i].pid >= first && procs[i].pid < first + size {
            availpids[procs[i].pid - first] := 0;
          }
        }
      }
    }

    /** Make a granted chunk the current one; false stands for the panic. */
    method InstallChunk(first: int, size: nat) returns (ok: bool)
      requires Valid() && size == PIDCHUNK
      modifies this`lastnewpid, this`currentavailpid, this`lastavailpid, mypidchunks, availpids
      ensures match Install(old(State()), procs, first)
              case None => !ok
              case Some(pd) => ok && Valid() && State() == pd
    {
      ghost var slots := mypidchunks[..];
      lastnewpid := first;
      var found: int, avail: int := -1, -1;
      var p := mypidchunks.Length;
      while p > 0
        modifies {}
        invariant found == -1 && 0 <= p <= mypidchunks.Length
        invariant FoundSlot(slots, first, |slots|) == FoundSlot(slots, first, p)
        invariant avail == match EmptySlot(slots, p) case None => -1 case Some(k) => k
      {
        p := p - 1;
        if mypidchunks[p].end == 0 {
          avail := p;
        } else if mypidchunks[p].start == first {
          found := p;
          break;
        }
      }
      assert found == -1 <==> FoundSlot(slots, first, |slots|).None?;
      if found == -1 {
        if avail == -1 {
          return false;
        }
        mypidchunks[avail] := Slot(first, first + size);
      }
      assert mypidchunks[..] == if found == -1 then slots[avail := Slot(first, first + size)] else slots;
      FillAvailable(first, size, found != -1);
      currentavailpid := if first == 0 then PID_MAXSYS + 1 else 0;
      lastavailpid := size;
      return true;
    }
  }
}
