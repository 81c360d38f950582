/**
  The root server's table of process-ID chunks.

  Every chunk of PIDCHUNK consecutive process IDs is either free (entry 0) or
  checked out to one site.  The server scans the table circularly, starting
  from the chunk it allocated last.
 */
module PidTable {
  import opened Common

  const PIDCHUNK := 50
  const MAXPID := 30000
  const NUMPIDCHUNKS: nat := 600  // MAXPID is a multiple of PIDCHUNK, so this is their quotient

  type SiteId = nat
  const FREE: SiteId := 0

  function ChunkToPid(chunk: int): int { chunk * PIDCHUNK }

  function PidToChunk(pid: int): int { pid / PIDCHUNK }

  /** The table, and the index of the last chunk handed out (-1 before the first one). */
  datatype Server = Server(table: seq<SiteId>, last: int)

  ghost predicate ServerOk(sv: Server) {
    && |sv.table| == NUMPIDCHUNKS
    && -1 <= sv.last < NUMPIDCHUNKS
    && (sv.last == -1 ==> forall c :: 0 <= c < NUMPIDCHUNKS ==> sv.table[c] == FREE)
  }

  /** A request from a site: the last chunk it was given, or -1 if it has none yet. */
  predicate ValidLastPid(pid: int) {
    pid == -1 || (0 <= pid < MAXPID && pid % PIDCHUNK == 0)
  }

  // ---------------------------------------------------------------- the circular scan

  /** A position the scan can stand at: a chunk, or just before the table. */
  type Place = p: int | -1 <= p < NUMPIDCHUNKS

  /** The chunk `k` places after `from`, going round the table. */
  function Around(from: Place, k: nat): (c: nat)
    requires k <= NUMPIDCHUNKS
    ensures c < NUMPIDCHUNKS
  {
    var c := from + k;
    if c < 0 then c + NUMPIDCHUNKS else if c >= NUMPIDCHUNKS then c - NUMPIDCHUNKS else c
  }

  /** How many places after `from` the chunk `to` comes, going round the table. */
  function Distance(from: Place, to: Place): (d: nat)
    ensures d <= NUMPIDCHUNKS
  {
    if to >= from then to - from else to - from + NUMPIDCHUNKS
  }

  predicate Suits(owner: SiteId, site: SiteId, orFree: bool) {
    owner == site || (orFree && owner == FREE)
  }

  /** The first place from `k` up to `limit` that suits the site; `limit + 1` if there is none. */
  function Scan(table: seq<SiteId>, from: Place, k: nat, limit: nat, site: SiteId, orFree: bool): (r: nat)
    requires |table| == NUMPIDCHUNKS && k <= limit + 1 && limit <= NUMPIDCHUNKS
    ensures k <= r <= limit + 1
    ensures r <= limit ==> Suits(table[Around(from, r)], site, orFree)
    ensures forall j: nat :: k <= j < r ==> !Suits(table[Around(from, j)], site, orFree)
    decreases limit + 1 - k
  {
    if k == limit + 1 then k
    else if Suits(table[Around(from, k)], site, orFree) then k
    else Scan(table, from, k + 1, limit, site, orFree)
  }

  /** A chunk the site already holds, between its previous chunk and the last one allocated. */
  function OwnChunk(sv: Server, lastNewPid: int, site: SiteId): (r: Option<nat>)
    requires |sv.table| == NUMPIDCHUNKS && -1 <= sv.last < NUMPIDCHUNKS && ValidLastPid(lastNewPid)
    ensures r.Some? ==> r.value < NUMPIDCHUNKS && sv.table[r.value] == site
  {
    if lastNewPid < 0 then None
    else
      var c := PidToChunk(lastNewPid);
      var d := Distance(c, sv.last);
      var k := Scan(sv.table, c, 1, d, site, false);
      if k <= d then Some(Around(c, k)) else None
  }

  /** A free chunk, or one the site holds, anywhere but at the last one allocated. */
  function NextChunk(sv: Server, site: SiteId): (r: Option<nat>)
    requires |sv.table| == NUMPIDCHUNKS && -1 <= sv.last < NUMPIDCHUNKS
    ensures r.Some? ==> r.value < NUMPIDCHUNKS && Suits(sv.table[r.value], site, true)
  {
    var k := Scan(sv.table, sv.last, 1, NUMPIDCHUNKS - 1, site, true);
    if k < NUMPIDCHUNKS then Some(Around(sv.last, k)) else None
  }

  datatype Allocation = Allocation(sv: Server, chunk: Option<nat>)

  function GetChunk(sv: Server, lastNewPid: int, site: SiteId): Allocation
    requires |sv.table| == NUMPIDCHUNKS && -1 <= sv.last < NUMPIDCHUNKS && ValidLastPid(lastNewPid)
  {
    match OwnChunk(sv, lastNewPid, site)
    case Some(c) => Allocation(sv, Some(c))
    case None =>
      match NextChunk(sv, site)
      case Some(c) => Allocation(Server(sv.table[c := site], c), Some(c))
      case None => Allocation(sv, None)
  }

  function Return(sv: Server, pid: int): Server
    requires |sv.table| == NUMPIDCHUNKS && 0 <= pid < MAXPID
  {
    sv.(table := sv.table[PidToChunk(pid) := FREE])
  }

  predicate ChunkStart(pid: int) {
    0 <= pid < MAXPID && pid % PIDCHUNK == 0
  }

  predicate ChunkStarts(pids: seq<int>) {
    forall i :: 0 <= i < |pids| ==> ChunkStart(pids[i])
  }

  function ReturnAll(sv: Server, pids: seq<int>): (r: Server)
    requires |sv.table| == NUMPIDCHUNKS && ChunkStarts(pids)
    ensures |r.table| == NUMPIDCHUNKS && r.last == sv.last
    ensures forall c :: 0 <= c < NUMPIDCHUNKS ==>
      r.table[c] == if ChunkToPid(c) in pids then FREE else sv.table[c]
  {
    if pids == [] then sv
    else
      var r := Return(ReturnAll(sv, pids[..|pids| - 1]), pids[|pids| - 1]);
      assert pids == pids[..|pids| - 1] + [pids[|pids| - 1]];
      r
  }

  function Sweep(sv: Server, site: SiteId): (r: Server)
    requires |sv.table| == NUMPIDCHUNKS
    ensures |r.table| == NUMPIDCHUNKS && r.last == sv.last
    ensures forall c :: 0 <= c < NUMPIDCHUNKS ==>
      r.table[c] == if sv.table[c] == site then FREE else sv.table[c]
  {
    sv.(table := seq(NUMPIDCHUNKS, c requires 0 <= c < NUMPIDCHUNKS =>
      if sv.table[c] == site then FREE else sv.table[c]))
  }

  /** The chunks the table assigns to a site. */
  function Owned(sv: Server, site: SiteId): (r: set<int>)
    requires |sv.table| == NUMPIDCHUNKS
    ensures forall c :: c in r <==> 0 <= c < NUMPIDCHUNKS && sv.table[c] == site
  {
    set c | 0 <= c < NUMPIDCHUNKS && sv.table[c] == site
  }

  // ---------------------------------------------------------------- what the scan means

  lemma AroundDistance(from: Place, c: Place)
    requires 0 <= c
    ensures Around(from, Distance(from, c)) == c
    ensures forall k: nat :: 0 < k < NUMPIDCHUNKS ==> (Around(from, k) == c <==> k == Distance(from, c))
  {
  }

  /** The second scan reaches every chunk except the last one allocated. */
  lemma {:induction false} NextChunkExact(sv: Server, site: SiteId)
    requires ServerOk(sv)
    ensures NextChunk(sv, site).None? <==>
      forall c :: 0 <= c < NUMPIDCHUNKS && c != sv.last ==> !Suits(sv.table[c], site, true)
    ensures NextChunk(sv, site).Some? ==> NextChunk(sv, site).value != sv.last
    ensures NextChunk(sv, site).Some? ==> forall c ::
      0 <= c < NUMPIDCHUNKS && 0 < Distance(sv.last, c) < Distance(sv.last, NextChunk(sv, site).value) ==>
        !Suits(sv.table[c], site, true)
  {
    var k := Scan(sv.table, sv.last, 1, NUMPIDCHUNKS - 1, site, true);
    if k == NUMPIDCHUNKS {
      forall c | 0 <= c < NUMPIDCHUNKS && c != sv.last
        ensures !Suits(sv.table[c], site, true)
      {
        AroundDistance(sv.last, c);
        assert 1 <= Distance(sv.last, c) <= NUMPIDCHUNKS;
        assert Around(sv.last, 1) == 0 || sv.last != -1;
      }
    } else {
      assert Distance(sv.last, Around(sv.last, k)) == k;
      forall c | 0 <= c < NUMPIDCHUNKS && 0 < Distance(sv.last, c) < k ensures !Suits(sv.table[c], site, true) {
        AroundDistance(sv.last, c);
      }
    }
  }

  /** No chunk between `from` and `found`, going round, belongs to the site. */
  ghost predicate IsFirstOwn(sv: Server, from: Place, found: Place, site: SiteId)
    requires |sv.table| == NUMPIDCHUNKS && -1 <= sv.last < NUMPIDCHUNKS
  {
    && 0 < Distance(from, found) <= Distance(from, sv.last)
    && forall c :: 0 <= c < NUMPIDCHUNKS && 0 < Distance(from, c) < Distance(from, found) ==> sv.table[c] != site
  }

  /** The first scan reaches exactly the chunks after the site's previous one, up to the last one allocated. */
  lemma {:induction false} OwnChunkExact(sv: Server, lastNewPid: int, site: SiteId)
    requires ServerOk(sv) && ValidLastPid(lastNewPid)
    ensures OwnChunk(sv, lastNewPid, site).None? <==>
      lastNewPid == -1 ||
      forall c :: 0 <= c < NUMPIDCHUNKS
        && 0 < Distance(PidToChunk(lastNewPid), c) <= Distance(PidToChunk(lastNewPid), sv.last)
        ==> sv.table[c] != site
    ensures OwnChunk(sv, lastNewPid, site).Some? ==>
      IsFirstOwn(sv, PidToChunk(lastNewPid), OwnChunk(sv, lastNewPid, site).value, site)
  {
    if lastNewPid >= 0 {
      var from := PidToChunk(lastNewPid);
      var d := Distance(from, sv.last);
      var k := Scan(sv.table, from, 1, d, site, false);
      if k <= d {
        var c := Around(from, k);
        assert Distance(from, c) == k;
        forall b | 0 <= b < NUMPIDCHUNKS && 0 < Distance(from, b) < k ensures sv.table[b] != site {
          AroundDistance(from, b);
        }
      } else {
        forall c | 0 <= c < NUMPIDCHUNKS && 0 < Distance(from, c) <= d
          ensures sv.table[c] != site
        {
          AroundDistance(from, c);
          assert !Suits(sv.table[Around(from, Distance(from, c))], site, false);
        }
      }
    }
  }

  /**
    Exactly when a request is refused: every chunk but the last one allocated
    belongs to another site, and that last one is not a chunk of the
    requester's that its own first scan would have reached.
   */
  lemma RefusedExactly(sv: Server, lastNewPid: int, site: SiteId)
    requires ServerOk(sv) && ValidLastPid(lastNewPid) && site != FREE
    ensures GetChunk(sv, lastNewPid, site).chunk.None? <==>
      && (forall c :: 0 <= c < NUMPIDCHUNKS && c != sv.last ==> sv.table[c] != FREE && sv.table[c] != site)
      && (lastNewPid >= 0 && PidToChunk(lastNewPid) != sv.last && sv.last >= 0 ==> sv.table[sv.last] != site)
  {
    NextChunkExact(sv, site);
    OwnChunkExact(sv, lastNewPid, site);
    assert NextChunk(sv, site).None? ==>
      forall c :: 0 <= c < NUMPIDCHUNKS && c != sv.last ==> !Suits(sv.table[c], site, true);
    if lastNewPid >= 0 && sv.last >= 0 && PidToChunk(lastNewPid) != sv.last {
      assert 0 < Distance(PidToChunk(lastNewPid), sv.last);
    }
    if NextChunk(sv, site).None? && OwnChunk(sv, lastNewPid, site).Some? {
      var c := OwnChunk(sv, lastNewPid, site).value;
      assert Suits(sv.table[c], site, true);
      assert c == sv.last;
    }
  }

  /** What reaches the server: requests, and the news that a site failed. */
  datatype Deed = Request(lastNewPid: int, site: SiteId) | Failed(site: SiteId)

  /** The server when the first `k` chunks in a row went to site 1. */
  function Filled(k: nat): (sv: Server)
    requires k <= NUMPIDCHUNKS
    ensures |sv.table| == NUMPIDCHUNKS && sv.last == k - 1
    ensures forall c :: 0 <= c < NUMPIDCHUNKS ==> sv.table[c] == if c < k then 1 else FREE
  {
    Server(seq(NUMPIDCHUNKS, c => if c < k then 1 else FREE), k - 1)
  }

  predicate ValidDeeds(deeds: seq<Deed>) {
    forall i :: 0 <= i < |deeds| && deeds[i].Request? ==> ValidLastPid(deeds[i].lastNewPid)
  }

  function After(deeds: seq<Deed>): (sv: Server)
    requires ValidDeeds(deeds)
    ensures |sv.table| == NUMPIDCHUNKS && -1 <= sv.last < NUMPIDCHUNKS
  {
    if deeds == [] then Filled(0)
    else
      var sv := After(deeds[..|deeds| - 1]);
      match deeds[|deeds| - 1]
      case Request(lastNewPid, site) => GetChunk(sv, lastNewPid, site).sv
      case Failed(site) => Sweep(sv, site)
  }

  /** The request of site 1 that has been given `k` chunks. */
  function NextRequest(k: nat): (d: Deed)
    requires k < NUMPIDCHUNKS
    ensures d.Request? && ValidLastPid(d.lastNewPid)
  {
    Request(if k == 0 then -1 else ChunkToPid(k - 1), 1)
  }

  /** One site asks for chunk after chunk. */
  lemma {:induction false} FilledUp(k: nat) returns (deeds: seq<Deed>)
    requires k <= NUMPIDCHUNKS
    ensures |deeds| == k && ValidDeeds(deeds) && forall i :: 0 <= i < k ==> deeds[i] == NextRequest(i)
    ensures After(deeds) == Filled(k)
  {
    deeds := [];
    if k > 0 {
      var before := FilledUp(k - 1);
      deeds := before + [NextRequest(k - 1)];
      assert deeds[..|deeds| - 1] == before && deeds[|deeds| - 1].Request?;
      assert Around(k - 2, 1) == k - 1;
      assert Filled(k - 1).table[k - 1 := 1] == Filled(k).table;
    }
  }

  /**
    The last chunk goes to a site that then fails, so that chunk alone is free:
    nevertheless a newcomer is refused.
   */
  lemma RefusedAlthoughOneIsFree() returns (deeds: seq<Deed>)
    ensures ValidDeeds(deeds)
    ensures ServerOk(After(deeds)) && After(deeds).table[NUMPIDCHUNKS - 1] == FREE
    ensures GetChunk(After(deeds), -1, 3).chunk == None
  {
    var filled := FilledUp(NUMPIDCHUNKS - 1);
    var full := filled + [Request(-1, 2)];
    assert full[..|full| - 1] == filled;
    assert Around(After(filled).last, 1) == NUMPIDCHUNKS - 1;
    assert After(full).last == NUMPIDCHUNKS - 1 && After(full).table[NUMPIDCHUNKS - 1] == 2;
    deeds := full + [Failed(2)];
    assert deeds[..|deeds| - 1] == full;
    RefusedExactly(After(deeds), -1, 3);
  }

  /** A chunk of the site's own after its previous one, going round, and up to the last one allocated. */
  predicate OwnInReach(sv: Server, lastNewPid: int, site: SiteId, c: Place)
    requires |sv.table| == NUMPIDCHUNKS && -1 <= sv.last < NUMPIDCHUNKS && ValidLastPid(lastNewPid)
  {
    && 0 <= lastNewPid && 0 <= c && sv.table[c] == site
    && 0 < Distance(PidToChunk(lastNewPid), c) <= Distance(PidToChunk(lastNewPid), sv.last)
  }

  /**
    Which chunk a request is given.  If the site still holds one within reach,
    which requests of others had to pass over, then the nearest such chunk; the
    table and the last chunk allocated stay as they are.
   */
  lemma OwnChunkIsGranted(sv: Server, lastNewPid: int, site: SiteId, c: Place)
    requires ServerOk(sv) && ValidLastPid(lastNewPid) && site != FREE && OwnInReach(sv, lastNewPid, site, c)
    ensures GetChunk(sv, lastNewPid, site).sv == sv && GetChunk(sv, lastNewPid, site).chunk.Some?
    ensures var found := GetChunk(sv, lastNewPid, site).chunk.value;
      && found < NUMPIDCHUNKS && OwnInReach(sv, lastNewPid, site, found)
      && Distance(PidToChunk(lastNewPid), found) <= Distance(PidToChunk(lastNewPid), c)
  {
    OwnChunkExact(sv, lastNewPid, site);
  }

  /**
    Otherwise the nearest chunk after the last one allocated that is free or the
    site's own; it becomes the last one allocated and the site's, and no other
    entry changes.
   */
  lemma NextChunkIsGranted(sv: Server, lastNewPid: int, site: SiteId)
    requires ServerOk(sv) && ValidLastPid(lastNewPid) && site != FREE
    requires forall c: Place :: !OwnInReach(sv, lastNewPid, site, c)
    ensures var a := GetChunk(sv, lastNewPid, site);
      match a.chunk
      case None => a.sv == sv && forall c :: 0 <= c < NUMPIDCHUNKS && c != sv.last ==> sv.table[c] !in {FREE, site}
      case Some(found) =>
        && found < NUMPIDCHUNKS && found != sv.last && sv.table[found] in {FREE, site}
        && a.sv == Server(sv.table[found := site], found)
        && forall c :: 0 <= c < NUMPIDCHUNKS && 0 < Distance(sv.last, c) < Distance(sv.last, found) ==>
             sv.table[c] !in {FREE, site}
  {
    NextChunkExact(sv, site);
    OwnChunkExact(sv, lastNewPid, site);
    if OwnChunk(sv, lastNewPid, site).Some? {
      var c: Place := OwnChunk(sv, lastNewPid, site).value;
      assert OwnInReach(sv, lastNewPid, site, c);
    }
    assert forall c :: 0 <= c < NUMPIDCHUNKS ==> (Suits(sv.table[c], site, true) <==> sv.table[c] in {FREE, site});
  }

  /** A grant gives the requester a chunk it then owns; no entry of another site changes. */
  lemma GrantKeepsOthers(sv: Server, lastNewPid: int, site: SiteId)
    requires ServerOk(sv) && ValidLastPid(lastNewPid) && site != FREE
    ensures var a := GetChunk(sv, lastNewPid, site);
      && ServerOk(a.sv)
      && (a.chunk.None? ==> a.sv == sv)
      && (a.chunk.Some? ==>
            && 0 <= a.chunk.value < NUMPIDCHUNKS
            && sv.table[a.chunk.value] in {FREE, site}
            && Owned(a.sv, site) == Owned(sv, site) + {a.chunk.value}
            && (forall t :: t != site && t != FREE ==> Owned(a.sv, t) == Owned(sv, t)))
  {
    var a := GetChunk(sv, lastNewPid, site);
    if a.chunk.Some? {
      forall t | t != site && t != FREE
        ensures Owned(a.sv, t) == Owned(sv, t)
      {
      }
    }
  }

  /** Two different sites never own the same chunk. */
  lemma OwnedDisjoint(sv: Server, s: SiteId, t: SiteId)
    requires |sv.table| == NUMPIDCHUNKS && s != t
    ensures Owned(sv, s) !! Owned(sv, t)
  {
  }

  // ---------------------------------------------------------------- the code

  class PidServer {
    var pidtable: array<SiteId>
    var lastpidchunkallocated: int

    ghost function State(): Server
      reads this, pidtable
    {
      Server(pidtable[..], lastpidchunkallocated)
    }

    ghost predicate Valid()
      reads this, pidtable
    {
      pidtable.Length == NUMPIDCHUNKS && ServerOk(State())
    }

    /** Allocate the table: every chunk free, nothing allocated yet. */
    constructor ()
      ensures Valid() && fresh(pidtable)
      ensures lastpidchunkallocated == -1
    {
      pidtable := new SiteId[NUMPIDCHUNKS](i => FREE);
      lastpidchunkallocated := -1;
    }

    /** First scan: a chunk the site already holds, after its previous one. */
    method SearchOwn(lastNewPid: int, site: SiteId) returns (found: bool, chunk: int)
      requires Valid() && 0 <= lastNewPid < MAXPID && ValidLastPid(lastNewPid)
      ensures match OwnChunk(State(), lastNewPid, site)
              case None => !found
              case Some(c) => found && chunk == c
    {
      var start := PidToChunk(lastNewPid);
      ghost var d := Distance(start, lastpidchunkallocated);
      ghost var k: nat := 0;
      found, chunk := false, start;
      while true
        invariant !found && k <= d
        invariant 0 <= chunk ==> chunk == Around(start, k)
        invariant chunk < 0 ==> chunk == -1 && Around(start, k) == NUMPIDCHUNKS - 1 != lastpidchunkallocated
        invariant forall j: nat :: 1 <= j <= k ==> pidtable[Around(start, j)] != site
        decreases d - k, if chunk == -1 then 0 else 1
      {
        var before := chunk;
        chunk := chunk + 1;
        if before == lastpidchunkallocated {
          break;
        }
        if chunk >= NUMPIDCHUNKS {
          chunk := -1;
          continue;
        }
        assert k < d;
        k := k + 1;
        assert chunk == Around(start, k);
        if pidtable[chunk] == site {
          found := true;
          return;
        }
      }
    }

    /** Second scan: a free chunk, or one the site holds, starting after the last one allocated. */
    method SearchNext(site: SiteId) returns (found: bool, chunk: int)
      requires Valid()
      ensures match NextChunk(State(), site)
              case None => !found
              case Some(c) => found && chunk == c
    {
      ghost var last := lastpidchunkallocated;
      ghost var k: nat := 0;
      found, chunk := false, lastpidchunkallocated + 1;
      while chunk != lastpidchunkallocated
        invariant !found && k < NUMPIDCHUNKS && 0 <= chunk <= NUMPIDCHUNKS
        invariant (if chunk == NUMPIDCHUNKS then 0 else chunk) == Around(last, k + 1)
        invariant last == -1 ==> k == 0 && chunk == 0
        invariant forall j: nat :: 1 <= j <= k ==> !Suits(pidtable[Around(last, j)], site, true)
        decreases NUMPIDCHUNKS - k, chunk
      {
        if chunk >= NUMPIDCHUNKS {
          chunk := -1;
          chunk := chunk + 1;
          continue;
        }
        if pidtable[chunk] == FREE || pidtable[chunk] == site {
          found := true;
          return;
        }
        k := k + 1;
        chunk := chunk + 1;
      }
    }

    method GetPidChunk(lastNewPid: int, site: SiteId) returns (err: int, first: int, size: int)
      requires Valid() && ValidLastPid(lastNewPid) && site != FREE
      modifies this`lastpidchunkallocated, pidtable
      ensures Valid()
      ensures State() == GetChunk(old(State()), lastNewPid, site).sv
      ensures match GetChunk(old(State()), lastNewPid, site).chunk
              case None => err == 1
              case Some(c) => err == 0 && first == ChunkToPid(c) && size == PIDCHUNK
    {
      var found, chunk;
      if lastNewPid >= 0 {
        found, chunk := SearchOwn(lastNewPid, site);
        if found {
          return 0, ChunkToPid(chunk), PIDCHUNK;
        }
      }
      found, chunk := SearchNext(site);
      if found {
        lastpidchunkallocated := chunk;
        pidtable[chunk] := site;
        return 0, ChunkToPid(chunk), PIDCHUNK;
      }
      return 1, 0, 0;
    }

    method ReturnPidChunk(pid: int)
      requires Valid() && 0 <= pid < MAXPID
      modifies pidtable
      ensures Valid()
      ensures State() == Return(old(State()), pid)
    {
      pidtable[PidToChunk(pid)] := FREE;
    }

    /** Serve a request: take back the released chunks, then, unless it only releases, grant one. */
    method ServeGetPids(releases: seq<int>, releaseOnly: bool, lastNewPid: int, site: SiteId)
      returns (granted: bool, first: int, size: int)
      requires Valid() && ChunkStarts(releases) && ValidLastPid(lastNewPid) && site != FREE
      modifies this`lastpidchunkallocated, pidtable
      ensures Valid()
      ensures releaseOnly ==> !granted && State() == ReturnAll(old(State()), releases)
      ensures !releaseOnly ==>
        var a := GetChunk(ReturnAll(old(State()), releases), lastNewPid, site);
        State() == a.sv && granted == a.chunk.Some? &&
        (granted ==> first == ChunkToPid(a.chunk.value) && size == PIDCHUNK)
    {
      granted, first, size := false, 0, 0;
      for i := 0 to |releases|
        invariant Valid()
        invariant State() == ReturnAll(old(State()), releases[..i])
      {
        assert releases[..i + 1][..i] == releases[..i];
        ReturnPidChunk(releases[i]);
      }
      assert releases[..|releases|] == releases;
      if releaseOnly {
        return;
      }
      var err;
      err, first, size := GetPidChunk(lastNewPid, site);
      granted := err == 0;
    }

    /** Give back everything a failed site held. */
    method PidCleanup(site: SiteId)
      requires Valid() && site != FREE
      modifies pidtable
      ensures Valid()
      ensures State() == Sweep(old(State()), site)
    {
      for p := 0 to NUMPIDCHUNKS
        invariant pidtable.Length == NUMPIDCHUNKS
        invariant lastpidchunkallocated == old(lastpidchunkallocated)
        invariant forall c :: 0 <= c < p ==>
          pidtable[c] == if old(pidtable[c]) == site then FREE else old(pidtable[c])
        invariant forall c :: p <= c < NUMPIDCHUNKS ==> pidtable[c] == old(pidtable[c])
      {
        if pidtable[p] == site {
          pidtable[p] := FREE;
        }
      }
      assert pidtable[..] == Sweep(old(State()), site).table;
    }
  }
}
