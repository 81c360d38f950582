/**
 * A diskless FIFO as the processes that share it see it: what one pass of a
 * read or write call does while it holds the inode lock, and what every
 * interleaving of such passes keeps.
 *
 * A call drops the inode lock only to sleep, so a call is a series of passes;
 * the passes of different calls interleave freely.
 */
module FifoStream {
  import opened Common

  // The size of the ring: a FIFO never holds more unread bytes than this.
  const PIPSIZ := 8192

  // The fields of the inode. queue is the unread bytes, oldest first; ifir and
  // ifiw say that a reader or a writer announced that it goes to sleep.
  datatype Pipe = Pipe(queue: seq<byte>, frcnt: nat, fwcnt: nat, ifir: bool, ifiw: bool)

  // FNDELAY and FNBLOCK of the open file.
  datatype Flags = Flags(ndelay: bool, nblock: bool) {
    predicate Nonblocking() { ndelay || nblock }
  }

  // How a pass ends: the call returns, returns EAGAIN or EPIPE, or sleeps.
  datatype Outcome = Done | Again | Broken | Sleep

  datatype ReadPass = ReadPass(pipe: Pipe, data: seq<byte>, outcome: Outcome)
  datatype WritePass = WritePass(pipe: Pipe, sent: nat, outcome: Outcome)

  function Read(p: Pipe, want: nat, fl: Flags): ReadPass {
    if want == 0 then ReadPass(p, [], Done)
    else if p.queue == [] then
      if p.fwcnt == 0 then ReadPass(p, [], Done)
      else if fl.nblock then ReadPass(p, [], Again)
      else if fl.ndelay then ReadPass(p, [], Done)
      else ReadPass(p.(ifir := true), [], Sleep)
    else
      var n := Least(want, |p.queue|);
      ReadPass(p.(queue := p.queue[n..], ifiw := false), p.queue[..n], Done)
  }

  predicate NoRoom(p: Pipe, size: nat) {
    |p.queue| >= PIPSIZ || (size <= PIPSIZ && size + |p.queue| > PIPSIZ)
  }

  // first: the first pass of the call, the only one that looks at the flags.
  function Write(p: Pipe, data: seq<byte>, fl: Flags, first: bool): WritePass {
    if data == [] then WritePass(p, 0, Done)
    else if first && fl.ndelay && NoRoom(p, |data|) then WritePass(p, 0, Done)
    else if first && fl.nblock && NoRoom(p, |data|) then WritePass(p, 0, Again)
    else if p.frcnt == 0 then WritePass(p, 0, Broken)
    else if |data| + |p.queue| <= PIPSIZ then
      WritePass(p.(queue := p.queue + data, ifir := false), |data|, Done)
    else if |data| > PIPSIZ && |p.queue| < PIPSIZ then
      var n := PIPSIZ - |p.queue|;
      var q := p.(queue := p.queue + data[..n], ifir := false);
      if fl.Nonblocking() then WritePass(q, n, Done)
      else WritePass(q.(ifiw := true), n, Sleep)
    else WritePass(p.(ifiw := true), 0, Sleep)
  }

  // ------------------------------------------------------------ the processes

  datatype Proc =
    | Idle
    | Reader(want: nat, fl: Flags, asleep: bool)
    | Writer(call: nat, fl: Flags, first: bool, asleep: bool)

  // A write call: its bytes and how many of them are in the FIFO or were.
  datatype Call = Call(data: seq<byte>, sent: nat)

  // Bytes that one pass of a call added.
  datatype Piece = Piece(call: nat, data: seq<byte>)

  // calls, log and read are the history: every write call made so far, the
  // pieces in the order they went in, and the bytes in the order they came out.
  datatype System = System(pipe: Pipe, procs: seq<Proc>, calls: seq<Call>, log: seq<Piece>, read: seq<byte>)

  datatype Event =
    | StartRead(who: nat, want: nat, fl: Flags)
    | StartWrite(who: nat, data: seq<byte>, fl: Flags)
    | Run(who: nat)
    | OpenToRead
    | OpenToWrite
    | CloseToRead
    | CloseToWrite

  function WakeReader(p: Proc): Proc { if p.Reader? then Reader(p.want, p.fl, false) else p }
  function WakeWriter(p: Proc): Proc { if p.Writer? then Writer(p.call, p.fl, p.first, false) else p }
  function WakeReaders(ps: seq<Proc>): seq<Proc> { seq(|ps|, k requires 0 <= k < |ps| => WakeReader(ps[k])) }
  function WakeWriters(ps: seq<Proc>): seq<Proc> { seq(|ps|, k requires 0 <= k < |ps| => WakeWriter(ps[k])) }

  function Logged(log: seq<Piece>, c: nat, d: seq<byte>): seq<Piece> {
    if d == [] then log else log + [Piece(c, d)]
  }

  function RunReader(s: System, i: nat): System
    requires i < |s.procs| && s.procs[i].Reader?
  {
    var r := Read(s.pipe, s.procs[i].want, s.procs[i].fl);
    var ps := if r.data != [] && s.pipe.ifiw then WakeWriters(s.procs) else s.procs;
    var me := if r.outcome == Sleep then Reader(s.procs[i].want, s.procs[i].fl, true) else Idle;
    s.(pipe := r.pipe, procs := ps[i := me], read := s.read + r.data)
  }

  function RunWriter(s: System, i: nat): System
    requires i < |s.procs| && s.procs[i].Writer? && s.procs[i].call < |s.calls|
    requires s.calls[s.procs[i].call].sent <= |s.calls[s.procs[i].call].data|
  {
    var c := s.procs[i].call;
    var rest := s.calls[c].data[s.calls[c].sent..];
    var w := Write(s.pipe, rest, s.procs[i].fl, s.procs[i].first);
    var ps := if w.sent > 0 && s.pipe.ifir then WakeReaders(s.procs) else s.procs;
    var me := if w.outcome == Sleep then Writer(c, s.procs[i].fl, false, true) else Idle;
    assert w.sent <= |rest|;
    s.(pipe := w.pipe, procs := ps[i := me],
       calls := s.calls[c := s.calls[c].(sent := s.calls[c].sent + w.sent)],
       log := Logged(s.log, c, rest[..w.sent]))
  }

  // Idle processes make calls; a process that is not asleep may get the lock;
  // the FIFO is opened and closed. The last close of all, which throws away
  // what was not read, ends the run.
  predicate CanStep(s: System, e: Event) {
    match e
    case StartRead(i, _, _) => i < |s.procs| && s.procs[i].Idle?
    case StartWrite(i, _, _) => i < |s.procs| && s.procs[i].Idle?
    case Run(i) => i < |s.procs| && !s.procs[i].Idle? && !s.procs[i].asleep
    case OpenToRead => true
    case OpenToWrite => true
    case CloseToRead => s.pipe.frcnt > 0 && s.pipe.frcnt + s.pipe.fwcnt > 1
    case CloseToWrite => s.pipe.fwcnt > 0 && s.pipe.frcnt + s.pipe.fwcnt > 1
  }

  function Step(s: System, e: Event): System
    requires CanStep(s, e) && CallsOk(s)
  {
    match e
    case StartRead(i, want, fl) => s.(procs := s.procs[i := Reader(want, fl, false)])
    case StartWrite(i, data, fl) =>
      s.(procs := s.procs[i := Writer(|s.calls|, fl, true, false)], calls := s.calls + [Call(data, 0)])
    case Run(i) => if s.procs[i].Reader? then RunReader(s, i) else RunWriter(s, i)
    case OpenToRead =>
      s.(pipe := s.pipe.(frcnt := s.pipe.frcnt + 1),
         procs := if s.pipe.frcnt == 0 then WakeReaders(s.procs) else s.procs)
    case OpenToWrite =>
      s.(pipe := s.pipe.(fwcnt := s.pipe.fwcnt + 1),
         procs := if s.pipe.fwcnt == 0 then WakeWriters(s.procs) else s.procs)
    case CloseToRead =>
      if s.pipe.frcnt == 1 && s.pipe.ifiw then
        s.(pipe := s.pipe.(frcnt := 0, ifiw := false), procs := WakeWriters(s.procs))
      else s.(pipe := s.pipe.(frcnt := s.pipe.frcnt - 1))
    case CloseToWrite =>
      if s.pipe.fwcnt == 1 && s.pipe.ifir then
        s.(pipe := s.pipe.(fwcnt := 0, ifir := false), procs := WakeReaders(s.procs))
      else s.(pipe := s.pipe.(fwcnt := s.pipe.fwcnt - 1))
  }

  // --------------------------------------------------------------- the stream

  // All bytes that ever went in, in order.
  function Stream(log: seq<Piece>): seq<byte> {
    if log == [] then [] else Stream(log[..|log| - 1]) + log[|log| - 1].data
  }

  // The bytes that came from one call.
  function From(log: seq<Piece>, c: nat): seq<byte> {
    if log == [] then []
    else From(log[..|log| - 1], c) + if log[|log| - 1].call == c then log[|log| - 1].data else []
  }

  predicate CallsOk(s: System) {
    && (forall c: nat :: c < |s.calls| ==> s.calls[c].sent <= |s.calls[c].data|)
    && (forall i: nat :: i < |s.procs| && s.procs[i].Writer? ==> s.procs[i].call < |s.calls|)
  }

  // No two processes work on one call.
  predicate CallsApart(s: System) {
    forall i: nat, j: nat :: i < j < |s.procs| && s.procs[i].Writer? && s.procs[j].Writer? ==>
      s.procs[i].call != s.procs[j].call
  }

  predicate PiecesOk(s: System) {
    && (forall k: nat :: k < |s.log| ==> s.log[k].call < |s.calls|)
    && (forall c: nat :: c < |s.calls| && s.calls[c].sent <= |s.calls[c].data| ==>
          From(s.log, c) == s.calls[c].data[..s.calls[c].sent])
  }

  // A call of at most PIPSIZ bytes went in as a whole or not at all.
  predicate ShortCallsWhole(s: System) {
    && (forall c: nat :: c < |s.calls| && |s.calls[c].data| <= PIPSIZ ==>
          s.calls[c].sent == 0 || s.calls[c].sent == |s.calls[c].data|)
    && (forall k: nat :: k < |s.log| && s.log[k].call < |s.calls| && |s.calls[s.log[k].call].data| <= PIPSIZ ==>
          s.log[k].data == s.calls[s.log[k].call].data)
  }

  predicate RingOk(s: System) {
    && |s.pipe.queue| <= PIPSIZ
    && Stream(s.log) == s.read + s.pipe.queue
  }

  // A reader sleeps only on an empty FIFO that someone may write, a writer only
  // while its rest does not fit and someone may read, and both are announced; a
  // nonblocking call never sleeps.
  predicate MustWait(p: Pipe, rest: nat) {
    rest + |p.queue| > PIPSIZ && (rest > PIPSIZ ==> |p.queue| >= PIPSIZ)
  }

  predicate SleeperOk(s: System, p: Proc) {
    match p
    case Idle => true
    case Reader(want, fl, asleep) => asleep ==>
      want > 0 && s.pipe.ifir && s.pipe.queue == [] && s.pipe.fwcnt > 0 && !fl.Nonblocking()
    case Writer(c, fl, first, asleep) =>
      && (c < |s.calls| && s.calls[c].sent <= |s.calls[c].data| && asleep ==>
            s.pipe.ifiw && s.pipe.frcnt > 0 && MustWait(s.pipe, |s.calls[c].data| - s.calls[c].sent))
      && (fl.Nonblocking() ==> first && !asleep)
  }

  predicate SleepersOk(s: System) {
    forall i: nat :: i < |s.procs| ==> SleeperOk(s, s.procs[i])
  }

  predicate SystemOk(s: System) {
    CallsOk(s) && CallsApart(s) && PiecesOk(s) && ShortCallsWhole(s) && RingOk(s) && SleepersOk(s)
  }

  predicate Init(s: System) {
    && s.pipe.queue == [] && !s.pipe.ifir && !s.pipe.ifiw
    && s.calls == [] && s.log == [] && s.read == []
    && forall i: nat :: i < |s.procs| ==> s.procs[i] == Idle
  }

  ghost predicate Next(s: System, s2: System) {
    CallsOk(s) && exists e :: CanStep(s, e) && s2 == Step(s, e)
  }

  ghost predicate Behaviour(run: seq<System>) {
    |run| > 0 && Init(run[0]) && forall k: nat :: k + 1 < |run| ==> Next(run[k], run[k + 1])
  }

  // ------------------------------------------------------- what a pass keeps

  // What a write pass may promise its caller, whatever the FIFO held.
  lemma WriteFacts(p: Pipe, data: seq<byte>, fl: Flags, first: bool)
    requires |p.queue| <= PIPSIZ
    ensures var w := Write(p, data, fl, first);
            && w.sent <= |data|
            && w.pipe.queue == p.queue + data[..w.sent] && |w.pipe.queue| <= PIPSIZ
            && (|data| <= PIPSIZ ==> w.sent == 0 || w.sent == |data|)
            && (w.outcome == Sleep ==> w.pipe.ifiw && p.frcnt > 0 && MustWait(w.pipe, |data| - w.sent))
            && w.pipe.frcnt == p.frcnt && w.pipe.fwcnt == p.fwcnt
            && (w.sent > 0 ==> w.pipe.queue != [] && !w.pipe.ifir)
            && (w.sent == 0 ==> w.pipe.queue == p.queue && w.pipe.ifir == p.ifir)
            && (p.ifiw ==> w.pipe.ifiw)
            && (first && fl.Nonblocking() ==> w.outcome != Sleep)
            && (w.sent < |data| && w.outcome == Done ==> fl.Nonblocking())
  {
    assert data[..|data|] == data;
    assert p.queue + [] == p.queue;
  }

  // What a read pass answers. Of what there is it takes as much as it wants, and
  // it ends well; an empty FIFO that no one may write is at its end; on an empty
  // one that someone may write FNBLOCK, FNDELAY and neither are told apart.
  lemma ReadFacts(p: Pipe, want: nat, fl: Flags)
    ensures var r := Read(p, want, fl);
      && r.data + r.pipe.queue == p.queue && |r.data| == Least(want, |p.queue|)
      && r.pipe.frcnt == p.frcnt && r.pipe.fwcnt == p.fwcnt
      && (want == 0 || p.queue != [] || p.fwcnt == 0 ==> r.outcome == Done)
      && (want > 0 && p.queue == [] && p.fwcnt > 0 ==>
            && (r.outcome == Again <==> fl.nblock)
            && (r.outcome == Done <==> fl.ndelay && !fl.nblock)
            && (r.outcome == Sleep <==> !fl.ndelay && !fl.nblock))
      && r.pipe.ifir == (p.ifir || r.outcome == Sleep)
      && r.pipe.ifiw == (p.ifiw && r.data == [])
  { }

  // When a write pass is turned away: at the start of a call for which there is
  // no room, if it must not wait; and where no one is left to read.
  predicate TurnedAway(p: Pipe, size: nat, fl: Flags, first: bool) {
    first && fl.Nonblocking() && NoRoom(p, size)
  }

  // What a write pass answers, and how much it puts in: all that is left if that
  // fits, of a longer write as much as fits, and else nothing.
  lemma WriteOutcome(p: Pipe, data: seq<byte>, fl: Flags, first: bool)
    requires data != [] && |p.queue| <= PIPSIZ
    ensures var w := Write(p, data, fl, first);
      var away := TurnedAway(p, |data|, fl, first);
      var fits := if |data| + |p.queue| <= 8192 then |data| else if |data| > 8192 then 8192 - |p.queue| else 0;
      && (w.outcome == Again <==> away && !fl.ndelay)
      && (w.outcome == Broken <==> !away && p.frcnt == 0)
      && w.sent == (if away || p.frcnt == 0 then 0 else fits)
      && (w.outcome == Done <==>
            (away && fl.ndelay) || (!away && p.frcnt > 0 && (fits == |data| || (fits > 0 && fl.Nonblocking()))))
      && (w.outcome == Sleep <==> !away && p.frcnt > 0 && fits < |data| && !(fits > 0 && fl.Nonblocking()))
      && w.pipe.ifiw == (p.ifiw || w.outcome == Sleep)
      && w.pipe.ifir == (p.ifir && w.sent == 0)
  { }

  lemma StreamOfLogged(log: seq<Piece>, c: nat, d: seq<byte>)
    ensures Stream(Logged(log, c, d)) == Stream(log) + d
    ensures From(Logged(log, c, d), c) == From(log, c) + d
    ensures forall e: nat :: e != c ==> From(Logged(log, c, d), e) == From(log, e)
  {
    var l2 := Logged(log, c, d);
    if d != [] { assert l2[..|l2| - 1] == log; }
  }

  lemma Regroup(a: seq<byte>, b: seq<byte>, c: seq<byte>)
    ensures (a + b) + c == a + (b + c)
  { }

  lemma ReadTakesTheFront(p: Pipe, want: nat, fl: Flags)
    ensures var r := Read(p, want, fl); p.queue == r.data + r.pipe.queue
  { }

  lemma RunReaderKeepsRing(s: System, i: nat)
    requires RingOk(s) && CanStep(s, Run(i)) && s.procs[i].Reader?
    ensures RingOk(RunReader(s, i))
  {
    var r := Read(s.pipe, s.procs[i].want, s.procs[i].fl);
    ReadTakesTheFront(s.pipe, s.procs[i].want, s.procs[i].fl);
    Regroup(s.read, r.data, r.pipe.queue);
  }

  lemma RunReaderKeepsCalls(s: System, i: nat)
    requires CallsOk(s) && CallsApart(s) && CanStep(s, Run(i)) && s.procs[i].Reader?
    ensures CallsOk(RunReader(s, i)) && CallsApart(RunReader(s, i))
    ensures RunReader(s, i).calls == s.calls && RunReader(s, i).log == s.log
  {
    var s2 := RunReader(s, i);
    forall j: nat | j < |s2.procs| && s2.procs[j].Writer?
      ensures s.procs[j].Writer? && s2.procs[j].call == s.procs[j].call
    { }
  }

  lemma RunReaderKeepsSleepers(s: System, i: nat)
    requires SystemOk(s) && CanStep(s, Run(i)) && s.procs[i].Reader?
    ensures SleepersOk(RunReader(s, i))
  {
    var s2 := RunReader(s, i);
    forall j: nat | j < |s2.procs| ensures SleeperOk(s2, s2.procs[j]) {
      assert SleeperOk(s, s.procs[j]);
    }
  }

  lemma RunWriterKeepsCalls(s: System, i: nat)
    requires SystemOk(s) && CanStep(s, Run(i)) && s.procs[i].Writer?
    ensures CallsOk(RunWriter(s, i)) && CallsApart(RunWriter(s, i))
  {
    var c := s.procs[i].call;
    WriteFacts(s.pipe, s.calls[c].data[s.calls[c].sent..], s.procs[i].fl, s.procs[i].first);
    var s2 := RunWriter(s, i);
    forall j: nat | j < |s2.procs| && s2.procs[j].Writer?
      ensures s2.procs[j].call < |s2.calls| && s.procs[j].Writer? && s2.procs[j].call == s.procs[j].call
    { }
  }

  lemma RunWriterKeepsPieces(s: System, i: nat)
    requires CallsOk(s) && PiecesOk(s) && |s.pipe.queue| <= PIPSIZ && CanStep(s, Run(i)) && s.procs[i].Writer?
    ensures PiecesOk(RunWriter(s, i))
  {
    var c := s.procs[i].call;
    var was := s.calls[c];
    var rest := was.data[was.sent..];
    var w := Write(s.pipe, rest, s.procs[i].fl, s.procs[i].first);
    WriteFacts(s.pipe, rest, s.procs[i].fl, s.procs[i].first);
    var s2 := RunWriter(s, i);
    StreamOfLogged(s.log, c, rest[..w.sent]);
    assert was.data[..was.sent] + rest[..w.sent] == was.data[..was.sent + w.sent];
    forall e: nat | e < |s2.calls| ensures From(s2.log, e) == s2.calls[e].data[..s2.calls[e].sent] {
      if e != c { assert From(s.log, e) == s.calls[e].data[..s.calls[e].sent]; }
    }
  }

  lemma RunWriterKeepsRing(s: System, i: nat)
    requires CallsOk(s) && RingOk(s) && CanStep(s, Run(i)) && s.procs[i].Writer?
    ensures RingOk(RunWriter(s, i))
  {
    var c := s.procs[i].call;
    var rest := s.calls[c].data[s.calls[c].sent..];
    WriteFacts(s.pipe, rest, s.procs[i].fl, s.procs[i].first);
    var d := rest[..Write(s.pipe, rest, s.procs[i].fl, s.procs[i].first).sent];
    StreamOfLogged(s.log, c, d);
    Regroup(s.read, s.pipe.queue, d);
  }

  lemma RunWriterKeepsShortWhole(s: System, i: nat)
    requires CallsOk(s) && PiecesOk(s) && ShortCallsWhole(s) && |s.pipe.queue| <= PIPSIZ
    requires CanStep(s, Run(i)) && s.procs[i].Writer?
    ensures ShortCallsWhole(RunWriter(s, i))
  {
    var c := s.procs[i].call;
    var was := s.calls[c];
    var rest := was.data[was.sent..];
    WriteFacts(s.pipe, rest, s.procs[i].fl, s.procs[i].first);
    var s2 := RunWriter(s, i);
    assert forall e: nat :: e < |s.calls| ==> s2.calls[e].data == s.calls[e].data;
    forall k: nat | k < |s2.log| && |s2.calls[s2.log[k].call].data| <= PIPSIZ
      ensures s2.log[k].data == s2.calls[s2.log[k].call].data
    {
      if k < |s.log| {
        assert s2.log[k] == s.log[k];
      } else {
        WholePiece(was.data, was.sent, Write(s.pipe, rest, s.procs[i].fl, s.procs[i].first).sent);
      }
    }
  }

  lemma WholePiece(data: seq<byte>, sent: nat, n: nat)
    requires (sent == 0 || sent == |data|) && sent + n == |data| && n > 0
    ensures sent == 0 && data[sent..][..n] == data
  { }

  lemma RunWriterKeepsSleepers(s: System, i: nat)
    requires SystemOk(s) && CanStep(s, Run(i)) && s.procs[i].Writer?
    ensures SleepersOk(RunWriter(s, i))
  {
    var c := s.procs[i].call;
    assert SleeperOk(s, s.procs[i]);
    WriteFacts(s.pipe, s.calls[c].data[s.calls[c].sent..], s.procs[i].fl, s.procs[i].first);
    var s2 := RunWriter(s, i);
    forall j: nat | j < |s2.procs| ensures SleeperOk(s2, s2.procs[j]) {
      assert SleeperOk(s, s.procs[j]);
      if j != i && s.procs[j].Writer? { assert s.procs[j].call != c; }
    }
  }

  lemma StartWriteKeepsCalls(s: System, e: Event)
    requires CallsOk(s) && CallsApart(s) && CanStep(s, e) && e.StartWrite?
    ensures CallsOk(Step(s, e)) && CallsApart(Step(s, e))
  {
    var s2 := Step(s, e);
    forall j: nat | j < |s2.procs| && s2.procs[j].Writer?
      ensures s2.procs[j].call < |s2.calls|
      ensures if j == e.who then s2.procs[j].call == |s.calls| else s2.procs[j] == s.procs[j]
    { }
  }

  lemma StartWriteKeepsPieces(s: System, e: Event)
    requires CallsOk(s) && PiecesOk(s) && ShortCallsWhole(s) && CanStep(s, e) && e.StartWrite?
    ensures PiecesOk(Step(s, e)) && ShortCallsWhole(Step(s, e))
  {
    var s2 := Step(s, e);
    NothingFrom(s.log, |s.calls|);
    forall c: nat | c < |s2.calls|
      ensures From(s2.log, c) == s2.calls[c].data[..s2.calls[c].sent]
    {
      if c < |s.calls| { assert s2.calls[c] == s.calls[c]; } else { assert s2.calls[c] == Call(e.data, 0); }
    }
  }

  lemma StartKeepsSleepers(s: System, e: Event)
    requires SystemOk(s) && CanStep(s, e) && (e.StartRead? || e.StartWrite?)
    ensures SleepersOk(Step(s, e))
  {
    var s2 := Step(s, e);
    forall j: nat | j < |s2.procs| ensures SleeperOk(s2, s2.procs[j]) {
      assert SleeperOk(s, s.procs[j]);
    }
  }

  lemma OpenKeepsSleepers(s: System, e: Event)
    requires SystemOk(s) && CanStep(s, e) && OpensOrCloses(e)
    ensures SleepersOk(Step(s, e))
  {
    var s2 := Step(s, e);
    forall j: nat | j < |s2.procs| ensures SleeperOk(s2, s2.procs[j]) {
      assert SleeperOk(s, s.procs[j]);
    }
  }

  lemma {:induction false} NothingFrom(log: seq<Piece>, c: nat)
    requires forall k: nat :: k < |log| ==> log[k].call < c
    ensures From(log, c) == []
  {
    if log != [] { NothingFrom(log[..|log| - 1], c); }
  }

  predicate OpensOrCloses(e: Event) { e.OpenToRead? || e.OpenToWrite? || e.CloseToRead? || e.CloseToWrite? }

  // Opens and closes wake processes, and touch no call and no byte.
  lemma OpenKeepsCalls(s: System, e: Event)
    requires CallsOk(s) && CallsApart(s) && CanStep(s, e) && OpensOrCloses(e)
    ensures CallsOk(Step(s, e)) && CallsApart(Step(s, e))
  {
    var s2 := Step(s, e);
    forall j: nat | j < |s2.procs| && s2.procs[j].Writer?
      ensures s.procs[j].Writer? && s2.procs[j].call == s.procs[j].call
    { }
  }

  lemma OpenKeepsBytes(s: System, e: Event)
    requires SystemOk(s) && CanStep(s, e) && OpensOrCloses(e)
    ensures PiecesOk(Step(s, e)) && ShortCallsWhole(Step(s, e)) && RingOk(Step(s, e))
  {
    var s2 := Step(s, e);
    assert s2.calls == s.calls && s2.log == s.log && s2.read == s.read && s2.pipe.queue == s.pipe.queue;
  }

  lemma StartReadKeeps(s: System, e: Event)
    requires SystemOk(s) && CanStep(s, e) && e.StartRead?
    ensures CallsOk(Step(s, e)) && CallsApart(Step(s, e))
    ensures PiecesOk(Step(s, e)) && ShortCallsWhole(Step(s, e)) && RingOk(Step(s, e))
  { }

  lemma StepKeeps(s: System, e: Event)
    requires SystemOk(s) && CanStep(s, e)
    ensures SystemOk(Step(s, e))
  {
    if !e.Run? {
      if OpensOrCloses(e) { OpenKeepsSleepers(s, e); } else { StartKeepsSleepers(s, e); }
      if e.StartWrite? {
        StartWriteKeepsCalls(s, e);
        StartWriteKeepsPieces(s, e);
      } else if e.StartRead? {
        StartReadKeeps(s, e);
      } else {
        OpenKeepsCalls(s, e);
        OpenKeepsBytes(s, e);
      }
    } else if s.procs[e.who].Reader? {
      RunReaderKeepsRing(s, e.who);
      RunReaderKeepsCalls(s, e.who);
      RunReaderKeepsSleepers(s, e.who);
    } else {
      RunWriterKeepsCalls(s, e.who);
      RunWriterKeepsPieces(s, e.who);
      RunWriterKeepsRing(s, e.who);
      RunWriterKeepsShortWhole(s, e.who);
      RunWriterKeepsSleepers(s, e.who);
    }
  }

  lemma {:induction false} Always(run: seq<System>, k: nat)
    requires Behaviour(run) && k < |run|
    ensures SystemOk(run[k])
  {
    if k > 0 {
      Always(run, k - 1);
      assert Next(run[k - 1], run[k - 1 + 1]);
      var e :| CanStep(run[k - 1], e) && run[k] == Step(run[k - 1], e);
      StepKeeps(run[k - 1], e);
    }
  }

  // --------------------------------------------------------------- the results

  // Whatever the interleaving, the bytes read so far are a prefix of the bytes
  // written so far, and what lies between is the unread queue of at most PIPSIZ.
  lemma ReadsArePrefix(run: seq<System>, k: nat)
    requires Behaviour(run) && k < |run|
    ensures run[k].read <= Stream(run[k].log)
    ensures Stream(run[k].log) == run[k].read + run[k].pipe.queue
    ensures |run[k].pipe.queue| <= PIPSIZ
  {
    Always(run, k);
  }

  // Every call's bytes go in in order, each once.
  lemma NoByteLostOrRepeated(run: seq<System>, k: nat, c: nat)
    requires Behaviour(run) && k < |run| && c < |run[k].calls|
    ensures run[k].calls[c].sent <= |run[k].calls[c].data|
    ensures From(run[k].log, c) == run[k].calls[c].data[..run[k].calls[c].sent]
  {
    Always(run, k);
  }

  function Start(log: seq<Piece>, k: nat): nat
    requires k <= |log|
  {
    |Stream(log[..k])|
  }

  lemma {:induction false} PieceInStream(log: seq<Piece>, k: nat)
    requires k < |log|
    ensures Start(log, k) + |log[k].data| <= |Stream(log)|
    ensures Stream(log)[Start(log, k)..Start(log, k) + |log[k].data|] == log[k].data
  {
    var front := log[..|log| - 1];
    if k < |log| - 1 {
      PieceInStream(front, k);
      assert front[..k] == log[..k];
      var a, b := Start(log, k), Start(log, k) + |log[k].data|;
      assert Stream(log)[a..b] == Stream(front)[a..b];
    }
  }

  lemma {:induction false} SomePiece(log: seq<Piece>, c: nat) returns (k: nat)
    requires From(log, c) != []
    ensures k < |log| && log[k].call == c
  {
    if log[|log| - 1].call == c {
      k := |log| - 1;
    } else {
      k := SomePiece(log[..|log| - 1], c);
    }
  }

  lemma {:induction false} FromIsLong(log: seq<Piece>, c: nat, j: nat)
    requires j < |log| && log[j].call == c
    ensures |From(log, c)| >= |log[j].data|
  {
    if j < |log| - 1 { FromIsLong(log[..|log| - 1], c, j); }
  }

  lemma {:induction false} TwoPiecesAreLonger(log: seq<Piece>, c: nat, i: nat, j: nat)
    requires i < j < |log| && log[i].call == c && log[j].call == c
    ensures |From(log, c)| >= |log[i].data| + |log[j].data|
  {
    var front := log[..|log| - 1];
    if j < |log| - 1 {
      TwoPiecesAreLonger(front, c, i, j);
    } else {
      FromIsLong(front, c, i);
    }
  }

  // The atomicity rule of section 6.4.2 of IEEE Std 1003.1-1988: a write of at
  // most PIPSIZ bytes that put in anything put in all of its bytes, side by
  // side, as the one and only piece of that call.
  lemma ShortWritesAreAtomic(run: seq<System>, k: nat, c: nat) returns (at: nat)
    requires Behaviour(run) && k < |run| && c < |run[k].calls|
    requires |run[k].calls[c].data| <= PIPSIZ && run[k].calls[c].sent > 0
    ensures run[k].calls[c].sent == |run[k].calls[c].data|
    ensures at < |run[k].log| && run[k].log[at] == Piece(c, run[k].calls[c].data)
    ensures Start(run[k].log, at) + |run[k].calls[c].data| <= |Stream(run[k].log)|
    ensures Stream(run[k].log)[Start(run[k].log, at)..Start(run[k].log, at) + |run[k].calls[c].data|]
      == run[k].calls[c].data
    ensures forall j: nat :: j < |run[k].log| && j != at ==> run[k].log[j].call != c
  {
    Always(run, k);
    var s := run[k];
    var d := s.calls[c].data;
    assert d[..s.calls[c].sent] == d;
    at := SomePiece(s.log, c);
    PieceInStream(s.log, at);
    forall j: nat | j < |s.log| && j != at ensures s.log[j].call != c {
      if s.log[j].call == c {
        if j < at { TwoPiecesAreLonger(s.log, c, j, at); } else { TwoPiecesAreLonger(s.log, c, at, j); }
      }
    }
  }

  // No wakeup is lost: a process sleeps only while a pass of its call would
  // send it to sleep again with nothing changed. So a reader and a writer never
  // sleep at the same time, and a nonblocking call never sleeps.
  lemma NoLostWakeup(run: seq<System>, k: nat, i: nat)
    requires Behaviour(run) && k < |run| && i < |run[k].procs|
    requires !run[k].procs[i].Idle? && run[k].procs[i].asleep
    ensures !run[k].procs[i].fl.Nonblocking()
    ensures run[k].procs[i].Reader? ==>
      Read(run[k].pipe, run[k].procs[i].want, run[k].procs[i].fl) == ReadPass(run[k].pipe, [], Sleep)
    ensures run[k].procs[i].Writer? ==>
      var c := run[k].procs[i].call;
      && c < |run[k].calls| && run[k].calls[c].sent <= |run[k].calls[c].data|
      && Write(run[k].pipe, run[k].calls[c].data[run[k].calls[c].sent..], run[k].procs[i].fl, false)
           == WritePass(run[k].pipe, 0, Sleep)
    ensures forall j: nat :: j < |run[k].procs| && !run[k].procs[j].Idle? && run[k].procs[j].asleep ==>
              run[k].procs[i].Reader? == run[k].procs[j].Reader?
  {
    Always(run, k);
    var s := run[k];
    forall j: nat | j < |s.procs| && !s.procs[j].Idle? && s.procs[j].asleep
      ensures s.procs[j].Reader? <==> s.pipe.queue == []
    {
      assert SleeperOk(s, s.procs[j]);
    }
    assert SleeperOk(s, s.procs[i]);
  }
}
