/**
 * The diskless FIFO itself: a byte ring over the blocks of a file, reached
 * through the buffer cache of the site. Two shortcuts keep it off the disk: a
 * block about to be overwritten is not read first, and a block read to its end
 * is not written back. The cache may write back a dirty block, and forget a
 * clean one, whenever it likes.
 */
module FifoBuffers {
  import opened Common
  import opened FifoStream

  // A block of the file: on disk and, when cached, in a buffer. dirty is
  // B_DELWRI: the buffer is still to be written back.
  datatype Block = Block(disk: seq<byte>, cached: bool, dirty: bool, buf: seq<byte>)

  // What the buffer cache does on its own.
  datatype Activity = WriteBack(index: nat) | Forget(index: nat)

  // What is not the FIFO's to decide: what the cache does before the k-th block
  // access of a call, and what a buffer fetched without reading holds.
  datatype Surroundings = Surroundings(activity: nat -> seq<Activity>, junk: nat -> seq<byte>)

  function Lbn(p: nat, b: nat): nat requires b > 0 { p / b }
  function On(p: nat, b: nat): nat requires b > 0 { p % b }

  // The place n bytes after place r of the ring.
  function Ring(r: nat, n: nat): int { if r + n < PIPSIZ then r + n else r + n - PIPSIZ }

  function AfterActivity(t: Block, flush: bool): Block {
    if !t.cached then t
    else if flush then (if t.dirty then t.(disk := t.buf, dirty := false) else t)
    else if t.dirty then t
    else t.(cached := false)
  }

  function AfterBread(t: Block): Block {
    if t.cached then t else Block(t.disk, true, false, t.disk)
  }

  function AfterGetblk(t: Block, junk: seq<byte>): Block {
    if t.cached then t else Block(t.disk, true, false, junk)
  }

  // uiomove into the buffer, then bdwrite.
  function AfterStore(t: Block, on: nat, d: seq<byte>): Block
    requires on + |d| <= |t.buf|
  {
    t.(buf := t.buf[..on] + d + t.buf[on + |d|..], dirty := true)
  }

  // ------------------------------------------------------- unread bytes are held

  predicate Geometry(blocks: seq<Block>, b: nat) {
    && b > 0
    && |blocks| * b == PIPSIZ
    && forall i: nat :: i < |blocks| ==> |blocks[i].disk| == b && |blocks[i].buf| == b
  }

  // The byte at place o of the block is c, and stays so whatever the cache does.
  predicate Safe(t: Block, o: nat, c: byte)
    requires o < |t.disk| && o < |t.buf|
  {
    && (t.cached ==> t.buf[o] == c)
    && (!(t.cached && t.dirty) ==> t.disk[o] == c)
  }

  predicate SafeAt(blocks: seq<Block>, b: nat, p: int, c: byte) {
    && Geometry(blocks, b)
    && 0 <= p && Lbn(p, b) < |blocks|
    && Safe(blocks[Lbn(p, b)], On(p, b), c)
  }

  // The bytes of q lie in the ring from place r on.
  ghost predicate Held(blocks: seq<Block>, b: nat, r: nat, q: seq<byte>) {
    && Geometry(blocks, b) && r < PIPSIZ && |q| <= PIPSIZ
    && forall k: nat {:trigger q[k]} :: k < |q| ==> SafeAt(blocks, b, Ring(r, k), q[k])
  }

  // No unread byte lies in block i, with n unread bytes from place r on.
  ghost predicate Unused(b: nat, r: nat, n: nat, i: nat)
    requires b > 0
  {
    forall k: nat {:trigger Ring(r, k)} :: k < n && Ring(r, k) >= 0 ==> Lbn(Ring(r, k), b) != i
  }

  // -------------------------------------------------------------- block numbers

  lemma Inside(p: nat, b: nat, i: nat)
    requires b > 0
    ensures Lbn(p, b) == i <==> i * b <= p < i * b + b
    ensures Lbn(p, b) == i ==> On(p, b) == p - i * b
  {
    var d := p / b;
    assert p == d * b + p % b;
    Apart(d, i, b);
    Apart(i, d, b);
  }

  lemma BlockEnds(blocks: seq<Block>, b: nat, p: nat)
    requires Geometry(blocks, b) && p < PIPSIZ
    ensures Lbn(p, b) < |blocks| && On(p, b) < b
    ensures Lbn(p, b) * b + b <= PIPSIZ && p == Lbn(p, b) * b + On(p, b)
  {
    Inside(p, b, Lbn(p, b));
    Apart(Lbn(p, b), |blocks|, b);
  }

  // -------------------------------------------------------- what block steps keep

  lemma UnusedMayChange(blocks: seq<Block>, b: nat, r: nat, q: seq<byte>, i: nat, t: Block)
    requires Held(blocks, b, r, q) && i < |blocks| && |t.disk| == b && |t.buf| == b
    requires Unused(b, r, |q|, i)
    ensures Held(blocks[i := t], b, r, q)
  {
    var blocks2 := blocks[i := t];
    forall k: nat | k < |q| ensures SafeAt(blocks2, b, Ring(r, k), q[k]) {
      assert SafeAt(blocks, b, Ring(r, k), q[k]);
    }
  }

  lemma QuietChange(blocks: seq<Block>, b: nat, r: nat, q: seq<byte>, i: nat, t: Block)
    requires Held(blocks, b, r, q) && i < |blocks| && |t.disk| == b && |t.buf| == b
    requires forall o: nat, c: byte :: o < b && Safe(blocks[i], o, c) ==> Safe(t, o, c)
    ensures Held(blocks[i := t], b, r, q)
  {
    var blocks2 := blocks[i := t];
    forall k: nat | k < |q| ensures SafeAt(blocks2, b, Ring(r, k), q[k]) {
      assert SafeAt(blocks, b, Ring(r, k), q[k]);
      if Lbn(Ring(r, k), b) == i { assert Safe(blocks[i], On(Ring(r, k), b), q[k]); }
    }
  }

  // Taking n bytes that do not leave the block gets the oldest n unread ones.
  lemma TakeFront(blocks: seq<Block>, b: nat, r: nat, q: seq<byte>, n: nat)
    requires Held(blocks, b, r, q) && n <= |q| && On(r, b) + n <= b
    requires Lbn(r, b) < |blocks| && blocks[Lbn(r, b)].cached
    ensures blocks[Lbn(r, b)].buf[On(r, b)..On(r, b) + n] == q[..n]
    ensures r + n <= PIPSIZ && Held(blocks, b, Ring(r, n), q[n..])
  {
    BlockEnds(blocks, b, r);
    var i, on := Lbn(r, b), On(r, b);
    forall k: nat | k < n ensures blocks[i].buf[on..on + n][k] == q[..n][k] {
      Inside(r + k, b, i);
      assert SafeAt(blocks, b, Ring(r, k), q[k]);
    }
    forall k: nat | k < |q[n..]| ensures SafeAt(blocks, b, Ring(Ring(r, n), k), q[n..][k]) {
      assert q[n..][k] == q[n + k];
      assert Ring(Ring(r, n), k) == Ring(r, n + k);
      assert SafeAt(blocks, b, Ring(r, n + k), q[n + k]);
    }
  }

  // Storing n bytes at the end of the ring, in one block, keeps what is unread.
  lemma StoreBack(blocks: seq<Block>, b: nat, r: nat, q: seq<byte>, d: seq<byte>)
    requires Held(blocks, b, r, q) && |q| + |d| <= PIPSIZ && |d| > 0
    requires var off := Ring(r, |q|);
      0 <= off < PIPSIZ && Lbn(off, b) < |blocks| && blocks[Lbn(off, b)].cached && On(off, b) + |d| <= b
    ensures var off := Ring(r, |q|); var i := Lbn(off, b);
      off + |d| <= PIPSIZ && Held(blocks[i := AfterStore(blocks[i], On(off, b), d)], b, r, q + d)
  {
    var off := Ring(r, |q|);
    BlockEnds(blocks, b, off);
    var i, on := Lbn(off, b), On(off, b);
    var t := AfterStore(blocks[i], on, d);
    var blocks2, q2 := blocks[i := t], q + d;
    assert Geometry(blocks2, b);
    forall k: nat | k < |q2| ensures SafeAt(blocks2, b, Ring(r, k), q2[k]) {
      var p := Ring(r, k);
      if k < |q| {
        assert SafeAt(blocks, b, p, q[k]);
        assert p < off || off + |d| <= p;
        Inside(p, b, i);
      } else {
        assert p == off + (k - |q|);
        Inside(p, b, i);
        assert t.buf[on + (k - |q|)] == d[k - |q|];
      }
    }
  }

  // ---------------------------------------------------------------- the shortcuts

  // The write side: the branch that fetches the block without reading it is
  // taken exactly when no unread byte lies in that block. size is i_fifosize
  // before the n bytes are added.
  lemma GetblkExactly(blocks: seq<Block>, b: nat, r: nat, size: nat, n: nat)
    requires Geometry(blocks, b) && r < PIPSIZ && size + n <= PIPSIZ && n > 0 && (size == 0 ==> r == 0)
    requires On(Ring(r, size), b) + n <= b
    ensures var on := On(Ring(r, size), b);
      (n == b || (on == 0 && size <= PIPSIZ - b)) <==> Unused(b, r, size, Lbn(Ring(r, size), b))
  {
    var off := Ring(r, size);
    BlockEnds(blocks, b, off);
    var i, on := Lbn(off, b), On(off, b);
    if n == b || (on == 0 && size <= PIPSIZ - b) {
      forall k: nat | k < size && Ring(r, k) >= 0 ensures Lbn(Ring(r, k), b) != i { Inside(Ring(r, k), b, i); }
    } else if on > 0 {
      Inside(0, b, 0);
      assert size > 0;
      assert Ring(r, size - 1) == off - 1;
      Inside(off - 1, b, i);
      assert !Unused(b, r, size, i);
    } else {
      // the oldest bytes end the ring's last block
      var k := size - (PIPSIZ - b) - 1;
      assert Ring(r, k) == off + b - 1;
      Inside(off + b - 1, b, i);
      assert !Unused(b, r, size, i);
    }
  }

  // The read side: when a read ends at the end of block i, no unread byte is
  // left in it exactly when at most PIPSIZ - b bytes are left; the test in the
  // code leaves out the case of equality, which costs a write and no byte.
  lemma ClearExactly(blocks: seq<Block>, b: nat, i: nat, size: nat)
    requires Geometry(blocks, b) && i < |blocks| && size <= PIPSIZ
    ensures i * b + b <= PIPSIZ
    ensures var next := if i * b + b >= PIPSIZ then 0 else i * b + b;
      size <= PIPSIZ - b <==> Unused(b, next, size, i)
  {
    var m := |blocks|;
    Apart(i, m, b);
    var next := if i * b + b >= PIPSIZ then 0 else i * b + b;
    if size <= PIPSIZ - b {
      forall k: nat | k < size && Ring(next, k) >= 0 ensures Lbn(Ring(next, k), b) != i { Inside(Ring(next, k), b, i); }
    } else {
      var k := PIPSIZ - b;
      assert Ring(next, k) == i * b;
      Inside(i * b, b, i);
      assert !Unused(b, next, size, i);
    }
  }

  lemma SplitAgain(q: seq<byte>, k: nat, n: nat)
    requires k + n <= |q|
    ensures q[..k] + q[k..][..n] == q[..k + n] && q[k..][n..] == q[k + n..]
  { }

  // -------------------------------------------------------------------- the inode

  class Fifo {
    const bsize: nat
    const blocks: array<Block>
    var fifosize: nat
    var frptr: nat
    var fwptr: nat
    var frcnt: nat
    var fwcnt: nat
    var ifir: bool
    var ifiw: bool
    ghost var queue: seq<byte>

    ghost predicate Valid()
      reads this, blocks
    {
      && fifosize == |queue|
      && Held(blocks[..], bsize, frptr, queue)
      && fwptr == Ring(frptr, fifosize)
      && (fifosize == 0 ==> frptr == 0)
    }

    ghost function State(): Pipe
      reads this
    {
      Pipe(queue, frcnt, fwcnt, ifir, ifiw)
    }

    // A new FIFO over the blocks of a file, as dux_fifo_invalidate leaves it.
    constructor (bsize: nat, blocks: array<Block>)
      requires Geometry(blocks[..], bsize)
      ensures Valid() && this.blocks == blocks && this.bsize == bsize
      ensures State() == Pipe([], 0, 0, false, false)
    {
      this.bsize, this.blocks := bsize, blocks;
      fifosize, frptr, fwptr, frcnt, fwcnt := 0, 0, 0, 0, 0;
      ifir, ifiw := false, false;
      queue := [];
    }

    method CacheRuns(acts: seq<Activity>, ghost r: nat, ghost q: seq<byte>)
      requires Held(blocks[..], bsize, r, q)
      modifies blocks
      ensures Held(blocks[..], bsize, r, q)
    {
      for k := 0 to |acts|
        modifies blocks
        invariant Held(blocks[..], bsize, r, q)
      {
        var i := acts[k].index;
        if i < blocks.Length {
          var t := AfterActivity(blocks[i], acts[k].WriteBack?);
          QuietChange(blocks[..], bsize, r, q, i, t);
          ghost var was := blocks[..];
          blocks[i] := t;
          assert blocks[..] == was[i := t];
        }
      }
    }

    // A block read or fetched for the bytes at place off of the ring.
    method Bread(i: nat, ghost r: nat, ghost q: seq<byte>)
      requires Held(blocks[..], bsize, r, q) && i < blocks.Length
      modifies blocks
      ensures Held(blocks[..], bsize, r, q) && blocks[i].cached
    {
      var t := AfterBread(blocks[i]);
      QuietChange(blocks[..], bsize, r, q, i, t);
      ghost var was := blocks[..];
      blocks[i] := t;
      assert blocks[..] == was[i := t];
    }

    method Getblk(i: nat, junk: seq<byte>, ghost r: nat, ghost q: seq<byte>)
      requires Held(blocks[..], bsize, r, q) && i < blocks.Length && |junk| == bsize
      requires Unused(bsize, r, |q|, i)
      modifies blocks
      ensures Held(blocks[..], bsize, r, q) && blocks[i].cached
    {
      var t := AfterGetblk(blocks[i], junk);
      UnusedMayChange(blocks[..], bsize, r, q, i, t);
      ghost var was := blocks[..];
      blocks[i] := t;
      assert blocks[..] == was[i := t];
    }

    // The three ways to get at block i for n bytes stored at place on: the two
    // that do not read it are taken only where no unread byte could be lost.
    method Fetch(i: nat, on: nat, n: nat, junk: seq<byte>, ghost r: nat, ghost q: seq<byte>)
      requires Held(blocks[..], bsize, r, q) && |junk| == bsize && (q == [] ==> r == 0)
      requires 0 < n && |q| + n <= PIPSIZ && fifosize == |q| + n
      requires 0 <= Ring(r, |q|) < PIPSIZ && i == Lbn(Ring(r, |q|), bsize) && on == On(Ring(r, |q|), bsize)
      requires i < blocks.Length && on + n <= bsize
      modifies blocks
      ensures Held(blocks[..], bsize, r, q) && blocks[i].cached
    {
      GetblkExactly(blocks[..], bsize, r, |q|, n);
      if n == bsize {
        Getblk(i, junk, r, q);
      } else if on == 0 && fifosize - n <= PIPSIZ - bsize {
        Getblk(i, junk, r, q);
      } else {
        Bread(i, r, q);
      }
    }

    // Place e of block i is place p of the ring.
    predicate Ends(i: nat, e: nat, p: nat) { p == i * bsize + e }

    // Reads block i and copies n bytes from place on of it.
    method Take(i: nat, on: nat, n: nat, ghost r: nat, ghost q: seq<byte>)
      returns (d: seq<byte>, ghost next: nat, ghost left: seq<byte>)
      requires Held(blocks[..], bsize, r, q) && n <= |q|
      requires i == Lbn(r, bsize) && on == On(r, bsize) && i < blocks.Length && on + n <= bsize
      modifies blocks
      ensures d == q[..n] && Ends(i, on + n, r + n)
      ensures r + n <= PIPSIZ && next == Ring(r, n) && left == q[n..] && Held(blocks[..], bsize, next, left)
    {
      Bread(i, r, q);
      TakeFront(blocks[..], bsize, r, q, n);
      d := blocks[i].buf[on..on + n];
      Inside(r, bsize, i);
      next, left := Ring(r, n), q[n..];
    }

    // Clears B_DELWRI.
    method Clean(i: nat, ghost r: nat, ghost q: seq<byte>)
      requires Held(blocks[..], bsize, r, q) && i < blocks.Length
      requires Unused(bsize, r, |q|, i)
      modifies blocks
      ensures Held(blocks[..], bsize, r, q) && blocks[..] == old(blocks[..])[i := old(blocks[i]).(dirty := false)]
    {
      var t := blocks[i].(dirty := false);
      UnusedMayChange(blocks[..], bsize, r, q, i, t);
      ghost var was := blocks[..];
      blocks[i] := t;
      assert blocks[..] == was[i := t];
    }

    method Store(i: nat, on: nat, d: seq<byte>, ghost r: nat, ghost q: seq<byte>)
      requires Held(blocks[..], bsize, r, q) && |q| + |d| <= PIPSIZ && |d| > 0
      requires 0 <= Ring(r, |q|) < PIPSIZ && i == Lbn(Ring(r, |q|), bsize) && on == On(Ring(r, |q|), bsize)
      requires i < blocks.Length && blocks[i].cached && on + |d| <= bsize
      modifies blocks
      ensures Held(blocks[..], bsize, r, q + d) && Ring(r, |q|) + |d| <= PIPSIZ
    {
      StoreBack(blocks[..], bsize, r, q, d);
      var t := AfterStore(blocks[i], on, d);
      ghost var was := blocks[..];
      blocks[i] := t;
      assert blocks[..] == was[i := t];
    }

    // A block read to its end is not written back, unless unread bytes may be in it.
    method DropIfRead(i: nat, e: nat, ghost p: nat, ghost r: nat, ghost q: seq<byte>)
      requires Held(blocks[..], bsize, r, q) && i < blocks.Length && fifosize == |q|
      requires Ends(i, e, p) && p <= PIPSIZ && r == Ring(p, 0)
      modifies blocks
      ensures Held(blocks[..], bsize, r, q)
      ensures blocks[..] == old(blocks[..])[i := old(blocks[i]).(
        dirty := old(blocks[i]).dirty && !(e == bsize && fifosize < PIPSIZ - bsize))]
    {
      if e == bsize && fifosize < PIPSIZ - bsize && blocks[i].dirty {
        ClearExactly(blocks[..], bsize, i, fifosize);
        Clean(i, r, q);
      }
    }

    // The do loop of a read.
    method CopyOut(want: nat, around: Surroundings) returns (data: seq<byte>)
      requires Valid() && want > 0 && fifosize > 0
      modifies this, blocks
      ensures Valid()
      ensures var n := Least(want, |old(queue)|);
        data == old(queue)[..n] && State() == old(State()).(queue := old(queue)[n..], ifiw := false)
      ensures fifosize == 0 ==> frptr == fwptr == 0
    {
      data := [];
      var offset: nat, resid: nat, turn: nat := frptr, want, 0;
      while resid > 0
        modifies this`fifosize, this`queue, blocks
        invariant |data| + resid == want && |data| + fifosize == |old(queue)|
        invariant data == old(queue)[..|data|] && queue == old(queue)[|data|..]
        invariant Held(blocks[..], bsize, offset, queue)
        invariant offset == Ring(frptr, |data|)
      {
        CacheRuns(around.activity(turn), offset, queue);
        BlockEnds(blocks[..], bsize, offset);
        var lbn, on := offset / bsize, offset % bsize;
        var n := Least(bsize - on, resid);
        if fifosize == 0 { break; }
        if fifosize < n { n := fifosize; }
        SplitAgain(old(queue), |data|, n);
        var d, next, left := Take(lbn, on, n, offset, queue);
        data := data + d;
        fifosize := fifosize - n;
        queue := left;
        DropIfRead(lbn, on + n, offset + n, next, left);
        offset, resid, turn := offset + n, resid - n, turn + 1;
        if offset >= PIPSIZ { offset := 0; }
        assert offset == next;
      }
      if fifosize > 0 {
        frptr := offset;
      } else {
        frptr, fwptr := 0, 0;
      }
      ifiw := false;
    }

    // One pass of a read: from the test for an empty FIFO to the return or the sleep.
    method FifoRead(want: nat, fl: Flags, around: Surroundings) returns (data: seq<byte>, outcome: Outcome)
      requires Valid()
      modifies this, blocks
      ensures Valid()
      ensures ReadPass(State(), data, outcome) == Read(old(State()), want, fl)
    {
      data, outcome := [], Done;
      if want == 0 { return; }
      if fifosize == 0 {
        if fwcnt == 0 { return; }
        if fl.nblock { outcome := Again; return; }
        if fl.ndelay { return; }
        ifir := true;
        outcome := Sleep;
        return;
      }
      data := CopyOut(want, around);
    }

    // The do loop of a write, for bytes that fit.
    method CopyIn(data: seq<byte>, around: Surroundings)
      requires Valid() && data != [] && |data| + fifosize <= PIPSIZ
      requires forall k :: |around.junk(k)| == bsize
      modifies this, blocks
      ensures Valid()
      ensures State() == old(State()).(queue := old(queue) + data, ifir := false)
    {
      var offset: nat, done: nat, turn: nat := fwptr, 0, 0;
      while done < |data|
        modifies this`fifosize, this`queue, blocks
        invariant done <= |data| && fifosize == |old(queue)| + done
        invariant queue == old(queue) + data[..done]
        invariant Held(blocks[..], bsize, frptr, queue)
        invariant offset == Ring(frptr, fifosize)
        invariant fifosize == 0 ==> frptr == 0
      {
        CacheRuns(around.activity(turn), frptr, queue);
        BlockEnds(blocks[..], bsize, offset);
        var lbn, on := offset / bsize, offset % bsize;
        var n := Least(bsize - on, |data| - done);
        fifosize := fifosize + n;
        Fetch(lbn, on, n, around.junk(turn), frptr, queue);
        Store(lbn, on, data[done..done + n], frptr, queue);
        queue := queue + data[done..done + n];
        offset, done, turn := offset + n, done + n, turn + 1;
        if offset == PIPSIZ { offset := 0; }
      }
      fwptr := offset;
      ifir := false;
    }

    // One pass of a write: from the tests of the flags, or from where a sleep
    // ended, to the return or the sleep.
    method FifoWrite(data: seq<byte>, fl: Flags, first: bool, around: Surroundings)
      returns (sent: nat, outcome: Outcome)
      requires Valid()
      requires forall k :: |around.junk(k)| == bsize
      modifies this, blocks
      ensures Valid()
      ensures WritePass(State(), sent, outcome) == Write(old(State()), data, fl, first)
    {
      sent, outcome := 0, Done;
      if data == [] { return; }
      if first && fl.ndelay {
        if fifosize >= PIPSIZ { return; }
        if |data| <= PIPSIZ && |data| + fifosize > PIPSIZ { return; }
      }
      if first && fl.nblock {
        if fifosize >= PIPSIZ { outcome := Again; return; }
        if |data| <= PIPSIZ && |data| + fifosize > PIPSIZ { outcome := Again; return; }
      }
      var resid, usave := |data|, 0;
      if resid + fifosize > PIPSIZ && frcnt != 0 {
        if resid > PIPSIZ && fifosize < PIPSIZ {
          usave := resid;
          resid := PIPSIZ - fifosize;
          usave := usave - resid;
        } else {
          ifiw := true;
          outcome := Sleep;
          return;
        }
      }
      if frcnt == 0 {
        outcome := Broken;
        return;
      }
      CopyIn(data[..resid], around);
      sent := resid;
      if usave != 0 && !fl.Nonblocking() {
        // round again with the FIFO full
        ifiw := true;
        outcome := Sleep;
      }
    }
  }
}
