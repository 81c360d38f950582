/**
 * The clock of a workstation, steered after that of the root server: at every
 * synchronization the amount added to the time at a clock tick is chosen so
 * that the error should cross zero within the next period.
 */
module ClockSync {

  const HZ := 50
  const PERIOD := 120               // CLOCKSYNCPERIOD, in seconds
  const TICKS := 6000               // ticks in a period: PERIOD * HZ
  const MICROS := 120_000_000       // microseconds in a period: 1000000 * PERIOD
  const NORMAL := 20_000            // microseconds in a tick: 1000000 / HZ
  const FAR := 2146                 // errors of more seconds than this are not steered

  // Arithmetic on int: 32 bits, wrapping around.
  function I32(x: int): int {
    var r := x % 0x1_0000_0000;
    if r < 0x8000_0000 then r else r - 0x1_0000_0000
  }

  // The quotient in C: towards zero.
  function Quotient(a: int, b: int): int
    requires b > 0
  {
    if a >= 0 then a / b else -(-a / b)
  }

  // old_tick for an error in microseconds; a positive error means that the root
  // server is ahead.
  function NewTick(error: int): int {
    var rounded := if error > 0 then I32(error + (TICKS - 1)) else error;
    var tick := Quotient(I32(MICROS + rounded), TICKS);
    if tick <= 0 then 1 else tick
  }

  // The error after n exact ticks of old_tick microseconds.
  function After(error: int, tick: int, n: nat): int { error + n * (NORMAL - tick) }

  // ... and after a whole period.
  function NextError(error: int): int { After(error, NewTick(error), TICKS) }

  // The errors that are steered. LATEST is the largest for which the sum of the
  // period and the rounded error fits an int.
  const LATEST := 0x7fff_ffff - MICROS - (TICKS - 1)
  const LARGEST := 2_147_400_000

  predicate Steered(error: int) { -LARGEST <= error <= LARGEST }

  // The errors so negative that time would have to stop or run backwards.
  predicate Clamped(error: int) { error < TICKS - MICROS }

  // --------------------------------------------------------------- one period

  lemma RootAhead(error: int)
    requires 0 < error <= LATEST
    ensures -TICKS < NextError(error) <= 0 && NewTick(error) > NORMAL
  { }

  lemma RootBehind(error: int)
    requires error <= 0 && Steered(error) && !Clamped(error)
    ensures 0 <= NextError(error) < TICKS && 1 <= NewTick(error) <= NORMAL
  { }

  lemma FarBehind(error: int)
    requires Steered(error) && Clamped(error)
    ensures NewTick(error) == 1 && NextError(error) == error + (MICROS - TICKS) < 0
  { }

  // The sum wraps around exactly for the errors above LATEST. The clock is then
  // slowed down instead of sped up, and the error grows.
  lemma SteeredRightExactly(error: int)
    requires 0 < error <= LARGEST
    ensures -TICKS < NextError(error) <= 0 <==> error <= LATEST
    ensures error > LATEST ==> NewTick(error) == 1 && NextError(error) == error + (MICROS - TICKS)
  {
    if error <= LATEST { RootAhead(error); }
  }

  // The difference of two times, usec being that of the microseconds, fits an
  // int; both are below 1.4 seconds, since delays are added without a carry.
  predicate FitsInt(sec: int, usec: int) { -0x8000_0000 <= sec * 1_000_000 + usec < 0x8000_0000 }

  // Steering stops at the largest difference in seconds for which it always does.
  lemma FarIsTheLimit(sec: int)
    ensures -FAR <= sec <= FAR <==> forall usec: int :: -1_400_000 < usec < 1_400_000 ==> FitsInt(sec, usec)
  {
    assert sec > FAR ==> !FitsInt(sec, 1_399_999);
    assert sec < -FAR ==> !FitsInt(sec, -1_399_999);
  }

  // ------------------------------------------------------------- convergence

  // The error after k periods, each begun with a synchronization.
  function Run(error: int, k: nat): int
    decreases k
  {
    if k == 0 then error else Run(NextError(error), k - 1)
  }

  // Once the error is less than TICKS microseconds, it stays so.
  lemma {:induction false} StaysSmall(error: int, k: nat)
    requires -TICKS < error < TICKS
    ensures -TICKS < Run(error, k) < TICKS
    decreases k
  {
    if k > 0 {
      if error > 0 { RootAhead(error); } else { RootBehind(error); }
      StaysSmall(NextError(error), k - 1);
    }
  }

  // How far behind the root server may be when k periods are to be enough.
  lemma {:induction false} SmallWithin(error: int, k: nat)
    requires k > 0 && error <= LATEST && error >= TICKS - MICROS - (k - 1) * (MICROS - TICKS) && Steered(error)
    ensures -TICKS < Run(error, k) < TICKS
    decreases k
  {
    var next := NextError(error);
    if error > 0 {
      RootAhead(error);
      StaysSmall(next, k - 1);
    } else if !Clamped(error) {
      RootBehind(error);
      StaysSmall(next, k - 1);
    } else {
      FarBehind(error);
      SmallWithin(next, k - 1);
    }
  }

  // From any error that is steered and does not wrap around, 18 synchronizations
  // bring the error below TICKS microseconds, and it stays there.
  lemma Converges(error: int, k: nat)
    requires Steered(error) && error <= LATEST && k >= 18
    ensures -TICKS < Run(error, k) < TICKS
  {
    SmallWithin(error, k);
  }

  // ------------------------------------------------------------ missed messages

  // old_tick after k timeouts without a synchronization.
  function TickAfter(tick: int, adjustment: int, k: nat): int {
    if k % 2 == 0 then tick else tick - adjustment
  }

  function Adjustment(error: int): int { if error > 0 then 1 else -1 }

  // The error when the first timeout comes, a tick after the period, and after
  // k more periods without a synchronization.
  function Unheard(error: int, k: nat): int
    decreases k
  {
    if k == 0 then After(error, NewTick(error), TICKS + 1)
    else After(Unheard(error, k - 1), TickAfter(NewTick(error), Adjustment(error), k), TICKS)
  }

  // With exact ticks the adjustment never turns the drift around: it makes the
  // error cross zero again exactly when the error was zero to begin with.
  lemma {:induction false} NoSecondCrossing(error: int, k: nat)
    requires Steered(error) && error <= LATEST && !Clamped(error)
    ensures error > 0 ==> Unheard(error, k + 1) <= Unheard(error, k) < 0
    ensures error < 0 ==> Unheard(error, k + 1) >= Unheard(error, k) > 0
    ensures error == 0 ==> Unheard(error, 0) == 0 && Unheard(error, k + 1) <= -TICKS
    decreases k
  {
    if error > 0 { RootAhead(error); } else { RootBehind(error); }
    if k > 0 { NoSecondCrossing(error, k - 1); }
  }

  // A single message missed, and the error is as large again, with the other
  // sign: within TICKS microseconds and what one tick is off.
  lemma AMissedMessageCostsTheError(error: int)
    requires Steered(error) && error <= LATEST && !Clamped(error)
    ensures -TICKS <= Unheard(error, 1) + error + (NewTick(error) - NORMAL) <= TICKS
  {
    if error > 0 { RootAhead(error); } else { RootBehind(error); }
    assert Unheard(error, 0) == After(error, NewTick(error), TICKS + 1);
  }

  // old_tick is kept above zero, so that time goes on, for every error but
  // those that wrap around: for them the first missed message makes it zero.
  lemma TimeGoesOnExactly(error: int, k: nat)
    requires Steered(error)
    ensures TickAfter(NewTick(error), Adjustment(error), k) >= 1 <==> error <= LATEST || k % 2 == 0
    ensures error > LATEST && k % 2 == 1 ==> TickAfter(NewTick(error), Adjustment(error), k) == 0
  {
    if 0 < error <= LATEST { RootAhead(error); }
    if error > LATEST { SteeredRightExactly(error); }
  }

  // Once the error is small, it grows by at most TICKS microseconds in two
  // periods: it is below 20 milliseconds for four periods after the first.
  lemma {:induction false} DriftsSlowly(error: int, k: nat)
    requires -TICKS < error < TICKS
    ensures var x := Unheard(error, k); var most := TICKS + 1 + TICKS * ((k + 1) / 2); -most <= x <= most
    decreases k
  {
    if error > 0 { RootAhead(error); } else { RootBehind(error); }
    if k == 1 {
      assert Unheard(error, 0) == After(error, NewTick(error), TICKS + 1);
    } else if k > 1 {
      DriftsSlowly(error, k - 2);
      var tick := TickAfter(NewTick(error), Adjustment(error), k - 1);
      assert Unheard(error, k - 1) == After(Unheard(error, k - 2), tick, TICKS);
      assert (k + 1) / 2 == (k - 1) / 2 + 1;
    }
  }

  // ------------------------------------------------------------- the workstation

  // The globals. timer is the number of ticks until adjust_old_tick is called.
  class Workstation {
    var sec: int
    var usec: int
    var oldTick: int
    var adjustment: int
    var timer: nat

    ghost predicate Valid()
      reads this
    {
      0 <= usec < 1_400_000 && (adjustment == 1 || adjustment == -1)
    }

    // The error in microseconds against a time of the root server.
    function Error(rootSec: int, rootUsec: int): int
      reads this
    {
      (rootSec - sec) * 1_000_000 + (rootUsec - usec)
    }

    constructor (sec: int, usec: int)
      requires 0 <= usec < 1_000_000
      ensures Valid() && this.sec == sec && this.usec == usec && oldTick == NORMAL && timer == 0
    {
      this.sec, this.usec := sec, usec;
      oldTick, adjustment, timer := NORMAL, -1, 0;
    }

    // A message with the time of the root server, the delay of the network added.
    method ServeSyncReq(rootSec: int, rootUsec: int)
      requires Valid() && 0 <= rootUsec < 1_400_000
      modifies this
      ensures Valid()
      ensures var far := rootSec - old(sec) < -FAR || rootSec - old(sec) > FAR;
        if far then
          sec == rootSec && usec == rootUsec && oldTick == NORMAL && Error(rootSec, rootUsec) == 0
            && adjustment == old(adjustment) && timer == old(timer)
        else
          && Steered(old(Error(rootSec, rootUsec)))
          && sec == old(sec) && usec == old(usec)
          && oldTick == NewTick(old(Error(rootSec, rootUsec))) && oldTick >= 1
          && adjustment == Adjustment(old(Error(rootSec, rootUsec)))
          && timer == TICKS + 1
    {
      var error := rootSec - sec;
      if -FAR > error || error > FAR {
        sec, usec := rootSec, rootUsec;
        oldTick := 1_000_000 / HZ;
        return;
      }
      error := error * 1_000_000;
      error := error + rootUsec - usec;
      adjustment := -1;
      var rounded := error;
      if error > 0 {
        rounded := I32(error + (PERIOD * HZ - 1));
        adjustment := 1;
      }
      oldTick := Quotient(I32(1_000_000 * PERIOD + rounded), PERIOD * HZ);
      if oldTick <= 0 { oldTick := 1; }
      timer := PERIOD * HZ + 1;
    }

    // The timeout after a period without a message.
    method AdjustOldTick()
      requires Valid()
      modifies this
      ensures Valid() && adjustment == -old(adjustment) && oldTick == old(oldTick) - old(adjustment)
      ensures sec == old(sec) && usec == old(usec) && timer == TICKS
    {
      adjustment := -adjustment;
      oldTick := oldTick + adjustment;
      timer := PERIOD * HZ;
    }

    // k timeouts in a row: old_tick goes to and fro between two neighbours.
    method MissedSyncs(k: nat)
      requires Valid()
      modifies this
      ensures Valid() && oldTick == TickAfter(old(oldTick), old(adjustment), k)
      ensures adjustment == if k % 2 == 0 then old(adjustment) else -old(adjustment)
    {
      for i := 0 to k
        modifies this
        invariant Valid() && oldTick == TickAfter(old(oldTick), old(adjustment), i)
        invariant adjustment == if i % 2 == 0 then old(adjustment) else -old(adjustment)
      {
        AdjustOldTick();
      }
    }
  }

  // After a wrap-around the next synchronization finds the clock too far off to
  // steer, and sets it.
  lemma WrapEndsInAJump(rootSec: int, rootUsec: int, sec: int, usec: int)
    requires 0 <= usec < 1_400_000 && 0 <= rootUsec < 1_400_000
    requires exists e: int :: LATEST < e <= LARGEST && NextError(e) == (rootSec - sec) * 1_000_000 + (rootUsec - usec)
    ensures rootSec - sec > FAR
  {
    var e: int :| LATEST < e <= LARGEST && NextError(e) == (rootSec - sec) * 1_000_000 + (rootUsec - usec);
    SteeredRightExactly(e);
  }
}
