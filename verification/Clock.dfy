/** Fixed-point conversion of the time-stamp counter to nanoseconds. */
module Clock {
  import opened SeqArith

  datatype Epoch = Epoch(tsc0: u64, t0Ns: u64, nsPerTscScaled: u64)

  /** The calibration ratio in 32.32 fixed point, cut to 64 bits. */
  function Ratio(elapsedNs: u64, tscDelta: u64): u64
    requires tscDelta > 0
  {
    (elapsedNs * 0x1_0000_0000) / tscDelta % 0x1_0000_0000_0000_0000
  }

  function Delta(e: Epoch, tsc: u64): u64 { (tsc - e.tsc0) % 0x1_0000_0000_0000_0000 }

  /** The scaled delta before the cut to 64 bits. */
  function Scaled(e: Epoch, tsc: u64): nat { Delta(e, tsc) * e.nsPerTscScaled / 0x1_0000_0000 }

  /** `now_ns`. */
  function NowNs(e: Epoch, tsc: u64): nat { e.t0Ns + Scaled(e, tsc) % 0x1_0000_0000_0000_0000 }

  lemma DivMono(a: nat, b: nat)
    requires a <= b
    ensures a / 0x1_0000_0000 <= b / 0x1_0000_0000
  {
  }

  /** As long as the scaled value fits, time does not run backwards. */
  lemma Monotone(e: Epoch, earlier: u64, later: u64)
    requires Delta(e, earlier) <= Delta(e, later) && Scaled(e, later) < 0x1_0000_0000_0000_0000
    ensures NowNs(e, earlier) <= NowNs(e, later)
  {
    MulMono(Delta(e, earlier), Delta(e, later), e.nsPerTscScaled);
    DivMono(Delta(e, earlier) * e.nsPerTscScaled, Delta(e, later) * e.nsPerTscScaled);
  }

  /** Against the measured ratio `elapsed / ticks` the clock never runs ahead, and lags by
      less than `delta / 2^32 + 1` nanoseconds; both sides multiplied out. */
  lemma ErrorBound(e: Epoch, tsc: u64, elapsedNs: u64, ticks: u64)
    requires ticks > 0 && elapsedNs * 0x1_0000_0000 / ticks < 0x1_0000_0000_0000_0000
    requires e.nsPerTscScaled == Ratio(elapsedNs, ticks) && e.t0Ns == 0
    requires Scaled(e, tsc) < 0x1_0000_0000_0000_0000
    ensures NowNs(e, tsc) * ticks <= Delta(e, tsc) * elapsedNs
    ensures Delta(e, tsc) > 0 ==>
              Delta(e, tsc) * elapsedNs * 0x1_0000_0000
                < (NowNs(e, tsc) + 1) * 0x1_0000_0000 * ticks + Delta(e, tsc) * ticks
  {
    Whole(Scaled(e, tsc));
    Whole(elapsedNs * 0x1_0000_0000 / ticks);
    Bounds(Delta(e, tsc), e.nsPerTscScaled, NowNs(e, tsc), ticks, elapsedNs);
  }

  lemma Whole(x: nat)
    requires x < 0x1_0000_0000_0000_0000
    ensures x % 0x1_0000_0000_0000_0000 == x
  {
  }

  lemma Bounds(d: nat, r: nat, n: nat, ticks: nat, elapsed: nat)
    requires ticks > 0 && r == elapsed * 0x1_0000_0000 / ticks && n == d * r / 0x1_0000_0000
    ensures n * ticks <= d * elapsed
    ensures d > 0 ==> d * elapsed * 0x1_0000_0000 < (n + 1) * 0x1_0000_0000 * ticks + d * ticks
  {
    DivBounds(elapsed * 0x1_0000_0000, ticks, r);
    DivBounds(d * r, 0x1_0000_0000, n);
    Scale(d, r, n, ticks, elapsed * 0x1_0000_0000);
    Regroup(d, n, ticks, elapsed);
  }

  lemma Regroup(d: nat, n: nat, ticks: nat, elapsed: nat)
    ensures d * (elapsed * 0x1_0000_0000) == 0x1_0000_0000 * (d * elapsed)
    ensures d * elapsed * 0x1_0000_0000 == 0x1_0000_0000 * (d * elapsed)
  {
  }

  lemma DivBounds(num: nat, ticks: nat, r: nat)
    requires ticks > 0 && r == num / ticks
    ensures r * ticks <= num < r * ticks + ticks
  {
    assert num == ticks * r + num % ticks;
  }

  /** Both bounds chained. */
  lemma Scale(d: nat, r: nat, n: nat, ticks: nat, num: nat)
    requires ticks > 0 && r * ticks <= num < r * ticks + ticks
    requires 0x1_0000_0000 * n <= d * r < 0x1_0000_0000 * n + 0x1_0000_0000
    ensures 0x1_0000_0000 * (n * ticks) <= d * num
    ensures d > 0 ==> d * num < (n + 1) * 0x1_0000_0000 * ticks + d * ticks
  {
    MulMono(0x1_0000_0000 * n, d * r, ticks);
    MulMono(r * ticks, num, d);
    assert d * r * ticks == r * ticks * d;
    MulMono(d * r, 0x1_0000_0000 * (n + 1), ticks);
    if d > 0 {
      MulMono(num + 1, r * ticks + ticks, d);
      assert (r * ticks + ticks) * d == d * r * ticks + d * ticks;
    }
  }
}
