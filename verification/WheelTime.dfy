/** The arithmetic of the hashed timing wheel: ticks in base 256, one digit per level. */
module WheelTime {
  import opened SeqArith

  const TICK_NS: nat := 10_000
  const LEVELS: nat := 8
  const BUCKETS: nat := 256

  /** The tick number without its lowest `l` digits. */
  function Up(t: nat, l: nat): nat { if l == 0 then t else Up(t / 256, l - 1) }

  lemma UpBase(t: nat)
    ensures Up(t, 0) == t
  {
  }

  /** The lowest `l` digits are zero. */
  predicate Zero(t: nat, l: nat) { l == 0 || (t % 256 == 0 && Zero(t / 256, l - 1)) }

  lemma {:induction false} UpMono(a: nat, b: nat, l: nat)
    requires a <= b
    ensures Up(a, l) <= Up(b, l)
  {
    if l > 0 {
      UpMono(a / 256, b / 256, l - 1);
    }
  }

  lemma {:induction false} UpAdd(a: nat, b: nat, l: nat)
    ensures Up(a, l) + Up(b, l) <= Up(a + b, l)
  {
    if l > 0 {
      UpAdd(a / 256, b / 256, l - 1);
      UpMono(a / 256 + b / 256, (a + b) / 256, l - 1);
    }
  }

  /** One more digit. */
  lemma {:induction false} UpNext(t: nat, l: nat)
    ensures Up(t, l + 1) == Up(t, l) / 256
    ensures Zero(t, l + 1) <==> Zero(t, l) && Up(t, l) % 256 == 0
  {
    if l > 0 {
      UpNext(t / 256, l - 1);
    }
  }

  /** Counting up by one turns a level exactly when all digits below it become zero. */
  lemma {:induction false} UpStep(t: nat, l: nat)
    requires t > 0
    ensures Up(t, l) == Up(t - 1, l) + if Zero(t, l) then 1 else 0
  {
    if l > 0 {
      if t % 256 == 0 {
        assert (t - 1) / 256 == t / 256 - 1;
        UpStep(t / 256, l - 1);
      } else {
        assert (t - 1) / 256 == t / 256;
      }
    }
  }

  lemma {:induction false} ZeroDown(t: nat, i: nat, j: nat)
    requires Zero(t, j) && i <= j
    ensures Zero(t, i)
  {
    if i < j {
      UpNext(t, j - 1);
      ZeroDown(t, i, j - 1);
    }
  }

  lemma {:induction false} ZeroBelow(t: nat, f: nat, l: nat)
    requires Zero(t, l) && Up(t, l) <= Up(f, l)
    ensures t <= f
  {
    if l > 0 {
      ZeroBelow(t / 256, f / 256, l - 1);
    }
  }

  /** The level for a delay: the lowest whose span covers it. */
  function LevelFrom(d: nat, l: nat): (r: nat)
    requires l < LEVELS
    ensures l <= r < LEVELS
    decreases LEVELS - l
  {
    if Up(d, l) < 256 || l == LEVELS - 1 then l else LevelFrom(d, l + 1)
  }

  /** The level a delay goes to and the bucket offset on it. */
  function LevelAndOffset(d: nat): (r: (nat, nat))
    ensures r.0 < LEVELS && 1 <= r.1 <= 255
  {
    var l := LevelFrom(d, 0);
    var off := Up(d, l);
    (l, if off < 1 then 1 else if off > 255 then 255 else off)
  }

  lemma {:induction false} LevelFromIs(d: nat, l: nat)
    requires l < LEVELS && (l > 0 ==> Up(d, l - 1) >= 256)
    ensures var r := LevelFrom(d, l); r > 0 ==> Up(d, r) >= 1
    decreases LEVELS - l
  {
    if l > 0 {
      UpNext(d, l - 1);
    }
    if Up(d, l) >= 256 && l < LEVELS - 1 {
      LevelFromIs(d, l + 1);
    }
  }

  /** Placing a timer `d` ticks ahead of tick `t` on its level never puts its bucket's turn
      after `t + d`; on the lowest level it is exactly `t + d`, or the next tick. `turn` is how
      often the level's cursor has moved, which may be one behind while a carry is rippling. */
  lemma Placement(t: nat, d: nat, turn: nat)
    requires turn <= Up(t, LevelAndOffset(d).0) && (LevelAndOffset(d).0 == 0 ==> turn == t)
    ensures var (l, off) := LevelAndOffset(d);
      && (l > 0 ==> turn + off <= Up(t + d, l))
      && (l == 0 ==> turn + off == t + Max(d, 1))
  {
    LevelFromIs(d, 0);
    var l := LevelFrom(d, 0);
    if l > 0 {
      UpAdd(t, d, l);
    }
  }

  lemma {:induction false} LevelAtMost(d: nat, l: nat, top: nat)
    requires l <= top < LEVELS && Up(d, top) < 256
    ensures LevelFrom(d, l) <= top
    decreases top - l
  {
    if l < top {
      LevelAtMost(d, l + 1, top);
    }
  }

  /** No delay between two 64-bit nanosecond times reaches the top level, where the shift that
      computes the level's span would no longer fit 64 bits. */
  lemma TopLevelUnused(d: nat)
    requires d <= 0xFFFF_FFFF_FFFF_FFFF / TICK_NS
    ensures LevelAndOffset(d).0 < LEVELS - 1
  {
    var d1 := d / 256;
    var d2 := d1 / 256;
    var d3 := d2 / 256;
    assert Up(d, 3) == Up(d1, 2) == Up(d2, 1) == Up(d3, 0) == d3;
    var d4 := d3 / 256;
    var d5 := d4 / 256;
    var d6 := d5 / 256;
    UpNext(d, 3);
    UpNext(d, 4);
    UpNext(d, 5);
    assert Up(d, 6) == d6 < 256;
    LevelAtMost(d, 0, 6);
  }

  lemma DivDiv(d: nat, k: nat)
    requires k > 0
    ensures 256 * k > 0 && d / 256 / k == d / (256 * k)
  {
    var q, r := d / 256 / k, d / 256 % k;
    assert d / 256 == q * k + r;
    assert d == 256 * (q * k + r) + d % 256;
    assert 256 * (q * k) == q * (256 * k);
    var rest := 256 * r + d % 256;
    assert 0 <= rest < 256 * k;
    assert d == q * (256 * k) + rest;
    DivUnique(d, 256 * k, q, rest);
  }

  lemma DivUnique(d: nat, k: nat, q: nat, rest: nat)
    requires k > 0 && d == q * k + rest && rest < k
    ensures d / k == q
  {
    if d / k > q {
      MulMono(q + 1, d / k, k);
    } else if d / k < q {
      MulMono(d / k + 1, q, k);
    }
  }

  lemma Pow2Bytes(l: nat)
    ensures Pow2(8 * (l + 1)) == 256 * Pow2(8 * l)
  {
    var n := 8 * l;
    assert Pow2(n + 8) == 2 * Pow2(n + 7);
    assert Pow2(n + 7) == 2 * Pow2(n + 6);
    assert Pow2(n + 6) == 2 * Pow2(n + 5);
    assert Pow2(n + 5) == 2 * Pow2(n + 4);
    assert Pow2(n + 4) == 2 * Pow2(n + 3);
    assert Pow2(n + 3) == 2 * Pow2(n + 2);
    assert Pow2(n + 2) == 2 * Pow2(n + 1);
  }

  /** Dropping digits one by one is one shift. */
  lemma {:induction false} UpIsShift(d: nat, l: nat)
    ensures Pow2(8 * l) > 0 && Up(d, l) == d / Pow2(8 * l)
  {
    if l == 0 {
      assert Pow2(0) == 1;
    } else {
      UpIsShift(d / 256, l - 1);
      Pow2Bytes(l - 1);
      DivDiv(d, Pow2(8 * (l - 1)));
    }
  }

  /** A delay is below a level's span when its offset on that level is below 256. */
  lemma BelowSpan(d: nat, l: nat)
    ensures d < Pow2(8 * (l + 1)) <==> Up(d, l) < 256
  {
    hide Up, Pow2;
    UpIsShift(d, l);
    Pow2Bytes(l);
    QuotientBelow(d, Pow2(8 * l));
  }

  lemma QuotientBelow(d: nat, k: nat)
    requires k > 0
    ensures d < 256 * k <==> d / k < 256
  {
    var q := d / k;
    assert d == q * k + d % k;
    if q < 256 {
      MulMono(q, 255, k);
    } else {
      MulMono(256, q, k);
    }
  }

  /** `level_and_bucket_offset`: the loop over the level spans. */
  method LevelAndBucketOffset(d: nat) returns (level: nat, off: nat)
    ensures (level, off) == LevelAndOffset(d)
  {
    hide Up, Pow2;
    level := 0;
    while level < LEVELS
      invariant level <= LEVELS
      invariant level < LEVELS ==> LevelFrom(d, 0) == LevelFrom(d, level)
      invariant level == LEVELS ==> LevelFrom(d, 0) == LEVELS - 1 && Up(d, LEVELS - 1) >= 256
    {
      BelowSpan(d, level);
      UpIsShift(d, level);
      if d < Pow2(8 * (level + 1)) {
        off := d / Pow2(8 * level);
        return level, Max(1, Min(off, BUCKETS - 1));
      }
      level := level + 1;
    }
    return LEVELS - 1, BUCKETS - 1;
  }
}
