/** What a bare ACK carries: the scaled receive window of RFC 7323 and the SACK blocks of
    RFC 2018. */
module AckOutcome {
  import opened SeqArith
  import opened Mempool
  import opened Reorder

  /** One stored run of the reorder queue, `[left, right)`. */
  datatype Block = Block(left: u32, right: u32) {
    predicate Contains(s: u32) { SeqLe(left, s) && SeqLt(s, right) }
  }

  const MAX_SACK_BLOCKS_EMIT: nat := 3

  // ---------- window scaling ----------

  /** `compute_ws_shift_for`: the least shift up to 14 under which a 16-bit window field can
      name every amount up to the buffer size. */
  method ComputeWsShift(recvBufferBytes: u32) returns (ws: nat)
    ensures ws <= 14
    ensures ws < 14 ==> recvBufferBytes < 0x1_0000 * Pow2(ws)
    ensures forall w :: 0 <= w < ws ==> recvBufferBytes >= 0x1_0000 * Pow2(w)
  {
    ws := 0;
    var cap := 0xFFFF;
    while cap < recvBufferBytes && ws < 14
      invariant ws <= 14 && cap + 1 == 0x1_0000 * Pow2(ws)
      invariant forall w :: 0 <= w < ws ==> recvBufferBytes >= 0x1_0000 * Pow2(w)
    {
      cap := 2 * cap + 1;
      ws := ws + 1;
    }
  }

  /** A right shift by `n` places. */
  function Shr(x: nat, n: nat): nat { if n == 0 then x else Shr(x / 2, n - 1) }

  lemma {:induction false} ShrBounds(x: nat, n: nat)
    ensures Shr(x, n) * Pow2(n) <= x < (Shr(x, n) + 1) * Pow2(n)
  {
    if n > 0 {
      ShrBounds(x / 2, n - 1);
      Doubled(Shr(x / 2, n - 1), Pow2(n - 1), x / 2, x);
    }
  }

  lemma Doubled(q: nat, p: nat, y: nat, x: nat)
    requires q * p <= y < (q + 1) * p && 2 * y <= x <= 2 * y + 1
    ensures q * (2 * p) <= x < (q + 1) * (2 * p)
  {
    var a, b := q * p, (q + 1) * p;
    assert q * (2 * p) == 2 * a;
    assert (q + 1) * (2 * p) == 2 * b;
  }

  /** The window field of a non-SYN segment. */
  function Window(freeSpace: u32, ws: nat): u16 { Min(Shr(freeSpace, ws), 0xFFFF) }

  /** What the peer reads out of the field never exceeds the free space. */
  lemma WindowIsHonest(freeSpace: u32, ws: nat)
    ensures Window(freeSpace, ws) * Pow2(ws) <= freeSpace
  {
    ShrBounds(freeSpace, ws);
    MulMono(Window(freeSpace, ws), Shr(freeSpace, ws), Pow2(ws));
  }

  /** For the shift chosen for a buffer below 2^30 the clamp never bites, and less than one
      unit of the scale is lost. */
  lemma WindowIsTight(recvBufferBytes: u32, freeSpace: u32, ws: nat)
    requires freeSpace <= recvBufferBytes < 0x4000_0000 && ws <= 14
    requires ws < 14 ==> recvBufferBytes < 0x1_0000 * Pow2(ws)
    ensures Shr(freeSpace, ws) <= 0xFFFF
    ensures freeSpace - Window(freeSpace, ws) * Pow2(ws) < Pow2(ws)
  {
    hide Pow2, Shr;
    PowFourteen();
    ShrBounds(freeSpace, ws);
    var p, q := Pow2(ws), Shr(freeSpace, ws);
    if q > 0xFFFF {
      MulMono(0x1_0000, q, p);
    }
    OneMore(q, p);
  }

  lemma OneMore(q: nat, p: nat)
    ensures (q + 1) * p == q * p + p
  {
  }

  /** The largest window a shift can announce reaches the buffer size exactly when the shifted
      size is below the field's maximum, or is the maximum with no bits shifted out. */
  lemma WindowReaches(recvBufferBytes: u32, ws: nat)
    ensures var q := Shr(recvBufferBytes, ws);
      0xFFFF * Pow2(ws) >= recvBufferBytes <==> q < 0xFFFF || (q == 0xFFFF && q * Pow2(ws) == recvBufferBytes)
  {
    hide Pow2, Shr;
    ShrBounds(recvBufferBytes, ws);
    var q, p := Shr(recvBufferBytes, ws), Pow2(ws);
    if q < 0xFFFF {
      MulMono(q + 1, 0xFFFF, p);
    } else if q > 0xFFFF {
      MulMono(0x1_0000, q, p);
      OneMore(0xFFFF, p);
    }
  }

  /** The shift chosen for 131071 bytes is one, and the largest window it can announce is
      131070. */
  lemma WindowFallsShort()
    ensures 0x1_0000 * Pow2(0) <= 131071 < 0x1_0000 * Pow2(1)
    ensures Window(131071, 1) * Pow2(1) == 0xFFFF * Pow2(1) == 131070
  {
    assert Pow2(0) == 1 && Pow2(1) == 2;
    assert Shr(131071, 1) == Shr(65535, 0) == 65535;
  }

  // ---------- SACK blocks ----------

  /** The indexes of the blocks emitted: the trigger's first, then the highest of the rest. */
  ghost predicate Emitted(idxs: seq<nat>, n: nat, trigger: Option<nat>) {
    && |idxs| == Min(n, MAX_SACK_BLOCKS_EMIT)
    && (forall k :: 0 <= k < |idxs| ==> idxs[k] < n)
    && (trigger.Some? ==> idxs != [] && idxs[0] == trigger.value)
    && var rest := if trigger.Some? then idxs[1..] else idxs;
    && (trigger.Some? ==> trigger.value !in rest)
    && Falling(rest)
    && (forall i, x :: 0 <= i < n && Some(i) != trigger && i !in rest && x in rest ==> i < x)
  }

  predicate Falling(s: seq<nat>) { forall j, k :: 0 <= j < k < |s| ==> s[j] > s[k] }

  lemma ConsFalls(x: nat, rest: seq<nat>)
    requires Falling(rest) && forall y :: y in rest ==> y < x
    ensures Falling([x] + rest)
  {
    var r := [x] + rest;
    forall j, k | 0 <= j < k < |r|
      ensures r[j] > r[k]
    {
      assert r[k] == rest[k - 1] && rest[k - 1] in rest;
      if j > 0 {
        assert r[j] == rest[j - 1];
      }
    }
  }

  /** The reverse walk over everything but `skip`: the highest `cap` indexes below `i`. */
  function Highest(i: nat, skip: Option<nat>, cap: nat): seq<nat>
    decreases i
  {
    if i == 0 || cap == 0 then []
    else if skip == Some(i - 1) then Highest(i - 1, skip, cap)
    else [i - 1] + Highest(i - 1, skip, cap - 1)
  }

  /** They are below `i`, skip what is to be skipped, and come in falling order. */
  lemma {:induction false} HighestFalls(i: nat, skip: Option<nat>, cap: nat)
    ensures var r := Highest(i, skip, cap);
      Falling(r) && forall x :: x in r ==> x < i && skip != Some(x)
    decreases i
  {
    hide Falling;
    NoneFall();
    if i > 0 && cap > 0 {
      if skip == Some(i - 1) {
        HighestFalls(i - 1, skip, cap);
      } else {
        HighestFalls(i - 1, skip, cap - 1);
        ConsFalls(i - 1, Highest(i - 1, skip, cap - 1));
      }
    }
  }

  lemma NoneFall()
    ensures Falling([])
  {
  }

  /** Nothing left out is higher than anything taken. */
  lemma {:induction false} HighestBest(i: nat, skip: Option<nat>, cap: nat, j: nat)
    requires j < i && Some(j) != skip && j !in Highest(i, skip, cap)
    ensures forall x :: x in Highest(i, skip, cap) ==> j < x
    decreases i
  {
    if cap > 0 && j < i - 1 {
      HighestBest(i - 1, skip, if skip == Some(i - 1) then cap else cap - 1, j);
    }
  }

  /** They are as many as there are, up to the cap. */
  lemma {:induction false} HighestCount(i: nat, skip: Option<nat>, cap: nat)
    ensures |Highest(i, skip, cap)| == Min(i - (if skip.Some? && skip.value < i then 1 else 0), cap)
    decreases i
  {
    if i > 0 && cap > 0 {
      HighestCount(i - 1, skip, if skip == Some(i - 1) then cap else cap - 1);
    }
  }

  /** The index of the first block holding the trigger. */
  method FindTrigger(stored: seq<Block>, trigger: Option<u32>) returns (found: Option<nat>)
    ensures found.Some? ==> found.value < |stored| && trigger.Some? && stored[found.value].Contains(trigger.value)
    ensures found.Some? ==> forall i :: 0 <= i < found.value ==> !stored[i].Contains(trigger.value)
    ensures found.None? && trigger.Some? ==> forall i :: 0 <= i < |stored| ==> !stored[i].Contains(trigger.value)
  {
    hide Block.Contains;
    if trigger.None? {
      return None;
    }
    for at := 0 to |stored|
      invariant forall i :: 0 <= i < at ==> !stored[i].Contains(trigger.value)
    {
      if stored[at].Contains(trigger.value) {
        return Some(at);
      }
    }
    return None;
  }

  /** The SACK part of `build_ack_outcome`, with the index of each block it emitted. */
  method SackBlocks(stored: seq<Block>, trigger: Option<u32>)
    returns (blocks: seq<Block>, ghost idxs: seq<nat>, found: Option<nat>)
    ensures found.Some? ==> found.value < |stored| && trigger.Some? && stored[found.value].Contains(trigger.value)
    ensures found.None? && trigger.Some? ==> forall i :: 0 <= i < |stored| ==> !stored[i].Contains(trigger.value)
    ensures Emitted(idxs, |stored|, found) && |blocks| == |idxs|
    ensures forall k :: 0 <= k < |blocks| ==> idxs[k] < |stored| && blocks[k] == stored[idxs[k]]
  {
    hide Block.Contains, Emitted;
    found := FindTrigger(stored, trigger);
    blocks, idxs := if found.Some? then [stored[found.value]] else [], if found.Some? then [found.value] else [];
    ghost var first := idxs;
    var cap := Min(|stored|, MAX_SACK_BLOCKS_EMIT) - |blocks|;
    ghost var rest := Highest(|stored|, found, cap);
    var i := |stored|;
    while i > 0 && cap > 0
      invariant 0 <= i <= |stored| && 0 <= cap && idxs + Highest(i, found, cap) == first + rest && |blocks| == |idxs|
      invariant forall k :: 0 <= k < |blocks| ==> idxs[k] < |stored| && blocks[k] == stored[idxs[k]]
    {
      i := i - 1;
      if Some(i) != found {
        assert idxs + ([i] + Highest(i, found, cap - 1)) == (idxs + [i]) + Highest(i, found, cap - 1);
        blocks, idxs, cap := blocks + [stored[i]], idxs + [i], cap - 1;
      }
    }
    assert idxs == first + rest;
    HighestCount(|stored|, found, Min(|stored|, MAX_SACK_BLOCKS_EMIT) - |first|);
    EmittedBy(first, rest, |stored|, found);
  }

  lemma EmittedBy(first: seq<nat>, rest: seq<nat>, n: nat, found: Option<nat>)
    requires first == if found.Some? then [found.value] else []
    requires found.Some? ==> found.value < n
    requires rest == Highest(n, found, Min(n, MAX_SACK_BLOCKS_EMIT) - |first|)
    ensures Emitted(first + rest, n, found)
  {
    hide Highest, Falling;
    var cap := Min(n, MAX_SACK_BLOCKS_EMIT) - |first|;
    HighestFalls(n, found, cap);
    HighestCount(n, found, cap);
    forall i | 0 <= i < n && Some(i) != found && i !in rest
      ensures forall x :: x in rest ==> i < x
    {
      HighestBest(n, found, cap, i);
    }
    assert forall k :: 0 <= k < |first + rest| ==> (first + rest)[k] in first || (first + rest)[k] in rest;
    assert found.Some? ==> (first + rest)[1..] == rest;
    assert found.None? ==> first + rest == rest;
  }

  // ---------- the contiguity of the first block ----------

  /** The blocks of the stored segments, as `emit_ack` reads them. */
  function Blocks(segs: seq<OooSegment>): seq<Block> {
    seq(|segs|, i requires 0 <= i < |segs| => Block(segs[i].seqno, segs[i].EndSeq()))
  }

  lemma BlockCovers(base: u32, seg: OooSegment, s: u32)
    requires Lift(base, seg).Fits() && Off(base, s) < 0x8000_0000
    ensures Block(seg.seqno, seg.EndSeq()).Contains(s) <==> Lift(base, seg).Covers(Off(base, s))
    ensures Off(base, seg.EndSeq()) == Lift(base, seg).Hi()
  {
    OffAdd(base, seg.seqno, seg.len);
    SeqOrder(base, seg.seqno, s);
    SeqOrder(base, s, seg.EndSeq());
  }

  /** No stored byte touches the run `[lo, hi)`. */
  ghost predicate Apart(ws: seq<Window>, lo: int, hi: int) { At(ws, lo - 1).None? && At(ws, hi).None? }

  /** The positions `[lo, hi)` are all free. */
  ghost predicate Vacant(ws: seq<Window>, lo: int, hi: int) { forall p :: lo <= p < hi ==> At(ws, p).None? }

  /** A window stored before the arrival that holds its first byte ends inside the arrival. */
  lemma KeptWindow(before: seq<Window>, pieces: seq<Window>, s: int, e: int, w: Window)
    requires Sorted(before) && pieces != [] && Filling(before, pieces, s, e, e) && w in before && w.Covers(s)
    ensures At(before, s).Some? && s <= w.Hi() < e
  {
    hide At;
    assert Free(before, pieces[0]) && pieces[0].Covers(pieces[0].lo);
    var i :| 0 <= i < |before| && before[i] == w;
    AtSolid(before, i);
    assert !w.Covers(pieces[0].lo);
  }

  /** A window the arrival added that holds its first byte starts there, and reaches to the end
      exactly when nothing was stored on the way. */
  lemma NewWindow(before: seq<Window>, pieces: seq<Window>, k: nat, after: seq<Window>, m: Mbuf, offset: int, s: int,
                  e: int)
    requires Sorted(before) && k < |pieces| && Filling(before, pieces, s, e, e)
             && Overlaid(before, m, offset, s, e, after)
    requires pieces[k].Covers(s)
    ensures Apart(after, pieces[k].lo, pieces[k].Hi()) <==> Vacant(before, s, e) && Apart(before, s, e)
    ensures pieces[k].lo == s && At(before, s).None?
  {
    hide At;
    assert Free(before, pieces[k]);
  }

  /** Of what an arrival `[s, e)` leaves stored, the window holding its first byte is a whole
      contiguous run exactly when the arrival met nothing stored and touched nothing stored. */
  lemma FirstWindow(before: seq<Window>, pieces: seq<Window>, after: seq<Window>, m: Mbuf, offset: int, s: int, e: int,
                    w: Window)
    requires Sorted(before) && Sorted(after) && Joined(before, pieces, after) && pieces != []
    requires Filling(before, pieces, s, e, e) && Overlaid(before, m, offset, s, e, after)
    requires w in after && w.Covers(s)
    ensures Apart(after, w.lo, w.Hi()) <==> Vacant(before, s, e) && Apart(before, s, e)
    ensures At(before, s).None? ==> w.lo == s
  {
    if w in before {
      KeptWindow(before, pieces, s, e, w);
    } else {
      var k :| 0 <= k < |pieces| && pieces[k] == w;
      NewWindow(before, pieces, k, after, m, offset, s, e);
    }
  }

  /** An arrival out of order, and the acknowledgment behind it with the arrival as its trigger.
      RFC 2018 section 4 asks for the whole contiguous run around the arrival as the first
      block. When all of the arrival fits and some of it is new, the first block is that run
      exactly when the arrival met and touched nothing stored, because stored windows are never
      joined. */
  method ReportArrival(q: ReorderQueue, seqno: u32, len: nat, m: Mbuf, payloadOffset: u16, ghost base: u32,
                       ghost held: multiset<Mbuf>)
    returns (o: InsertOutcome, blocks: seq<Block>)
    requires q.Valid(base) && q.pool.Balanced(held + Refs(View(base, q.segments)) + multiset{m})
    requires Off(base, seqno) + len < 0x8000_0000 && payloadOffset + len < 0x1_0000
    modifies q, q.pool`refcnt
    ensures q.Valid(base) && o.newlyBuffered == q.totalBytes - old(q.totalBytes)
    ensures q.pool.Balanced(held + Refs(View(base, q.segments)) + if o.refRetained then multiset{} else multiset{m})
    ensures o.newlyBuffered + o.capDropped == Uncovered(View(base, old(q.segments)), Off(base, seqno),
            Off(base, seqno) + len)
    ensures o.refRetained <==> o.newlyBuffered > 0
    ensures if o.capDropped == 0 then
              Overlaid(View(base, old(q.segments)), m, payloadOffset, Off(base, seqno), Off(base, seqno) + len,
                  View(base, q.segments))
            else q.totalBytes == q.cap
    ensures o.newlyBuffered > 0 && o.capDropped == 0 ==>
              blocks != [] && Reported(View(base, old(q.segments)), base, q.segments, blocks[0], seqno, len)
  {
    hide At, Uncovered, SeqSub, MbufPool.Balanced, Filling, Joined, Overlaid, TotalLen, Refs, Reported, Sorted, Blocks,
         View, Block.Contains, Falling;
    ghost var before := View(base, q.segments);
    ghost var cut, pieces;
    ghost var s := Off(base, seqno);
    o, cut, pieces := q.Insert(seqno, len, m, payloadOffset, base, held);
    ghost var after := View(base, q.segments);
    if o.capDropped == 0 {
      assert cut == s + len;
      assert Overlaid(before, m, payloadOffset, s, cut, after);
      assert Overlaid(before, m, payloadOffset, s, s + len, after);
      assert Filling(before, pieces, s, s + len, cut);
      assert Filling(before, pieces, s, s + len, s + len);
    }
    ghost var idxs;
    var found;
    blocks, idxs, found := SackBlocks(Blocks(q.segments), if o.newlyBuffered > 0 then Some(seqno) else None);
    if o.newlyBuffered > 0 && o.capDropped == 0 {
      ArrivalFound(before, pieces, base, q.segments, m, payloadOffset, seqno, len, found);
    }
  }

  lemma OverlaidReads(before: seq<Window>, after: seq<Window>, m: Mbuf, offset: int, s: int, cut: int)
    requires Overlaid(before, m, offset, s, cut, after)
    ensures forall p :: At(before, p).Some? ==> At(after, p).Some?
    ensures forall p :: s <= p < cut ==> At(after, p).Some?
    ensures forall p :: At(before, p).None? && !(s <= p < cut) ==> At(after, p).None?
  {
  }

  lemma SameLeft(base: u32, a: u32, b: u32)
    ensures Off(base, a) == Off(base, b) <==> a == b
  {
  }

  /** Some block holds the trigger. */
  lemma ArrivalListed(base: u32, segs: seq<OooSegment>, seqno: u32)
    requires Sorted(View(base, segs)) && Off(base, seqno) < 0x8000_0000 && At(View(base, segs), Off(base, seqno)).Some?
    ensures exists i :: 0 <= i < |segs| && Blocks(segs)[i].Contains(seqno)
  {
    hide Block.Contains, SeqSub;
    AtMissAll(View(base, segs), Off(base, seqno));
    var i :| 0 <= i < |segs| && View(base, segs)[i].Covers(Off(base, seqno));
    BlockCovers(base, segs[i], seqno);
    assert Blocks(segs)[i].Contains(seqno);
  }

  /** What the search for the trigger of an arrival `[seqno, seqno + len)` comes to. */
  lemma ArrivalFound(before: seq<Window>, pieces: seq<Window>, base: u32, segs: seq<OooSegment>, m: Mbuf, offset: int,
                     seqno: u32, len: nat, found: Option<nat>)
    requires Sorted(before) && Sorted(View(base, segs)) && Joined(before, pieces, View(base, segs)) && pieces != []
    requires Filling(before, pieces, Off(base, seqno), Off(base, seqno) + len, Off(base, seqno) + len)
    requires Overlaid(before, m, offset, Off(base, seqno), Off(base, seqno) + len, View(base, segs))
    requires Off(base, seqno) + len < 0x8000_0000
    requires found.Some? ==> found.value < |Blocks(segs)| && Blocks(segs)[found.value].Contains(seqno)
    requires found.None? ==> forall i :: 0 <= i < |Blocks(segs)| ==> !Blocks(segs)[i].Contains(seqno)
    ensures found.Some? && found.value < |Blocks(segs)|
    ensures Reported(before, base, segs, Blocks(segs)[found.value], seqno, len)
  {
    hide At, SeqSub, SeqAdd, Block.Contains, Joined, Overlaid, Apart, Vacant, Free;
    var after, s := View(base, segs), Off(base, seqno);
    assert pieces[0].Hi() <= s + len;
    OverlaidReads(before, after, m, offset, s, s + len);
    ArrivalListed(base, segs, seqno);
    var seg := segs[found.value];
    assert after[found.value] == Lift(base, seg);
    BlockCovers(base, seg, seqno);
    FirstWindow(before, pieces, after, m, offset, s, s + len, Lift(base, seg));
    SameLeft(base, seg.seqno, seqno);
  }

  /** The block `b` holds the arrival's first byte; it is a whole contiguous run of what is stored
      exactly when the arrival met and touched nothing stored; and it starts at the arrival when
      that byte is new. */
  ghost predicate Reported(before: seq<Window>, base: u32, segs: seq<OooSegment>, b: Block, seqno: u32, len: nat) {
    && b.Contains(seqno)
    && (Apart(View(base, segs), Off(base, b.left), Off(base, b.right)) <==>
          Vacant(before, Off(base, seqno), Off(base, seqno) + len)
              && Apart(before, Off(base, seqno), Off(base, seqno) + len))
    && (At(before, Off(base, seqno)).None? ==> b.left == seqno)
  }

  lemma AtMissAll(ws: seq<Window>, p: int)
    requires At(ws, p).Some?
    ensures exists i :: 0 <= i < |ws| && ws[i].Covers(p)
  {
    if forall i :: 0 <= i < |ws| ==> !ws[i].Covers(p) {
      AtMiss(ws, p);
    }
  }

  /** Two adjacent segments arriving one after the other: the block reported first starts at the
      second, although the run reaches down over the first. */
  method TouchingArrivals() returns (q: ReorderQueue, blocks: seq<Block>)
    ensures fresh(q) && blocks != [] && blocks[0].left == 200 && At(View(0, q.segments), 199).Some?
  {
    hide At, Uncovered, SeqAdd, MbufPool.Balanced, TotalLen, Refs, Apart, Vacant, Sorted, View, Overlaid,
         Block.Contains;
    var pool := new MbufPool({0, 1});
    q := new ReorderQueue(1000, pool);
    NothingStored();
    var payload := seq(100, _ => 0);
    var a := pool.Alloc(payload, multiset{});
    assert multiset{} + multiset{a.value} == multiset{} + multiset{} + multiset{a.value};
    UncoveredAll([], 100, 200);
    var o, none := ReportArrival(q, 100, 100, a.value, 0, 0, multiset{});
    ghost var mid := View(0, q.segments);
    OverlaidReads([], mid, a.value, 0, 100, 200);
    UncoveredAll(mid, 200, 300);
    assert multiset{} + Refs(View(0, q.segments)) + multiset{} == Refs(View(0, q.segments));
    var b := pool.Alloc(payload, Refs(View(0, q.segments)));
    assert multiset{} + Refs(View(0, q.segments)) + multiset{b.value} == Refs(View(0, q.segments)) + multiset{b.value};
    o, blocks := ReportArrival(q, 200, 100, b.value, 0, 0, multiset{});
    OverlaidReads(mid, View(0, q.segments), b.value, 0, 200, 300);
  }

  lemma NothingStored()
    ensures View(0, []) == [] && Refs([]) == multiset{} && Sorted([]) && TotalLen([]) == 0
    ensures forall p :: At([], p).None?
  {
  }
}
