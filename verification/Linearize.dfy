/** The copy of a multi-buffer frame into one byte run. The walk is bounded three ways, so it
    ends on any chain, even a circular one. */
module Linearize {
  import opened SeqArith

  /** A receive buffer: its data and the next one of its chain, if any. */
  datatype Link = Link(data: seq<u8>, next: Option<nat>)

  /** The bytes of up to `n` links from `cur` on. */
  function Walk(heap: seq<Link>, cur: Option<nat>, n: nat): seq<u8>
    decreases n
  {
    if n == 0 || cur.None? || cur.value >= |heap| then []
    else heap[cur.value].data + Walk(heap, heap[cur.value].next, n - 1)
  }

  function Take(s: seq<u8>, n: nat): seq<u8> { if n <= |s| then s[..n] else s }

  /** A proper chain: `ids` linked one to the next, the last one ending it. */
  ghost predicate IsChain(heap: seq<Link>, ids: seq<nat>) {
    && ids != [] && (forall i :: 0 <= i < |ids| ==> ids[i] < |heap|)
    && (forall i :: 0 <= i < |ids| - 1 ==> heap[ids[i]].next == Some(ids[i + 1]))
    && heap[ids[|ids| - 1]].next == None
  }

  function Bytes(heap: seq<Link>, ids: seq<nat>): seq<u8>
    requires forall i :: 0 <= i < |ids| ==> ids[i] < |heap|
  {
    if ids == [] then [] else heap[ids[0]].data + Bytes(heap, ids[1..])
  }

  /** `mbuf_data_slice_for_rx`: a single buffer as it is, otherwise the bytes of at most
      `nbSegs` links of the chain, cut at the declared packet length. */
  method DataSliceForRx(heap: seq<Link>, m: nat, nbSegs: nat, pktLen: nat) returns (buf: seq<u8>)
    requires m < |heap|
    requires forall i :: 0 <= i < |heap| && heap[i].next.Some? ==> heap[i].next.value < |heap|
    ensures buf == if nbSegs <= 1 then heap[m].data else Take(Walk(heap, Some(m), nbSegs), pktLen)
  {
    hide Walk, Take;
    if nbSegs <= 1 {
      return heap[m].data;
    }
    buf := [];
    var cur: Option<nat> := Some(m);
    var walked := 0;
    assert [] + Walk(heap, cur, nbSegs) == Walk(heap, cur, nbSegs);
    while cur.Some? && |buf| < pktLen && walked < nbSegs
      invariant walked <= nbSegs && |buf| <= pktLen && (cur.Some? ==> cur.value < |heap|)
      invariant Take(buf + Walk(heap, cur, nbSegs - walked), pktLen) == Take(Walk(heap, Some(m), nbSegs), pktLen)
      decreases nbSegs - walked
    {
      var d := heap[cur.value].data;
      var take := Min(|d|, pktLen - |buf|);
      WalkStep(heap, cur, nbSegs - walked);
      TakeStep(buf, d, Walk(heap, heap[cur.value].next, nbSegs - walked - 1), take, pktLen);
      buf := buf + d[..take];
      walked := walked + 1;
      cur := heap[cur.value].next;
    }
    WalkStep(heap, cur, nbSegs - walked);
    TakeDone(buf, Walk(heap, cur, nbSegs - walked), pktLen);
  }

  lemma WalkStep(heap: seq<Link>, cur: Option<nat>, n: nat)
    requires cur.Some? ==> cur.value < |heap|
    ensures n == 0 || cur.None? ==> Walk(heap, cur, n) == []
    ensures n > 0 && cur.Some? ==> Walk(heap, cur, n) == heap[cur.value].data + Walk(heap, heap[cur.value].next, n - 1)
  {
  }

  lemma TakeStep(buf: seq<u8>, d: seq<u8>, rest: seq<u8>, take: nat, n: nat)
    requires |buf| < n && take == Min(|d|, n - |buf|)
    ensures Take(buf + (d + rest), n) == Take(buf + d[..take] + rest, n)
  {
    if take == |d| {
      assert buf + (d + rest) == buf + d[..take] + rest;
    } else {
      assert (buf + (d + rest))[..n] == buf + d[..take] == (buf + d[..take] + rest)[..n];
    }
  }

  lemma TakeDone(buf: seq<u8>, rest: seq<u8>, n: nat)
    requires |buf| <= n && (rest == [] || |buf| >= n)
    ensures Take(buf + rest, n) == buf
  {
    assert rest == [] ==> buf + rest == buf;
  }

  /** On a proper chain whose head tells its length and size truly, that is the concatenation
      of all its buffers. */
  lemma ProperChain(heap: seq<Link>, ids: seq<nat>, pktLen: nat)
    requires IsChain(heap, ids) && pktLen == |Bytes(heap, ids)|
    ensures Take(Walk(heap, Some(ids[0]), |ids|), pktLen) == Bytes(heap, ids)
  {
    WalkChain(heap, ids);
  }

  lemma {:induction false} WalkChain(heap: seq<Link>, ids: seq<nat>)
    requires IsChain(heap, ids)
    ensures Walk(heap, Some(ids[0]), |ids|) == Bytes(heap, ids)
  {
    if |ids| == 1 {
      assert ids[1..] == [];
      assert Walk(heap, None, 0) == [];
    } else {
      assert heap[ids[0]].next == Some(ids[1]);
      WalkChain(heap, ids[1..]);
    }
  }
}
