/** The receive path of one connection: in-order append and out-of-order store, the FIN, and the
    pop of what is delivered. Whatever else holds buffers (other connections, queued events, the
    burst) appears as an arbitrary multiset of references. */
module RxPath {
  import opened SeqArith
  import opened Mempool
  import opened Reorder
  import opened Events

  /** A parsed data segment: its sequence number, FIN flag and the payload window inside its
      buffer's data region. */
  datatype Segment = Segment(seqno: u32, fin: bool, len: nat, offset: nat)

  datatype RxOutcome = RxOutcome(delivered: u32, bufFullDrop: u32, refRetained: bool, finTaken: bool)

  /** The outcome of the handler's checks before and after the window test. */
  datatype Verdict = Reset | Reject | Accept

  /** The sequence-window test of the ESTABLISHED handler: the first and the last sequence
      number must lie in the window, and a bare ACK must sit at the next expected byte. */
  predicate WindowTest(rcvNxt: u32, wnd: u32, seg: Segment) {
    var segLen := seg.len + if seg.fin then 1 else 0;
    if segLen == 0 then seg.seqno == rcvNxt
    else InWindow(rcvNxt, seg.seqno, wnd) && InWindow(rcvNxt, SeqAdd(seg.seqno, segLen - 1), wnd)
  }

  predicate Accepts(verdict: Verdict, finSeen: bool, rcvNxt: u32, wnd: u32, seg: Segment) {
    verdict == Accept && !finSeen && WindowTest(rcvNxt, wnd, seg)
  }

  /** Testing both edges puts the whole segment inside the window, so an accepted segment is
      never behind the next expected byte. */
  lemma WindowFits(rcvNxt: u32, wnd: u32, seg: Segment)
    requires wnd <= 0xFFFF && seg.len < 0x1_0000
    ensures WindowTest(rcvNxt, wnd, seg) ==>
      && Off(rcvNxt, seg.seqno) + seg.len + (if seg.fin then 1 else 0) <= Max(wnd, 0)
      && (seg.seqno != rcvNxt ==> SeqLt(rcvNxt, seg.seqno) && 0 < Off(rcvNxt, seg.seqno))
      && (seg.seqno == rcvNxt ==> Off(rcvNxt, seg.seqno) == 0)
  {
    var segLen := seg.len + if seg.fin then 1 else 0;
    if WindowTest(rcvNxt, wnd, seg) && segLen > 0 {
      OffAdd(rcvNxt, seg.seqno, segLen - 1);
      SeqOrder(rcvNxt, rcvNxt, seg.seqno);
    }
  }

  // ---------- reading buffer bytes ----------

  function Lookup(data: map<Mbuf, seq<u8>>, r: ByteRef): Option<u8> {
    if r.mbuf in data && 0 <= r.pos < |data[r.mbuf]| then Some(data[r.mbuf][r.pos]) else None
  }

  /** The buffer bytes `refs` exist and read as `payload`. */
  ghost predicate Holds(data: map<Mbuf, seq<u8>>, refs: seq<ByteRef>, payload: seq<u8>) {
    |refs| == |payload| && forall i :: 0 <= i < |refs| ==> Lookup(data, refs[i]) == Some(payload[i])
  }

  /** Every stored byte exists. */
  ghost predicate InData(data: map<Mbuf, seq<u8>>, ws: seq<Window>) {
    forall p :: At(ws, p).Some? ==> Lookup(data, At(ws, p).value).Some?
  }

  /** Every stored byte is the peer's byte for its position, `t` being the position of the
      base. */
  ghost predicate Mirrors(data: map<Mbuf, seq<u8>>, ws: seq<Window>, stream: seq<u8>, t: nat) {
    forall p :: At(ws, p).Some? ==> 0 <= t + p < |stream| && Lookup(data, At(ws, p).value) == Some(stream[t + p])
  }

  /** Everything stored lies at or ahead of the base and inside the receive window. */
  ghost predicate Ahead(ws: seq<Window>, wnd: int) {
    forall p :: At(ws, p).Some? ==> 0 <= p < wnd
  }

  /** The window of a segment's buffer is the peer's payload for stream position `t`. */
  ghost predicate Genuine(data: map<Mbuf, seq<u8>>, m: Mbuf, seg: Segment, stream: seq<u8>, t: nat) {
    && m in data && seg.offset + seg.len <= |data[m]| && t + seg.len <= |stream|
    && data[m][seg.offset..seg.offset + seg.len] == stream[t..t + seg.len]
    && (seg.fin ==> t + seg.len == |stream|)
  }

  /** What an in-order segment appends: `take` bytes of its own buffer, then what was stored
      for the positions after them. */
  ghost predicate Appended(ws: seq<Window>, m: Mbuf, offset: int, take: int, refs: seq<ByteRef>) {
    && 0 <= take <= |refs|
    && (forall k :: 0 <= k < take ==> refs[k] == ByteRef(m, offset + k))
    && (forall k :: take <= k < |refs| ==> At(ws, k) == Some(refs[k]))
  }

  lemma GenuineByte(data: map<Mbuf, seq<u8>>, m: Mbuf, seg: Segment, stream: seq<u8>, t: nat, k: nat)
    requires Genuine(data, m, seg, stream, t) && k < seg.len
    ensures Lookup(data, ByteRef(m, seg.offset + k)) == Some(stream[t + k])
  {
    assert data[m][seg.offset + k] == data[m][seg.offset..seg.offset + seg.len][k];
    assert stream[t + k] == stream[t..t + seg.len][k];
  }

  function Payload(data: map<Mbuf, seq<u8>>, refs: seq<ByteRef>): seq<u8> {
    seq(|refs|, i requires 0 <= i < |refs| =>
      var r := Lookup(data, refs[i]); if r.Some? then r.value else 0)
  }

  lemma AppendedHolds(data: map<Mbuf, seq<u8>>, ws: seq<Window>, m: Mbuf, offset: int, take: int, refs: seq<ByteRef>)
    requires InData(data, ws) && Appended(ws, m, offset, take, refs)
    requires m in data && 0 <= offset && (take > 0 ==> offset + take <= |data[m]|)
    ensures Holds(data, refs, Payload(data, refs))
  {
    forall i | 0 <= i < |refs|
      ensures Lookup(data, refs[i]).Some?
    {
      if i >= take {
        assert At(ws, i) == Some(refs[i]);
      }
    }
  }

  /** A genuine in-order segment extends the received prefix by the peer's next bytes, and
      the store still mirrors the stream from the new base. */
  lemma InOrderMirrors(data: map<Mbuf, seq<u8>>, ws: seq<Window>, after: seq<Window>, stream: seq<u8>, t: nat, m: Mbuf,
                       seg: Segment, take: int, refs: seq<ByteRef>)
    requires Mirrors(data, ws, stream, t) && Genuine(data, m, seg, stream, t)
    requires Appended(ws, m, seg.offset, take, refs) && take <= seg.len
    requires forall p :: At(after, p).Some? ==> At(after, p) == At(ws, p + |refs|)
    ensures t + |refs| <= |stream| && Payload(data, refs) == stream[t..t + |refs|]
    ensures Mirrors(data, after, stream, t + |refs|)
  {
    forall i | 0 <= i < |refs|
      ensures t + i < |stream| && Lookup(data, refs[i]) == Some(stream[t + i])
    {
      if i >= take {
        assert At(ws, i) == Some(refs[i]);
      } else {
        GenuineByte(data, m, seg, stream, t, i);
      }
    }
    if |refs| > 0 {
      assert Lookup(data, refs[|refs| - 1]).Some?;
    }
  }

  /** Storing a genuine window keeps the store a mirror of the stream. */
  lemma StoreMirrors(data: map<Mbuf, seq<u8>>, ws: seq<Window>, after: seq<Window>, stream: seq<u8>, t: nat, m: Mbuf,
                     seg: Segment, s: nat, cut: int)
    requires Mirrors(data, ws, stream, t) && Genuine(data, m, seg, stream, t + s)
    requires Overlaid(ws, m, seg.offset, s, cut, after) && cut <= s + seg.len
    ensures Mirrors(data, after, stream, t)
  {
    forall p | At(after, p).Some?
      ensures 0 <= t + p < |stream| && Lookup(data, At(after, p).value) == Some(stream[t + p])
    {
      if At(ws, p).None? {
        GenuineByte(data, m, seg, stream, t + s, p - s);
      }
    }
  }

  lemma StoreBounds(data: map<Mbuf, seq<u8>>, ws: seq<Window>, after: seq<Window>, m: Mbuf, offset: int, s: int,
                    cut: int, e: int, wnd: int)
    requires InData(data, ws) && Ahead(ws, wnd) && Overlaid(ws, m, offset, s, cut, after)
    requires 0 <= s && cut <= e <= wnd && m in data && 0 <= offset && offset + (e - s) <= |data[m]|
    ensures InData(data, after) && Ahead(after, wnd)
  {
  }

  lemma {:induction false} RefsOwned(segs: seq<InOrderSegment>)
    ensures forall i :: 0 <= i < |BytesOf(segs)| ==> BytesOf(segs)[i].mbuf in InRefs(segs)
  {
    if segs != [] {
      RefsOwned(segs[1..]);
      assert segs == [segs[0]] + segs[1..];
      assert InBufs(segs) == [segs[0].mbuf] + InBufs(segs[1..]);
    }
  }

  lemma {:induction false} AtOwned(ws: seq<Window>, p: int)
    requires At(ws, p).Some?
    ensures At(ws, p).value.mbuf in Refs(ws)
  {
    assert ws == [ws[0]] + ws[1..];
    assert Bufs(ws) == [ws[0].mbuf] + Bufs(ws[1..]);
    if !ws[0].Covers(p) {
      AtOwned(ws[1..], p);
    }
  }

  function {:induction false} Buffered(segs: seq<InOrderSegment>): nat {
    if segs == [] then 0 else segs[0].len + Buffered(segs[1..])
  }

  lemma {:induction false} BufferedBytes(segs: seq<InOrderSegment>)
    ensures Buffered(segs) == |BytesOf(segs)|
  {
    if segs != [] {
      BufferedBytes(segs[1..]);
    }
  }

  lemma DrainedNothing(r0: int, room: int)
    requires 0 <= room
    ensures Drained([], r0, [], 0, room, []) && BytesOf([]) == []
    ensures forall base: u32 :: Reorder.View(base, []) == []
  {
  }

  /** Where the payload of an accepted segment went, `s` being its position: in order, `take` bytes
      behind what was taken, followed by the stored bytes they connect to; out of order, the first
      `stored` bytes into the free positions of the queue. */
  ghost predicate Placement(ws: seq<Window>, after: seq<Window>, s: nat, m: Mbuf, seg: Segment, take: int, stored: int,
                            cut: int, refs: seq<ByteRef>)
  {
    if seg.len == 0 then refs == [] && after == ws
    else if s == 0 then Appended(ws, m, seg.offset, take, refs) && KeptBehind(ws, |refs|, cut, after)
    else refs == [] && Overlaid(ws, m, seg.offset, s, s + stored, after)
  }

  lemma PlacedInOrder(ws: seq<Window>, after: seq<Window>, m: Mbuf, seg: Segment, take: int, stored: int, cut: int,
                      refs: seq<ByteRef>)
    requires Placement(ws, after, 0, m, seg, take, stored, cut, refs) && (seg.len == 0 ==> take == 0)
    ensures Appended(ws, m, seg.offset, take, refs) && take <= |refs|
  {
  }

  /** The queue `ws` once `n` more bytes were taken in order and the `cut` behind them thrown
      away for lack of room: everything else is still stored. */
  ghost predicate KeptBehind(ws: seq<Window>, n: nat, cut: int, after: seq<Window>) {
    forall p :: At(after, p) == if p < cut then None else At(ws, p + n)
  }

  lemma KeptStored(ws: seq<Window>, n: nat, cut: int, after: seq<Window>)
    requires KeptBehind(ws, n, cut, after)
    ensures forall p :: At(after, p).Some? ==> At(after, p) == At(ws, p + n)
  {
    hide At;
  }

  /** After an in-order segment of which `take` bytes went in and a drain behind it, the queue
      seen from the new next expected byte. */
  lemma AfterDrain(base: u32, before: seq<OooSegment>, segs: seq<OooSegment>, take: nat, refs: seq<ByteRef>,
                   dropped: int, room: int, wnd: int)
    requires Sorted(Reorder.View(base, segs)) && Ahead(Reorder.View(base, before), wnd)
    requires Drained(Reorder.View(base, before), take, refs, dropped, room, Reorder.View(base, segs))
    ensures var after := Reorder.View(SeqAdd(base, take + |refs|), segs);
      && Sorted(after) && Ahead(after, wnd) && At(after, 0).None?
         && TotalLen(after) == TotalLen(Reorder.View(base, segs))
      && Refs(after) == Refs(Reorder.View(base, segs))
      && (forall p :: At(after, p).Some? ==> At(after, p) == At(Reorder.View(base, before), p + (take + |refs|)))
      && KeptBehind(Reorder.View(base, before), take + |refs|, dropped, after)
  {
    hide At, TotalLen, Refs, Sorted, Reorder.View, SeqAdd;
    Rebase(base, take + |refs|, segs);
  }

  lemma AppendedBoth(ws: seq<Window>, m: Mbuf, offset: nat, take: nat, drained: seq<ByteRef>)
    requires forall k :: 0 <= k < |drained| ==> At(ws, take + k) == Some(drained[k])
    ensures Appended(ws, m, offset, take, seq(take, k requires 0 <= k => ByteRef(m, offset + k)) + drained)
  {
    var refs := seq(take, k requires 0 <= k => ByteRef(m, offset + k)) + drained;
    forall k | take <= k < |refs|
      ensures At(ws, k) == Some(refs[k])
    {
      assert At(ws, take + (k - take)) == Some(drained[k - take]);
    }
  }

  lemma HeadBytes(m: Mbuf, offset: int, head: seq<InOrderSegment>)
    requires |head| <= 1 && forall i :: 0 <= i < |head| ==> head[i].mbuf == m && head[i].offset == offset
    ensures BytesOf(head) == seq(|BytesOf(head)|, k requires 0 <= k => ByteRef(m, offset + k))
    ensures InRefs(head) == if head == [] then multiset{} else multiset{m}
    ensures |BytesOf(head)| == if head == [] then 0 else head[0].len
    ensures BytesOf([]) == []
  {
    if head != [] {
      assert head[1..] == [];
      assert head == [] + [head[0]];
      SnocBytes([], head[0]);
    }
  }

  lemma NoBytes()
    ensures BytesOf([]) == [] && InBufs([]) == []
    ensures forall data: map<Mbuf, seq<u8>> :: Payload(data, []) == []
    ensures forall ws, m, offset :: Appended(ws, m, offset, 0, [])
  {
  }

  lemma Advance(base: u32, n: nat)
    requires n < 0x1_0000_0000
    ensures Off(base, SeqAdd(base, n)) == n
  {
  }

  lemma HoldsLength(data: map<Mbuf, seq<u8>>, refs: seq<ByteRef>, payload: seq<u8>)
    requires Holds(data, refs, payload)
    ensures |refs| == |payload|
  {
  }

  lemma HoldsConcat(data: map<Mbuf, seq<u8>>, a: seq<ByteRef>, pa: seq<u8>, b: seq<ByteRef>, pb: seq<u8>)
    requires Holds(data, a, pa) && Holds(data, b, pb)
    ensures Holds(data, a + b, pa + pb)
  {
  }

  /** Everything but the stream books about one in-order segment: `b` bytes were waiting, and
      `take` of the segment's went in before the drain. */
  lemma InOrderDone(data: map<Mbuf, seq<u8>>, base: u32, before: seq<OooSegment>, segs: seq<OooSegment>, wnd: int,
                    cap: int, b: int, m: Mbuf, seg: Segment, take: nat, head: seq<InOrderSegment>,
                    drained: seq<InOrderSegment>, dropped: int)
    requires Sorted(Reorder.View(base, segs)) && Ahead(Reorder.View(base, before), wnd)
    requires InData(data, Reorder.View(base, before))
    requires BytesOf(head) == seq(take, k requires 0 <= k => ByteRef(m, seg.offset + k))
    requires Drained(Reorder.View(base, before), take, BytesOf(drained), dropped, cap - (b + take),
             Reorder.View(base, segs))
    requires 0 <= take <= seg.len && m in data && (take > 0 ==> seg.offset + seg.len <= |data[m]|)
    ensures var ws, refs := Reorder.View(base, before), BytesOf(head + drained);
            var after := Reorder.View(SeqAdd(base, |refs|), segs);
      && |refs| == take + |BytesOf(drained)| <= cap - b
      && Appended(ws, m, seg.offset, take, refs) && Holds(data, refs, Payload(data, refs))
      && Sorted(after) && Ahead(after, wnd) && InData(data, after) && At(after, 0).None?
      && TotalLen(after) == TotalLen(Reorder.View(base, segs)) && Refs(after) == Refs(Reorder.View(base, segs))
      && (forall p :: At(after, p).Some? ==> At(after, p) == At(ws, p + |refs|))
      && 0 <= dropped < 0x1_0000 && (b == 0 && take == seg.len && wnd <= cap ==> dropped == 0)
      && KeptBehind(ws, |refs|, dropped, after) && (dropped > 0 ==> b + |refs| == cap)
  {
    hide At, TotalLen, Refs, Sorted, BytesOf, Holds, Appended, Reorder.View, Payload, KeptBehind;
    BytesOfConcat(head, drained);
    AfterDrain(base, before, segs, take, BytesOf(drained), dropped, cap - (b + take), wnd);
    AppendedBoth(Reorder.View(base, before), m, seg.offset, take, BytesOf(drained));
    AppendedHolds(data, Reorder.View(base, before), m, seg.offset, take, BytesOf(head + drained));
    if dropped > 0 {
      assert At(Reorder.View(base, before), take + |BytesOf(drained)|).Some?;
    }
  }

  lemma InOrderStream(data: map<Mbuf, seq<u8>>, ws: seq<Window>, after: seq<Window>, stream: seq<u8>, taken: seq<u8>,
                      m: Mbuf, seg: Segment, take: int, refs: seq<ByteRef>)
    requires taken <= stream && Mirrors(data, ws, stream, |taken|)
    requires take > 0 ==> Genuine(data, m, seg, stream, |taken|)
    requires Appended(ws, m, seg.offset, take, refs) && take <= seg.len
    requires forall p :: At(after, p).Some? ==> At(after, p) == At(ws, p + |refs|)
    ensures |Payload(data, refs)| == |refs| && taken + Payload(data, refs) <= stream
            && Mirrors(data, after, stream, |taken| + |refs|)
  {
    if take > 0 {
      InOrderMirrors(data, ws, after, stream, |taken|, m, seg, take, refs);
    } else {
      forall i | 0 <= i < |refs|
        ensures |taken| + i < |stream| && Lookup(data, refs[i]) == Some(stream[|taken| + i])
      {
        assert At(ws, i) == Some(refs[i]);
      }
      assert |refs| > 0 ==> Lookup(data, refs[|refs| - 1]).Some?;
    }
  }

  lemma RegroupStored(held: multiset<Mbuf>, a: multiset<Mbuf>, b: multiset<Mbuf>, c: multiset<Mbuf>)
    ensures held + (a + b) + c == held + a + b + c
  {
  }

  lemma RegroupBump(held: multiset<Mbuf>, a: multiset<Mbuf>, c: multiset<Mbuf>)
    ensures held + a + c == held + c + a
  {
  }

  lemma NoAdvance(a: u32)
    ensures SeqAdd(a, 0) == a
  {
  }

  /** Stepping over the FIN: nothing was stored at the next expected byte. */
  lemma StepFin(data: map<Mbuf, seq<u8>>, base: u32, segs: seq<OooSegment>, wnd: int, stream: seq<u8>, t: nat)
    requires Sorted(Reorder.View(base, segs)) && Ahead(Reorder.View(base, segs), wnd)
             && InData(data, Reorder.View(base, segs))
    requires At(Reorder.View(base, segs), 0).None?
    ensures var after := Reorder.View(SeqAdd(base, 1), segs);
      && Sorted(after) && Ahead(after, wnd) && InData(data, after)
      && TotalLen(after) == TotalLen(Reorder.View(base, segs)) && Refs(after) == Refs(Reorder.View(base, segs))
  {
    hide At, TotalLen, Refs, Sorted, Reorder.View;
    Rebase(base, 1, segs);
  }

  /** Nothing more was appended than the segment's own bytes when they were cut short, so the
      stream is complete exactly when the whole payload went in. */
  lemma FinComplete(data: map<Mbuf, seq<u8>>, ws: seq<Window>, m: Mbuf, seg: Segment, stream: seq<u8>, taken: seq<u8>,
                    take: nat, refs: seq<ByteRef>, room: int)
    requires Genuine(data, m, seg, stream, |taken|) && seg.fin && Appended(ws, m, seg.offset, take, refs)
    requires take <= seg.len && |refs| <= room && taken + Payload(data, refs) <= stream
    requires take < seg.len ==> take == room || (take == 0 && At(ws, 0).None?)
    ensures taken + Payload(data, refs) == stream <==> take == seg.len
  {
    assert take < seg.len ==> |refs| == take;
  }

  lemma StoreAhead(ws: seq<Window>, m: Mbuf, offset: int, s: int, cut: int, after: seq<Window>)
    requires Overlaid(ws, m, offset, s, cut, after) && 0 < s
    ensures At(ws, 0).None? ==> At(after, 0).None?
  {
  }

  /** A connection that has received nothing. */
  lemma FreshConn(data: map<Mbuf, seq<u8>>, stream: seq<u8>, base: u32, wnd: int)
    ensures Reorder.View(base, []) == [] && Refs([]) == multiset{} && InRefs([]) == multiset{} && BytesOf([]) == []
    ensures Ahead([], wnd) && InData(data, []) && Mirrors(data, [], stream, 0) && Holds(data, [], [])
  {
  }

  lemma FrontBytes(bytes: seq<InOrderSegment>)
    requires bytes != []
    ensures BytesOf(bytes) == SegBytes(bytes[0]) + BytesOf(bytes[1..])
    ensures InRefs(bytes) == multiset{bytes[0].mbuf} + InRefs(bytes[1..])
  {
    assert bytes == [bytes[0]] + bytes[1..];
    InRefsConcat([bytes[0]], bytes[1..]);
    assert InBufs([bytes[0]]) == [bytes[0].mbuf];
  }

  /** Moving the whole front segment keeps the bytes and the references. */
  lemma MoveFront(out: seq<InOrderSegment>, bytes: seq<InOrderSegment>)
    requires bytes != []
    ensures BytesOf(out + [bytes[0]]) + BytesOf(bytes[1..]) == BytesOf(out) + BytesOf(bytes)
    ensures |BytesOf(out + [bytes[0]])| == |BytesOf(out)| + bytes[0].len
    ensures InRefs(out + [bytes[0]]) + InRefs(bytes[1..]) == InRefs(out) + InRefs(bytes)
  {
    hide BytesOf, InRefs;
    FrontBytes(bytes);
    SnocBytes(out, bytes[0]);
  }

  /** Splitting the front segment keeps the bytes and costs one reference. */
  lemma SplitFront(out: seq<InOrderSegment>, bytes: seq<InOrderSegment>, a: InOrderSegment, b: InOrderSegment)
    requires bytes != [] && a.mbuf == b.mbuf == bytes[0].mbuf && a.len + b.len == bytes[0].len
    requires a.offset == bytes[0].offset && b.offset == a.offset + a.len
    ensures BytesOf(out + [a]) + BytesOf([b] + bytes[1..]) == BytesOf(out) + BytesOf(bytes)
    ensures |BytesOf(out + [a])| == |BytesOf(out)| + a.len
    ensures InRefs(out + [a]) + InRefs([b] + bytes[1..]) == InRefs(out) + InRefs(bytes) + multiset{a.mbuf}
  {
    hide BytesOf, InRefs;
    FrontBytes(bytes);
    SnocBytes(out, a);
    FrontBytes([b] + bytes[1..]);
    assert ([b] + bytes[1..])[1..] == bytes[1..];
    assert SegBytes(a) + SegBytes(b) == SegBytes(bytes[0]);
    assert (BytesOf(out) + SegBytes(a)) + (SegBytes(b) + BytesOf(bytes[1..]))
        == BytesOf(out) + ((SegBytes(a) + SegBytes(b)) + BytesOf(bytes[1..]));
  }

  lemma FrontFits(data: map<Mbuf, seq<u8>>, before: seq<ByteRef>, bytes: seq<InOrderSegment>, payload: seq<u8>)
    requires Holds(data, before + BytesOf(bytes), payload) && SmallBuffers(data) && bytes != [] && bytes[0].len > 0
    ensures bytes[0].offset + bytes[0].len <= 0xFFFF
  {
    FrontBytes(bytes);
    var last := bytes[0].len - 1;
    assert (before + BytesOf(bytes))[|before| + last] == ByteRef(bytes[0].mbuf, bytes[0].offset + last);
  }

  lemma HoldsSplit(data: map<Mbuf, seq<u8>>, a: seq<ByteRef>, b: seq<ByteRef>, payload: seq<u8>)
    requires Holds(data, a + b, payload)
    ensures Holds(data, a, payload[..|a|]) && Holds(data, b, payload[|a|..])
    ensures payload[..|a|] + payload[|a|..] == payload
  {
    assert forall i :: 0 <= i < |a| ==> (a + b)[i] == a[i];
    assert forall i :: 0 <= i < |b| ==> (a + b)[|a| + i] == b[i];
  }

  /** A buffer's data length is a 16-bit number. */
  ghost predicate SmallBuffers(data: map<Mbuf, seq<u8>>) {
    forall m :: m in data ==> |data[m]| < 0x1_0000
  }

  // ---------- one connection ----------

  class RxConn {
    const pool: MbufPool
    const reorder: ReorderQueue
    const cap: u32
    const rcvWnd: u32
    var rcvNxt: u32
    var bytes: seq<InOrderSegment>
    var finSeen: bool
    /** What was received in order, handed to the application, and still waits. */
    ghost var taken: seq<u8>
    ghost var delivered: seq<u8>
    ghost var waiting: seq<u8>
    /** The peer's byte stream, and whether every segment so far came from it. */
    ghost const stream: seq<u8>
    ghost var honest: bool

    ghost function View(): seq<Window>
      reads this`rcvNxt, reorder
    {
      Reorder.View(rcvNxt, reorder.segments)
    }

    /** The references the connection holds. */
    ghost function Held(): multiset<Mbuf>
      reads this`rcvNxt, this`bytes, reorder
    {
      InRefs(bytes) + Refs(View())
    }

    /** The room the in-order queue leaves. */
    function Room(): int
      reads this`bytes
    {
      cap - |BytesOf(bytes)|
    }

    ghost predicate Bounds()
      reads this`rcvNxt, this`bytes, this`finSeen, reorder, pool`data
    {
      && reorder.pool == pool && reorder.cap == cap && rcvWnd <= cap && rcvWnd <= 0xFFFF
      && reorder.Valid(rcvNxt) && Ahead(View(), rcvWnd) && InData(pool.data, View())
      && |BytesOf(bytes)| <= cap && (!finSeen ==> At(View(), 0).None?)
    }

    /** The byte-stream books: what was taken is what was delivered and what waits, and as long
        as the peer's segments are genuine it is a prefix of the peer's stream. */
    ghost predicate Stream()
      reads this, reorder, pool`data
    {
      && taken == delivered + waiting && Holds(pool.data, BytesOf(bytes), waiting)
      && (honest ==> taken <= stream && (!finSeen ==> Mirrors(pool.data, View(), stream, |taken|)))
    }

    ghost predicate Valid()
      reads this, reorder, pool`data
    {
      Bounds() && Stream()
    }

    constructor (pool: MbufPool, recvBufferBytes: u32, irs: u32, ghost stream: seq<u8>)
      ensures Valid() && fresh(reorder) && this.pool == pool && bytes == [] && !finSeen
      ensures Held() == multiset{} && taken == [] && honest && this.stream == stream
    {
      this.pool, cap, rcvWnd := pool, recvBufferBytes, Min(recvBufferBytes, 0xFFFF);
      reorder := new ReorderQueue(recvBufferBytes, pool);
      rcvNxt, bytes, finSeen := SeqAdd(irs, 1), [], false;
      taken, delivered, waiting, this.stream, honest := [], [], [], stream, true;
      new;
      hide Sorted, TotalLen, Refs, InRefs, BytesOf, Ahead, InData, Holds, Mirrors, At, Reorder.View;
      FreshConn(pool.data, stream, rcvNxt, rcvWnd);
    }

    /** The gated drain: hands the contiguous front of the reorder queue to the in-order
        queue, as far as its room goes. */
    method DrainReady(ghost base: u32, ghost held: multiset<Mbuf>)
      returns (n: u32, dropped: u32, ghost added: seq<InOrderSegment>)
      requires reorder.pool == pool && reorder.Valid(base) && Off(base, rcvNxt) < 0x8000_0000
      requires |BytesOf(bytes)| <= cap
      requires pool.Balanced(held + InRefs(bytes) + Refs(Reorder.View(base, reorder.segments)))
      modifies this`bytes, reorder, pool`refcnt, pool`free
      ensures reorder.Valid(base) && pool.refcnt.Keys == old(pool.refcnt.Keys)
      ensures bytes == old(bytes) + added && n == |BytesOf(added)|
      ensures Drained(Reorder.View(base, old(reorder.segments)), Off(base, rcvNxt), BytesOf(added), dropped,
                      cap - |BytesOf(old(bytes))|, Reorder.View(base, reorder.segments))
      ensures pool.Balanced(held + InRefs(bytes) + Refs(Reorder.View(base, reorder.segments)))
    {
      hide Drained, At, Off, BytesOf, InRefs, Refs, Sorted, TotalLen, Buffered, MbufPool.Balanced;
      BufferedBytes(bytes);
      DrainedNothing(Off(base, rcvNxt), cap - |BytesOf(bytes)|);
      n, dropped, added := 0, 0, [];
      if reorder.segments != [] {
        var capRoom := SatSub(cap, Buffered(bytes));
        var out;
        out, n, dropped := reorder.DrainContiguousInto(rcvNxt, capRoom, base, held + InRefs(bytes));
        InRefsConcat(bytes, out);
        assert held + InRefs(bytes) + InRefs(out) == held + InRefs(bytes + out);
        bytes := bytes + out;
        added := out;
      }
    }

    /** Pins the segment's own buffer for the first `headTake` payload bytes, if there is a
        buffer to pin. */
    method AppendHead(seg: Segment, m: Mbuf, ctx: bool, headTake: nat, ghost held: multiset<Mbuf>,
                      ghost stored: multiset<Mbuf>)
      returns (take: nat, head: seq<InOrderSegment>)
      requires headTake <= seg.len && (ctx ==> seg.offset + seg.len < 0x1_0000)
      requires pool.Balanced(held + (InRefs(bytes) + stored)) && m in held
      modifies this`bytes, pool`refcnt
      ensures pool.refcnt.Keys == old(pool.refcnt.Keys)
      ensures bytes == old(bytes) + head && take == if ctx then headTake else 0
      ensures BytesOf(head) == seq(take, k requires 0 <= k => ByteRef(m, seg.offset + k))
      ensures |BytesOf(bytes)| == |BytesOf(old(bytes))| + take
      ensures pool.Balanced(held + InRefs(bytes) + stored)
    {
      hide InRefs, BytesOf, MbufPool.Balanced;
      head := [];
      if headTake > 0 && ctx {
        pool.Retain(m, held + (InRefs(bytes) + stored));
        head := [InOrderSegment(m, seg.offset, headTake)];
      }
      take := if ctx then headTake else 0;
      HeadBytes(m, seg.offset, head);
      InRefsConcat(bytes, head);
      BytesOfConcat(bytes, head);
      ghost var more := InRefs(bytes) + InRefs(head);
      assert held + (InRefs(bytes) + stored) + InRefs(head) == held + more + stored;
      assert held + (InRefs(bytes) + stored) + multiset{} == held + (InRefs(bytes) + stored);
      bytes := bytes + head;
    }

    /** Writes an in-order segment into the stream books. */
    ghost method Record(ws: seq<Window>, m: Mbuf, seg: Segment, ctx: bool, take: nat, earlier: seq<ByteRef>,
                        refs: seq<ByteRef>)
      requires !finSeen && taken == delivered + waiting && Holds(pool.data, earlier, waiting)
               && Holds(pool.data, refs, Payload(pool.data, refs))
      requires honest ==> taken <= stream && Mirrors(pool.data, ws, stream, |taken|)
      requires BytesOf(bytes) == earlier + refs && (!ctx ==> take == 0)
      requires Appended(ws, m, seg.offset, take, refs) && take <= seg.len
      requires forall p :: At(View(), p).Some? ==> At(View(), p) == At(ws, p + |refs|)
      modifies this`taken, this`waiting, this`honest
      ensures Stream() && taken == old(taken) + Payload(pool.data, refs) && |waiting| == |old(waiting)| + |refs|
      ensures honest == (old(honest) && (ctx ==> Genuine(pool.data, m, seg, stream, |old(taken)|)))
    {
      hide At, BytesOf, Mirrors, Genuine, Holds, Appended, Reorder.View, Payload;
      HoldsLength(pool.data, refs, Payload(pool.data, refs));
      HoldsConcat(pool.data, earlier, waiting, refs, Payload(pool.data, refs));
      honest := honest && (ctx ==> Genuine(pool.data, m, seg, stream, |taken|));
      if honest {
        InOrderStream(pool.data, ws, View(), stream, taken, m, seg, take, refs);
      }
      taken := taken + Payload(pool.data, refs);
      waiting := waiting + Payload(pool.data, refs);
    }

    /** Appends an in-order payload as far as there is room, then drains what has become
        contiguous. */
    method AppendAndDrain(seg: Segment, m: Mbuf, ctx: bool, ghost held: multiset<Mbuf>)
      returns (o: RxOutcome, ghost added: seq<InOrderSegment>)
      requires Bounds() && !finSeen && seg.seqno == rcvNxt && 0 < seg.len <= rcvWnd
      requires m in pool.data && (ctx ==> seg.offset + seg.len <= |pool.data[m]| < 0x1_0000)
      requires pool.Balanced(held + Held()) && m in held
      modifies this`bytes, this`rcvNxt, reorder, pool`refcnt, pool`free
      ensures Bounds() && pool.refcnt.Keys == old(pool.refcnt.Keys) && pool.Balanced(held + Held())
      ensures bytes == old(bytes) + added && BytesOf(bytes) == BytesOf(old(bytes)) + BytesOf(added)
      ensures o.delivered == |BytesOf(added)| && !o.refRetained && !o.finTaken
              && rcvNxt == SeqAdd(old(rcvNxt), o.delivered)
      ensures Appended(old(View()), m, seg.offset, if ctx then Min(seg.len, old(Room())) else 0, BytesOf(added))
      ensures Holds(pool.data, BytesOf(added), Payload(pool.data, BytesOf(added)))
      ensures var cut := o.bufFullDrop - SatSub(seg.len, old(Room()));
        cut >= 0 && KeptBehind(old(View()), |BytesOf(added)|, cut, View()) && (cut > 0 ==> Room() == 0)
      ensures old(Room()) == cap && ctx ==> o.bufFullDrop == 0
    {
      hide Drained, At, InRefs, Refs, Sorted, TotalLen, Buffered, BytesOf, MbufPool.Balanced, Mirrors, Ahead, InData,
           Holds, Appended, Reorder.View, Payload, SeqAdd, SeqSub, KeptBehind;
      BufferedBytes(bytes);
      ghost var ws, base, before := View(), rcvNxt, reorder.segments;
      var capRoom := SatSub(cap, Buffered(bytes));
      var headTake := Min(seg.len, capRoom);
      var take, head := AppendHead(seg, m, ctx, headTake, held, Refs(ws));
      Advance(base, take);
      rcvNxt := SeqAdd(rcvNxt, take);
      var n, dropped;
      ghost var drained;
      n, dropped, drained := DrainReady(base, held);
      InOrderDone(pool.data, base, before, reorder.segments, rcvWnd, cap, |BytesOf(old(bytes))|, m, seg, take, head,
          drained, dropped);
      added := head + drained;
      o := RxOutcome(take + n, SatSub(seg.len, headTake) + dropped, false, false);
      AddTwice(base, take, n);
      rcvNxt := SeqAdd(rcvNxt, n);
      BytesOfConcat(old(bytes), added);
      assert bytes == old(bytes) + added;
      assert held + InRefs(bytes) + Refs(View()) == held + (InRefs(bytes) + Refs(View()));
    }

    /** The in-order branch of data processing, entered into the stream books. */
    method TakeInOrder(seg: Segment, m: Mbuf, ctx: bool, ghost held: multiset<Mbuf>)
      returns (o: RxOutcome, ghost added: seq<InOrderSegment>)
      requires Valid() && !finSeen && seg.seqno == rcvNxt && 0 < seg.len <= rcvWnd
      requires m in pool.data && (ctx ==> seg.offset + seg.len <= |pool.data[m]| < 0x1_0000)
      requires pool.Balanced(held + Held()) && m in held
      modifies this, reorder, pool`refcnt, pool`free
      ensures Valid() && pool.refcnt.Keys == old(pool.refcnt.Keys) && pool.Balanced(held + Held())
      ensures delivered == old(delivered) && finSeen == old(finSeen)
      ensures honest == (old(honest) && (ctx ==> Genuine(pool.data, m, seg, stream, |old(taken)|)))
      ensures bytes == old(bytes) + added && o.delivered == |BytesOf(added)| && !o.refRetained && !o.finTaken
      ensures rcvNxt == SeqAdd(old(rcvNxt), o.delivered)
      ensures taken == old(taken) + Payload(pool.data, BytesOf(added)) && |waiting| == |old(waiting)| + o.delivered
      ensures Appended(old(View()), m, seg.offset, if ctx then Min(seg.len, old(Room())) else 0, BytesOf(added))
      ensures var cut := o.bufFullDrop - SatSub(seg.len, old(Room()));
        cut >= 0 && KeptBehind(old(View()), |BytesOf(added)|, cut, View()) && (cut > 0 ==> Room() == 0)
      ensures old(waiting) == [] && ctx ==> o.bufFullDrop == 0
    {
      hide At, InRefs, Refs, BytesOf, MbufPool.Balanced, Mirrors, Genuine, Holds, Appended, Reorder.View, Payload,
           SeqAdd, SeqSub, KeptBehind, Bounds, Held;
      HoldsLength(pool.data, BytesOf(bytes), waiting);
      ghost var ws, room := View(), Room();
      RoomFits();
      o, added := AppendAndDrain(seg, m, ctx, held);
      KeptStored(ws, |BytesOf(added)|, o.bufFullDrop - SatSub(seg.len, room), View());
      Record(ws, m, seg, ctx, if ctx then Min(seg.len, room) else 0, BytesOf(old(bytes)), BytesOf(added));
    }

    lemma RoomFits()
      requires Bounds()
      ensures 0 <= Room() <= cap
    {
      hide BytesOf, Sorted, At, TotalLen;
    }

    /** The out-of-order branch: clamp the payload to the room the two queues leave together,
        then carve it into the reorder queue. The queue's own cap never bites behind the
        clamp. */
    method StoreOutOfOrder(seg: Segment, m: Mbuf, ctx: bool, ghost held: multiset<Mbuf>)
      returns (o: RxOutcome, ghost cut: int)
      requires Valid() && !finSeen && 0 < seg.len && 0 < Off(rcvNxt, seg.seqno)
               && Off(rcvNxt, seg.seqno) + seg.len <= rcvWnd
      requires m in pool.data && (ctx ==> seg.offset + seg.len <= |pool.data[m]| < 0x1_0000)
      requires pool.Balanced(held + Held() + if ctx then multiset{m} else multiset{})
      modifies this`honest, reorder, pool`refcnt
      ensures Valid() && pool.refcnt.Keys == old(pool.refcnt.Keys)
      ensures honest == (old(honest) && (ctx ==> Genuine(pool.data, m, seg, stream, |taken| + Off(rcvNxt, seg.seqno))))
      ensures var s := Off(rcvNxt, seg.seqno);
        && Overlaid(old(View()), m, seg.offset, s, cut, View())
        && cut == s + (if ctx then Min(seg.len, SatSub(cap, |BytesOf(bytes)| + old(reorder.totalBytes))) else 0)
        && (ctx ==> o.bufFullDrop == s + seg.len - cut)
      ensures o.delivered == 0 && !o.finTaken && (o.refRetained ==> ctx)
      ensures pool.Balanced(held + Held() + if ctx && !o.refRetained then multiset{m} else multiset{})
    {
      hide At, InRefs, Refs, Sorted, TotalLen, Buffered, BytesOf, MbufPool.Balanced, Mirrors, Genuine, Ahead, InData,
           Holds, Reorder.View, Overlaid, Uncovered;
      BufferedBytes(bytes);
      ghost var ws, s := View(), Off(rcvNxt, seg.seqno);
      var totalCap := SatSub(SatSub(cap, Buffered(bytes)), reorder.totalBytes);
      o, cut := RxOutcome(0, 0, false, false), s;
      OverlaidEmpty(ws, m, seg.offset, s);
      if totalCap == 0 {
        o := o.(bufFullDrop := seg.len);
      } else if ctx {
        var headTake := Min(seg.len, totalCap);
        var r;
        RegroupStored(held, InRefs(bytes), Refs(ws), multiset{m});
        ghost var ps;
        r, cut, ps := reorder.Insert(seg.seqno, headTake, m, seg.offset, rcvNxt, held + InRefs(bytes));
        RegroupStored(held, InRefs(bytes), Refs(View()), if r.refRetained then multiset{} else multiset{m});
        UncoveredBound(ws, s, s + headTake);
        StoreBounds(pool.data, ws, View(), m, seg.offset, s, cut, s + headTake, rcvWnd);
        StoreAhead(ws, m, seg.offset, s, cut, View());
        o := RxOutcome(0, r.capDropped + (seg.len - headTake), r.refRetained, false);
      }
      honest := honest && (ctx ==> Genuine(pool.data, m, seg, stream, |taken| + s));
      if honest && ctx {
        StoreMirrors(pool.data, ws, View(), stream, |taken|, m, seg, s, cut);
      }
    }

    /** Where the payload of an accepted segment went. */
    twostate predicate Placed(seg: Segment, m: Mbuf, ctx: bool, o: RxOutcome, added: seq<InOrderSegment>)
      reads this, reorder
    {
      Placement(old(View()), View(), Off(old(rcvNxt), seg.seqno), m, seg, if ctx then Min(seg.len, old(Room())) else 0,
                if ctx then Min(seg.len, SatSub(old(Room()), old(reorder.totalBytes))) else 0,
                o.bufFullDrop - SatSub(seg.len, old(Room())), BytesOf(added))
    }

    /** The payload of a segment that passed the window test. */
    method TakePayload(seg: Segment, m: Mbuf, ctx: bool, ghost held: multiset<Mbuf>)
      returns (o: RxOutcome, ghost added: seq<InOrderSegment>)
      requires Valid() && !finSeen && WindowTest(rcvNxt, rcvWnd, seg) && seg.len < 0x1_0000 && (ctx ==> seg.len > 0)
      requires m in pool.data && (ctx ==> seg.offset + seg.len <= |pool.data[m]| < 0x1_0000)
      requires pool.Balanced(held + Held() + if ctx then multiset{m} else multiset{}) && m in held
      modifies this, reorder, pool`refcnt, pool`free
      ensures Valid() && pool.refcnt.Keys == old(pool.refcnt.Keys) && delivered == old(delivered) && !finSeen
      ensures bytes == old(bytes) + added && o.delivered == |BytesOf(added)| && !o.finTaken
      ensures rcvNxt == SeqAdd(old(rcvNxt), o.delivered) && (seg.seqno != old(rcvNxt) ==> o.delivered == 0)
      ensures taken == old(taken) + Payload(pool.data, BytesOf(added)) && |waiting| == |old(waiting)| + o.delivered
      ensures |taken| == |old(taken)| + o.delivered
      ensures honest == (old(honest) && (ctx ==> Genuine(pool.data, m, seg, stream,
              |old(taken)| + Off(old(rcvNxt), seg.seqno))))
      ensures Placed(seg, m, ctx, o, added)
      ensures old(waiting) == [] && (seg.len > 0 ==> ctx) && seg.seqno == old(rcvNxt) ==> o.bufFullDrop == 0
      ensures pool.Balanced(held + Held() + if ctx && !o.refRetained then multiset{m} else multiset{})
    {
      hide At, InRefs, Refs, Sorted, TotalLen, Buffered, BytesOf, MbufPool.Balanced, Mirrors, Genuine, Ahead, InData,
           Holds, Reorder.View, Overlaid, Payload, SeqAdd, SeqSub, SeqLt, Appended, KeptBehind;
      o, added := RxOutcome(0, 0, false, false), [];
      NoBytes();
      HoldsLength(pool.data, BytesOf(bytes), waiting);
      NoAdvance(rcvNxt);
      ghost var bump := if ctx then multiset{m} else multiset{};
      WindowFits(rcvNxt, rcvWnd, seg);
      if seg.len > 0 {
        if seg.seqno == rcvNxt {
          RegroupBump(held, Held(), bump);
          o, added := TakeInOrder(seg, m, ctx, held + bump);
          RegroupBump(held, Held(), bump);
        } else if SeqLt(rcvNxt, seg.seqno) {
          ghost var cut;
          o, cut := StoreOutOfOrder(seg, m, ctx, held);
        }
      }
    }

    /** The ESTABLISHED handler's data processing behind its drop checks: `verdict` stands for
        the URG, RST, ACK-flag, option and timestamp checks. */
    method Ingest(seg: Segment, m: Mbuf, ctx: bool, verdict: Verdict, ghost held: multiset<Mbuf>)
      returns (o: RxOutcome, ghost added: seq<InOrderSegment>)
      requires Valid() && m in pool.data && (ctx ==> seg.offset + seg.len <= |pool.data[m]| < 0x1_0000)
      requires seg.len < 0x1_0000 && (ctx ==> seg.len > 0)
      requires pool.Balanced(held + Held() + if ctx then multiset{m} else multiset{}) && m in held
      modifies this, reorder, pool`refcnt, pool`free
      ensures Valid() && pool.refcnt.Keys == old(pool.refcnt.Keys) && delivered == old(delivered)
      ensures bytes == old(bytes) + added && o.delivered == |BytesOf(added)|
      ensures taken == old(taken) + Payload(pool.data, BytesOf(added)) && |waiting| == |old(waiting)| + o.delivered
      ensures |taken| == |old(taken)| + o.delivered
      ensures rcvNxt == SeqAdd(old(rcvNxt), o.delivered + if o.finTaken then 1 else 0)
      ensures !Accepts(verdict, old(finSeen), old(rcvNxt), rcvWnd, seg) ==>
                honest == old(honest) && added == [] && o == RxOutcome(0, 0, false, false) && View() == old(View())
      ensures honest == (old(honest) && (ctx && Accepts(verdict, old(finSeen), old(rcvNxt), rcvWnd, seg) ==>
                Genuine(pool.data, m, seg, stream, |old(taken)| + Off(old(rcvNxt), seg.seqno))))
      ensures o.finTaken <==>
                Accepts(verdict, old(finSeen), old(rcvNxt), rcvWnd, seg) && seg.fin && seg.seqno == old(rcvNxt)
      ensures finSeen == (old(finSeen) || o.finTaken)
      ensures o.finTaken && old(honest) && Genuine(pool.data, m, seg, stream, |old(taken)|) ==>
                (taken == stream <==> seg.len == 0 || (ctx && seg.len <= cap - |BytesOf(old(bytes))|))
      ensures Accepts(verdict, old(finSeen), old(rcvNxt), rcvWnd, seg) && !o.finTaken ==> Placed(seg, m, ctx, o, added)
      ensures old(waiting) == [] && Accepts(verdict, old(finSeen), old(rcvNxt), rcvWnd, seg) ==>
                && seg.len <= cap - |BytesOf(old(bytes))|
                && (ctx && seg.seqno == old(rcvNxt) ==> o.delivered >= seg.len)
      ensures old(waiting) == [] && (seg.len > 0 ==> ctx) && seg.seqno == old(rcvNxt) ==> o.bufFullDrop == 0
      ensures pool.Balanced(held + Held() + if ctx && !o.refRetained then multiset{m} else multiset{})
    {
      hide At, InRefs, Refs, BytesOf, MbufPool.Balanced, Genuine, Reorder.View, Payload, SeqAdd, SeqSub, Appended,
           Placement, Valid, Held;
      o, added := RxOutcome(0, 0, false, false), [];
      NoBytes();
      InBooks();
      NoAdvance(rcvNxt);
      NoAdvance(seg.seqno);
      if verdict != Accept || finSeen || !WindowTest(rcvNxt, rcvWnd, seg) {
        return;
      }
      WindowFits(rcvNxt, rcvWnd, seg);
      ghost var ws, t, room := View(), taken, Room();
      ghost var take := if ctx then Min(seg.len, room) else 0;
      o, added := TakePayload(seg, m, ctx, held);
      if seg.seqno == old(rcvNxt) {
        PlacedInOrder(ws, View(), m, seg, take, if ctx then Min(seg.len, SatSub(room, old(reorder.totalBytes))) else 0,
                      o.bufFullDrop - SatSub(seg.len, room), BytesOf(added));
      }
      InBooks();
      if seg.fin && SeqAdd(seg.seqno, o.delivered) == rcvNxt {
        TakeFin();
        o := o.(finTaken := true);
        AddTwice(old(rcvNxt), o.delivered, 1);
        if old(honest) && Genuine(pool.data, m, seg, stream, |t|) {
          BytesOfConcat(old(bytes), added);
          FinComplete(pool.data, ws, m, seg, stream, t, take, BytesOf(added), room);
        }
      }
    }

    /** Stepping over the peer's FIN. */
    method TakeFin()
      requires Valid() && !finSeen
      modifies this`rcvNxt, this`finSeen
      ensures Valid() && finSeen && rcvNxt == SeqAdd(old(rcvNxt), 1) && Held() == old(Held())
    {
      hide At, InRefs, Refs, Sorted, TotalLen, BytesOf, Mirrors, Ahead, InData, Holds, Reorder.View, SeqAdd;
      StepFin(pool.data, rcvNxt, reorder.segments, rcvWnd, stream, |taken|);
      rcvNxt := SeqAdd(rcvNxt, 1);
      finSeen := true;
    }

    lemma InBooks()
      requires Valid()
      ensures |BytesOf(bytes)| == |waiting| <= cap && rcvWnd <= cap && rcvWnd <= 0xFFFF
      ensures taken == delivered + waiting && (honest ==> taken <= stream) && (!finSeen ==> At(View(), 0).None?)
    {
      HoldsLength(pool.data, BytesOf(bytes), waiting);
    }

    /** One round of the pop loop: the front segment moves out whole, or is split when the budget
        ends inside it, each half then holding a reference. */
    method PopFront(out: seq<InOrderSegment>, budget: nat, ghost held: multiset<Mbuf>)
      returns (out': seq<InOrderSegment>, left: nat, split: bool)
      requires bytes != [] && budget > 0 && pool.Balanced(held + InRefs(out) + InRefs(bytes))
      requires SmallBuffers(pool.data) && Holds(pool.data, BytesOf(out) + BytesOf(bytes), waiting)
      modifies this`bytes, pool`refcnt
      ensures pool.Balanced(held + InRefs(out') + InRefs(bytes)) && pool.refcnt.Keys == old(pool.refcnt.Keys)
      ensures BytesOf(out') + BytesOf(bytes) == BytesOf(out) + BytesOf(old(bytes))
      ensures left + |BytesOf(out')| == budget + |BytesOf(out)| && left <= budget
      ensures |out'| + |bytes| == |out| + |old(bytes)| + if split then 1 else 0
      ensures if split then left == 0 && |BytesOf(bytes)| > 0 else |bytes| < |old(bytes)|
    {
      hide InRefs, BytesOf, MbufPool.Balanced, Holds, SmallBuffers;
      var front := bytes[0];
      ghost var refs := InRefs(out) + InRefs(bytes);
      assert held + InRefs(out) + InRefs(bytes) == held + refs;
      if front.len <= budget {
        MoveFront(out, bytes);
        bytes := bytes[1..];
        out', left, split := out + [front], budget - front.len, false;
        assert held + refs == held + InRefs(out') + InRefs(bytes);
      } else {
        FrontFits(pool.data, BytesOf(out), bytes, waiting);
        FrontBytes(bytes);
        pool.Retain(front.mbuf, held + InRefs(out) + InRefs(bytes));
        var a := InOrderSegment(front.mbuf, front.offset, budget);
        var b := InOrderSegment(front.mbuf, Min(front.offset + budget, 0xFFFF), SatSub(front.len, budget));
        SplitFront(out, bytes, a, b);
        FrontBytes([b] + bytes[1..]);
        assert held + (refs + multiset{a.mbuf}) == held + refs + multiset{a.mbuf};
        bytes := [b] + bytes[1..];
        out', left, split := out + [a], 0, true;
        assert held + (InRefs(out') + InRefs(bytes)) == held + InRefs(out') + InRefs(bytes);
      }
    }

    /** The pop loop of `deliver_readable`: moves the first `total` waiting bytes out; when the
        budget ends inside a segment, that one is split and both halves hold a reference. */
    method PopUpTo(total: nat, ghost held: multiset<Mbuf>) returns (out: seq<InOrderSegment>, split: bool)
      requires Valid() && pool.Balanced(held + InRefs(bytes)) && SmallBuffers(pool.data)
      modifies this`bytes, this`delivered, this`waiting, pool`refcnt
      ensures Valid() && pool.refcnt.Keys == old(pool.refcnt.Keys)
      ensures pool.Balanced(held + InRefs(out) + InRefs(bytes))
      ensures BytesOf(out) + BytesOf(bytes) == BytesOf(old(bytes))
      ensures |BytesOf(out)| == Min(total, |BytesOf(old(bytes))|)
      ensures |out| + |bytes| == |old(bytes)| + if split then 1 else 0
      ensures split ==> total < |BytesOf(old(bytes))|
      ensures Holds(pool.data, BytesOf(out), old(waiting)[..|BytesOf(out)|])
      ensures delivered == old(delivered) + old(waiting)[..|BytesOf(out)|]
      ensures waiting == old(waiting)[|BytesOf(out)|..]
    {
      hide At, InRefs, BytesOf, MbufPool.Balanced, Mirrors, Ahead, InData, Holds, Reorder.View, SmallBuffers, Sorted,
           TotalLen;
      ghost var all := BytesOf(bytes);
      out, split := [], false;
      var remaining := total;
      NoBytes();
      NoRefs();
      assert held + multiset{} + InRefs(bytes) == held + InRefs(bytes);
      while remaining > 0 && bytes != []
        invariant pool.Balanced(held + InRefs(out) + InRefs(bytes)) && pool.refcnt.Keys == old(pool.refcnt.Keys)
        invariant BytesOf(out) + BytesOf(bytes) == all
        invariant 0 <= remaining && remaining + |BytesOf(out)| == total
        invariant |out| + |bytes| == |old(bytes)| + if split then 1 else 0
        invariant split ==> remaining == 0 && |BytesOf(bytes)| > 0
        decreases remaining, |bytes|
        modifies this`bytes, pool`refcnt
      {
        out, remaining, split := PopFront(out, remaining, held);
      }
      assert |all| == |BytesOf(out)| + |BytesOf(bytes)|;
      assert bytes == [] ==> |BytesOf(bytes)| == 0;
      HoldsSplit(pool.data, BytesOf(out), BytesOf(bytes), waiting);
      delivered := delivered + waiting[..|BytesOf(out)|];
      waiting := waiting[|BytesOf(out)|..];
    }

    /** Removing the connection drops both of its queues. */
    method Remove(ghost held: multiset<Mbuf>)
      requires reorder.pool == pool && pool.Balanced(held + Held())
      modifies this`bytes, reorder, pool`refcnt, pool`free
      ensures Held() == multiset{} && pool.Balanced(held) && pool.refcnt.Keys == old(pool.refcnt.Keys)
    {
      assert held + Held() == held + Refs(View()) + multiset(InBufs(bytes));
      pool.FreeAll(InBufs(bytes), held + Refs(View()));
      bytes := [];
      reorder.Clear(rcvNxt, held);
    }

    /** Refilling buffers the connection does not hold leaves it valid. */
    twostate lemma Stable()
      requires old(Valid()) && unchanged(this) && unchanged(reorder)
      requires forall m :: m in Held() && m in old(pool.data) ==> m in pool.data && pool.data[m] == old(pool.data)[m]
      ensures Valid()
    {
      hide At, InRefs, Refs, BytesOf, Reorder.View, Sorted, TotalLen;
      RefsOwned(bytes);
      var ws := View();
      forall p | At(ws, p).Some?
        ensures At(ws, p).value.mbuf in Refs(ws)
      {
        AtOwned(ws, p);
      }
    }
  }
}
