/** The send path: segmentation into the in-flight list, the batch ring shared with
    retransmission, and the references both hold on the frame buffers. The driver may take any
    prefix of a burst and may strip header bytes off the front buffer of what it takes. */
module TxPath {
  import opened SeqArith
  import opened Mempool
  import opened Retrans

  /** A frame on the ring: a header buffer if the frame has one of its own, the data buffer, the
      bytes of the data buffer that are payload, and the sequence number the header announces. A
      first transmission has header and payload in one buffer. */
  datatype Frame = Frame(hdr: Option<Mbuf>, data: Mbuf, keep: nat, seqno: u32)

  /** References held elsewhere, by pool. */
  datatype Elsewhere = Elsewhere(data: multiset<Mbuf>, hdr: multiset<Mbuf>)

  datatype SendResult = Accepted(n: nat) | SendBufferFull | InvalidHandle

  /** How far one segment of a send gets before its buffer is filled. */
  datatype Step = Built | BuildFails | AppendFails

  /** How one segment of a send ends. */
  datatype PieceResult = Queued | NotBuilt | NoBuffer

  /** Which step of a retransmission fails, if any. */
  datatype Fault = NoFault | HeaderBuildFails | AppendFails | ChainFails

  // ---------- frames and references ----------

  function DataBufs(fs: seq<Frame>): seq<Mbuf> { seq(|fs|, i requires 0 <= i < |fs| => fs[i].data) }

  /** The references frames hold on data buffers, and on header buffers. */
  function DataRefs(fs: seq<Frame>): multiset<Mbuf> { multiset(DataBufs(fs)) }

  function HdrOf(f: Frame): multiset<Mbuf> { if f.hdr.Some? then multiset{f.hdr.value} else multiset{} }

  function HdrRefs(fs: seq<Frame>): multiset<Mbuf> {
    if fs == [] then multiset{} else HdrOf(fs[0]) + HdrRefs(fs[1..])
  }

  lemma {:induction false} HdrRefsSnoc(fs: seq<Frame>, f: Frame)
    ensures HdrRefs(fs + [f]) == HdrRefs(fs) + HdrOf(f)
  {
    if fs == [] {
      assert [f][1..] == [];
    } else {
      assert (fs + [f])[1..] == fs[1..] + [f];
      HdrRefsSnoc(fs[1..], f);
    }
  }

  lemma RefsSnoc(fs: seq<Frame>, f: Frame)
    ensures DataRefs(fs + [f]) == DataRefs(fs) + multiset{f.data} && HdrRefs(fs + [f]) == HdrRefs(fs) + HdrOf(f)
  {
    assert DataBufs(fs + [f]) == DataBufs(fs) + [f.data];
    HdrRefsSnoc(fs, f);
  }

  lemma RefsFront(fs: seq<Frame>)
    requires fs != []
    ensures DataRefs(fs) == multiset{fs[0].data} + DataRefs(fs[1..]) && HdrRefs(fs) == HdrOf(fs[0]) + HdrRefs(fs[1..])
  {
    assert DataBufs(fs) == [fs[0].data] + DataBufs(fs[1..]);
  }

  lemma NoFrames()
    ensures DataRefs([]) == multiset{} && HdrRefs([]) == multiset{}
  {
  }

  lemma InFrame(fs: seq<Frame>, i: nat)
    requires i < |fs|
    ensures fs[i].data in DataRefs(fs)
  {
    assert DataBufs(fs)[i] == fs[i].data;
  }

  lemma {:induction false} InHeader(fs: seq<Frame>, i: nat)
    requires i < |fs| && fs[i].hdr.Some?
    ensures fs[i].hdr.value in HdrRefs(fs)
  {
    if i > 0 {
      InHeader(fs[1..], i - 1);
    }
  }

  function EntryBufs(es: seq<RetransEntry>): seq<Mbuf> { seq(|es|, i requires 0 <= i < |es| => es[i].mbuf) }

  function EntryRefs(es: seq<RetransEntry>): multiset<Mbuf> { multiset(EntryBufs(es)) }

  lemma EntryRefsSnoc(es: seq<RetransEntry>, e: RetransEntry)
    ensures EntryRefs(es + [e]) == EntryRefs(es) + multiset{e.mbuf}
  {
    assert EntryBufs(es + [e]) == EntryBufs(es) + [e.mbuf];
  }

  lemma EntryRefsFront(es: seq<RetransEntry>)
    requires es != []
    ensures EntryRefs(es) == multiset{es[0].mbuf} + EntryRefs(es[1..])
  {
    assert EntryBufs(es) == [es[0].mbuf] + EntryBufs(es[1..]);
  }

  /** The data region ends with the payload. */
  predicate EndsWith(d: seq<u8>, p: seq<u8>) { |p| <= |d| && d[|d| - |p|..] == p }

  /** Stripping bytes off the front leaves the payload at the end, as long as it still fits. */
  lemma StripKeeps(d: seq<u8>, p: seq<u8>, k: nat)
    requires EndsWith(d, p) && k + |p| <= |d|
    ensures EndsWith(d[k..], p)
  {
    assert d[k..][|d| - k - |p|..] == d[|d| - |p|..];
  }

  /** The concatenation of the pieces. */
  function Concat(ps: seq<seq<u8>>): seq<u8> { if ps == [] then [] else ps[0] + Concat(ps[1..]) }

  lemma {:induction false} ConcatSnoc(ps: seq<seq<u8>>, p: seq<u8>)
    ensures Concat(ps + [p]) == Concat(ps) + p
  {
    if ps == [] {
      assert [p][1..] == [];
    } else {
      assert (ps + [p])[1..] == ps[1..] + [p];
      ConcatSnoc(ps[1..], p);
    }
  }

  /** The in-flight list: a gap-free run ending at `end`, one buffer per entry, each promised
      the entry's payload. */
  ghost predicate InFlight(es: seq<RetransEntry>, payloads: seq<seq<u8>>, promised: map<Mbuf, seq<u8>>, end: u32) {
    && |payloads| == |es| && Tiled(es, end)
    && (forall i :: 0 <= i < |es| ==>
          es[i].mbuf in promised && promised[es[i].mbuf] == payloads[i] && |payloads[i]| == es[i].len > 0)
    && (forall i, j :: 0 <= i < j < |es| ==> es[i].mbuf != es[j].mbuf)
  }

  lemma InFlightSnoc(es: seq<RetransEntry>, payloads: seq<seq<u8>>, promised: map<Mbuf, seq<u8>>, end: u32,
                     e: RetransEntry, p: seq<u8>)
    requires InFlight(es, payloads, promised, end) && e.seqno == end && |p| == e.len > 0 && e.mbuf !in promised
    ensures InFlight(es + [e], payloads + [p], promised[e.mbuf := p], e.EndSeq())
  {
  }

  /** The segment size: the smaller of the peer's and ours, but at least one byte. */
  function MssCap(peerMss: u16, tcpMss: u32): (mss: nat)
    ensures 0 < mss < 0x1_0000
  {
    Max(Min(peerMss, tcpMss), 1)
  }

  /** All pieces are full segments. */
  predicate Full(ps: seq<seq<u8>>, mss: nat) { forall i :: 0 <= i < |ps| ==> |ps[i]| == mss }

  /** All pieces are full segments but perhaps the last, which is not empty. */
  predicate Segmented(ps: seq<seq<u8>>, mss: nat) {
    && (forall i :: 0 <= i < |ps| - 1 ==> |ps[i]| == mss)
    && (ps != [] ==> 0 < |ps[|ps| - 1]| <= mss)
  }

  lemma SegmentedSnoc(ps: seq<seq<u8>>, p: seq<u8>, mss: nat)
    requires Full(ps, mss) && 0 < |p| <= mss
    ensures Segmented(ps + [p], mss) && (|p| == mss ==> Full(ps + [p], mss))
  {
  }

  /** The list only grew, by entries transmitted once, at `now`, and not reported on since. */
  ghost predicate FirstSent(before: seq<RetransEntry>, after: seq<RetransEntry>, now: u64) {
    && before <= after
    && forall i :: |before| <= i < |after| ==>
         after[i] == NewEntry(after[i].seqno, after[i].len, after[i].mbuf, after[i].hdrsLen, now)
  }

  lemma FirstSentSnoc(before: seq<RetransEntry>, after: seq<RetransEntry>, now: u64, e: RetransEntry)
    requires FirstSent(before, after, now) && e == NewEntry(e.seqno, e.len, e.mbuf, e.hdrsLen, now)
    ensures FirstSent(before, after + [e], now)
  {
  }

  lemma GrownList(before: seq<RetransEntry>, after: seq<RetransEntry>, now: u64)
    requires FirstSent(before, after, now)
    ensures before <= after
  {
  }

  /** From index `k` on no entry's buffer is promised to anybody. */
  ghost predicate Unpromised(promised: map<Mbuf, seq<u8>>, es: seq<RetransEntry>, k: nat) {
    forall i :: k <= i < |es| ==> es[i].mbuf !in promised
  }

  lemma NoneUnpromised(promised: map<Mbuf, seq<u8>>, es: seq<RetransEntry>)
    ensures Unpromised(promised, es, |es|)
  {
  }

  lemma UnpromisedSnoc(promised: map<Mbuf, seq<u8>>, later: map<Mbuf, seq<u8>>, es: seq<RetransEntry>, k: nat,
                       e: RetransEntry)
    requires Unpromised(promised, es, k) && Extends(promised, later) && e.mbuf !in later
    ensures Unpromised(promised, es + [e], k)
  {
  }

  lemma LensSnoc(es: seq<RetransEntry>, e: RetransEntry)
    ensures Lens(es + [e]) == Lens(es) + e.len
  {
    assert (es + [e])[..|es|] == es;
  }

  /** The pieces added to the list are the first `offset` bytes cut into segments, all full ones
      as long as there is more to come. */
  ghost predicate Sent(before: seq<seq<u8>>, after: seq<seq<u8>>, bytes: seq<u8>, offset: nat, mss: nat) {
    && before <= after && offset <= |bytes|
    && Concat(after[|before|..]) == bytes[..offset] && Segmented(after[|before|..], mss)
    && (offset < |bytes| ==> Full(after[|before|..], mss))
  }

  lemma NothingSent(ps: seq<seq<u8>>, bytes: seq<u8>, mss: nat, cur: u32, promised: map<Mbuf, seq<u8>>,
                    es: seq<RetransEntry>, now: u64)
    ensures Sent(ps, ps, bytes, 0, mss) && Extends(promised, promised) && FirstSent(es, es, now)
            && SeqAdd(cur, 0) == cur
  {
    assert ps[|ps|..] == [];
  }

  lemma SentSnoc(before: seq<seq<u8>>, after: seq<seq<u8>>, bytes: seq<u8>, offset: nat, mss: nat, take: nat)
    requires Sent(before, after, bytes, offset, mss) && offset < |bytes| && 0 < mss
             && take == Min(|bytes| - offset, mss)
    ensures Sent(before, after + [bytes[offset..offset + take]], bytes, offset + take, mss)
  {
    hide Segmented, Full;
    var p := bytes[offset..offset + take];
    var k := |before|;
    assert (after + [p])[k..] == after[k..] + [p];
    ConcatSnoc(after[k..], p);
    SegmentedSnoc(after[k..], p, mss);
    assert bytes[..offset] + p == bytes[..offset + take];
  }

  lemma SentUpTo(before: seq<seq<u8>>, after: seq<seq<u8>>, bytes: seq<u8>, offset: nat, mss: nat)
    requires Sent(before, after, bytes, offset, mss)
    ensures offset <= |bytes| && before <= after
  {
  }

  /** Why a send stops before its end. */
  predicate Stopped(stop: PieceResult, step: Step, free: set<Mbuf>) {
    match stop
    case Queued => false
    case NotBuilt => step == BuildFails
    case NoBuffer => step == Step.AppendFails || (step == Built && free == {})
  }


  // ---------- one connection's send state ----------

  class TxConn {
    var state: TcpState
    var finSent: bool
    var sndUna: u32
    var sndNxt: u32
    var sndWnd: u32
    var peerMss: u16
    /** The peer's window scale, clamped at fourteen. */
    const wsShift: nat
    var retrans: seq<RetransEntry>
    /** The payload bytes of each in-flight entry. */
    ghost var payloads: seq<seq<u8>>

    /** A connection as the handshake leaves it: `snd_una` is the number the SYN-ACK acknowledged, and
        the window of a handshake segment is not scaled. */
    constructor (sndUna: u32, sndNxt: u32, window: u16, peerShift: nat, peerMss: u16)
      ensures Valid(map[]) && state == Established && !finSent && this.sndUna == sndUna && this.sndNxt == sndNxt
              && retrans == [] && payloads == []
      ensures sndWnd == window && wsShift == Min(peerShift, 14) && this.peerMss == peerMss
    {
      state, finSent, this.sndUna, this.sndNxt, sndWnd := Established, false, sndUna, sndNxt, window;
      wsShift, this.peerMss, retrans, payloads := Min(peerShift, 14), peerMss, [], [];
    }

    /** A later segment's window field, scaled. */
    method UpdateWindow(window: u16, ghost promised: map<Mbuf, seq<u8>>)
      requires Valid(promised)
      modifies this`sndWnd
      ensures Valid(promised) && sndWnd == window * Pow2(wsShift)
    {
      WindowBound(window, wsShift);
      sndWnd := window * Pow2(wsShift);
    }

    /** The state change a segment handler decided on. */
    method Move(finAcked: bool, peerFin: bool, ghost promised: map<Mbuf, seq<u8>>)
      requires Valid(promised) && NextState(state, finAcked, peerFin) != Closed
      modifies this`state
      ensures Valid(promised) && state == NextState(old(state), finAcked, peerFin)
    {
      hide InFlight, InWindowRun, Spanned;
      state := NextState(state, finAcked, peerFin);
    }

    /** Where the in-flight data ends: at `snd_nxt`, or just before our FIN. */
    function DataEnd(): u32
      reads this`sndNxt, this`finSent
    {
      if finSent then SeqSub(sndNxt, 1) else sndNxt
    }

    /** How many of `n` bytes fit the peer's window and the send buffer. */
    function Room(n: nat, sendBufferBytes: u32): (r: nat)
      reads this`sndNxt, this`sndUna, this`sndWnd
      ensures r <= n
    {
      var inFlight := SeqSub(sndNxt, sndUna);
      Min(n, Min(SatSub(sndWnd, inFlight), SatSub(sendBufferBytes, inFlight)))
    }

    /** The list is one run within a window, and in ESTABLISHED it spans what is unacknowledged. */
    ghost predicate Valid(promised: map<Mbuf, seq<u8>>)
      reads this
    {
      && InFlight(retrans, payloads, promised, DataEnd()) && (state != Closed ==> (finSent <==> FinOut(state)))
      && InWindowRun(retrans, DataEnd()) && (state == Established ==> Spanned(retrans, sndUna, sndNxt))
      && sndWnd < 0x4000_0000 && wsShift <= 14
    }
  }

  /** Bytes within the room leave both bounds kept. */
  lemma RoomKept(c: TxConn, n: nat, total: nat, sendBufferBytes: u32)
    requires 0 < n <= c.Room(total, sendBufferBytes)
    ensures var inFlight := SeqSub(SeqAdd(c.sndNxt, n), c.sndUna); inFlight <= c.sndWnd && inFlight <= sendBufferBytes
    ensures SeqSub(c.sndNxt, c.sndUna) + n <= c.sndWnd
  {
  }

  /** What a send leaves in flight is one run within the window again. */
  lemma GrownFlight(es: seq<RetransEntry>, grown: seq<RetransEntry>, payloads: seq<seq<u8>>,
                    promised: map<Mbuf, seq<u8>>, una: u32, nxt: u32, n: nat)
    requires InFlight(grown, payloads, promised, SeqAdd(nxt, n)) && es <= grown && Spanned(es, una, nxt)
    requires Lens(grown) == Lens(es) + n && (n > 0 ==> SeqSub(nxt, una) + n < 0x4000_0000)
    ensures InWindowRun(grown, SeqAdd(nxt, n)) && Spanned(grown, una, SeqAdd(nxt, n))
  {
    hide Lens, Spanned, InWindowRun, Tiled;
    if n == 0 {
      NothingGrown(es, grown);
    }
    GrownRun(es, grown, una, nxt, n);
  }

  lemma {:induction false} NothingGrown(es: seq<RetransEntry>, grown: seq<RetransEntry>)
    requires es <= grown && Lens(grown) == Lens(es) && forall i :: 0 <= i < |grown| ==> grown[i].len > 0
    ensures grown == es
  {
    if |es| < |grown| {
      assert grown[..|grown| - 1][..|es|] == es;
      LensPrefix(grown[..|grown| - 1], |es|);
    }
  }

  lemma EntryHeld(es: seq<RetransEntry>, i: nat)
    requires i < |es|
    ensures es[i].mbuf in EntryRefs(es)
  {
    assert EntryBufs(es)[i] == es[i].mbuf;
  }

  /** Rewriting entries' transmission records changes neither the run nor the references. */
  lemma RunKept(es: seq<RetransEntry>, es': seq<RetransEntry>, payloads: seq<seq<u8>>, promised: map<Mbuf, seq<u8>>,
                end: u32)
    requires InFlight(es, payloads, promised, end) && SameRun(es, es')
    ensures InFlight(es', payloads, promised, end) && EntryRefs(es') == EntryRefs(es)
  {
    assert EntryBufs(es') == EntryBufs(es);
    assert forall i :: 0 <= i < |es| ==> es'[i].EndSeq() == es[i].EndSeq();
  }

  /** The frame's payload is what it was built with: at the end of the one buffer, or all of the
      chained data buffer. */
  predicate FrameOk(data: map<Mbuf, seq<u8>>, f: Frame, p: seq<u8>) {
    && f.data in data && f.keep == |p|
    && if f.hdr.None? then EndsWith(data[f.data], p) else data[f.data] == p
  }

  /** The ring never holds a buffer twice, and every frame on it still carries its payload. */
  ghost predicate RingOk(data: map<Mbuf, seq<u8>>, ring: seq<Frame>, payloads: seq<seq<u8>>) {
    && |payloads| == |ring|
    && (forall i :: 0 <= i < |ring| ==> FrameOk(data, ring[i], payloads[i]))
    && (forall i, j :: 0 <= i < j < |ring| ==>
              ring[i].data != ring[j].data && (ring[i].hdr.Some? ==> ring[i].hdr != ring[j].hdr))
  }

  /** Every promised buffer still ends with what was promised, and the driver may not strip
      into it. */
  ghost predicate PromisesOk(data: map<Mbuf, seq<u8>>, ring: seq<Frame>, promised: map<Mbuf, seq<u8>>) {
    && (forall m :: m in promised ==> m in data && EndsWith(data[m], promised[m]))
    && (forall i :: 0 <= i < |ring| && ring[i].data in promised ==> |promised[ring[i].data]| <= ring[i].keep)
  }

  /** Stripping the front frame's one buffer leaves the rest of the ring, and what is promised. */
  lemma StripFront(data: map<Mbuf, seq<u8>>, ring: seq<Frame>, payloads: seq<seq<u8>>, promised: map<Mbuf, seq<u8>>,
                   k: nat)
    requires RingOk(data, ring, payloads) && PromisesOk(data, ring, promised) && ring != []
    requires ring[0].data in data && k + ring[0].keep <= |data[ring[0].data]|
    ensures var after := data[ring[0].data := data[ring[0].data][k..]];
      RingOk(after, ring[1..], payloads[1..]) && PromisesOk(after, ring[1..], promised)
  {
    var m := ring[0].data;
    var after := data[m := data[m][k..]];
    forall i | 1 <= i < |ring|
      ensures FrameOk(after, ring[i], payloads[i])
    {
      assert FrameOk(data, ring[i], payloads[i]) && ring[i].data != m;
    }
    if m in promised {
      StripKeeps(data[m], promised[m], k);
    }
  }

  /** The front frame is well formed. */
  lemma FrontOk(data: map<Mbuf, seq<u8>>, ring: seq<Frame>, payloads: seq<seq<u8>>)
    requires RingOk(data, ring, payloads) && ring != []
    ensures |payloads| == |ring| && ring[0].data in data && ring[0].keep <= |data[ring[0].data]|
  {
    assert FrameOk(data, ring[0], payloads[0]);
  }

  lemma RingTail(data: map<Mbuf, seq<u8>>, ring: seq<Frame>, payloads: seq<seq<u8>>, promised: map<Mbuf, seq<u8>>)
    requires RingOk(data, ring, payloads) && PromisesOk(data, ring, promised) && ring != []
    ensures |payloads| == |ring| && RingOk(data, ring[1..], payloads[1..]) && PromisesOk(data, ring[1..], promised)
  {
  }

  /** Refilling a buffer that is neither on the ring nor promised disturbs nothing. */
  lemma Refill(data: map<Mbuf, seq<u8>>, ring: seq<Frame>, payloads: seq<seq<u8>>, promised: map<Mbuf, seq<u8>>,
               m: Mbuf, bytes: seq<u8>)
    requires RingOk(data, ring, payloads) && PromisesOk(data, ring, promised)
    requires m !in DataRefs(ring) && m !in promised
    ensures RingOk(data[m := bytes], ring, payloads) && PromisesOk(data[m := bytes], ring, promised)
  {
    forall i | 0 <= i < |ring|
      ensures FrameOk(data[m := bytes], ring[i], payloads[i])
    {
      InFrame(ring, i);
      assert FrameOk(data, ring[i], payloads[i]);
    }
  }

  /** With the ring empty a promised buffer may be cut down to its payload. */
  lemma OnlyPayload(data: map<Mbuf, seq<u8>>, payloads: seq<seq<u8>>, promised: map<Mbuf, seq<u8>>, m: Mbuf)
    requires RingOk(data, [], payloads) && PromisesOk(data, [], promised) && m in promised
    ensures m in data && |promised[m]| <= |data[m]| && data[m][|data[m]| - |promised[m]|..] == promised[m]
    ensures |data[m]| == |promised[m]| ==> data[m := promised[m]] == data
    ensures RingOk(data[m := promised[m]], [], payloads) && PromisesOk(data[m := promised[m]], [], promised)
  {
    assert EndsWith(data[m], promised[m]);
    assert |data[m]| == |promised[m]| ==> data[m][0..] == data[m];
  }

  /** Pushing a frame whose buffers are not on the ring yet. */
  lemma PushOk(data: map<Mbuf, seq<u8>>, ring: seq<Frame>, payloads: seq<seq<u8>>, promised: map<Mbuf, seq<u8>>,
               f: Frame, p: seq<u8>)
    requires RingOk(data, ring, payloads) && PromisesOk(data, ring, promised) && FrameOk(data, f, p)
    requires f.data !in DataRefs(ring) && (f.hdr.Some? ==> f.hdr.value !in HdrRefs(ring))
    requires f.data in promised ==> |promised[f.data]| <= f.keep
    ensures RingOk(data, ring + [f], payloads + [p]) && PromisesOk(data, ring + [f], promised)
  {
    forall i | 0 <= i < |ring|
      ensures ring[i].data != f.data && (ring[i].hdr.Some? ==> ring[i].hdr != f.hdr)
    {
      InFrame(ring, i);
      if ring[i].hdr.Some? {
        InHeader(ring, i);
      }
    }
  }

  /** Only the data of buffers in `touched` may have changed. */
  ghost predicate Spared(before: map<Mbuf, seq<u8>>, after: map<Mbuf, seq<u8>>, touched: multiset<Mbuf>) {
    before.Keys == after.Keys && forall m :: m in before && m !in touched ==> after[m] == before[m]
  }

  lemma SparedAll(before: map<Mbuf, seq<u8>>, after: map<Mbuf, seq<u8>>)
    requires Spared(before, after, multiset{})
    ensures after == before
  {
  }

  lemma SparedOne(before: map<Mbuf, seq<u8>>, after: map<Mbuf, seq<u8>>, touched: multiset<Mbuf>, m: Mbuf,
                  bytes: seq<u8>)
    requires Spared(before, after, touched) && m in after
    ensures Spared(before, after, touched + multiset{m}) && Spared(before, after[m := bytes], touched + multiset{m})
  {
  }

  lemma FrameSpared(before: map<Mbuf, seq<u8>>, after: map<Mbuf, seq<u8>>, touched: multiset<Mbuf>, f: Frame,
                    p: seq<u8>)
    requires Spared(before, after, touched) && FrameOk(before, f, p) && f.data !in touched
    ensures FrameOk(after, f, p)
  {
  }

  /** Promising the buffer of the frame just pushed. */
  lemma PromiseLast(data: map<Mbuf, seq<u8>>, ring: seq<Frame>, payloads: seq<seq<u8>>, promised: map<Mbuf, seq<u8>>,
                    p: seq<u8>)
    requires RingOk(data, ring, payloads) && PromisesOk(data, ring, promised) && ring != []
    requires ring[|ring| - 1].hdr.None? && payloads != [] && payloads[|payloads| - 1] == p
    ensures PromisesOk(data, ring, promised[ring[|ring| - 1].data := p])
  {
    assert FrameOk(data, ring[|ring| - 1], p);
  }

  /** Only promises to the entries `es` may have been released. */
  ghost predicate Keeps(before: map<Mbuf, seq<u8>>, after: map<Mbuf, seq<u8>>, es: seq<RetransEntry>) {
    && (forall m :: m in after ==> m in before && after[m] == before[m])
    && (forall m :: m in before && (forall i :: 0 <= i < |es| ==> es[i].mbuf != m) ==> m in after)
  }

  ghost predicate Extends(before: map<Mbuf, seq<u8>>, after: map<Mbuf, seq<u8>>) {
    forall m :: m in before ==> m in after && after[m] == before[m]
  }

  lemma ExtendsOn(a: map<Mbuf, seq<u8>>, b: map<Mbuf, seq<u8>>, c: map<Mbuf, seq<u8>>)
    requires Extends(a, b) && Extends(b, c)
    ensures Extends(a, c)
  {
  }

  /** Neither a send nor a release on one connection touches another one's in-flight list. */
  lemma OtherConnKept(es: seq<RetransEntry>, payloads: seq<seq<u8>>, end: u32, mine: seq<RetransEntry>,
                      before: map<Mbuf, seq<u8>>, after: map<Mbuf, seq<u8>>)
    requires InFlight(es, payloads, before, end)
    requires Extends(before, after) || Keeps(before, after, mine)
    requires forall i, j :: 0 <= i < |es| && 0 <= j < |mine| ==> es[i].mbuf != mine[j].mbuf
    ensures InFlight(es, payloads, after, end)
  {
  }

  lemma NothingEntered()
    ensures EntryRefs([]) == multiset{}
  {
  }

  // ---------- the engine's send side ----------

  class TxEngine {
    /** The pool of data buffers and the pool of header buffers. */
    const pool: MbufPool
    const hdrPool: MbufPool
    const ringCap: nat
    const tcpMss: u32
    const sendBufferBytes: u32
    /** The batch ring, and the frames the driver has taken and not completed. */
    var ring: seq<Frame>
    var nic: seq<Frame>
    ghost var ringPayloads: seq<seq<u8>>
    /** For every buffer some in-flight entry relies on, the payload it must keep. */
    ghost var promised: map<Mbuf, seq<u8>>

    constructor (pool: MbufPool, hdrPool: MbufPool, ringCap: nat, tcpMss: u32, sendBufferBytes: u32)
      requires pool != hdrPool
      ensures Valid() && this.pool == pool && this.hdrPool == hdrPool && this.ringCap == ringCap
              && this.tcpMss == tcpMss
      ensures this.sendBufferBytes == sendBufferBytes && ring == [] && nic == [] && promised == map[]
    {
      this.pool, this.hdrPool, this.ringCap, this.tcpMss, this.sendBufferBytes := pool, hdrPool, ringCap, tcpMss,
          sendBufferBytes;
      ring, nic, ringPayloads, promised := [], [], [], map[];
    }

    /** The references the send side holds on data buffers, and on header buffers. */
    ghost function Held(): multiset<Mbuf>
      reads this`ring, this`nic
    {
      DataRefs(ring) + DataRefs(nic)
    }

    ghost function HdrHeld(): multiset<Mbuf>
      reads this`ring, this`nic
    {
      HdrRefs(ring) + HdrRefs(nic)
    }

    ghost predicate Valid()
      reads this`ring, this`ringPayloads, this`promised, pool`data
    {
      pool != hdrPool && RingOk(pool.data, ring, ringPayloads) && PromisesOk(pool.data, ring, promised)
    }

    /** The books of both pools: every reference is accounted for, and a promised buffer is held by
        an in-flight entry (of this connection or of one elsewhere). */
    ghost predicate Books(others: Elsewhere, es: seq<RetransEntry>)
      reads this`ring, this`nic, this`promised, pool, hdrPool
    {
      && pool.Balanced(others.data + Held() + EntryRefs(es))
      && hdrPool.Balanced(others.hdr + HdrHeld())
      && forall m :: m in promised ==> m in others.data + EntryRefs(es)
    }

    /** The driver may strip header bytes off the first buffer of the front frame: the header
        buffer of a chained frame, otherwise the one buffer as far as its payload. */
    method StripFirst(ghost held: multiset<Mbuf>, ghost hdrs: multiset<Mbuf>)
      requires Valid() && ring != [] && pool.Balanced(held) && hdrPool.Balanced(hdrs) && HdrOf(ring[0]) <= hdrs
      modifies pool`data, hdrPool`data
      ensures pool.Balanced(held) && hdrPool.Balanced(hdrs)
      ensures |ringPayloads| == |ring| && RingOk(pool.data, ring[1..], ringPayloads[1..])
      ensures PromisesOk(pool.data, ring[1..], promised) && Spared(old(pool.data), pool.data, multiset{ring[0].data})
    {
      hide RingOk, PromisesOk;
      FrontOk(pool.data, ring, ringPayloads);
      var f := ring[0];
      if f.hdr.Some? {
        RingTail(pool.data, ring, ringPayloads, promised);
        var h := f.hdr.value;
        assert h in hdrs;
        var k :| 0 <= k <= |hdrPool.data[h]|;
        hdrPool.data := hdrPool.data[h := hdrPool.data[h][k..]];
      } else {
        var m := f.data;
        var k :| 0 <= k <= |pool.data[m]| - f.keep;
        StripFront(pool.data, ring, ringPayloads, promised, k);
        pool.data := pool.data[m := pool.data[m][k..]];
      }
    }

    /** The driver takes the front frame. */
    method SendFront(ghost others: Elsewhere, ghost es: seq<RetransEntry>)
      requires Valid() && ring != [] && Books(others, es)
      modifies this`ring, this`nic, this`ringPayloads, pool`data, hdrPool`data
      ensures Valid() && Books(others, es) && ring == old(ring)[1..]
              && Spared(old(pool.data), pool.data, DataRefs(old(ring)))
    {
      hide RingOk, PromisesOk, DataRefs, HdrRefs, EntryRefs, HdrOf, MbufPool.Balanced;
      RefsFront(ring);
      RefsSnoc(nic, ring[0]);
      var f := ring[0];
      assert others.data + Held() + EntryRefs(es)
          == others.data + (DataRefs(ring[1..]) + DataRefs(nic + [f])) + EntryRefs(es);
      assert others.hdr + HdrHeld() == others.hdr + (HdrRefs(ring[1..]) + HdrRefs(nic + [f]));
      StripFirst(others.data + Held() + EntryRefs(es), others.hdr + HdrHeld());
      ring, ringPayloads := ring[1..], ringPayloads[1..];
      nic := nic + [f];
    }

    /** Both buffers of a frame go back to their pools. */
    method FreeFrame(f: Frame, ghost data: multiset<Mbuf>, ghost hdr: multiset<Mbuf>)
      requires pool != hdrPool && pool.Balanced(data + multiset{f.data}) && hdrPool.Balanced(hdr + HdrOf(f))
      modifies pool`refcnt, pool`free, hdrPool`refcnt, hdrPool`free
      ensures pool.Balanced(data) && hdrPool.Balanced(hdr)
    {
      hide MbufPool.Balanced;
      if f.hdr.Some? {
        hdrPool.FreeSeg(f.hdr.value, hdr + HdrOf(f));
        assert hdr + HdrOf(f) - multiset{f.hdr.value} == hdr;
      } else {
        assert hdr + HdrOf(f) == hdr;
      }
      pool.FreeSeg(f.data, data + multiset{f.data});
      assert data + multiset{f.data} - multiset{f.data} == data;
    }

    /** A frame the driver did not take is freed, both buffers of its chain. */
    method FreeFront(ghost others: Elsewhere, ghost es: seq<RetransEntry>)
      requires Valid() && ring != [] && Books(others, es)
      modifies this`ring, this`ringPayloads, pool`refcnt, pool`free, hdrPool`refcnt, hdrPool`free
      ensures Valid() && Books(others, es) && ring == old(ring)[1..]
    {
      hide RingOk, PromisesOk, DataRefs, HdrRefs, EntryRefs, HdrOf, MbufPool.Balanced;
      var f := ring[0];
      RingTail(pool.data, ring, ringPayloads, promised);
      RefsFront(ring);
      ghost var rest := others.data + (DataRefs(ring[1..]) + DataRefs(nic)) + EntryRefs(es);
      ghost var hdrs := others.hdr + (HdrRefs(ring[1..]) + HdrRefs(nic));
      assert others.data + Held() + EntryRefs(es) == rest + multiset{f.data};
      assert others.hdr + HdrHeld() == hdrs + HdrOf(f);
      FreeFrame(f, rest, hdrs);
      ring, ringPayloads := ring[1..], ringPayloads[1..];
    }

    /** The ring is freed without sending: the rest of a burst the driver did not take, and what is
        left at shutdown. */
    method FreeRing(ghost others: Elsewhere, ghost es: seq<RetransEntry>)
      requires Valid() && Books(others, es)
      modifies this`ring, this`ringPayloads, pool`refcnt, pool`free, hdrPool`refcnt, hdrPool`free
      ensures Valid() && Books(others, es) && ring == []
    {
      hide Valid, Books;
      while ring != []
        invariant Valid() && Books(others, es)
        decreases |ring|
      {
        FreeFront(others, es);
      }
    }

    /** The driver completes a frame it had taken. */
    method Complete(ghost others: Elsewhere, ghost es: seq<RetransEntry>)
      requires Valid() && Books(others, es) && nic != []
      modifies this`nic, pool`refcnt, pool`free, hdrPool`refcnt, hdrPool`free
      ensures Valid() && Books(others, es) && nic == old(nic)[1..]
    {
      hide RingOk, PromisesOk, DataRefs, HdrRefs, EntryRefs, HdrOf, MbufPool.Balanced;
      RefsFront(nic);
      ghost var rest := others.data + (DataRefs(ring) + DataRefs(nic[1..])) + EntryRefs(es);
      ghost var hdrs := others.hdr + (HdrRefs(ring) + HdrRefs(nic[1..]));
      assert others.data + Held() + EntryRefs(es) == rest + multiset{nic[0].data};
      assert others.hdr + HdrHeld() == hdrs + HdrOf(nic[0]);
      FreeFrame(nic[0], rest, hdrs);
      nic := nic[1..];
    }

    /** The driver completes some of the frames it had taken, oldest first. */
    method CompleteSome(ghost others: Elsewhere, ghost es: seq<RetransEntry>)
      requires Valid() && Books(others, es)
      modifies this`nic, pool`refcnt, pool`free, hdrPool`refcnt, hdrPool`free
      ensures Valid() && Books(others, es)
    {
      hide Valid, Books;
      var done :| 0 <= done <= |nic|;
      while done > 0
        invariant 0 <= done <= |nic| && Valid() && Books(others, es)
      {
        Complete(others, es);
        done := done - 1;
      }
    }

    /** `drain_tx_pending_data`: the driver returns the buffers of some frames it has finished with
        and takes some prefix of the ring, the rest is freed, and the ring is empty either way. */
    method Drain(ghost others: Elsewhere, ghost es: seq<RetransEntry>)
      requires Valid() && Books(others, es)
      modifies this`ring, this`nic, this`ringPayloads, pool, hdrPool
      ensures Valid() && Books(others, es) && ring == [] && Spared(old(pool.data), pool.data, DataRefs(old(ring)))
    {
      hide Valid, Books, DataRefs, HdrRefs;
      CompleteSome(others, es);
      var sent :| 0 <= sent <= |ring|;
      var i := 0;
      while i < sent
        invariant 0 <= i <= sent && |ring| == |old(ring)| - i && Valid() && Books(others, es)
        invariant DataRefs(ring) <= DataRefs(old(ring)) && Spared(old(pool.data), pool.data, DataRefs(old(ring)))
      {
        RefsFront(ring);
        SendFront(others, es);
        i := i + 1;
      }
      FreeRing(others, es);
    }

    /** Puts a frame the caller owns on the ring, draining it first when it is full. */
    method PushFrame(f: Frame, ghost p: seq<u8>, ghost others: Elsewhere, ghost es: seq<RetransEntry>)
      requires Valid() && FrameOk(pool.data, f, p)
      requires Books(Elsewhere(others.data + multiset{f.data}, others.hdr + HdrOf(f)), es)
      requires f.data !in DataRefs(ring) && (f.hdr.Some? ==> f.hdr.value !in HdrRefs(ring))
      requires f.data in promised ==> |promised[f.data]| <= f.keep
      requires forall m :: m in promised ==> m in others.data + EntryRefs(es)
      modifies this`ring, this`nic, this`ringPayloads, pool, hdrPool
      ensures Valid() && Books(others, es)
      ensures ring == (if |old(ring)| >= ringCap then [] else old(ring)) + [f]
      ensures ringPayloads != [] && ringPayloads[|ringPayloads| - 1] == p
      ensures Spared(old(pool.data), pool.data, DataRefs(old(ring)))
    {
      hide RingOk, PromisesOk, DataRefs, HdrRefs, EntryRefs, HdrOf, MbufPool.Balanced;
      if |ring| >= ringCap {
        Drain(Elsewhere(others.data + multiset{f.data}, others.hdr + HdrOf(f)), es);
        FrameSpared(old(pool.data), pool.data, DataRefs(old(ring)), f, p);
        NoFrames();
      }
      PushOk(pool.data, ring, ringPayloads, promised, f, p);
      RefsSnoc(ring, f);
      assert others.data + multiset{f.data} + Held() + EntryRefs(es)
          == others.data + (DataRefs(ring + [f]) + DataRefs(nic)) + EntryRefs(es);
      assert others.hdr + HdrOf(f) + HdrHeld() == others.hdr + (HdrRefs(ring + [f]) + HdrRefs(nic));
      ring, ringPayloads := ring + [f], ringPayloads + [p];
    }

    /** Allocate and append: a data buffer nobody else holds, filled with `bytes`, or no change. */
    method NewBuffer(bytes: seq<u8>, appendOk: bool, ghost others: Elsewhere, ghost es: seq<RetransEntry>)
      returns (r: Option<Mbuf>)
      requires Valid() && Books(others, es)
      modifies pool
      ensures Valid() && pool.refcnt.Keys == old(pool.refcnt.Keys)
      ensures r.None? ==> Books(others, es) && pool.refcnt == old(pool.refcnt) && (appendOk ==> pool.free == {})
      ensures r.Some? ==> appendOk && pool.Balanced(others.data + Held() + EntryRefs(es) + multiset{r.value})
      ensures r.Some? ==> (others.data + Held() + EntryRefs(es))[r.value] == 0 && r.value in pool.data
      ensures r.Some? ==> pool.data == old(pool.data)[r.value := bytes]
    {
      hide RingOk, PromisesOk, DataRefs, HdrRefs, EntryRefs;
      ghost var books := others.data + Held() + EntryRefs(es);
      var m := pool.Alloc(bytes, books);
      if m.None? {
        return None;
      }
      Refill(old(pool.data), ring, ringPayloads, promised, m.value, bytes);
      if !appendOk {
        pool.FreeSeg(m.value, books + multiset{m.value});
        assert books + multiset{m.value} - multiset{m.value} == books;
        return None;
      }
      return m;
    }

    /** One segment of `send_bytes`: a buffer with header and payload, one reference for the
        ring and one for the in-flight list. Nothing changes when the frame cannot be built or no
        buffer can be had. */
    method SendOne(c: TxConn, cur: u32, payload: seq<u8>, hdr: seq<u8>, step: Step, now: u64, ghost others: Elsewhere)
      returns (r: PieceResult)
      requires Valid() && InFlight(c.retrans, c.payloads, promised, cur) && Books(others, c.retrans)
      requires 0 < |payload| < 0x1_0000
      modifies this`ring, this`nic, this`ringPayloads, this`promised, pool, hdrPool, c`retrans, c`payloads
      ensures Valid() && Books(others, c.retrans)
      ensures r != Queued ==> c.retrans == old(c.retrans) && c.payloads == old(c.payloads) && promised == old(promised)
                              && ring == old(ring) && nic == old(nic) && pool.refcnt == old(pool.refcnt)
      ensures (r == NotBuilt <==> step == BuildFails) && (r == NoBuffer && step == Built ==> pool.free == {})
      ensures r == Queued ==> step == Built && InFlight(c.retrans, c.payloads, promised, SeqAdd(cur, |payload|))
      ensures r == Queued ==> |c.retrans| == |old(c.retrans)| + 1 && c.retrans[|old(c.retrans)|].mbuf !in old(promised)
      ensures r == Queued ==> c.payloads == old(c.payloads) + [payload] && |c.retrans| == |old(c.retrans)| + 1
      ensures r == Queued ==> var m := c.retrans[|old(c.retrans)|].mbuf;
        && c.retrans == old(c.retrans) + [NewEntry(cur, |payload|, m, |hdr|, now)]
        && ring != [] && ring[|ring| - 1] == Frame(None, m, |payload|, cur)
      ensures Extends(old(promised), promised)
    {
      hide RingOk, PromisesOk, DataRefs, HdrRefs, EntryRefs, InFlight, MbufPool.Balanced;
      if step == BuildFails {
        return NotBuilt;
      }
      var b := NewBuffer(hdr + payload, step == Built, others, c.retrans);
      if b.None? {
        return NoBuffer;
      }
      QueuePiece(c, b.value, cur, |payload|, payload, |hdr|, now, others);
      return Queued;
    }

    /** The second reference, the ring and the in-flight list, for a buffer just filled. */
    method QueuePiece(c: TxConn, m: Mbuf, cur: u32, len: nat, ghost payload: seq<u8>, hdrsLen: nat, now: u64,
                      ghost others: Elsewhere)
      requires Valid() && InFlight(c.retrans, c.payloads, promised, cur) && 0 < len == |payload| < 0x1_0000
      requires pool.Balanced(others.data + Held() + EntryRefs(c.retrans) + multiset{m})
               && hdrPool.Balanced(others.hdr + HdrHeld())
      requires (others.data + Held() + EntryRefs(c.retrans))[m] == 0 && m in pool.data
               && EndsWith(pool.data[m], payload)
      requires forall x :: x in promised ==> x in others.data + EntryRefs(c.retrans)
      modifies this`ring, this`nic, this`ringPayloads, this`promised, pool, hdrPool, c`retrans, c`payloads
      ensures Valid() && Books(others, c.retrans) && InFlight(c.retrans, c.payloads, promised, SeqAdd(cur, len))
      ensures c.payloads == old(c.payloads) + [payload]
              && c.retrans == old(c.retrans) + [NewEntry(cur, len, m, hdrsLen, now)]
      ensures ring != [] && ring[|ring| - 1] == Frame(None, m, len, cur) && Extends(old(promised), promised)
    {
      hide RingOk, PromisesOk, DataRefs, HdrRefs, EntryRefs, InFlight, MbufPool.Balanced, EndsWith;
      ghost var books := others.data + Held() + EntryRefs(c.retrans);
      pool.Retain(m, books + multiset{m});
      var f := Frame(None, m, len, cur);
      assert books + multiset{m} + multiset{m}
          == others.data + multiset{m} + multiset{m} + Held() + EntryRefs(c.retrans);
      assert others.hdr + HdrOf(f) == others.hdr;
      PushFrame(f, payload, Elsewhere(others.data + multiset{m}, others.hdr), c.retrans);
      Stash(c, NewEntry(cur, len, m, hdrsLen, now), payload, others);
    }

    /** `push_after_tx`: the in-flight list takes over one reference and the buffer's payload is
        promised to it. */
    method Stash(c: TxConn, e: RetransEntry, ghost payload: seq<u8>, ghost others: Elsewhere)
      requires Valid() && InFlight(c.retrans, c.payloads, promised, e.seqno)
      requires Books(Elsewhere(others.data + multiset{e.mbuf}, others.hdr), c.retrans)
      requires forall x :: x in promised ==> x in others.data + EntryRefs(c.retrans)
      requires |payload| == e.len > 0 && e.mbuf !in promised
      requires ring != [] && ring[|ring| - 1].hdr.None? && ring[|ring| - 1].data == e.mbuf
      requires ringPayloads != [] && ringPayloads[|ringPayloads| - 1] == payload
      modifies this`promised, c`retrans, c`payloads
      ensures Valid() && Books(others, c.retrans)
      ensures InFlight(c.retrans, c.payloads, promised, e.EndSeq())
      ensures c.retrans == old(c.retrans) + [e] && c.payloads == old(c.payloads) + [payload]
      ensures Extends(old(promised), promised)
    {
      hide RingOk, PromisesOk, DataRefs, HdrRefs, EntryRefs, InFlight, MbufPool.Balanced;
      InFlightSnoc(c.retrans, c.payloads, promised, e.seqno, e, payload);
      PromiseLast(pool.data, ring, ringPayloads, promised, payload);
      EntryRefsSnoc(c.retrans, e);
      assert others.data + multiset{e.mbuf} + Held() + EntryRefs(c.retrans)
          == others.data + Held() + EntryRefs(c.retrans + [e]);
      c.retrans, c.payloads := c.retrans + [e], c.payloads + [payload];
      promised := promised[e.mbuf := payload];
    }

    /** The segmentation loop: sends `bytes` from `start` on in full segments and a last rest,
        until done or a segment fails; `steps` tells how far each gets. */
    method SendPieces(c: TxConn, start: u32, bytes: seq<u8>, mss: nat, hdrs: nat -> seq<u8>, steps: nat -> Step,
                      now: u64, ghost others: Elsewhere)
      returns (offset: nat, stop: PieceResult)
      requires Valid() && InFlight(c.retrans, c.payloads, promised, start) && Books(others, c.retrans)
               && 0 < mss < 0x1_0000
      modifies this`ring, this`nic, this`ringPayloads, this`promised, pool, hdrPool, c`retrans, c`payloads
      ensures Valid() && Books(others, c.retrans)
      ensures InFlight(c.retrans, c.payloads, promised, SeqAdd(start, offset))
      ensures Sent(old(c.payloads), c.payloads, bytes, offset, mss) && Lens(c.retrans) == Lens(old(c.retrans)) + offset
      ensures Extends(old(promised), promised) && FirstSent(old(c.retrans), c.retrans, now)
      ensures Unpromised(old(promised), c.retrans, |old(c.retrans)|)
      ensures offset == 0 ==> c.retrans == old(c.retrans) && c.payloads == old(c.payloads) && promised == old(promised)
                              && ring == old(ring) && nic == old(nic) && pool.refcnt == old(pool.refcnt)
      ensures |old(c.payloads)| <= |c.payloads| && (stop == Queued <==> offset == |bytes|)
      ensures offset < |bytes| ==> Stopped(stop, steps(|c.payloads| - |old(c.payloads)|), pool.free)
    {
      hide Valid, Books, InFlight, SeqAdd, Sent, FirstSent, Extends;
      offset, stop := 0, Queued;
      var i, cur := 0, start;
      NothingSent(c.payloads, bytes, mss, start, promised, c.retrans, now);
      NoneUnpromised(promised, c.retrans);
      SentUpTo(c.payloads, c.payloads, bytes, 0, mss);
      while offset < |bytes|
        invariant 0 <= offset <= |bytes| && cur == SeqAdd(start, offset) && |c.payloads| == |old(c.payloads)| + i
        invariant Valid() && Books(others, c.retrans) && InFlight(c.retrans, c.payloads, promised, cur)
                  && stop == Queued
        invariant Sent(old(c.payloads), c.payloads, bytes, offset, mss)
        invariant Extends(old(promised), promised) && FirstSent(old(c.retrans), c.retrans, now)
        invariant Unpromised(old(promised), c.retrans, |old(c.retrans)|)
        invariant Lens(c.retrans) == Lens(old(c.retrans)) + offset
        invariant offset == 0 ==>
                    c.retrans == old(c.retrans) && c.payloads == old(c.payloads) && promised == old(promised)
                    && ring == old(ring) && nic == old(nic) && pool.refcnt == old(pool.refcnt)
        decreases |bytes| - offset
      {
        var take := Min(|bytes| - offset, mss);
        ghost var es, ps, pr := c.retrans, c.payloads, promised;
        GrownList(old(c.retrans), es, now);
        stop := SendOne(c, cur, bytes[offset..offset + take], hdrs(i), steps(i), now, others);
        if stop != Queued {
          return;
        }
        SentSnoc(old(c.payloads), ps, bytes, offset, mss, take);
        FirstSentSnoc(old(c.retrans), es, now, c.retrans[|es|]);
        UnpromisedSnoc(old(promised), pr, es, |old(c.retrans)|, c.retrans[|es|]);
        LensSnoc(es, c.retrans[|es|]);
        ExtendsOn(old(promised), pr, promised);
        AddTwice(start, offset, take);
        offset := offset + take;
        cur := SeqAdd(cur, take);
        i := i + 1;
      }
    }

    /** `send_bytes`. Accepts a prefix within the peer's window and the send buffer, cut into
        pieces of exactly the segment size except the last; stops early only when a frame cannot
        be built or no buffer can be had; and reports an error, with nothing changed, when the
        first segment gets no buffer. */
    method SendBytes(c: TxConn, bytes: seq<u8>, hdrs: nat -> seq<u8>, steps: nat -> Step, now: u64,
                     ghost others: Elsewhere)
      returns (r: SendResult)
      requires Valid() && c.Valid(promised) && Books(others, c.retrans)
      modifies this`ring, this`nic, this`ringPayloads, this`promised, pool, hdrPool, c`retrans, c`payloads, c`sndNxt
      ensures Valid() && c.Valid(promised) && Books(others, c.retrans)
      ensures Extends(old(promised), promised)
      ensures FirstSent(old(c.retrans), c.retrans, now) && Unpromised(old(promised), c.retrans, |old(c.retrans)|)
      ensures InWindowRun(c.retrans, c.DataEnd())
      ensures Lens(c.retrans) == Lens(old(c.retrans)) + if r.Accepted? then r.n else 0
      ensures r == InvalidHandle <==> c.state != Established
      ensures !r.Accepted? ==> c.retrans == old(c.retrans) && c.sndNxt == old(c.sndNxt) && promised == old(promised)
                               && ring == old(ring) && nic == old(nic) && pool.refcnt == old(pool.refcnt)
      ensures |old(c.payloads)| <= |c.payloads| && c.payloads[..|old(c.payloads)|] == old(c.payloads)
      ensures r.Accepted? ==> r.n <= |bytes| && c.sndNxt == SeqAdd(old(c.sndNxt), r.n)
                              && Concat(c.payloads[|old(c.payloads)|..]) == bytes[..r.n]
                              && Segmented(c.payloads[|old(c.payloads)|..], MssCap(c.peerMss, tcpMss))
      ensures r.Accepted? ==> r.n <= old(c.Room(|bytes|, sendBufferBytes))
      ensures r.Accepted? && r.n < old(c.Room(|bytes|, sendBufferBytes)) ==>
                var step := steps(|c.payloads| - |old(c.payloads)|);
                step == BuildFails || (r.n > 0 && (step == Step.AppendFails || pool.free == {}))
      ensures r == SendBufferFull ==>
                old(c.Room(|bytes|, sendBufferBytes)) > 0 && (steps(0) == Step.AppendFails || pool.free == {})
      ensures r.Accepted? && r.n > 0 ==>
                SeqSub(c.sndNxt, c.sndUna) <= c.sndWnd && SeqSub(c.sndNxt, c.sndUna) <= sendBufferBytes
    {
      hide Valid, Books, InFlight, Concat, Segmented, FirstSent, Extends, SeqAdd, SeqSub, MssCap, TxConn.Room,
           Unpromised, InWindowRun, Spanned, Lens;
      NothingSent(c.payloads, bytes, 1, c.sndNxt, promised, c.retrans, now);
      NoneUnpromised(promised, c.retrans);
      if c.state != Established {
        return InvalidHandle;
      }
      var total := c.Room(|bytes|, sendBufferBytes);
      var n, stop := SendPieces(c, c.sndNxt, bytes[..total], MssCap(c.peerMss, tcpMss), hdrs, steps, now, others);
      SentUpTo(old(c.payloads), c.payloads, bytes[..total], n, MssCap(c.peerMss, tcpMss));
      if n == 0 && stop == NoBuffer {
        return SendBufferFull;
      }
      assert bytes[..total][..n] == bytes[..n];
      if n > 0 {
        RoomKept(c, n, |bytes|, sendBufferBytes);
      }
      GrownList(old(c.retrans), c.retrans, now);
      GrownFlight(old(c.retrans), c.retrans, c.payloads, promised, c.sndUna, c.sndNxt, n);
      ghost var last := |c.payloads| - |old(c.payloads)|;
      assert n < total ==> steps(last) == BuildFails || (n > 0 && (steps(last) == Step.AppendFails || pool.free == {}));
      c.sndNxt := SeqAdd(c.sndNxt, n);
      return Accepted(n);
    }

    /** Strips what is left of the old headers: the buffer becomes its payload, whatever the
        driver and earlier retransmissions had stripped before. */
    method StripHeaders(m: Mbuf, len: nat, ghost others: Elsewhere, ghost es: seq<RetransEntry>)
      requires Valid() && Books(others, es) && ring == [] && m in promised && |promised[m]| == len
      modifies pool`data
      ensures Valid() && Books(others, es) && m in pool.data && pool.data == old(pool.data)[m := promised[m]]
    {
      hide PromisesOk, EntryRefs, DataRefs, HdrRefs;
      OnlyPayload(pool.data, ringPayloads, promised, m);
      var live := |pool.data[m]| - len;
      if live > 0 {
        pool.data := pool.data[m := pool.data[m][live..]];
      }
    }

    /** A fresh header buffer, filled, or no change. */
    method NewHeader(hdr: seq<u8>, written: bool, ghost hdrs: multiset<Mbuf>) returns (r: Option<Mbuf>)
      requires hdrPool.Balanced(hdrs)
      modifies hdrPool
      ensures r.None? ==> hdrPool.Balanced(hdrs) && (written ==> hdrPool.free == {})
      ensures r.Some? ==> hdrPool.Balanced(hdrs + multiset{r.value}) && written
    {
      r := hdrPool.Alloc(hdr, hdrs);
      if r.Some? && !written {
        hdrPool.FreeSeg(r.value, hdrs + multiset{r.value});
        assert hdrs + multiset{r.value} - multiset{r.value} == hdrs;
        r := None;
      }
    }

    /** The chain-failure exit: the header buffer is freed and the bump taken back. */
    method UndoChain(h: Mbuf, m: Mbuf, ghost data: multiset<Mbuf>, ghost hdrs: multiset<Mbuf>)
      requires pool != hdrPool && pool.Balanced(data + multiset{m}) && m in data && hdrPool.Balanced(hdrs + multiset{h})
      modifies pool`refcnt, hdrPool`refcnt, hdrPool`free
      ensures pool.Balanced(data) && hdrPool.Balanced(hdrs)
    {
      hdrPool.FreeSeg(h, hdrs + multiset{h});
      assert hdrs + multiset{h} - multiset{h} == hdrs;
      pool.Rollback(m, data + multiset{m});
      assert data + multiset{m} - multiset{m} == data;
    }

    /** The rest of phases four and five: bump, chain and push. A failed chain takes the bump back
        and frees the header buffer. */
    method ChainData(h: Mbuf, m: Mbuf, len: nat, seqno: u32, chainOk: bool, ghost others: Elsewhere,
                     ghost es: seq<RetransEntry>)
      requires Valid() && ring == [] && Books(Elsewhere(others.data, others.hdr + multiset{h}), es)
      requires m in promised && m in pool.data && pool.data[m] == promised[m] && |promised[m]| == len
      modifies this`ring, this`nic, this`ringPayloads, pool, hdrPool
      ensures Valid() && Books(others, es) && pool.data == old(pool.data)
      ensures chainOk ==> ring == [Frame(Some(h), m, len, seqno)] && ringPayloads == [promised[m]]
      ensures !chainOk ==> ring == []
    {
      hide RingOk, PromisesOk, DataRefs, HdrRefs, EntryRefs, MbufPool.Balanced;
      ghost var books := others.data + Held() + EntryRefs(es);
      ghost var hdrs := others.hdr + HdrHeld();
      assert others.hdr + multiset{h} + HdrHeld() == hdrs + multiset{h};
      pool.Retain(m, books);
      if !chainOk {
        UndoChain(h, m, books, hdrs);
        return;
      }
      var f := Frame(Some(h), m, len, seqno);
      assert books + multiset{m} == others.data + multiset{m} + Held() + EntryRefs(es);
      NoFrames();
      RingPayloadsLength();
      PushFrame(f, promised[m], others, es);
      RingPayloadsLength();
      SparedAll(old(pool.data), pool.data);
    }

    lemma RingPayloadsLength()
      requires Valid()
      ensures |ringPayloads| == |ring|
    {
    }

    lemma EntryPromised(c: TxConn, idx: nat)
      requires Valid() && c.Valid(promised) && idx < |c.retrans|
      ensures c.retrans[idx].mbuf in promised && c.retrans[idx].mbuf in pool.data && idx < |c.payloads|
      ensures promised[c.retrans[idx].mbuf] == c.payloads[idx] && |c.payloads[idx]| == c.retrans[idx].len
    {
    }

    /** `retransmit_inner`. The ring is drained first, so the frame it ends up with is the only
        one: a fresh header buffer chained to the entry's own buffer, which by then is exactly
        the original payload. Every failure leaves the data buffer's references as they were. */
    method Retransmit(c: TxConn, idx: nat, hdr: seq<u8>, fault: Fault, now: u64, ghost others: Elsewhere)
      returns (ok: bool)
      requires Valid() && c.Valid(promised) && Books(others, c.retrans)
      modifies this`ring, this`nic, this`ringPayloads, pool, hdrPool, c`retrans
      ensures Valid() && c.Valid(promised) && Books(others, c.retrans)
      ensures !ok ==> ring == [] && c.retrans == old(c.retrans)
      ensures !ok ==> idx >= |old(c.retrans)| || fault != NoFault || hdrPool.free == {}
      ensures ok ==> idx < |old(c.retrans)| && c.retrans == old(c.retrans)[idx := old(c.retrans)[idx].Again(now)]
      ensures ok ==> |ring| == 1 && ring[0].hdr.Some?
      ensures ok ==> ring[0].data == old(c.retrans)[idx].mbuf && ring[0].seqno == old(c.retrans)[idx].seqno
      ensures ok ==> idx < |c.payloads| && ringPayloads == [c.payloads[idx]]
                     && old(c.retrans)[idx].mbuf in pool.data && pool.data[old(c.retrans)[idx].mbuf] == c.payloads[idx]
      ensures Spared(old(pool.data), pool.data,
                     DataRefs(old(ring)) + if idx < |old(c.retrans)| then multiset{old(c.retrans)[idx].mbuf}
                         else multiset{})
    {
      hide RingOk, PromisesOk, DataRefs, HdrRefs, EntryRefs, MbufPool.Balanced, InFlight, InWindowRun, Spanned, Spared;
      Drain(others, c.retrans);
      if idx >= |c.retrans| {
        assert DataRefs(old(ring)) + multiset{} == DataRefs(old(ring));
        return false;
      }
      var e := c.retrans[idx];
      EntryPromised(c, idx);
      SparedOne(old(pool.data), pool.data, DataRefs(old(ring)), e.mbuf, promised[e.mbuf]);
      var r := NewHeader(hdr, fault == NoFault || fault == ChainFails, others.hdr + HdrHeld());
      if r.None? {
        return false;
      }
      assert others.hdr + HdrHeld() + multiset{r.value} == others.hdr + multiset{r.value} + HdrHeld();
      StripHeaders(e.mbuf, e.len, Elsewhere(others.data, others.hdr + multiset{r.value}), c.retrans);
      ChainData(r.value, e.mbuf, e.len, e.seqno, fault == NoFault, others, c.retrans);
      if fault != NoFault {
        return false;
      }
      RunKept(c.retrans, c.retrans[idx := e.Again(now)], c.payloads, promised, c.DataEnd());
      RunSame(c.retrans, c.retrans[idx := e.Again(now)], c.DataEnd());
      c.retrans := c.retrans[idx := e.Again(now)];
      return true;
    }

    /** Frees the front entry's buffer and releases its promise. */
    method PopEntry(c: TxConn, ghost others: Elsewhere)
      requires Valid() && c.retrans != [] && InFlight(c.retrans, c.payloads, promised, c.DataEnd())
               && Books(others, c.retrans)
      modifies this`promised, pool`refcnt, pool`free, c`retrans, c`payloads
      ensures Valid() && InFlight(c.retrans, c.payloads, promised, c.DataEnd()) && Books(others, c.retrans)
      ensures |old(c.payloads)| == |old(c.retrans)| && c.retrans == old(c.retrans)[1..]
              && c.payloads == old(c.payloads)[1..]
      ensures promised == old(promised) - {old(c.retrans)[0].mbuf}
    {
      hide RingOk, DataRefs, HdrRefs, EntryRefs, MbufPool.Balanced;
      var m := c.retrans[0].mbuf;
      EntryRefsFront(c.retrans);
      ghost var books := others.data + Held() + EntryRefs(c.retrans[1..]);
      assert others.data + Held() + EntryRefs(c.retrans) == books + multiset{m};
      pool.FreeSeg(m, books + multiset{m});
      assert books + multiset{m} - multiset{m} == books;
      c.retrans, c.payloads := c.retrans[1..], c.payloads[1..];
      promised := promised - {m};
    }

    /** The acknowledgment number: outside TIME_WAIT one that advances moves `snd_una`, and in
        ESTABLISHED every entry wholly covered leaves the front of the list and its buffer is freed.
        What is left spans what is then unacknowledged, and is nothing exactly when everything was
        acknowledged. */
    method AckPrune(c: TxConn, ack: u32, ghost others: Elsewhere)
      requires Valid() && c.Valid(promised) && Books(others, c.retrans)
      modifies this`promised, pool`refcnt, pool`free, c`retrans, c`payloads, c`sndUna
      ensures Valid() && c.Valid(promised) && Books(others, c.retrans)
      ensures var advances := Advances(old(c.sndUna), c.sndNxt, ack);
        && c.sndUna == (if advances && c.state != TimeWait then ack else old(c.sndUna))
        && c.retrans == (if advances && c.state == Established then PruneBelow(old(c.retrans), ack) else old(c.retrans))
        && (advances && c.state == Established && old(c.retrans) != [] ==> (c.retrans == [] <==> ack == c.sndNxt))
      ensures Keeps(old(promised), promised, old(c.retrans))
    {
      hide RingOk, PromisesOk, DataRefs, HdrRefs, EntryRefs, MbufPool.Balanced, InFlight, SeqLe, SeqAdd, SeqSub,
           Advances, InWindowRun, Spanned;
      if c.state == TimeWait || !Advances(c.sndUna, c.sndNxt, ack) {
        return;
      }
      if c.state == Established {
        PruneAdvance(c.retrans, c.sndUna, c.sndNxt, ack);
        PruneList(c, ack, others);
      }
      c.sndUna := ack;
    }

    /** `prune_below` with the release of each dropped entry's buffer. */
    method PruneList(c: TxConn, ack: u32, ghost others: Elsewhere)
      requires Valid() && InFlight(c.retrans, c.payloads, promised, c.DataEnd()) && Books(others, c.retrans)
      modifies this`promised, pool`refcnt, pool`free, c`retrans, c`payloads
      ensures Valid() && InFlight(c.retrans, c.payloads, promised, c.DataEnd()) && Books(others, c.retrans)
      ensures c.retrans == PruneBelow(old(c.retrans), ack)
      ensures Keeps(old(promised), promised, old(c.retrans))
    {
      hide RingOk, PromisesOk, DataRefs, HdrRefs, EntryRefs, MbufPool.Balanced, InFlight, SeqLe, SeqAdd, SeqSub;
      ghost var es := c.retrans;
      ghost var i := 0;
      while c.retrans != [] && SeqLe(c.retrans[0].EndSeq(), ack)
        invariant i <= |es| && c.retrans == es[i..]
        invariant Valid() && InFlight(c.retrans, c.payloads, promised, c.DataEnd()) && Books(others, c.retrans)
        invariant PruneBelow(c.retrans, ack) == PruneBelow(es, ack)
        invariant Keeps(old(promised), promised, es)
        decreases |c.retrans|
      {
        assert es[i..][0] == es[i];
        PopEntry(c, others);
        i := i + 1;
      }
    }

    /** The send side of `force_close_etimedout`: every in-flight buffer is freed. */
    method ForceClose(c: TxConn, ghost others: Elsewhere)
      requires Valid() && c.Valid(promised) && Books(others, c.retrans)
      modifies this`promised, pool`refcnt, pool`free, c`retrans, c`payloads, c`state
      ensures Valid() && c.Valid(promised) && Books(others, c.retrans) && c.retrans == [] && c.state == Closed
      ensures Keeps(old(promised), promised, old(c.retrans))
    {
      hide RingOk, PromisesOk, DataRefs, HdrRefs, EntryRefs, MbufPool.Balanced, InFlight;
      c.state := Closed;
      ghost var es := c.retrans;
      ghost var i := 0;
      while c.retrans != []
        invariant i <= |es| && c.retrans == es[i..]
        invariant Valid() && InFlight(c.retrans, c.payloads, promised, c.DataEnd()) && Books(others, c.retrans)
        invariant Keeps(old(promised), promised, es) && c.state == Closed
        decreases |c.retrans|
      {
        assert es[i..][0] == es[i];
        PopEntry(c, others);
        i := i + 1;
      }
    }

    /** Without the lists the books balance exactly when nothing was in flight. */
    lemma ListsLost(others: Elsewhere, es: seq<RetransEntry>)
      requires Books(others, es)
      ensures pool.Balanced(others.data + Held()) <==> es == []
    {
      hide DataRefs, HdrRefs, EntryRefs, MbufPool.Balanced;
      NothingEntered();
      ghost var kept := others.data + Held();
      if es == [] {
        assert kept + EntryRefs(es) == kept;
      } else {
        EntryHeld(es, 0);
        assert (kept + EntryRefs(es))[es[0].mbuf] > kept[es[0].mbuf];
        if pool.Balanced(kept) {
          SameBooks(pool, kept, kept + EntryRefs(es));
        }
      }
    }

    /** Every other removal drops the list without freeing anything, because a list entry does
        not own its buffer: the books stay balanced exactly when nothing was in flight. Nobody can
        give the references back any more. */
    method RemoveConn(c: TxConn, ghost others: Elsewhere)
      requires Valid() && c.Valid(promised) && Books(others, c.retrans)
      modifies c`retrans, c`payloads, c`state
      ensures Valid() && c.Valid(promised) && c.retrans == [] && c.state == Closed
      ensures Books(Elsewhere(others.data + EntryRefs(old(c.retrans)), others.hdr), c.retrans)
      ensures pool.Balanced(others.data + Held()) <==> old(c.retrans) == []
    {
      hide DataRefs, HdrRefs, EntryRefs, MbufPool.Balanced, RingOk, PromisesOk;
      ListsLost(others, c.retrans);
      NothingEntered();
      assert others.data + Held() + EntryRefs(c.retrans) == others.data + EntryRefs(c.retrans) + Held() + multiset{};
      c.retrans, c.payloads, c.state := [], [], Closed;
    }

    /** `close_conn`: from ESTABLISHED and CLOSE_WAIT our FIN takes the sequence number after the
        data; anywhere else, and when the FIN cannot be sent, nothing changes. */
    method CloseConn(c: TxConn, sent: bool) returns (ok: bool)
      requires c.Valid(promised)
      modifies c`finSent, c`sndNxt, c`state
      ensures c.Valid(promised)
      ensures var may := old(c.state) == Established || old(c.state) == CloseWait;
        && (ok <==> !may || sent)
        && (if may && sent then c.finSent && c.sndNxt == SeqAdd(old(c.sndNxt), 1) && c.DataEnd() == old(c.DataEnd())
              && c.state == (if old(c.state) == Established then FinWait1 else LastAck)
            else c.finSent == old(c.finSent) && c.sndNxt == old(c.sndNxt) && c.state == old(c.state))
    {
      if c.state != Established && c.state != CloseWait {
        return true;
      }
      if !sent {
        return false;
      }
      c.finSent, c.sndNxt, c.state := true, SeqAdd(c.sndNxt, 1), if c.state == Established then FinWait1 else LastAck;
      return true;
    }
  }
}
