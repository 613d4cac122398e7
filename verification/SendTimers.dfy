/** One connection's list in flight as the send path keeps it and as the timers see it: sends and
    acknowledgments on the two stay in step. */
module SendTimers {
  import opened SeqArith
  import opened Mempool
  import opened Retrans
  import C = ConnTimers
  import T = TxPath

  /** The pieces a run of first transmissions was cut into. */
  function PiecesOf(es: seq<RetransEntry>): (ps: seq<C.Piece>)
    ensures |ps| == |es|
  {
    seq(|es|, i requires 0 <= i < |es| => C.Piece(es[i].len, es[i].mbuf, es[i].hdrsLen))
  }

  /** A gap-free run of first transmissions is the cut of its pieces. */
  lemma {:induction false} CutOf(es: seq<RetransEntry>, start: u32, end: u32, now: u64)
    requires forall i :: 0 <= i < |es| ==> es[i] == NewEntry(es[i].seqno, es[i].len, es[i].mbuf, es[i].hdrsLen, now)
    requires Tiled(es, end) && if es == [] then end == start else es[0].seqno == start
    ensures C.Cut(start, PiecesOf(es), now) == es && C.CutEnd(start, PiecesOf(es)) == end
    ensures C.Bytes(PiecesOf(es)) == Lens(es)
    decreases |es|
  {
    if es != [] {
      var front, last := es[..|es| - 1], es[|es| - 1];
      FrontTiled(es, end);
      hide SeqAdd, Tiled;
      CutOf(front, start, last.seqno, now);
      var p := C.Piece(last.len, last.mbuf, last.hdrsLen);
      assert PiecesOf(es) == PiecesOf(front) + [p];
      CutSnoc(start, PiecesOf(front), p, now);
      assert es == front + [last];
    }
  }

  lemma FrontTiled(es: seq<RetransEntry>, end: u32)
    requires Tiled(es, end) && es != []
    ensures Tiled(es[..|es| - 1], es[|es| - 1].seqno) && es[|es| - 1].EndSeq() == end
  {
    if |es| > 1 {
      assert es[|es| - 2].EndSeq() == es[|es| - 1].seqno;
    }
  }

  lemma CutSnoc(start: u32, ps: seq<C.Piece>, p: C.Piece, now: u64)
    ensures var at := C.CutEnd(start, ps);
      && C.Cut(start, ps + [p], now) == C.Cut(start, ps, now) + [NewEntry(at, p.len, p.mbuf, p.hdrsLen, now)]
      && C.CutEnd(start, ps + [p]) == SeqAdd(at, p.len) && C.Bytes(ps + [p]) == C.Bytes(ps) + p.len
  {
    assert (ps + [p])[..|ps|] == ps;
  }

  /** Where a run starts, counted back from its end. */
  lemma {:induction false} RunStart(es: seq<RetransEntry>, end: u32)
    requires Tiled(es, end) && es != []
    ensures SeqAdd(es[0].seqno, Lens(es)) == end
    decreases |es|
  {
    hide SeqAdd;
    var front, last := es[..|es| - 1], es[|es| - 1];
    if front == [] {
      LensNone();
      assert Lens(es) == Lens([]) + last.len;
    } else {
      assert front[|front| - 1].EndSeq() == last.seqno;
      RunStart(front, last.seqno);
      AddTwice(es[0].seqno, Lens(front), last.len);
    }
  }

  lemma SameStart(a: u32, b: u32, n: nat)
    requires SeqAdd(a, n) == SeqAdd(b, n)
    ensures a == b
  {
    var q := (a + n) / 0x1_0000_0000 - (b + n) / 0x1_0000_0000;
    assert a - b == q * 0x1_0000_0000;
  }

  /** What a send of the send path appends is the cut of its pieces from the old `snd_nxt` on. */
  lemma SentIsCut(before: seq<RetransEntry>, after: seq<RetransEntry>, start: u32, n: nat, now: u64)
    requires T.FirstSent(before, after, now) && Tiled(before, start) && Tiled(after, SeqAdd(start, n))
    requires Lens(after) == Lens(before) + n && forall i :: 0 <= i < |after| ==> after[i].len > 0
    ensures var ps := PiecesOf(after[|before|..]);
      && after == before + C.Cut(start, ps, now) && C.CutEnd(start, ps) == SeqAdd(start, n) && C.Bytes(ps) == n
  {
    hide SeqAdd, Lens;
    var added := after[|before|..];
    assert after == before + added;
    LensSum(before, added);
    AddZero(start);
    LensNone();
    if added != [] {
      if before == [] {
        assert added == after;
        RunStart(after, SeqAdd(start, n));
        SameStart(after[0].seqno, start, n);
      } else {
        assert after[|before| - 1] == before[|before| - 1];
        assert after[|before| - 1].EndSeq() == after[|before|].seqno;
      }
    }
    CutOf(added, start, SeqAdd(start, n), now);
  }

  lemma {:induction false} LensSum(a: seq<RetransEntry>, b: seq<RetransEntry>)
    ensures Lens(a + b) == Lens(a) + Lens(b)
    decreases |b|
  {
    if b == [] {
      assert a + b == a;
    } else {
      LensSum(a, b[..|b| - 1]);
      assert (a + b)[..|a + b| - 1] == a + b[..|b| - 1];
    }
  }

  // ---------- the two stay in step ----------

  /** The two describe the same connection: the same state, numbers and segments in flight. */
  ghost predicate Linked(d: C.Conn, c: T.TxConn)
    reads c
  {
    d.state == c.state && d.sndUna == c.sndUna && d.sndNxt == c.sndNxt && SameRun(d.retrans, c.retrans)
  }

  lemma RoomWithin(c: T.TxConn, n: nat, cap: u32)
    ensures c.Room(n, cap) > 0 ==> SeqSub(c.sndNxt, c.sndUna) + c.Room(n, cap) <= c.sndWnd
  {
  }

  /** What a send appended, as the timer side takes it: it fits the peer's window, and appended there
      it leaves the two in step. */
  lemma SentLinks(d: C.Conn, before: seq<RetransEntry>, after: seq<RetransEntry>, n: nat, window: u32, now: u64)
    requires T.FirstSent(before, after, now) && Tiled(before, d.sndNxt) && Tiled(after, SeqAdd(d.sndNxt, n))
    requires Lens(after) == Lens(before) + n && forall i :: 0 <= i < |after| ==> after[i].len > 0
    requires SameRun(d.retrans, before) && window < 0x4000_0000
    requires n > 0 ==> SeqSub(d.sndNxt, d.sndUna) + n <= window
    ensures |before| <= |after| && var ps := PiecesOf(after[|before|..]);
      && C.Fits(d, ps, window) && C.CutEnd(d.sndNxt, ps) == SeqAdd(d.sndNxt, n)
      && SameRun(d.retrans + C.Cut(d.sndNxt, ps, now), after)
  {
    hide SeqAdd, SeqSub, Tiled, Lens;
    SentIsCut(before, after, d.sndNxt, n, now);
    var ps := PiecesOf(after[|before|..]);
    if ps != [] {
      C.CutFront(d.sndNxt, ps, now);
    }
  }

  /** A send on both: the segments the send path queued are the ones the timers then watch. */
  method SendBoth(tx: T.TxEngine, eng: C.Engine, c: T.TxConn, h: nat, bytes: seq<u8>, hdrs: nat -> seq<u8>,
                  steps: nat -> T.Step, ptoUs: u32, now: u64, ghost others: T.Elsewhere)
    returns (r: T.SendResult)
    requires tx.Valid() && c.Valid(tx.promised) && tx.Books(others, c.retrans)
    requires eng.Valid() && eng.table.Get(h).Some? && Linked(eng.table.Get(h).value, c)
    requires eng.wheel.batch == {} && |eng.wheel.slots| + 2 <= 0xFFFF_FFFF
    modifies tx`ring, tx`nic, tx`ringPayloads, tx`promised, tx.pool, tx.hdrPool, c`retrans, c`payloads, c`sndNxt
    modifies eng.table`slots, eng.wheel, eng`armedBy
    ensures tx.Valid() && c.Valid(tx.promised) && tx.Books(others, c.retrans)
    ensures eng.Valid() && eng.table.Get(h).Some? && Linked(eng.table.Get(h).value, c)
    ensures eng.table.Get(h).value.timers.rto.Some? <==> c.retrans != []
    ensures r == T.InvalidHandle <==> c.state != Established
  {
    hide *;
    LinkedIs(eng.table.Get(h).value, c);
    ghost var d, before, room := eng.table.Get(h).value, c.retrans, c.Room(|bytes|, tx.sendBufferBytes);
    RoomWithin(c, |bytes|, tx.sendBufferBytes);
    ListOf(c, tx.promised);
    var k, start := |c.retrans|, c.sndNxt;
    r := tx.SendBytes(c, bytes, hdrs, steps, now, others);
    ListOf(c, tx.promised);
    if r.Accepted? {
      SentLinks(d, before, c.retrans, r.n, c.sndWnd, now);
      eng.Send(h, PiecesOf(c.retrans[k..]), ptoUs, now, c.sndWnd);
    }
    LinkedIs(eng.table.Get(h).value, c);
    eng.SoundAt(h);
    TimerNamed(eng.table.Get(h).value, c);
  }

  lemma LinkedIs(d: C.Conn, c: T.TxConn)
    ensures Linked(d, c) <==>
              d.state == c.state && d.sndUna == c.sndUna && d.sndNxt == c.sndNxt && SameRun(d.retrans, c.retrans)
  {
  }

  lemma TimerNamed(d: C.Conn, c: T.TxConn)
    requires C.Sound(d) && Linked(d, c)
    ensures d.timers.rto.Some? <==> c.retrans != []
  {
  }

  lemma ListOf(c: T.TxConn, promised: map<Mbuf, seq<u8>>)
    requires c.Valid(promised)
    ensures Tiled(c.retrans, c.DataEnd()) && c.sndWnd < 0x4000_0000
    ensures forall i :: 0 <= i < |c.retrans| ==> c.retrans[i].len > 0
    ensures c.state == Established ==> c.DataEnd() == c.sndNxt
  {
  }

  /** An acknowledgment on both, with whatever blocks, samples, losses and resends the timer side sees:
      the numbers and the segments in flight stay in step. `una` and `list` are what the send path's
      acknowledgment leaves. */
  lemma AckLinked(d: C.Conn, d': C.Conn, blocks: seq<(u32, u32)>, ack: u32, sample: Option<u32>, ok: nat -> bool,
                  now: u64, es: seq<RetransEntry>, una: u32, list: seq<RetransEntry>)
    requires C.Acked(d, d', blocks, ack, sample, ok, now) && SameRun(d.retrans, es)
    requires var advances := Advances(d.sndUna, d.sndNxt, ack);
      && una == (if advances && d.state != TimeWait then ack else d.sndUna)
      && list == (if advances && d.state == Established then PruneBelow(es, ack) else es)
    ensures d'.sndUna == una && d'.sndNxt == d.sndNxt && d'.state == d.state && SameRun(d'.retrans, list)
  {
    hide C.MarkAll, C.RackLost, C.LearnIn, PruneBelow, Advances, SeqLt;
    if d.state == Established {
      C.AckKeepsRun(d, blocks, ack, sample, ok, now);
      PruneSame(d.retrans, es, ack);
    } else {
      C.MarkAllSame(d.retrans, blocks);
    }
  }
}
