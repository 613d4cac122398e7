/** What an incoming segment does to the send side of its connection, in a table of many: resends,
    the acknowledgment, the state change, or the removal; and what a removal leaves behind. */
module Replies {
  import opened SeqArith
  import opened Mempool
  import opened Retrans
  import opened TxPath
  import opened Senders

  /** A retransmission that loss detection asks for. */
  datatype Resend = Resend(idx: nat, hdr: seq<u8>, fault: Fault)

  /** What a segment brings for the send side: the resends, the acknowledgment number if the checks
      let it count, whether it acknowledges our FIN, and, behind ESTABLISHED, whether it carries the
      peer's. */
  datatype Reply = Reply(resends: seq<Resend>, ack: Option<u32>, finAcked: bool, peerFin: bool) {
    /** The state behind the segment; in ESTABLISHED the peer's FIN counts when it was taken. */
    function State(from: TcpState, finTaken: bool): TcpState {
      var to := NextState(from, finAcked, if from == Established then finTaken else peerFin);
      if to == Closed then from else to
    }
  }

  // ---------- lists that only lose their front ----------

  /** `after` holds the last segments of `before`. */
  ghost predicate Suffix(before: seq<RetransEntry>, after: seq<RetransEntry>) {
    |after| <= |before| && SameRun(before[|before| - |after|..], after)
  }

  lemma SuffixSelf(es: seq<RetransEntry>)
    ensures Suffix(es, es) && SameRun(es, es)
  {
    assert es[0..] == es;
  }

  lemma SuffixOn(a: seq<RetransEntry>, b: seq<RetransEntry>, c: seq<RetransEntry>)
    requires Suffix(a, b) && Suffix(b, c)
    ensures Suffix(a, c) && (SameRun(a, b) && SameRun(b, c) ==> SameRun(a, c))
  {
    var x, y := a[|a| - |b|..], b[|b| - |c|..];
    assert forall i :: 0 <= i < |c| ==> a[|a| - |c|..][i] == x[|b| - |c| + i] && y[i] == b[|b| - |c| + i];
  }

  lemma SuffixPruned(es: seq<RetransEntry>, ack: u32)
    ensures Suffix(es, PruneBelow(es, ack))
  {
    PruneBelowIs(es, ack);
  }

  lemma SuffixAgain(es: seq<RetransEntry>, idx: nat, now: u64)
    requires idx < |es|
    ensures Suffix(es, es[idx := es[idx].Again(now)]) && SameRun(es, es[idx := es[idx].Again(now)])
  {
    assert es[0..] == es;
  }

  // ---------- one segment ----------

  /** The resends, one after the other. */
  method ResendAll(tx: TxEngine, ts: seq<TxConn>, k: nat, resends: seq<Resend>, now: u64, ghost others: Elsewhere)
    requires Table(tx, ts) && AllBooks(tx, others, ts) && k < |ts|
    modifies tx`ring, tx`nic, tx`ringPayloads, tx.pool, tx.hdrPool, ts[k]
    ensures Table(tx, ts) && AllBooks(tx, others, ts) && ts[k].state == old(ts[k].state)
    ensures Suffix(old(ts[k].retrans), ts[k].retrans) && SameRun(old(ts[k].retrans), ts[k].retrans)
  {
    hide *;
    var c := ts[k];
    ghost var from := c.retrans;
    SuffixSelf(from);
    for i := 0 to |resends|
      invariant Table(tx, ts) && AllBooks(tx, others, ts) && c.state == old(c.state)
      invariant Suffix(from, c.retrans) && SameRun(from, c.retrans)
    {
      ghost var here := c.retrans;
      SuffixSelf(here);
      var ok := RetransmitOn(tx, ts, k, resends[i].idx, resends[i].hdr, resends[i].fault, now, others);
      if ok {
        SuffixAgain(here, resends[i].idx, now);
      }
      SuffixOn(from, here, c.retrans);
    }
  }

  /** The send side's share of a segment that leaves its connection open: the resends, the prune and
      the state change. The list only loses segments at its front, and none without an
      acknowledgment. */
  method Answer(tx: TxEngine, ts: seq<TxConn>, k: nat, r: Reply, finTaken: bool, now: u64, ghost others: Elsewhere)
    requires Table(tx, ts) && AllBooks(tx, others, ts) && k < |ts|
    modifies tx`ring, tx`nic, tx`ringPayloads, tx`promised, tx.pool, tx.hdrPool, ts[k]
    ensures Table(tx, ts) && AllBooks(tx, others, ts)
    ensures ts[k].state == r.State(old(ts[k].state), finTaken)
    ensures Suffix(old(ts[k].retrans), ts[k].retrans)
    ensures r.ack.None? ==> SameRun(old(ts[k].retrans), ts[k].retrans)
  {
    hide *;
    var c := ts[k];
    ghost var from := c.retrans;
    ResendAll(tx, ts, k, r.resends, now, others);
    if r.ack.Some? {
      ghost var here := c.retrans;
      PruneOn(tx, ts, k, r.ack.value, others);
      SuffixSelf(here);
      SuffixPruned(here, r.ack.value);
      SuffixOn(from, here, c.retrans);
    }
    StateOf(r, c.state, finTaken);
    if NextState(c.state, r.finAcked, if c.state == Established then finTaken else r.peerFin) != Closed {
      MoveOn(tx, ts, k, r.finAcked, if c.state == Established then finTaken else r.peerFin, others);
    }
  }

  lemma StateOf(r: Reply, from: TcpState, finTaken: bool)
    ensures var to := NextState(from, r.finAcked, if from == Established then finTaken else r.peerFin);
      r.State(from, finTaken) == if to == Closed then from else to
  {
  }

  // ---------- what removals leave behind ----------

  /** A connection that went, and what it had in flight then. */
  datatype Leaver = Leaver(conn: nat, list: seq<RetransEntry>)

  function Conns(trace: seq<Leaver>): set<nat> { set t | t in trace :: t.conn }

  /** The references the removed connections' lists held. */
  ghost function LeftRefs(trace: seq<Leaver>): multiset<Mbuf> {
    if trace == [] then multiset{} else LeftRefs(trace[..|trace| - 1]) + EntryRefs(trace[|trace| - 1].list)
  }

  lemma LeftSnoc(trace: seq<Leaver>, t: Leaver)
    ensures LeftRefs(trace + [t]) == LeftRefs(trace) + EntryRefs(t.list)
    ensures Conns(trace + [t]) == Conns(trace) + {t.conn}
  {
    assert (trace + [t])[..|trace|] == trace;
    assert forall x :: x in trace + [t] <==> x in trace || x == t;
  }

  lemma {:induction false} LeftNothing(trace: seq<Leaver>)
    ensures LeftRefs(trace) == multiset{} <==> forall i :: 0 <= i < |trace| ==> trace[i].list == []
    decreases |trace|
  {
    hide EntryRefs;
    NothingEntered();
    if trace != [] {
      var last := trace[|trace| - 1];
      LeftNothing(trace[..|trace| - 1]);
      if last.list != [] {
        EntryHeld(last.list, 0);
        assert last.list[0].mbuf in LeftRefs(trace);
      }
    }
  }

  /** Where the references of the removed connections' lists count. */
  ghost function Behind(others: Elsewhere, trace: seq<Leaver>): Elsewhere {
    Elsewhere(others.data + LeftRefs(trace), others.hdr)
  }

  /** The books over the connections that are left balance exactly when no removed one had data in
      flight; those of the header pool always do. */
  lemma BooksLeft(tx: TxEngine, ts: seq<TxConn>, others: Elsewhere, trace: seq<Leaver>)
    requires AllBooks(tx, Behind(others, trace), ts)
    ensures tx.pool.Balanced(others.data + Lists(ts) + tx.Held()) <==>
              forall i :: 0 <= i < |trace| ==> trace[i].list == []
    ensures tx.hdrPool.Balanced(others.hdr + tx.HdrHeld())
  {
    hide EntryRefs, MbufPool.Balanced, TxEngine.Held, TxEngine.HdrHeld, Lists, LeftRefs;
    NothingEntered();
    LeftNothing(trace);
    var kept, left := others.data + Lists(ts) + tx.Held(), LeftRefs(trace);
    assert others.data + left + Lists(ts) + tx.Held() + multiset{} == kept + left;
    if left == multiset{} {
      assert kept + left == kept;
    } else {
      var m :| m in left;
      assert (kept + left)[m] > kept[m];
      if tx.pool.Balanced(kept) {
        SameBooks(tx.pool, kept, kept + left);
      }
    }
  }

  // ---------- a run of segments ----------

  ghost function Flights(ts: seq<TxConn>): seq<seq<RetransEntry>>
    reads ts
  {
    seq(|ts|, i requires 0 <= i < |ts| reads ts => ts[i].retrans)
  }

  /** What a run of segments does to the lists: only those in `touched` change; one that is left, and
      one that went as it went, has only lost segments at its front, and none without an
      acknowledgment. */
  ghost predicate Flown(before: seq<seq<RetransEntry>>, after: seq<seq<RetransEntry>>, trace: seq<Leaver>,
                        touched: set<nat>, acked: set<nat>)
  {
    && |before| == |after|
    && (forall i :: 0 <= i < |before| ==>
          && (i !in touched ==> after[i] == before[i])
          && (i !in Conns(trace) ==> Suffix(before[i], after[i]) && (i !in acked ==> SameRun(before[i], after[i]))))
    && (forall t :: t in trace ==>
          && t.conn < |before| && Suffix(before[t.conn], t.list)
          && (t.conn !in acked ==> SameRun(before[t.conn], t.list)))
  }

  lemma NoneFlown(lists: seq<seq<RetransEntry>>)
    ensures Flown(lists, lists, [], {}, {})
  {
    forall i | 0 <= i < |lists|
      ensures Suffix(lists[i], lists[i])
    {
      SuffixSelf(lists[i]);
    }
  }

  lemma OneFlown(before: seq<seq<RetransEntry>>, here: seq<seq<RetransEntry>>, after: seq<seq<RetransEntry>>,
                 trace: seq<Leaver>, touched: set<nat>, acked: set<nat>, k: nat, byAck: bool)
    requires Flown(before, here, trace, touched, acked) && k < |here| == |after| && k !in Conns(trace)
    requires forall i :: 0 <= i < |here| && i != k ==> after[i] == here[i]
    requires Suffix(here[k], after[k]) && (!byAck ==> SameRun(here[k], after[k]))
    ensures Flown(before, after, trace, touched + {k}, acked + if byAck then {k} else {})
  {
    hide Suffix, SameRun;
    SuffixOn(before[k], here[k], after[k]);
  }

  lemma OneLeft(before: seq<seq<RetransEntry>>, here: seq<seq<RetransEntry>>, after: seq<seq<RetransEntry>>,
                trace: seq<Leaver>, touched: set<nat>, acked: set<nat>, k: nat, byAck: bool)
    requires Flown(before, here, trace, touched, acked) && k < |here| == |after| && k !in Conns(trace)
    requires forall i :: 0 <= i < |here| && i != k ==> after[i] == here[i]
    ensures Flown(before, after, trace + [Leaver(k, here[k])], touched + {k}, acked + if byAck then {k} else {})
  {
    hide Suffix, SameRun, Conns;
    LeftSnoc(trace, Leaver(k, here[k]));
  }

  lemma SomeFlown(before: seq<seq<RetransEntry>>, after: seq<seq<RetransEntry>>, trace: seq<Leaver>, touched: set<nat>,
                  acked: set<nat>, touched': set<nat>, acked': set<nat>)
    requires Flown(before, after, trace, touched, acked) && touched <= touched' && acked <= acked'
    ensures Flown(before, after, trace, touched', acked')
  {
  }
}
