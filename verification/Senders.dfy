/** The send side over the whole flow table: any number of connections share one ring and one pair of
    pools. What one of them sends, prunes, resends or gives up leaves the others' data in flight and
    every reference in order. */
module Senders {
  import opened SeqArith
  import opened Mempool
  import opened Retrans
  import opened TxPath

  ghost predicate Distinct(ts: seq<TxConn>) { forall i, j :: 0 <= i < j < |ts| ==> ts[i] != ts[j] }

  /** The two lists share no buffer. */
  ghost predicate Disjoint(a: seq<RetransEntry>, b: seq<RetransEntry>) {
    forall i, j :: 0 <= i < |a| && 0 <= j < |b| ==> a[i].mbuf != b[j].mbuf
  }

  // ---------- the references of all lists ----------

  /** The references the lists of the first `n` connections but `skip` hold. */
  ghost function ListsBut(ts: seq<TxConn>, n: nat, skip: nat): multiset<Mbuf>
    requires n <= |ts|
    reads set i | 0 <= i < n && i != skip :: ts[i]
  {
    if n == 0 then multiset{}
    else ListsBut(ts, n - 1, skip) + if n - 1 == skip then multiset{} else EntryRefs(ts[n - 1].retrans)
  }

  /** The references all the lists hold. */
  ghost function Lists(ts: seq<TxConn>): multiset<Mbuf>
    reads ts
  {
    ListsBut(ts, |ts|, |ts|)
  }

  lemma {:induction false} ListsAt(ts: seq<TxConn>, n: nat, k: nat)
    requires n <= |ts| && k < |ts|
    ensures ListsBut(ts, n, |ts|) == ListsBut(ts, n, k) + if k < n then EntryRefs(ts[k].retrans) else multiset{}
  {
    hide EntryRefs;
    if n > 0 {
      ListsAt(ts, n - 1, k);
    }
  }

  // ---------- the table ----------

  /** Every connection but `skip` has its data in flight in order, and no two of them share a
      buffer. */
  ghost predicate Rest(ts: seq<TxConn>, skip: nat, promised: map<Mbuf, seq<u8>>)
    reads set i | 0 <= i < |ts| && i != skip :: ts[i]
  {
    && Distinct(ts)
    && (forall i :: 0 <= i < |ts| && i != skip ==> ts[i].Valid(promised))
    && forall i, j :: 0 <= i < j < |ts| && i != skip && j != skip ==> Disjoint(ts[i].retrans, ts[j].retrans)
  }

  /** No connection but `skip` lists a buffer of `mine`. */
  ghost predicate Clear(ts: seq<TxConn>, skip: nat, mine: seq<RetransEntry>)
    reads set i | 0 <= i < |ts| && i != skip :: ts[i]
  {
    forall i :: 0 <= i < |ts| && i != skip ==> Disjoint(ts[i].retrans, mine)
  }

  /** Every connection has its data in flight in order, no two share a buffer, and so is the engine's
      ring. */
  ghost predicate Table(tx: TxEngine, ts: seq<TxConn>)
    reads ts, tx`ring, tx`ringPayloads, tx`promised, tx.pool`data
  {
    tx.Valid() && Rest(ts, |ts|, tx.promised)
  }

  /** The books of both pools with all lists in them. */
  ghost predicate AllBooks(tx: TxEngine, others: Elsewhere, ts: seq<TxConn>)
    reads ts, tx`ring, tx`nic, tx`promised, tx.pool, tx.hdrPool
  {
    tx.Books(Elsewhere(others.data + Lists(ts), others.hdr), [])
  }

  /** The references that are elsewhere as seen from connection `k`. */
  ghost function Beside(others: Elsewhere, ts: seq<TxConn>, k: nat): Elsewhere
    reads set i | 0 <= i < |ts| && i != k :: ts[i]
  {
    Elsewhere(others.data + ListsBut(ts, |ts|, k), others.hdr)
  }

  lemma OneOf(tx: TxEngine, ts: seq<TxConn>, k: nat, others: Elsewhere)
    requires Table(tx, ts) && AllBooks(tx, others, ts) && k < |ts|
    ensures tx.Valid() && ts[k].Valid(tx.promised) && tx.Books(Beside(others, ts, k), ts[k].retrans)
    ensures Rest(ts, k, tx.promised) && Clear(ts, k, ts[k].retrans)
    ensures forall i :: 0 <= i < |ts| && i != k ==> ts[i] != ts[k]
  {
    hide TxConn.Valid, EntryRefs, MbufPool.Balanced, TxEngine.Held, TxEngine.HdrHeld;
    ListsAt(ts, |ts|, k);
    NothingEntered();
    assert others.data + Lists(ts) + tx.Held() + multiset{}
        == others.data + ListsBut(ts, |ts|, k) + tx.Held() + EntryRefs(ts[k].retrans);
  }

  lemma AllOf(tx: TxEngine, ts: seq<TxConn>, k: nat, others: Elsewhere)
    requires tx.Valid() && k < |ts| && ts[k].Valid(tx.promised) && tx.Books(Beside(others, ts, k), ts[k].retrans)
    requires Rest(ts, k, tx.promised) && Clear(ts, k, ts[k].retrans)
    ensures Table(tx, ts) && AllBooks(tx, others, ts)
  {
    hide TxConn.Valid, EntryRefs, MbufPool.Balanced, TxEngine.Held, TxEngine.HdrHeld, TxEngine.Valid;
    ListsAt(ts, |ts|, k);
    NothingEntered();
    assert others.data + Lists(ts) + tx.Held() + multiset{}
        == others.data + ListsBut(ts, |ts|, k) + tx.Held() + EntryRefs(ts[k].retrans);
    forall i, j | 0 <= i < j < |ts|
      ensures Disjoint(ts[i].retrans, ts[j].retrans)
    {
      if j == k {
        assert Disjoint(ts[i].retrans, ts[k].retrans);
      } else if i == k {
        assert Disjoint(ts[j].retrans, ts[k].retrans);
      }
    }
  }

  /** Every buffer of the list was listed before or promised to nobody. */
  ghost predicate Regrown(before: seq<RetransEntry>, after: seq<RetransEntry>, promised: map<Mbuf, seq<u8>>) {
    forall j :: 0 <= j < |after| ==>
      after[j].mbuf !in promised || exists i :: 0 <= i < |before| && before[i].mbuf == after[j].mbuf
  }

  /** A step of one connection that only adds promises, or only releases its own, leaves the others
      in order. */
  lemma RestMoves(ts: seq<TxConn>, k: nat, mine: seq<RetransEntry>, after: seq<RetransEntry>,
                  before: map<Mbuf, seq<u8>>, later: map<Mbuf, seq<u8>>)
    requires Rest(ts, k, before) && Clear(ts, k, mine) && (Extends(before, later) || Keeps(before, later, mine))
    requires Regrown(mine, after, before)
    ensures Rest(ts, k, later) && Clear(ts, k, after)
  {
    hide Tiled, InWindowRun, Spanned, Extends, Keeps;
    forall i | 0 <= i < |ts| && i != k
      ensures ts[i].Valid(later) && Disjoint(ts[i].retrans, after)
    {
      assert Disjoint(ts[i].retrans, mine);
      OtherConnKept(ts[i].retrans, ts[i].payloads, ts[i].DataEnd(), mine, before, later);
      assert InFlight(ts[i].retrans, ts[i].payloads, before, ts[i].DataEnd());
    }
  }

  lemma SentRegrown(before: seq<RetransEntry>, after: seq<RetransEntry>, promised: map<Mbuf, seq<u8>>, now: u64)
    requires FirstSent(before, after, now) && Unpromised(promised, after, |before|)
    ensures Regrown(before, after, promised)
  {
    forall j | 0 <= j < |after|
      ensures after[j].mbuf !in promised || exists i :: 0 <= i < |before| && before[i].mbuf == after[j].mbuf
    {
      if j < |before| {
        assert before[j].mbuf == after[j].mbuf;
      }
    }
  }

  lemma PrunedRegrown(before: seq<RetransEntry>, ack: u32, promised: map<Mbuf, seq<u8>>)
    ensures Regrown(before, PruneBelow(before, ack), promised) && Regrown(before, before, promised)
  {
    PruneBelowIs(before, ack);
    var after := PruneBelow(before, ack);
    forall j | 0 <= j < |after|
      ensures exists i :: 0 <= i < |before| && before[i].mbuf == after[j].mbuf
    {
      assert before[|before| - |after| + j].mbuf == after[j].mbuf;
    }
  }

  lemma ExtendsSelf(promised: map<Mbuf, seq<u8>>)
    ensures Extends(promised, promised)
  {
  }

  // ---------- the steps of one connection among many ----------

  lemma Whole(tx: TxEngine, ts: seq<TxConn>, others: Elsewhere)
    ensures AllBooks(tx, others, ts) <==> tx.Books(Elsewhere(others.data + Lists(ts), others.hdr), [])
    ensures Table(tx, ts) <==> tx.Valid() && Rest(ts, |ts|, tx.promised)
  {
  }

  /** The drain of the ring at the end of a poll. */
  method DrainAll(tx: TxEngine, ts: seq<TxConn>, ghost others: Elsewhere)
    requires Table(tx, ts) && AllBooks(tx, others, ts)
    modifies tx`ring, tx`nic, tx`ringPayloads, tx.pool, tx.hdrPool
    ensures Table(tx, ts) && AllBooks(tx, others, ts) && tx.ring == []
  {
    hide *;
    Whole(tx, ts, others);
    tx.Drain(Elsewhere(others.data + Lists(ts), others.hdr), []);
    Whole(tx, ts, others);
  }

  /** The ring freed at shutdown. */
  method FreeRing(tx: TxEngine, ts: seq<TxConn>, ghost others: Elsewhere)
    requires Table(tx, ts) && AllBooks(tx, others, ts)
    modifies tx`ring, tx`ringPayloads, tx.pool`refcnt, tx.pool`free, tx.hdrPool`refcnt, tx.hdrPool`free
    ensures Table(tx, ts) && AllBooks(tx, others, ts) && tx.ring == []
  {
    hide *;
    Whole(tx, ts, others);
    tx.FreeRing(Elsewhere(others.data + Lists(ts), others.hdr), []);
    Whole(tx, ts, others);
  }

  /** A send on one connection. Its new buffers are nobody else's. */
  method SendOn(tx: TxEngine, ts: seq<TxConn>, k: nat, bytes: seq<u8>, hdrs: nat -> seq<u8>, steps: nat -> Step,
                now: u64, ghost others: Elsewhere)
    returns (r: SendResult)
    requires Table(tx, ts) && AllBooks(tx, others, ts) && k < |ts|
    modifies tx`ring, tx`nic, tx`ringPayloads, tx`promised, tx.pool, tx.hdrPool, ts[k]
    ensures Table(tx, ts) && AllBooks(tx, others, ts) && Extends(old(tx.promised), tx.promised)
    ensures InWindowRun(ts[k].retrans, ts[k].DataEnd()) && FirstSent(old(ts[k].retrans), ts[k].retrans, now)
    ensures (r == InvalidHandle <==> ts[k].state != Established) && ts[k].state == old(ts[k].state)
  {
    hide *;
    var c := ts[k];
    OneOf(tx, ts, k, others);
    ghost var mine, before := c.retrans, tx.promised;
    r := tx.SendBytes(c, bytes, hdrs, steps, now, Beside(others, ts, k));
    SentRegrown(mine, c.retrans, before, now);
    RestMoves(ts, k, mine, c.retrans, before, tx.promised);
    AllOf(tx, ts, k, others);
  }

  /** An acknowledgment on one connection. */
  method PruneOn(tx: TxEngine, ts: seq<TxConn>, k: nat, ack: u32, ghost others: Elsewhere)
    requires Table(tx, ts) && AllBooks(tx, others, ts) && k < |ts|
    modifies tx`promised, tx.pool`refcnt, tx.pool`free, ts[k]
    ensures Table(tx, ts) && AllBooks(tx, others, ts) && Keeps(old(tx.promised), tx.promised, old(ts[k].retrans))
    ensures ts[k].retrans == if Advances(old(ts[k].sndUna), old(ts[k].sndNxt), ack) && old(ts[k].state) == Established
                             then PruneBelow(old(ts[k].retrans), ack) else old(ts[k].retrans)
    ensures ts[k].state == old(ts[k].state)
  {
    hide *;
    var c := ts[k];
    OneOf(tx, ts, k, others);
    ghost var mine, before := c.retrans, tx.promised;
    tx.AckPrune(c, ack, Beside(others, ts, k));
    PrunedRegrown(mine, ack, before);
    RestMoves(ts, k, mine, c.retrans, before, tx.promised);
    AllOf(tx, ts, k, others);
  }

  /** A retransmission on one connection. */
  method RetransmitOn(tx: TxEngine, ts: seq<TxConn>, k: nat, idx: nat, hdr: seq<u8>, fault: Fault, now: u64,
                      ghost others: Elsewhere)
    returns (ok: bool)
    requires Table(tx, ts) && AllBooks(tx, others, ts) && k < |ts|
    modifies tx`ring, tx`nic, tx`ringPayloads, tx.pool, tx.hdrPool, ts[k]
    ensures Table(tx, ts) && AllBooks(tx, others, ts)
    ensures if ok then idx < |old(ts[k].retrans)|
                       && ts[k].retrans == old(ts[k].retrans)[idx := old(ts[k].retrans)[idx].Again(now)]
            else ts[k].retrans == old(ts[k].retrans)
    ensures ts[k].state == old(ts[k].state)
  {
    hide *;
    var c := ts[k];
    OneOf(tx, ts, k, others);
    ghost var mine, before := c.retrans, tx.promised;
    ok := tx.Retransmit(c, idx, hdr, fault, now, Beside(others, ts, k));
    AgainRegrown(mine, idx, now, before);
    ExtendsSelf(before);
    RestMoves(ts, k, mine, c.retrans, before, tx.promised);
    AllOf(tx, ts, k, others);
  }

  lemma AgainRegrown(before: seq<RetransEntry>, idx: nat, now: u64, promised: map<Mbuf, seq<u8>>)
    ensures Regrown(before, before, promised)
    ensures idx < |before| ==> Regrown(before, before[idx := before[idx].Again(now)], promised)
  {
    forall j | 0 <= j < |before|
      ensures exists i :: 0 <= i < |before| && before[i].mbuf == before[j].mbuf
    {
      assert before[j].mbuf == before[j].mbuf;
    }
  }

  /** A connection closed by timeout: its buffers come back, the others keep theirs. */
  method ForceCloseOn(tx: TxEngine, ts: seq<TxConn>, k: nat, ghost others: Elsewhere)
    requires Table(tx, ts) && AllBooks(tx, others, ts) && k < |ts|
    modifies tx`promised, tx.pool`refcnt, tx.pool`free, ts[k]
    ensures Table(tx, ts) && AllBooks(tx, others, ts) && Keeps(old(tx.promised), tx.promised, old(ts[k].retrans))
    ensures ts[k].retrans == [] && ts[k].state == Closed
  {
    hide *;
    var c := ts[k];
    OneOf(tx, ts, k, others);
    ghost var mine, before := c.retrans, tx.promised;
    tx.ForceClose(c, Beside(others, ts, k));
    NoneRegrown(mine, before);
    RestMoves(ts, k, mine, c.retrans, before, tx.promised);
    AllOf(tx, ts, k, others);
  }

  lemma NoneRegrown(before: seq<RetransEntry>, promised: map<Mbuf, seq<u8>>)
    ensures Regrown(before, [], promised)
  {
  }

  /** The state change a segment handler decided on, for one connection. */
  method MoveOn(tx: TxEngine, ts: seq<TxConn>, k: nat, finAcked: bool, peerFin: bool, ghost others: Elsewhere)
    requires Table(tx, ts) && AllBooks(tx, others, ts) && k < |ts|
    requires NextState(ts[k].state, finAcked, peerFin) != Closed
    modifies ts[k]
    ensures Table(tx, ts) && AllBooks(tx, others, ts)
    ensures ts[k].state == NextState(old(ts[k].state), finAcked, peerFin) && ts[k].retrans == old(ts[k].retrans)
  {
    hide *;
    var c := ts[k];
    OneOf(tx, ts, k, others);
    c.Move(finAcked, peerFin, tx.promised);
    AllOf(tx, ts, k, others);
  }

  /** A connection that goes without a forced close leaves its buffers behind: from then on they are
      held by nobody who could give them back, and the books of what is left balance exactly when it
      had nothing in flight. */
  method RemoveOn(tx: TxEngine, ts: seq<TxConn>, k: nat, ghost others: Elsewhere)
    returns (ghost left: seq<RetransEntry>)
    requires Table(tx, ts) && AllBooks(tx, others, ts) && k < |ts|
    modifies ts[k]
    ensures left == old(ts[k].retrans) && ts[k].retrans == [] && ts[k].state == Closed
    ensures Table(tx, ts) && AllBooks(tx, Elsewhere(others.data + EntryRefs(left), others.hdr), ts)
    ensures tx.pool.Balanced(others.data + Lists(ts) + tx.Held()) <==> left == []
  {
    hide *;
    var c := ts[k];
    OneOf(tx, ts, k, others);
    left := c.retrans;
    ghost var mine := c.retrans;
    tx.RemoveConn(c, Beside(others, ts, k));
    NoneRegrown(mine, tx.promised);
    ExtendsSelf(tx.promised);
    RestMoves(ts, k, mine, c.retrans, tx.promised, tx.promised);
    ghost var later := Elsewhere(others.data + EntryRefs(left), others.hdr);
    LeftBehind(tx, ts, k, others, left);
    AllOf(tx, ts, k, later);
  }

  lemma LeftBehind(tx: TxEngine, ts: seq<TxConn>, k: nat, others: Elsewhere, left: seq<RetransEntry>)
    requires k < |ts| && ts[k].retrans == []
    ensures var later := Elsewhere(others.data + EntryRefs(left), others.hdr);
      Beside(later, ts, k) == Elsewhere(Beside(others, ts, k).data + EntryRefs(left), Beside(others, ts, k).hdr)
    ensures others.data + Lists(ts) + tx.Held() == Beside(others, ts, k).data + tx.Held()
  {
    hide EntryRefs, TxEngine.Held;
    NothingEntered();
    ListsAt(ts, |ts|, k);
  }

  // ---------- joining and leaving ----------

  /** A new connection joins the table with nothing in flight. */
  lemma Joins(tx: TxEngine, ts: seq<TxConn>, c: TxConn, others: Elsewhere)
    requires Table(tx, ts) && AllBooks(tx, others, ts)
    requires c !in ts && c.Valid(tx.promised) && c.retrans == []
    ensures Table(tx, ts + [c]) && AllBooks(tx, others, ts + [c])
  {
    hide TxConn.Valid, EntryRefs, MbufPool.Balanced, TxEngine.Held, TxEngine.HdrHeld, TxEngine.Valid;
    var all := ts + [c];
    SameLists(ts, all, |ts|);
    NothingEntered();
    assert Lists(all) == Lists(ts);
    forall i, j | 0 <= i < j < |all|
      ensures all[i] != all[j] && Disjoint(all[i].retrans, all[j].retrans)
    {
      assert all[i] == ts[i];
      if j < |ts| {
        assert all[j] == ts[j];
      }
    }
  }

  lemma {:induction false} SameLists(ts: seq<TxConn>, all: seq<TxConn>, n: nat)
    requires ts <= all && n <= |ts|
    ensures ListsBut(all, n, |all|) == ListsBut(ts, n, |ts|)
  {
    hide EntryRefs;
    if n > 0 {
      SameLists(ts, all, n - 1);
    }
  }

  lemma {:induction false} ListsEmpty(ts: seq<TxConn>, n: nat)
    requires n <= |ts|
    ensures ListsBut(ts, n, |ts|) == multiset{} <==> forall i :: 0 <= i < n ==> ts[i].retrans == []
  {
    hide EntryRefs;
    NothingEntered();
    if n > 0 {
      ListsEmpty(ts, n - 1);
      if ts[n - 1].retrans != [] {
        EntryHeld(ts[n - 1].retrans, 0);
        assert ts[n - 1].retrans[0].mbuf in ListsBut(ts, n, |ts|);
      }
    }
  }

  /** With the lists gone and nothing freed the data pool's books balance exactly when nothing was in
      flight anywhere. */
  lemma ListsLost(tx: TxEngine, ts: seq<TxConn>, others: Elsewhere)
    requires AllBooks(tx, others, ts)
    ensures tx.pool.Balanced(others.data + tx.Held()) <==> forall i :: 0 <= i < |ts| ==> ts[i].retrans == []
  {
    hide EntryRefs, MbufPool.Balanced, TxEngine.Held, TxEngine.HdrHeld, ListsBut;
    NothingEntered();
    ListsEmpty(ts, |ts|);
    var kept, lists := others.data + tx.Held(), Lists(ts);
    assert others.data + lists + tx.Held() + multiset{} == kept + lists;
    if lists == multiset{} {
      assert kept + lists == kept;
    } else {
      var m :| m in lists;
      assert (kept + lists)[m] > kept[m];
      if tx.pool.Balanced(kept) {
        SameBooks(tx.pool, kept, kept + lists);
      }
    }
  }
}
