/** One poll over the whole flow table: the release of the previous poll's events, the receive
    burst, the dispatch of its frames to whichever connections they are for, on their receive and
    on their send side, and the transmit ring. The two sides have pools of their own. */
module Poll {
  import opened SeqArith
  import opened Mempool
  import opened Retrans
  import opened RxPath
  import opened RxEngine
  import Replies
  import Senders
  import TxPath
  import FaultInjector

  /** One frame of the burst: the bytes of each link, the connection the demultiplexing finds for
      it, if any, the parsed segment, how the handler's checks end, and what it brings for the send
      side. A frame whose handler closes the connection, be it a reset or in LAST_ACK the
      acknowledgment of our FIN, has the verdict `Reset`. */
  datatype Arrival = Arrival(links: seq<seq<u8>>, dest: Option<nat>, seg: Segment, verdict: Verdict,
                             reply: Replies.Reply)
  {
    /** A parsed frame lies inside its buffer. */
    predicate Sound() {
      && links != [] && (forall i :: 0 <= i < |links| ==> |links[i]| < 0x1_0000)
      && seg.len < 0x1_0000 && (|links| == 1 ==> seg.offset + seg.len <= |links[0]|)
    }
  }

  // ---------- the connections of the flow table ----------

  /** No two connections share their state. */
  ghost predicate Distinct(cs: seq<RxConn>) {
    forall i, j :: 0 <= i < j < |cs| ==> cs[i] != cs[j] && cs[i].reorder != cs[j].reorder
  }

  /** The references the first `n` connections but `skip` hold between them. */
  ghost function RefsBut(cs: seq<RxConn>, n: nat, skip: nat): multiset<Mbuf>
    requires n <= |cs|
    reads (set i | 0 <= i < n && i != skip :: cs[i]), (set i | 0 <= i < n && i != skip :: cs[i].reorder)
  {
    if n == 0 then multiset{}
    else RefsBut(cs, n - 1, skip) + if n - 1 == skip then multiset{} else cs[n - 1].Held()
  }

  /** The references all the connections hold between them. */
  ghost function ConnRefs(cs: seq<RxConn>): multiset<Mbuf>
    reads cs, set i | 0 <= i < |cs| :: cs[i].reorder
  {
    RefsBut(cs, |cs|, |cs|)
  }

  lemma {:induction false} ConnRefsAt(cs: seq<RxConn>, n: nat, k: nat)
    requires n <= |cs| && k < |cs|
    ensures RefsBut(cs, n, |cs|) == RefsBut(cs, n, k) + if k < n then cs[k].Held() else multiset{}
  {
    hide RxConn.Held;
    if n > 0 {
      ConnRefsAt(cs, n - 1, k);
    }
  }

  /** Every connection but `skip` is valid, or was removed and holds nothing. */
  ghost predicate Rest(pool: MbufPool, cs: seq<RxConn>, skip: nat, gone: set<nat>)
    reads (set i | 0 <= i < |cs| && i != skip :: cs[i]), (set i | 0 <= i < |cs| && i != skip :: cs[i].reorder),
          pool`data
  {
    && Distinct(cs)
    && forall i :: 0 <= i < |cs| && i != skip ==>
         cs[i].pool == pool && if i in gone then cs[i].Held() == multiset{} else cs[i].Valid()
  }

  /** Every connection is valid, or was removed and holds nothing. */
  ghost predicate Table(pool: MbufPool, cs: seq<RxConn>, gone: set<nat>)
    reads cs, (set i | 0 <= i < |cs| :: cs[i].reorder), pool`data
  {
    Rest(pool, cs, |cs|, gone)
  }

  /** The buffers `chain` hold the frame, as far as the parser reads it. */
  ghost predicate FrameOn(data: map<Mbuf, seq<u8>>, chain: seq<Mbuf>, a: Arrival) {
    && chain != [] && a.links != [] && |chain| == |a.links|
    && chain[0] in data && data[chain[0]] == a.links[0]
  }

  /** The burst holds the frames. */
  ghost predicate Loaded(data: map<Mbuf, seq<u8>>, burst: seq<seq<Mbuf>>, frames: seq<Arrival>) {
    && |burst| == |frames|
    && forall i :: 0 <= i < |burst| ==> FrameOn(data, burst[i], frames[i]) && frames[i].Sound()
  }

  lemma {:induction false} HeadHeldAt(burst: seq<seq<Mbuf>>, i: nat)
    requires i < |burst| && burst[i] != []
    ensures burst[i][0] in ChainRefs(burst)
  {
    if i > 0 {
      HeadHeldAt(burst[1..], i - 1);
    }
  }

  /** Refilling buffers nobody holds leaves the burst loaded. */
  lemma LoadedFrame(before: map<Mbuf, seq<u8>>, after: map<Mbuf, seq<u8>>, burst: seq<seq<Mbuf>>, frames: seq<Arrival>,
                    held: multiset<Mbuf>)
    requires Loaded(before, burst, frames) && ChainRefs(burst) <= held
    requires forall m :: m in held ==> m in before && m in after && after[m] == before[m]
    ensures Loaded(after, burst, frames)
  {
    forall i | 0 <= i < |burst|
      ensures burst[i][0] in after && after[burst[i][0]] == before[burst[i][0]]
    {
      HeadHeldAt(burst, i);
    }
  }

  lemma LoadedSnoc(data: map<Mbuf, seq<u8>>, burst: seq<seq<Mbuf>>, frames: seq<Arrival>, chain: seq<Mbuf>, a: Arrival)
    requires Loaded(data, burst, frames) && FrameOn(data, chain, a) && a.Sound()
    ensures Loaded(data, burst + [chain], frames + [a])
  {
  }

  /** One connection's share of the table. */
  lemma TableAt(pool: MbufPool, cs: seq<RxConn>, gone: set<nat>, i: nat)
    requires Table(pool, cs, gone) && i < |cs|
    ensures cs[i].pool == pool && if i in gone then cs[i].Held() == multiset{} else cs[i].Valid()
    ensures cs[i].Held() <= ConnRefs(cs)
  {
    hide RxConn.Valid, RxConn.Held;
    ConnRefsAt(cs, |cs|, i);
  }

  lemma TableDistinct(pool: MbufPool, cs: seq<RxConn>, gone: set<nat>)
    requires Table(pool, cs, gone)
    ensures Distinct(cs)
  {
  }

  lemma ParsedLinks(a: Arrival)
    requires a.Sound()
    ensures a.links != [] && forall i :: 0 <= i < |a.links| ==> |a.links[i]| < 0x1_0000
  {
  }

  lemma TableBy(pool: MbufPool, cs: seq<RxConn>, gone: set<nat>)
    requires Distinct(cs)
    requires forall i :: 0 <= i < |cs| ==> cs[i].pool == pool && if i in gone then cs[i].Held() == multiset{}
             else cs[i].Valid()
    ensures Table(pool, cs, gone)
  {
  }

  /** A frame's share of the burst: every connection stays as valid as it was, and the data of
      everything held stays what it was. */
  method ReceiveChain(e: Engine, cs: seq<RxConn>, links: seq<seq<u8>>, ghost gone: set<nat>,
                      ghost others: multiset<Mbuf>)
    returns (ok: bool)
    requires e.Valid() && Table(e.pool, cs, gone) && e.pool.Balanced(others + e.Held() + ConnRefs(cs))
    requires links != [] && forall i :: 0 <= i < |links| ==> |links[i]| < 0x1_0000
    modifies e`burst, e.pool
    ensures e.Valid() && Table(e.pool, cs, gone) && e.pool.Balanced(others + e.Held() + ConnRefs(cs))
    ensures e.pool.refcnt.Keys == old(e.pool.refcnt.Keys)
    ensures forall m :: m in old(e.Held()) ==>
              m in e.pool.data && m in old(e.pool.data) && e.pool.data[m] == old(e.pool.data)[m]
    ensures if ok then
              |e.burst| == |old(e.burst)| + 1 && e.burst[..|old(e.burst)|] == old(e.burst)
              && |e.burst[|old(e.burst)|]| == |links| && e.burst[|old(e.burst)|][0] in e.pool.data
              && e.pool.data[e.burst[|old(e.burst)|][0]] == links[0]
            else e.burst == old(e.burst)
  {
    hide *;
    ghost var held := others + ConnRefs(cs);
    assert held + e.Held() == others + e.Held() + ConnRefs(cs);
    forall i | 0 <= i < |cs|
      ensures cs[i].pool == e.pool && cs[i].Held() <= ConnRefs(cs) && if i in gone then cs[i].Held() == multiset{}
              else cs[i].Valid()
    {
      TableAt(e.pool, cs, gone, i);
    }
    TableDistinct(e.pool, cs, gone);
    ok := e.ReceiveFrame(links, held);
    forall i | 0 <= i < |cs| && i !in gone
      ensures cs[i].Valid()
    {
      cs[i].Stable();
    }
    TableBy(e.pool, cs, gone);
    assert others + e.Held() + ConnRefs(cs) == held + e.Held();
  }

  /** One frame more off the wire: the driver takes buffers from the pool, or loses the frame
      when there are too few. */
  method ReceiveNext(e: Engine, cs: seq<RxConn>, a: Arrival, got: seq<Arrival>, ghost gone: set<nat>,
                     ghost others: multiset<Mbuf>)
    returns (got': seq<Arrival>)
    requires e.Valid() && Table(e.pool, cs, gone) && e.pool.Balanced(others + e.Held() + ConnRefs(cs))
    requires a.Sound() && Loaded(e.pool.data, e.burst, got)
    modifies e`burst, e.pool
    ensures e.Valid() && Table(e.pool, cs, gone) && e.pool.Balanced(others + e.Held() + ConnRefs(cs))
    ensures Loaded(e.pool.data, e.burst, got') && (got' == got || got' == got + [a])
  {
    hide MbufPool.Balanced, Intact, RxConn.Valid, Engine.Valid, RxConn.Held, ConnRefs, ChainRefs, Table, Loaded,
         Arrival.Sound;
    ParsedLinks(a);
    ghost var before, held, bs := e.pool.data, e.Held(), e.burst;
    var ok := ReceiveChain(e, cs, a.links, gone, others);
    LoadedFrame(before, e.pool.data, bs, got, held);
    got' := got;
    if ok {
      LoadedSnoc(e.pool.data, bs, got, e.burst[|bs|], a);
      assert e.burst == bs + [e.burst[|bs|]];
      got' := got + [a];
    }
  }

  // ---------- the dispatch ----------

  /** The connections gone after the frames: those gone before, and each that a reset reached. */
  function Removed(frames: seq<Arrival>, gone: set<nat>): set<nat> {
    if frames == [] then gone else Removed(frames[1..], RemovedBy(frames[0], gone))
  }

  function RemovedBy(a: Arrival, gone: set<nat>): set<nat> {
    if a.dest.Some? && a.verdict == Reset then gone + {a.dest.value} else gone
  }

  /** The table apart from one connection. */
  lemma SplitTable(pool: MbufPool, cs: seq<RxConn>, k: nat, gone: set<nat>)
    requires Table(pool, cs, gone) && k < |cs| && k !in gone
    ensures cs[k].pool == pool && cs[k].Valid() && Rest(pool, cs, k, gone)
    ensures ConnRefs(cs) == RefsBut(cs, |cs|, k) + cs[k].Held()
    ensures forall i :: 0 <= i < |cs| && i != k ==> cs[i] != cs[k] && cs[i].reorder != cs[k].reorder
  {
    hide RxConn.Valid, RxConn.Held;
    ConnRefsAt(cs, |cs|, k);
  }

  lemma JoinTable(pool: MbufPool, cs: seq<RxConn>, k: nat, gone: set<nat>, removed: bool)
    requires k < |cs| && k !in gone && cs[k].pool == pool && Rest(pool, cs, k, gone)
    requires if removed then cs[k].Held() == multiset{} else cs[k].Valid()
    ensures Table(pool, cs, if removed then gone + {k} else gone)
    ensures ConnRefs(cs) == RefsBut(cs, |cs|, k) + cs[k].Held()
  {
    hide RxConn.Valid, RxConn.Held;
    ConnRefsAt(cs, |cs|, k);
  }

  /** The oldest frame of the burst, to the connection it is for. */
  method DispatchFrame(e: Engine, c: RxConn, handle: nat, a: Arrival, ghost rest: multiset<Mbuf>) returns (fin: bool)
    requires e.Valid() && c.Valid() && c.pool == e.pool && e.pool.Balanced(rest + e.Held() + c.Held())
    requires a.Sound() && e.burst != [] && FrameOn(e.pool.data, e.burst[0], a)
    modifies e`burst, e`queued, e.events, c, c.reorder, e.pool`refcnt, e.pool`free
    ensures e.Valid() && e.pool.Balanced(rest + e.Held() + c.Held()) && e.burst == old(e.burst)[1..]
    ensures if a.verdict == Reset then c.Held() == multiset{} else c.Valid()
    ensures old(c.taken) <= c.taken && old(c.delivered) <= c.delivered
    ensures a.verdict != Reset && old(c.waiting) == [] ==> c.waiting == []
    ensures c.finSeen == (old(c.finSeen) || fin)
  {
    hide RxConn.Valid, RxConn.Held, Engine.Valid, Engine.Held, MbufPool.Balanced, Accepts;
    var o := e.DispatchOne(c, handle, a.seg, a.verdict, rest);
    fin := o.finTaken;
  }

  /** A frame for a live connection. */
  method DispatchTo(e: Engine, cs: seq<RxConn>, k: nat, a: Arrival, ghost gone: set<nat>, ghost others: multiset<Mbuf>)
    returns (fin: bool)
    requires e.Valid() && Table(e.pool, cs, gone) && e.pool.Balanced(others + e.Held() + ConnRefs(cs))
    requires k < |cs| && k !in gone && a.Sound() && e.burst != [] && FrameOn(e.pool.data, e.burst[0], a)
    modifies e`burst, e`queued, e.events, cs[k], cs[k].reorder, e.pool`refcnt, e.pool`free
    ensures e.Valid() && e.pool.Balanced(others + e.Held() + ConnRefs(cs)) && e.burst == old(e.burst)[1..]
    ensures Table(e.pool, cs, if a.verdict == Reset then gone + {k} else gone)
    ensures old(cs[k].taken) <= cs[k].taken && old(cs[k].delivered) <= cs[k].delivered
    ensures a.verdict != Reset && old(cs[k].waiting) == [] ==> cs[k].waiting == []
    ensures cs[k].finSeen == (old(cs[k].finSeen) || fin)
  {
    hide *;
    var c := cs[k];
    SplitTable(e.pool, cs, k, gone);
    ghost var rest := others + RefsBut(cs, |cs|, k);
    assert rest + e.Held() + c.Held() == others + e.Held() + ConnRefs(cs);
    fin := DispatchFrame(e, c, k, a, rest);
    JoinTable(e.pool, cs, k, gone, a.verdict == Reset);
    assert rest + e.Held() + c.Held() == others + e.Held() + ConnRefs(cs);
  }

  // ---------- what a poll does to the connections ----------

  /** A connection's byte stream so far. */
  datatype Stand = Stand(taken: seq<u8>, delivered: seq<u8>, waiting: seq<u8>, finSeen: bool)

  ghost function Stands(cs: seq<RxConn>): seq<Stand>
    reads cs
  {
    seq(|cs|, i requires 0 <= i < |cs| reads cs => Stand(cs[i].taken, cs[i].delivered, cs[i].waiting, cs[i].finSeen))
  }

  /** Nothing taken or delivered is taken back, only the connections in `touched` changed, and one
      that is not gone and had delivered everything has done so again. */
  ghost predicate Moved(before: seq<Stand>, after: seq<Stand>, touched: set<nat>, gone: set<nat>) {
    && |before| == |after|
    && forall i :: 0 <= i < |before| ==>
         before[i].taken <= after[i].taken && before[i].delivered <= after[i].delivered
         && (i !in touched ==> after[i] == before[i])
         && (i !in gone && before[i].waiting == [] ==> after[i].waiting == [])
  }

  lemma NothingMoved(stands: seq<Stand>, touched: set<nat>, gone: set<nat>)
    ensures Moved(stands, stands, touched, gone)
  {
  }

  lemma OneMoved(before: seq<Stand>, after: seq<Stand>, k: nat, gone: set<nat>)
    requires |before| == |after| && k < |after| && forall i :: 0 <= i < |before| && i != k ==> after[i] == before[i]
    requires before[k].taken <= after[k].taken && before[k].delivered <= after[k].delivered
    requires k !in gone && before[k].waiting == [] ==> after[k].waiting == []
    ensures Moved(before, after, {k}, gone)
  {
  }

  lemma MovedOn(a: seq<Stand>, b: seq<Stand>, c: seq<Stand>, t: set<nat>, u: set<nat>, gone: set<nat>, gone': set<nat>)
    requires Moved(a, b, t, gone) && Moved(b, c, u, gone') && gone <= gone'
    ensures Moved(a, c, t + u, gone')
  {
  }

  /** The connections the frames are for. */
  ghost function Dests(frames: seq<Arrival>): set<nat> {
    if frames == [] then {} else Dests(frames[1..]) + DestOf(frames[0])
  }

  ghost function DestOf(a: Arrival): set<nat> { if a.dest.Some? then {a.dest.value} else {} }

  /** The receive side of the oldest frame of the burst: to its connection, if the demultiplexing
      finds one, and back to the pool. */
  method DispatchNext(e: Engine, cs: seq<RxConn>, a: Arrival, gone: set<nat>, ghost others: multiset<Mbuf>)
    returns (gone': set<nat>, fin: bool)
    requires e.Valid() && Table(e.pool, cs, gone) && e.pool.Balanced(others + e.Held() + ConnRefs(cs))
    requires a.Sound() && (a.dest.Some? ==> a.dest.value < |cs|) && e.burst != [] && FrameOn(e.pool.data, e.burst[0], a)
    modifies e`burst, e`queued, e.events, cs, (set i | 0 <= i < |cs| :: cs[i].reorder), e.pool`refcnt, e.pool`free
    ensures e.Valid() && Table(e.pool, cs, gone') && e.pool.Balanced(others + e.Held() + ConnRefs(cs))
    ensures e.burst == old(e.burst)[1..] && gone' == RemovedBy(a, gone) && gone <= gone'
    ensures Moved(old(Stands(cs)), Stands(cs), DestOf(a), gone')
    ensures a.dest.Some? && a.dest.value !in gone ==>
              cs[a.dest.value].finSeen == (old(cs[a.dest.value].finSeen) || fin)
  {
    hide MbufPool.Balanced, Engine.Valid, Engine.Held, RxConn.Valid, RxConn.Held, ConnRefs, Arrival.Sound, FrameOn,
         Table, Moved;
    gone', fin := gone, false;
    ghost var from := Stands(cs);
    NothingMoved(from, DestOf(a), gone);
    if a.dest.Some? && a.dest.value !in gone {
      var k := a.dest.value;
      TableDistinct(e.pool, cs, gone);
      fin := DispatchTo(e, cs, k, a, gone, others);
      if a.verdict == Reset {
        gone' := gone + {k};
      }
      OneMoved(from, Stands(cs), k, gone');
    } else {
      assert others + ConnRefs(cs) + e.Held() == others + e.Held() + ConnRefs(cs);
      e.ReleaseFrame(others + ConnRefs(cs));
      assert others + ConnRefs(cs) + e.Held() == others + e.Held() + ConnRefs(cs);
      assert a.dest.Some? ==> gone + {a.dest.value} == gone;
    }
  }

  lemma LoadedFront(data: map<Mbuf, seq<u8>>, burst: seq<seq<Mbuf>>, frames: seq<Arrival>)
    requires Loaded(data, burst, frames)
    ensures |burst| == |frames|
    ensures frames != [] ==>
              FrameOn(data, burst[0], frames[0]) && frames[0].Sound() && Loaded(data, burst[1..], frames[1..])
  {
  }

  lemma NothingLoaded(data: map<Mbuf, seq<u8>>)
    ensures Loaded(data, [], [])
  {
  }

  /** Every frame is a parsed one, and the demultiplexing finds only connections of the table. */
  predicate Expected(frames: seq<Arrival>, conns: nat) {
    forall i :: 0 <= i < |frames| ==> frames[i].Sound() && (frames[i].dest.Some? ==> frames[i].dest.value < conns)
  }

  /** The frames the driver hands over are some of those on the wire, in their order. */
  ghost predicate Sublist(got: seq<Arrival>, frames: seq<Arrival>) {
    if frames == [] then got == []
    else Sublist(got, frames[..|frames| - 1])
         || (got != [] && got[|got| - 1] == frames[|frames| - 1] && Sublist(got[..|got| - 1], frames[..|frames| - 1]))
  }

  /** The receive burst: the driver fills buffers from the pool frame by frame, losing those it
      has no buffers for. */
  method FillBurst(e: Engine, cs: seq<RxConn>, frames: seq<Arrival>, ghost gone: set<nat>, ghost others: multiset<Mbuf>)
    returns (got: seq<Arrival>)
    requires e.Valid() && Table(e.pool, cs, gone) && e.pool.Balanced(others + e.Held() + ConnRefs(cs))
    requires Expected(frames, |cs|) && e.burst == []
    modifies e`burst, e.pool
    ensures e.Valid() && Table(e.pool, cs, gone) && e.pool.Balanced(others + e.Held() + ConnRefs(cs))
    ensures Loaded(e.pool.data, e.burst, got) && Expected(got, |cs|) && Sublist(got, frames)
  {
    hide MbufPool.Balanced, Engine.Valid, Engine.Held, RxConn.Valid, RxConn.Held, ConnRefs, Arrival.Sound, Table,
         Loaded;
    got := [];
    NothingLoaded(e.pool.data);
    for i := 0 to |frames|
      invariant e.Valid() && Table(e.pool, cs, gone) && e.pool.Balanced(others + e.Held() + ConnRefs(cs))
      invariant Loaded(e.pool.data, e.burst, got) && Expected(got, |cs|) && Sublist(got, frames[..i])
    {
      assert frames[..i + 1][..i] == frames[..i];
      ghost var before := got;
      got := ReceiveNext(e, cs, frames[i], got, gone, others);
      assert got != before ==> got[..|got| - 1] == before;
    }
    assert frames[..|frames|] == frames;
  }

  // ---------- both sides of a frame ----------

  /** The three pools are three objects. */
  predicate Apart(e: Engine, tx: TxPath.TxEngine) { e.pool != tx.pool && e.pool != tx.hdrPool }

  ghost function States(ts: seq<TxPath.TxConn>): seq<TcpState>
    reads ts
  {
    seq(|ts|, i requires 0 <= i < |ts| reads ts => ts[i].state)
  }

  /** A removed connection is closed and lists nothing, and one in ESTABLISHED has not seen the peer's
      FIN. */
  ghost predicate Matched(stands: seq<Stand>, states: seq<TcpState>, lists: seq<seq<RetransEntry>>, gone: set<nat>) {
    && |stands| == |states| == |lists|
    && forall i :: 0 <= i < |states| ==>
         if i in gone then states[i] == Closed && lists[i] == []
         else states[i] == Established ==> !stands[i].finSeen
  }

  /** The receive sides `cs` and the send sides `ts` belong to the same connections. */
  ghost predicate Paired(cs: seq<RxConn>, ts: seq<TxPath.TxConn>, gone: set<nat>)
    reads cs, ts
  {
    Matched(Stands(cs), States(ts), Replies.Flights(ts), gone)
  }

  /** A frame for the live connection `k`. */
  lemma MatchedOne(st: seq<Stand>, st': seq<Stand>, s: seq<TcpState>, s': seq<TcpState>, l: seq<seq<RetransEntry>>,
                   l': seq<seq<RetransEntry>>, gone: set<nat>, k: nat, removed: bool, r: Replies.Reply, fin: bool,
                   gone': set<nat>)
    requires Matched(st, s, l, gone) && k < |s| && k !in gone && Moved(st, st', {k}, gone')
    requires |s'| == |s| && |l'| == |l| && forall i :: 0 <= i < |s| && i != k ==> s'[i] == s[i] && l'[i] == l[i]
    requires st'[k].finSeen == (st[k].finSeen || fin)
    requires if removed then s'[k] == Closed && l'[k] == [] else s'[k] == r.State(s[k], fin)
    ensures Matched(st', s', l', if removed then gone + {k} else gone)
  {
  }

  /** A frame for nobody, or for a connection that is gone. */
  lemma MatchedSame(st: seq<Stand>, st': seq<Stand>, s: seq<TcpState>, l: seq<seq<RetransEntry>>, gone: set<nat>,
                    touched: set<nat>)
    requires Matched(st, s, l, gone) && Moved(st, st', touched, gone) && touched <= gone
    ensures Matched(st', s, l, gone)
  {
  }

  /** Only the ESTABLISHED handler takes data; any handler may close. */
  function HandlerVerdict(state: TcpState, v: Verdict): Verdict {
    if state == Established || v == Reset then v else Reject
  }

  /** The connections whose frames carry an acknowledgment number that counts. */
  ghost function Acked(frames: seq<Arrival>): set<nat> {
    if frames == [] then {} else Acked(frames[1..]) + AckedBy(frames[0])
  }

  ghost function AckedBy(a: Arrival): set<nat> { if a.dest.Some? && a.reply.ack.Some? then {a.dest.value} else {} }

  /** The send side of a frame for a live connection: its reply, or the removal. */
  method AnswerFrame(tx: TxPath.TxEngine, cs: seq<RxConn>, ts: seq<TxPath.TxConn>, k: nat, a: Arrival, fin: bool,
                     now: u64, ghost trace: seq<Replies.Leaver>, ghost lists: seq<seq<RetransEntry>>,
                     ghost touched: set<nat>, ghost acked: set<nat>, ghost sent: TxPath.Elsewhere)
    returns (ghost trace': seq<Replies.Leaver>)
    requires Senders.Table(tx, ts) && Senders.AllBooks(tx, Replies.Behind(sent, trace), ts) && k < |ts|
    requires Replies.Flown(lists, Replies.Flights(ts), trace, touched, acked) && k !in Replies.Conns(trace)
    modifies tx`ring, tx`nic, tx`ringPayloads, tx`promised, tx.pool, tx.hdrPool, ts[k]
    ensures Senders.Table(tx, ts) && Senders.AllBooks(tx, Replies.Behind(sent, trace'), ts)
    ensures Replies.Flown(lists, Replies.Flights(ts), trace', touched + {k},
                          acked + if a.reply.ack.Some? then {k} else {})
    ensures Replies.Conns(trace') == Replies.Conns(trace) + if a.verdict == Reset then {k} else {}
    ensures if a.verdict == Reset then ts[k].state == Closed && ts[k].retrans == []
            else ts[k].state == a.reply.State(old(ts[k].state), fin)
    ensures |States(ts)| == |Replies.Flights(ts)| == |ts| && |old(States(ts))| == |old(Replies.Flights(ts))| == |ts|
    ensures forall i :: 0 <= i < |ts| && i != k ==>
              States(ts)[i] == old(States(ts))[i] && Replies.Flights(ts)[i] == old(Replies.Flights(ts))[i]
  {
    hide *;
    ghost var here := Replies.Flights(ts);
    FlightsAt(ts);
    SendersApart(tx, ts, k);
    if a.verdict == Reset {
      ghost var left := Senders.RemoveOn(tx, ts, k, Replies.Behind(sent, trace));
      FlightsAt(ts);
      trace' := trace + [Replies.Leaver(k, left)];
      BehindSnoc(sent, trace, k, left);
      Replies.OneLeft(lists, here, Replies.Flights(ts), trace, touched, acked, k, a.reply.ack.Some?);
    } else {
      Replies.Answer(tx, ts, k, a.reply, fin, now, Replies.Behind(sent, trace));
      FlightsAt(ts);
      trace' := trace;
      Replies.OneFlown(lists, here, Replies.Flights(ts), trace, touched, acked, k, a.reply.ack.Some?);
    }
  }

  lemma FlightsAt(ts: seq<TxPath.TxConn>)
    ensures |Replies.Flights(ts)| == |ts| && forall i :: 0 <= i < |ts| ==> Replies.Flights(ts)[i] == ts[i].retrans
    ensures |States(ts)| == |ts| && forall i :: 0 <= i < |ts| ==> States(ts)[i] == ts[i].state
  {
  }

  lemma SendersApart(tx: TxPath.TxEngine, ts: seq<TxPath.TxConn>, k: nat)
    requires Senders.Table(tx, ts) && k < |ts|
    ensures forall i :: 0 <= i < |ts| && i != k ==> ts[i] != ts[k]
  {
  }

  lemma BehindSnoc(sent: TxPath.Elsewhere, trace: seq<Replies.Leaver>, k: nat, left: seq<RetransEntry>)
    ensures var b := Replies.Behind(sent, trace); var t := Replies.Leaver(k, left);
      && Replies.Behind(sent, trace + [t]) == TxPath.Elsewhere(b.data + TxPath.EntryRefs(left), b.hdr)
      && Replies.Conns(trace + [t]) == Replies.Conns(trace) + {k}
  {
    hide TxPath.EntryRefs, Replies.LeftRefs;
    var t := Replies.Leaver(k, left);
    Replies.LeftSnoc(trace, t);
    var lost := Replies.LeftRefs(trace);
    assert sent.data + (lost + TxPath.EntryRefs(left)) == sent.data + lost + TxPath.EntryRefs(left);
  }

  /** The oldest frame of the burst, on both sides of the live connection it is for. */
  method HandleLive(e: Engine, tx: TxPath.TxEngine, cs: seq<RxConn>, ts: seq<TxPath.TxConn>, k: nat, a: Arrival,
                    gone: set<nat>, now: u64, ghost trace: seq<Replies.Leaver>, ghost lists: seq<seq<RetransEntry>>,
                    ghost touched: set<nat>, ghost acked: set<nat>, ghost others: multiset<Mbuf>,
                    ghost sent: TxPath.Elsewhere)
    returns (gone': set<nat>, ghost trace': seq<Replies.Leaver>)
    requires e.Valid() && Table(e.pool, cs, gone) && e.pool.Balanced(others + e.Held() + ConnRefs(cs))
    requires a.Sound() && k < |cs| && a.dest == Some(k) && k !in gone
    requires e.burst != [] && FrameOn(e.pool.data, e.burst[0], a)
    requires Apart(e, tx) && Paired(cs, ts, gone) && |ts| == |cs|
    requires Senders.Table(tx, ts) && Senders.AllBooks(tx, Replies.Behind(sent, trace), ts)
    requires Replies.Flown(lists, Replies.Flights(ts), trace, touched, acked) && Replies.Conns(trace) <= gone
    modifies e`burst, e`queued, e.events, cs, (set i | 0 <= i < |cs| :: cs[i].reorder), e.pool`refcnt, e.pool`free
    modifies tx`ring, tx`nic, tx`ringPayloads, tx`promised, tx.pool, tx.hdrPool, ts
    ensures e.Valid() && Table(e.pool, cs, gone') && e.pool.Balanced(others + e.Held() + ConnRefs(cs))
    ensures e.burst == old(e.burst)[1..] && gone' == RemovedBy(a, gone) && gone <= gone'
    ensures Moved(old(Stands(cs)), Stands(cs), DestOf(a), gone') && Paired(cs, ts, gone')
    ensures Senders.Table(tx, ts) && Senders.AllBooks(tx, Replies.Behind(sent, trace'), ts)
    ensures Replies.Flown(lists, Replies.Flights(ts), trace', touched + DestOf(a), acked + AckedBy(a))
    ensures Replies.Conns(trace') == Replies.Conns(trace) + (gone' - gone)
  {
    hide *;
    ghost var st, s, l := Stands(cs), States(ts), Replies.Flights(ts);
    RowAt(cs, ts, k);
    PoolsApart(e, tx);
    PairedIs(cs, ts, gone);
    LeftGone(trace, gone, k);
    var b := a.(verdict := HandlerVerdict(ts[k].state, a.verdict));
    FrameFor(a, b, k, ts[k].state, gone);
    SameFrame(a, b, e.pool.data, e.burst[0]);
    var fin;
    gone', fin := DispatchNext(e, cs, b, gone, others);
    trace' := AnswerFrame(tx, cs, ts, k, a, fin, now, trace, lists, touched, acked, sent);
    RowAt(cs, ts, k);
    MatchedOne(st, Stands(cs), s, States(ts), l, Replies.Flights(ts), gone, k, a.verdict == Reset, a.reply, fin, gone');
    PairedIs(cs, ts, gone');
  }

  lemma RowAt(cs: seq<RxConn>, ts: seq<TxPath.TxConn>, k: nat)
    requires k < |cs| == |ts|
    ensures |Stands(cs)| == |States(ts)| == |Replies.Flights(ts)| == |ts| && Stands(cs)[k].finSeen == cs[k].finSeen
    ensures States(ts)[k] == ts[k].state && Replies.Flights(ts)[k] == ts[k].retrans
  {
  }

  lemma PairedIs(cs: seq<RxConn>, ts: seq<TxPath.TxConn>, gone: set<nat>)
    ensures Paired(cs, ts, gone) <==> Matched(Stands(cs), States(ts), Replies.Flights(ts), gone)
  {
  }

  lemma LeftGone(trace: seq<Replies.Leaver>, gone: set<nat>, k: nat)
    requires Replies.Conns(trace) <= gone && k !in gone
    ensures k !in Replies.Conns(trace)
  {
  }

  /** What the frame's records say of the one connection it is for. */
  lemma FrameFor(a: Arrival, b: Arrival, k: nat, state: TcpState, gone: set<nat>)
    requires a.dest == Some(k) && b == a.(verdict := HandlerVerdict(state, a.verdict))
    ensures DestOf(a) == DestOf(b) == {k} && AckedBy(a) == if a.reply.ack.Some? then {k} else {}
    ensures RemovedBy(a, gone) == RemovedBy(b, gone) == if a.verdict == Reset then gone + {k} else gone
  {
  }

  /** The oldest frame of the burst: on both sides of its connection, if there is one, and back to the
      pool. */
  method HandleNext(e: Engine, tx: TxPath.TxEngine, cs: seq<RxConn>, ts: seq<TxPath.TxConn>, a: Arrival, gone: set<nat>,
                    now: u64, ghost trace: seq<Replies.Leaver>, ghost lists: seq<seq<RetransEntry>>,
                    ghost touched: set<nat>, ghost acked: set<nat>, ghost others: multiset<Mbuf>,
                    ghost sent: TxPath.Elsewhere)
    returns (gone': set<nat>, ghost trace': seq<Replies.Leaver>)
    requires e.Valid() && Table(e.pool, cs, gone) && e.pool.Balanced(others + e.Held() + ConnRefs(cs))
    requires a.Sound() && (a.dest.Some? ==> a.dest.value < |cs|) && e.burst != [] && FrameOn(e.pool.data, e.burst[0], a)
    requires Apart(e, tx) && Paired(cs, ts, gone) && |ts| == |cs|
    requires Senders.Table(tx, ts) && Senders.AllBooks(tx, Replies.Behind(sent, trace), ts)
    requires Replies.Flown(lists, Replies.Flights(ts), trace, touched, acked) && Replies.Conns(trace) <= gone
    modifies e`burst, e`queued, e.events, cs, (set i | 0 <= i < |cs| :: cs[i].reorder), e.pool`refcnt, e.pool`free
    modifies tx`ring, tx`nic, tx`ringPayloads, tx`promised, tx.pool, tx.hdrPool, ts
    ensures e.Valid() && Table(e.pool, cs, gone') && e.pool.Balanced(others + e.Held() + ConnRefs(cs))
    ensures e.burst == old(e.burst)[1..] && gone' == RemovedBy(a, gone) && gone <= gone'
    ensures Moved(old(Stands(cs)), Stands(cs), DestOf(a), gone') && Paired(cs, ts, gone')
    ensures Senders.Table(tx, ts) && Senders.AllBooks(tx, Replies.Behind(sent, trace'), ts)
    ensures Replies.Flown(lists, Replies.Flights(ts), trace', touched + DestOf(a), acked + AckedBy(a))
    ensures Replies.Conns(trace') == Replies.Conns(trace) + (gone' - gone)
  {
    hide MbufPool.Balanced, Engine.Valid, Engine.Held, RxConn.Valid, RxConn.Held, ConnRefs, FrameOn, Table, Moved,
         Senders.Table, Senders.AllBooks, Replies.Flown, Replies.Conns, Replies.Behind, Matched, Stands, States,
         Replies.Flights, Arrival.Sound;
    if a.dest.Some? && a.dest.value !in gone {
      var k := a.dest.value;
      gone', trace' := HandleLive(e, tx, cs, ts, k, a, gone, now, trace, lists, touched, acked, others, sent);
    } else {
      ghost var st, s, l := Stands(cs), States(ts), Replies.Flights(ts);
      var fin;
      gone', fin := DispatchNext(e, cs, a, gone, others);
      assert a.dest.Some? ==> gone + {a.dest.value} == gone;
      trace' := trace;
      Replies.SomeFlown(lists, l, trace, touched, acked, touched + DestOf(a), acked + AckedBy(a));
      MatchedSame(st, Stands(cs), s, l, gone, DestOf(a));
    }
  }

  lemma SameFrame(a: Arrival, b: Arrival, data: map<Mbuf, seq<u8>>, chain: seq<Mbuf>)
    requires a.Sound() && FrameOn(data, chain, a) && b == a.(verdict := b.verdict)
    ensures b.Sound() && FrameOn(data, chain, b)
  {
  }

  /** The dispatch of the burst, frame by frame. */
  method HandleBurst(e: Engine, tx: TxPath.TxEngine, cs: seq<RxConn>, ts: seq<TxPath.TxConn>, got: seq<Arrival>,
                     gone: set<nat>, now: u64, ghost others: multiset<Mbuf>, ghost sent: TxPath.Elsewhere)
    returns (gone': set<nat>, ghost trace: seq<Replies.Leaver>)
    requires e.Valid() && Table(e.pool, cs, gone) && e.pool.Balanced(others + e.Held() + ConnRefs(cs))
    requires Loaded(e.pool.data, e.burst, got) && Expected(got, |cs|)
    requires Apart(e, tx) && Paired(cs, ts, gone) && |ts| == |cs|
    requires Senders.Table(tx, ts) && Senders.AllBooks(tx, sent, ts)
    modifies e`burst, e`queued, e.events, cs, (set i | 0 <= i < |cs| :: cs[i].reorder), e.pool`refcnt, e.pool`free
    modifies tx`ring, tx`nic, tx`ringPayloads, tx`promised, tx.pool, tx.hdrPool, ts
    ensures e.Valid() && Table(e.pool, cs, gone') && e.pool.Balanced(others + e.Held() + ConnRefs(cs))
    ensures e.burst == [] && gone' == Removed(got, gone) && gone <= gone'
    ensures Moved(old(Stands(cs)), Stands(cs), Dests(got), gone') && Paired(cs, ts, gone')
    ensures Senders.Table(tx, ts) && Senders.AllBooks(tx, Replies.Behind(sent, trace), ts)
    ensures Replies.Flown(old(Replies.Flights(ts)), Replies.Flights(ts), trace, Dests(got), Acked(got))
    ensures Replies.Conns(trace) == gone' - gone
  {
    hide *;
    PoolsApart(e, tx);
    ghost var from, lists := Stands(cs), Replies.Flights(ts);
    ghost var touched, acked: set<nat> := {}, {};
    gone', trace := gone, [];
    NothingMoved(from, {}, gone);
    Replies.NoneFlown(lists);
    NothingBehind(sent);
    var i := 0;
    LoadedFront(e.pool.data, e.burst, got);
    assert got[0..] == got;
    while i < |got|
      invariant 0 <= i <= |got| && e.Valid() && Table(e.pool, cs, gone')
                && e.pool.Balanced(others + e.Held() + ConnRefs(cs))
      invariant Loaded(e.pool.data, e.burst, got[i..]) && |e.burst| == |got| - i
      invariant Removed(got[i..], gone') == Removed(got, gone) && gone <= gone'
      invariant Moved(from, Stands(cs), touched, gone') && Dests(got) == Dests(got[i..]) + touched
      invariant Paired(cs, ts, gone') && Acked(got) == Acked(got[i..]) + acked
      invariant Senders.Table(tx, ts) && Senders.AllBooks(tx, Replies.Behind(sent, trace), ts)
      invariant Replies.Flown(lists, Replies.Flights(ts), trace, touched, acked)
      invariant Replies.Conns(trace) == gone' - gone
    {
      LoadedFront(e.pool.data, e.burst, got[i..]);
      BurstFront(got, i, |cs|, gone');
      ghost var here, was := Stands(cs), gone';
      gone', trace := HandleNext(e, tx, cs, ts, got[i], gone', now, trace, lists, touched, acked, others, sent);
      MovedOn(from, here, Stands(cs), touched, DestOf(got[i]), was, gone');
      touched, acked := touched + DestOf(got[i]), acked + AckedBy(got[i]);
      i := i + 1;
    }
    BurstEnd(got, gone');
  }

  lemma BurstFront(got: seq<Arrival>, i: nat, conns: nat, gone: set<nat>)
    requires i < |got| && Expected(got, conns)
    ensures got[i..] != [] && got[i..][0] == got[i] && got[i..][1..] == got[i + 1..]
    ensures got[i].Sound() && (got[i].dest.Some? ==> got[i].dest.value < conns)
    ensures Dests(got[i..]) == Dests(got[i + 1..]) + DestOf(got[i])
    ensures Acked(got[i..]) == Acked(got[i + 1..]) + AckedBy(got[i])
    ensures Removed(got[i..], gone) == Removed(got[i + 1..], RemovedBy(got[i], gone))
  {
    assert got[i..][1..] == got[i + 1..];
  }

  lemma BurstEnd(got: seq<Arrival>, gone: set<nat>)
    ensures got[|got|..] == [] && Dests([]) == Acked([]) == {} && Removed([], gone) == gone
  {
  }

  lemma NothingBehind(sent: TxPath.Elsewhere)
    ensures Replies.Behind(sent, []) == sent && Replies.Conns([]) == {}
  {
    assert sent.data + Replies.LeftRefs([]) == sent.data;
  }

  /** `poll_once` without its timers, over a flow table of any size: the events drained since the
      previous poll are released, the burst is received, each frame is dealt with on both sides of its
      connection, and the transmit ring is drained. Every connection keeps its invariants; one is
      removed exactly when a frame closed it; one no frame was for is untouched; nothing taken or
      delivered is ever taken back; one that had delivered all it took has done so again; a list in
      flight only loses segments at its front, and none without an acknowledgment.

      The books of the receive and the header pool stay balanced. Those of the data pool, over the
      connections that are left, balance exactly when no connection removed in this poll had data in
      flight as it went: what such a one leaves behind, `trace` says, nobody can give back. With that
      counted elsewhere, what this ensures is what it requires, so it holds after any number of
      polls. */
  method PollOnce(e: Engine, tx: TxPath.TxEngine, cs: seq<RxConn>, ts: seq<TxPath.TxConn>, frames: seq<Arrival>,
                  gone: set<nat>, now: u64, ghost others: multiset<Mbuf>, ghost sent: TxPath.Elsewhere)
    returns (got: seq<Arrival>, gone': set<nat>, ghost trace: seq<Replies.Leaver>)
    requires e.Valid() && Table(e.pool, cs, gone) && e.pool.Balanced(others + e.Held() + ConnRefs(cs))
    requires Expected(frames, |cs|) && e.burst == []
    requires Apart(e, tx) && Paired(cs, ts, gone) && |ts| == |cs|
    requires Senders.Table(tx, ts) && Senders.AllBooks(tx, sent, ts)
    modifies e, e.events, cs, (set i | 0 <= i < |cs| :: cs[i].reorder), e.pool
    modifies tx`ring, tx`nic, tx`ringPayloads, tx`promised, tx.pool, tx.hdrPool, ts
    ensures e.Valid() && Table(e.pool, cs, gone') && e.pool.Balanced(others + e.Held() + ConnRefs(cs))
    ensures e.burst == [] && e.scratch == [] && Sublist(got, frames) && gone' == Removed(got, gone)
    ensures Moved(old(Stands(cs)), Stands(cs), Dests(got), gone') && Paired(cs, ts, gone')
    ensures Replies.Flown(old(Replies.Flights(ts)), Replies.Flights(ts), trace, Dests(got), Acked(got))
    ensures Replies.Conns(trace) == gone' - gone
    ensures Senders.Table(tx, ts) && Senders.AllBooks(tx, Replies.Behind(sent, trace), ts) && tx.ring == []
    ensures tx.hdrPool.Balanced(sent.hdr + tx.HdrHeld())
    ensures tx.pool.Balanced(sent.data + Senders.Lists(ts) + tx.Held()) <==>
              forall i :: 0 <= i < |trace| ==> trace[i].list == []
  {
    hide *;
    PoolsApart(e, tx);
    ghost var rest := others + ConnRefs(cs);
    assert rest + e.Held() == others + e.Held() + ConnRefs(cs);
    e.PollTop(rest);
    assert rest + e.Held() == others + e.Held() + ConnRefs(cs);
    got := FillBurst(e, cs, frames, gone, others);
    gone', trace := HandleBurst(e, tx, cs, ts, got, gone, now, others, sent);
    Senders.DrainAll(tx, ts, Replies.Behind(sent, trace));
    Replies.BooksLeft(tx, ts, sent, trace);
  }

  /** A send on any connection between two polls: refused on one that was removed; otherwise the receive
      side is as it was, and so is every other connection's data in flight. */
  method SendBetween(e: Engine, tx: TxPath.TxEngine, cs: seq<RxConn>, ts: seq<TxPath.TxConn>, k: nat, bytes: seq<u8>,
                     hdrs: nat -> seq<u8>, steps: nat -> TxPath.Step, now: u64, gone: set<nat>,
                     ghost others: multiset<Mbuf>, ghost sent: TxPath.Elsewhere)
    returns (r: TxPath.SendResult)
    requires e.Valid() && Table(e.pool, cs, gone) && e.pool.Balanced(others + e.Held() + ConnRefs(cs))
    requires Apart(e, tx) && Paired(cs, ts, gone) && |ts| == |cs| && k < |ts|
    requires Senders.Table(tx, ts) && Senders.AllBooks(tx, sent, ts)
    modifies tx`ring, tx`nic, tx`ringPayloads, tx`promised, tx.pool, tx.hdrPool, ts[k]
    ensures e.Valid() && Table(e.pool, cs, gone) && e.pool.Balanced(others + e.Held() + ConnRefs(cs))
    ensures Paired(cs, ts, gone) && Senders.Table(tx, ts) && Senders.AllBooks(tx, sent, ts)
    ensures r == TxPath.InvalidHandle <==> k in gone || old(ts[k].state) != Established
    ensures k in gone ==> ts[k].retrans == [] && tx.ring == old(tx.ring) && tx.promised == old(tx.promised)
    ensures TxPath.Extends(old(tx.promised), tx.promised)
  {
    hide *;
    PoolsApart(e, tx);
    PairedIs(cs, ts, gone);
    FlightsAt(ts);
    MatchedAt(Stands(cs), States(ts), Replies.Flights(ts), gone, k);
    SendersApart(tx, ts, k);
    Senders.ExtendsSelf(tx.promised);
    if k in gone {
      return TxPath.InvalidHandle;
    }
    ghost var s, l := States(ts), Replies.Flights(ts);
    r := Senders.SendOn(tx, ts, k, bytes, hdrs, steps, now, sent);
    FlightsAt(ts);
    MatchedSent(Stands(cs), s, States(ts), l, Replies.Flights(ts), gone, k);
    PairedIs(cs, ts, gone);
  }

  lemma MatchedAt(st: seq<Stand>, s: seq<TcpState>, l: seq<seq<RetransEntry>>, gone: set<nat>, k: nat)
    requires Matched(st, s, l, gone) && k < |s|
    ensures |l| == |s| && (k in gone ==> s[k] == Closed && l[k] == [])
  {
  }

  lemma MatchedSent(st: seq<Stand>, s: seq<TcpState>, s': seq<TcpState>, l: seq<seq<RetransEntry>>,
                    l': seq<seq<RetransEntry>>, gone: set<nat>, k: nat)
    requires Matched(st, s, l, gone) && k < |s| && k !in gone && s' == s && |l'| == |l|
    requires forall i :: 0 <= i < |l| && i != k ==> l'[i] == l[i]
    ensures Matched(st, s', l', gone)
  {
  }

  lemma PoolsApart(e: Engine, tx: TxPath.TxEngine)
    requires Apart(e, tx)
    ensures e.pool != tx.pool && e.pool != tx.hdrPool
  {
  }

  // ---------- the shutdown ----------

  /** Of the first `n` connections those already gone hold nothing. */
  ghost predicate GoneEmpty(cs: seq<RxConn>, n: nat, gone: set<nat>)
    requires n <= |cs|
    reads (set i | 0 <= i < n :: cs[i]), (set i | 0 <= i < n :: cs[i].reorder)
  {
    forall i :: 0 <= i < n && i in gone ==> cs[i].Held() == multiset{}
  }

  ghost predicate Pooled(pool: MbufPool, cs: seq<RxConn>, gone: set<nat>) {
    Distinct(cs) && forall i :: 0 <= i < |cs| && i !in gone ==> cs[i].reorder.pool == cs[i].pool == pool
  }

  lemma TablePooled(pool: MbufPool, cs: seq<RxConn>, gone: set<nat>)
    requires Table(pool, cs, gone)
    ensures Pooled(pool, cs, gone) && GoneEmpty(cs, |cs|, gone) && ConnRefs(cs) == RefsBut(cs, |cs|, |cs|)
  {
    hide RxConn.Held, RxConn.Stream;
  }

  /** One connection dropped, unless it is gone already; the ones before it are as they were. */
  method DropConn(pool: MbufPool, cs: seq<RxConn>, k: nat, gone: set<nat>, ghost others: multiset<Mbuf>)
    requires k < |cs| && Pooled(pool, cs, gone) && GoneEmpty(cs, k + 1, gone)
    requires pool.Balanced(others + RefsBut(cs, k + 1, |cs|))
    modifies cs[k], cs[k].reorder, pool`refcnt, pool`free
    ensures GoneEmpty(cs, k, gone) && pool.Balanced(others + RefsBut(cs, k, |cs|))
            && pool.refcnt.Keys == old(pool.refcnt.Keys)
  {
    hide RxConn.Held, MbufPool.Balanced;
    assert others + RefsBut(cs, k, |cs|) + cs[k].Held() == others + RefsBut(cs, k + 1, |cs|);
    if k in gone {
      assert others + RefsBut(cs, k, |cs|) + multiset{} == others + RefsBut(cs, k, |cs|);
    } else {
      cs[k].Remove(others + RefsBut(cs, k, |cs|));
    }
  }

  /** `clear_all`: every connection is dropped, and with it both of its receive queues. */
  method ClearConns(pool: MbufPool, cs: seq<RxConn>, gone: set<nat>, ghost others: multiset<Mbuf>)
    requires Table(pool, cs, gone) && pool.Balanced(others + ConnRefs(cs))
    modifies cs, (set i | 0 <= i < |cs| :: cs[i].reorder), pool`refcnt, pool`free
    ensures pool.Balanced(others) && pool.refcnt.Keys == old(pool.refcnt.Keys)
  {
    hide *;
    TablePooled(pool, cs, gone);
    var i := |cs|;
    while i > 0
      invariant 0 <= i <= |cs| && pool.Balanced(others + RefsBut(cs, i, |cs|))
                && pool.refcnt.Keys == old(pool.refcnt.Keys)
      invariant GoneEmpty(cs, i, gone)
    {
      i := i - 1;
      DropConn(pool, cs, i, gone, others);
    }
    NoConns(cs);
    assert others + RefsBut(cs, 0, |cs|) == others;
  }

  lemma NoConns(cs: seq<RxConn>)
    ensures RefsBut(cs, 0, |cs|) == multiset{}
  {
  }

  /** `Drop for Engine` between two polls: the drained events, the queued ones, the flow table, the
      transmit ring and the fault injector, in this order. Receive buffers all come back: with
      nothing held outside, the whole pool is free. Of the data buffers those in flight do not: a
      dropped connection's list frees nothing, so their books balance exactly when no connection had
      data in flight. */
  method Teardown(e: Engine, tx: TxPath.TxEngine, cs: seq<RxConn>, inj: FaultInjector.Injector, gone: set<nat>,
                  ts: seq<TxPath.TxConn>, ghost others: multiset<Mbuf>, ghost sent: TxPath.Elsewhere)
    requires e.Valid() && Table(e.pool, cs, gone) && e.burst == [] && inj.Valid() && inj.pool == e.pool
    requires e.pool.Balanced(others + ChainRefs(inj.ring) + ConnRefs(cs) + e.Held())
    requires Apart(e, tx) && Senders.Table(tx, ts) && Senders.AllBooks(tx, sent, ts)
    modifies e, e.events, cs, (set i | 0 <= i < |cs| :: cs[i].reorder), e.pool`refcnt, e.pool`free, inj
    modifies tx`ring, tx`ringPayloads, tx.pool`refcnt, tx.pool`free, tx.hdrPool`refcnt, tx.hdrPool`free
    ensures e.pool.Balanced(others) && e.pool.refcnt.Keys == old(e.pool.refcnt.Keys)
    ensures others == multiset{} ==> e.pool.free == e.pool.refcnt.Keys
    ensures tx.ring == []
    ensures tx.pool.Balanced(sent.data + tx.Held()) <==> forall i :: 0 <= i < |ts| ==> ts[i].retrans == []
  {
    hide *;
    PoolsApart(e, tx);
    e.Teardown(others + ChainRefs(inj.ring) + ConnRefs(cs));
    ClearConns(e.pool, cs, gone, others + ChainRefs(inj.ring));
    Senders.FreeRing(tx, ts, sent);
    Senders.ListsLost(tx, ts, sent);
    inj.Close(others);
    AllFree(e.pool, others);
  }
}
