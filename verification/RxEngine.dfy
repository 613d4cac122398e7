/** The engine's receive loop around the connections: the receive burst, the per-frame
    dispatch, delivery into the event queue, the two-phase drain and the release at the top of
    the next poll. Every step keeps each buffer's counter equal to its number of holders. */
module RxEngine {
  import opened SeqArith
  import opened Mempool
  import opened Reorder
  import opened Events
  import opened RxPath

  /** Each event reads, through its iovecs, the bytes it was pushed with. */
  ghost predicate Intact(data: map<Mbuf, seq<u8>>, evs: seq<Event>, payloads: seq<seq<u8>>) {
    && |evs| == |payloads|
    && forall i :: 0 <= i < |evs| ==> evs[i].Coherent() && Holds(data, BytesOf(evs[i].Owned()), payloads[i])
  }

  lemma IntactConcat(data: map<Mbuf, seq<u8>>, a: seq<Event>, pa: seq<seq<u8>>, b: seq<Event>, pb: seq<seq<u8>>)
    requires Intact(data, a, pa) && Intact(data, b, pb)
    ensures Intact(data, a + b, pa + pb)
  {
  }

  lemma IntactOne(data: map<Mbuf, seq<u8>>, ev: Event, payload: seq<u8>)
    requires ev.Coherent() && Holds(data, BytesOf(ev.Owned()), payload)
    ensures Intact(data, [ev], [payload])
  {
  }

  lemma IntactOneOf(data: map<Mbuf, seq<u8>>, evs: seq<Event>, payloads: seq<seq<u8>>, i: nat)
    requires Intact(data, evs, payloads) && i < |evs|
    ensures i < |payloads| && Intact(data, [evs[i]], [payloads[i]])
  {
  }

  lemma NothingOwned(data: map<Mbuf, seq<u8>>, handle: nat)
    ensures Holds(data, BytesOf(Other(handle, 0).Owned()), []) && InRefs(Other(handle, 0).Owned()) == multiset{}
  {
  }

  lemma IntactSuffix(data: map<Mbuf, seq<u8>>, evs: seq<Event>, payloads: seq<seq<u8>>, n: nat)
    requires Intact(data, evs, payloads) && n <= |evs|
    ensures |payloads| == |evs| && Intact(data, evs[n..], payloads[n..])
  {
  }

  lemma {:induction false} EventOwns(evs: seq<Event>, i: nat)
    requires i < |evs|
    ensures InRefs(evs[i].Owned()) <= EventRefs(evs)
  {
    if i > 0 {
      EventOwns(evs[1..], i - 1);
    }
  }

  /** Refilling buffers no event holds leaves every event's bytes alone. */
  lemma IntactFrame(before: map<Mbuf, seq<u8>>, after: map<Mbuf, seq<u8>>, evs: seq<Event>, payloads: seq<seq<u8>>,
                    held: multiset<Mbuf>)
    requires Intact(before, evs, payloads) && EventRefs(evs) <= held
    requires forall m :: m in held ==> m in before && m in after && after[m] == before[m]
    ensures Intact(after, evs, payloads)
  {
    forall i | 0 <= i < |evs|
      ensures Holds(after, BytesOf(evs[i].Owned()), payloads[i])
    {
      EventOwns(evs, i);
      RefsOwned(evs[i].Owned());
    }
  }

  /** The buffer bytes `refs` read as `payload`, and every one of their buffers is referenced
      and not on the free list. */
  ghost predicate Alive(pool: MbufPool, refs: seq<ByteRef>, payload: seq<u8>)
    reads pool
  {
    && Holds(pool.data, refs, payload)
    && forall r :: r in refs ==> r.mbuf in pool.refcnt && pool.refcnt[r.mbuf] >= 1 && r.mbuf !in pool.free
  }

  lemma EventsAlive(pool: MbufPool, held: multiset<Mbuf>, evs: seq<Event>, payloads: seq<seq<u8>>)
    requires pool.Balanced(held) && Intact(pool.data, evs, payloads) && EventRefs(evs) <= held
    ensures forall i :: 0 <= i < |evs| ==> Alive(pool, evs[i].Reads(), payloads[i])
  {
    forall i | 0 <= i < |evs|
      ensures Alive(pool, evs[i].Reads(), payloads[i])
    {
      EventOwns(evs, i);
      RefsOwned(evs[i].Owned());
      IovecsCover(evs[i].Owned());
    }
  }

  lemma NothingDrained(data: map<Mbuf, seq<u8>>)
    ensures Intact(data, [], []) && EventRefs([]) == multiset{}
  {
  }

  /** Dropping events drops the segments they own. */
  method DropEvents(pool: MbufPool, evs: seq<Event>, ghost rest: multiset<Mbuf>)
    requires pool.Balanced(rest + EventRefs(evs))
    modifies pool`refcnt, pool`free
    ensures pool.Balanced(rest) && pool.refcnt.Keys == old(pool.refcnt.Keys)
  {
    hide EventRefs, InBufs, MbufPool.Balanced;
    NothingDrained(pool.data);
    var i := 0;
    assert evs[0..] == evs && rest + multiset{} == rest;
    while i < |evs|
      invariant 0 <= i <= |evs|
      invariant pool.Balanced(rest + EventRefs(evs[i..])) && pool.refcnt.Keys == old(pool.refcnt.Keys)
    {
      EventRefsFront(evs[i..]);
      assert evs[i..][1..] == evs[i + 1..];
      assert rest + EventRefs(evs[i..]) == rest + EventRefs(evs[i + 1..]) + InRefs(evs[i].Owned());
      pool.FreeAll(InBufs(evs[i].Owned()), rest + EventRefs(evs[i + 1..]));
      i := i + 1;
    }
    assert evs[i..] == [];
  }

  lemma HeadHeld(burst: seq<seq<Mbuf>>, others: multiset<Mbuf>, q: seq<Event>, scratch: seq<Event>)
    requires burst != [] && burst[0] != []
    ensures burst[0][0] in others + (ChainRefs(burst) + EventRefs(q) + EventRefs(scratch))
  {
  }

  /** What one segment does to a connection's receive state: the stream taken grows by the bytes
      delivered, the next expected number moves past them and a FIN taken, and with nothing left
      waiting a whole accepted in-order payload is taken. */
  twostate predicate Advanced(c: RxConn, seg: Segment, single: bool, verdict: Verdict, o: RxOutcome)
    reads c`taken, c`rcvNxt, c`finSeen
  {
    && old(c.taken) <= c.taken && |c.taken| == |old(c.taken)| + o.delivered
    && c.rcvNxt == SeqAdd(old(c.rcvNxt), o.delivered + if o.finTaken then 1 else 0)
    && (o.finTaken <==>
              Accepts(verdict, old(c.finSeen), old(c.rcvNxt), c.rcvWnd, seg) && seg.fin && seg.seqno == old(c.rcvNxt))
    && c.finSeen == (old(c.finSeen) || o.finTaken)
    && (if Accepts(verdict, old(c.finSeen), old(c.rcvNxt), c.rcvWnd, seg) then
          seg.seqno == old(c.rcvNxt) && single && old(c.waiting) == [] ==> o.delivered >= seg.len
        else o.delivered == 0)
  }

  class Engine {
    const pool: MbufPool
    const events: EventQueue
    var burst: seq<seq<Mbuf>>
    var scratch: seq<Event>
    /** The bytes each queued and each drained event was pushed with. */
    ghost var queued: seq<seq<u8>>
    ghost var drained: seq<seq<u8>>

    /** The references the receive loop holds. */
    ghost function Held(): multiset<Mbuf>
      reads this, events
    {
      ChainRefs(burst) + EventRefs(events.q) + EventRefs(scratch)
    }

    ghost predicate Valid()
      reads this, events, pool`data
    {
      && events.pool == pool && events.Valid() && SmallBuffers(pool.data)
      && (forall i :: 0 <= i < |burst| ==> burst[i] != [])
      && Intact(pool.data, events.q, queued) && Intact(pool.data, scratch, drained)
    }

    constructor (pool: MbufPool, softCap: nat)
      requires 64 <= softCap && SmallBuffers(pool.data)
      ensures Valid() && fresh(events) && this.pool == pool && burst == [] && events.q == [] && scratch == []
      ensures Held() == multiset{}
    {
      this.pool := pool;
      events := new EventQueue(softCap, pool);
      burst, scratch, queued, drained := [], [], [], [];
    }

    /** Whatever the application can reach through an event, queued or drained since the last
        poll, is still in its buffer, and that buffer is still referenced and outside the
        pool's free list. */
    lemma IovecsAlive(others: multiset<Mbuf>)
      requires Valid() && pool.Balanced(others + Held())
      ensures forall i :: 0 <= i < |events.q| ==> Alive(pool, events.q[i].Reads(), queued[i])
      ensures forall i :: 0 <= i < |scratch| ==> Alive(pool, scratch[i].Reads(), drained[i])
    {
      EventsAlive(pool, others + Held(), events.q, queued);
      EventsAlive(pool, others + Held(), scratch, drained);
    }

    /** The newest event on the queue is a readable one for `handle` with exactly `payload`. */
    ghost predicate Announced(before: seq<Event>, handle: nat, payload: seq<u8>)
      reads this, events
    {
      && |events.pushed| == |before| + 1 && before <= events.pushed && |queued| > 0
      && events.pushed[|before|].Readable? && events.pushed[|before|].conn == handle
      && events.pushed[|before|].totalLen == |payload| && queued[|queued| - 1] == payload
    }

    /** Pushes an event whose segments the caller owns. */
    method PushEvent(ev: Event, ghost payload: seq<u8>, ghost others: multiset<Mbuf>)
      requires Valid() && ev.Coherent() && Holds(pool.data, BytesOf(ev.Owned()), payload)
      requires pool.Balanced(others + Held() + InRefs(ev.Owned()))
      modifies events, this`queued, pool`refcnt, pool`free
      ensures Valid() && pool.Balanced(others + Held()) && pool.refcnt.Keys == old(pool.refcnt.Keys)
      ensures events.pushed == old(events.pushed) + [ev] && events.popped == old(events.popped)
      ensures |queued| > 0 && queued[|queued| - 1] == payload
    {
      hide InRefs, BytesOf, EventRefs, ChainRefs, MbufPool.Balanced, Intact, Holds, SmallBuffers;
      ghost var rest := others + ChainRefs(burst) + EventRefs(scratch);
      ghost var cut := if |events.q| < events.softCap then 0 else 1;
      assert others + Held() + InRefs(ev.Owned()) == rest + EventRefs(events.q) + InRefs(ev.Owned());
      IntactSuffix(pool.data, events.q, queued, cut);
      IntactOne(pool.data, ev, payload);
      IntactConcat(pool.data, events.q[cut..], queued[cut..], [ev], [payload]);
      events.Push(ev, rest);
      queued := queued[cut..] + [payload];
      assert others + Held() == rest + EventRefs(events.q);
    }

    /** `deliver_readable`: moves up to `total` waiting bytes of the connection into one
        readable event. */
    method DeliverReadable(c: RxConn, handle: nat, total: nat, ghost others: multiset<Mbuf>)
      requires Valid() && c.Valid() && c.pool == pool && pool.Balanced(others + Held() + c.Held())
      modifies c`bytes, c`delivered, c`waiting, events, this`queued, pool`refcnt, pool`free
      ensures Valid() && c.Valid() && pool.refcnt.Keys == old(pool.refcnt.Keys)
      ensures pool.Balanced(others + Held() + c.Held())
      ensures c.delivered == old(c.delivered) + old(c.waiting)[..Min(total, |old(c.waiting)|)]
      ensures c.waiting == old(c.waiting)[Min(total, |old(c.waiting)|)..]
      ensures Min(total, |old(c.waiting)|) > 0 ==>
                Announced(old(events.pushed), handle, old(c.waiting)[..Min(total, |old(c.waiting)|)])
    {
      hide InRefs, Refs, BytesOf, EventRefs, ChainRefs, MbufPool.Balanced, Reorder.View, Intact, Holds, SmallBuffers,
           Buffered, Sorted, TotalLen, Ahead, InData, At, Mirrors;
      ghost var stored := Refs(c.View());
      ghost var rest := others + Held() + stored;
      HoldsLength(pool.data, BytesOf(c.bytes), c.waiting);
      assert others + Held() + c.Held() == rest + InRefs(c.bytes);
      var out, split := c.PopUpTo(total, rest);
      NoBytes();
      NoRefs();
      if out != [] {
        BufferedBytes(out);
        var ev := Readable(handle, IovecsOf(out), out, Min(Buffered(out), 0xFFFF_FFFF));
        assert rest + InRefs(out) + InRefs(c.bytes) == others + c.Held() + Held() + InRefs(out);
        PushEvent(ev, old(c.waiting)[..|BytesOf(out)|], others + c.Held());
      }
      assert others + Held() + c.Held() == others + c.Held() + Held();
      assert others + Held() + c.Held() == others + Held() + stored + multiset{} + InRefs(c.bytes);
    }

    /** The receive burst's share of one frame: the driver takes one buffer per link from the
        pool, and the frame is lost when the pool runs out. Nothing anybody holds changes. */
    method ReceiveFrame(links: seq<seq<u8>>, ghost others: multiset<Mbuf>) returns (ok: bool)
      requires Valid() && pool.Balanced(others + Held())
      requires links != [] && forall i :: 0 <= i < |links| ==> |links[i]| < 0x1_0000
      modifies this`burst, pool
      ensures Valid() && pool.Balanced(others + Held()) && pool.refcnt.Keys == old(pool.refcnt.Keys)
      ensures forall m :: m in others + old(Held()) ==>
                m in pool.data && m in old(pool.data) && pool.data[m] == old(pool.data)[m]
      ensures ok ==> |burst| == |old(burst)| + 1 && burst[..|old(burst)|] == old(burst)
      ensures ok ==> |burst[|old(burst)|]| == |links|
      ensures ok ==> forall i :: 0 <= i < |links| ==>
                var m := burst[|old(burst)|][i]; m in pool.data && pool.data[m] == links[i]
      ensures !ok ==> burst == old(burst)
      ensures ok <==> |links| <= |old(pool.free)|
    {
      hide EventRefs, ChainRefs, Intact, MbufPool.Balanced;
      ghost var before, books := pool.data, others + Held();
      var chain;
      chain, ok := pool.AllocChain(links, books);
      IntactFrame(before, pool.data, events.q, queued, books);
      IntactFrame(before, pool.data, scratch, drained, books);
      assert books + multiset([]) == books;
      if ok {
        ChainRefsConcat(burst, [chain]);
        ChainRefsOne(chain);
        burst := burst + [chain];
        assert others + Held() == books + multiset(chain);
      }
    }

    /** The release at the top of `poll_once`: the events drained since the previous poll give
        their references back. */
    method PollTop(ghost others: multiset<Mbuf>)
      requires Valid() && pool.Balanced(others + Held())
      modifies this`scratch, this`drained, pool`refcnt, pool`free
      ensures Valid() && pool.Balanced(others + Held()) && scratch == [] && pool.refcnt.Keys == old(pool.refcnt.Keys)
    {
      hide InRefs, EventRefs, ChainRefs, Intact, MbufPool.Balanced;
      ghost var rest := others + ChainRefs(burst) + EventRefs(events.q);
      assert others + Held() == rest + EventRefs(scratch);
      DropEvents(pool, scratch, rest);
      scratch, drained := [], [];
      NothingDrained(pool.data);
      assert others + Held() == rest;
    }

    /** One pop of phase one. */
    method DrainOne()
      requires Valid() && events.q != []
      modifies this`scratch, this`queued, this`drained, events
      ensures Valid() && |old(queued)| == |old(events.q)|
      ensures scratch == old(scratch) + [old(events.q)[0]] && events.q == old(events.q)[1..]
      ensures drained == old(drained) + [old(queued)[0]] && queued == old(queued)[1..]
      ensures events.pushed == old(events.pushed) && events.eventsDropped == old(events.eventsDropped)
      ensures events.popped == old(events.popped) + 1
    {
      hide SmallBuffers, Intact;
      IntactSuffix(pool.data, events.q, queued, 1);
      IntactOneOf(pool.data, events.q, queued, 0);
      IntactConcat(pool.data, scratch, drained, [events.q[0]], [queued[0]]);
      var ev := events.Pop();
      scratch := scratch + [ev.value];
      drained, queued := drained + [queued[0]], queued[1..];
    }

    /** `drain_events`: phase one moves up to `max` events into the scratch, phase two shows
        the sink exactly those, oldest first. */
    method DrainEvents(max: nat, ghost others: multiset<Mbuf>) returns (shown: seq<Event>)
      requires Valid() && pool.Balanced(others + Held())
      modifies this`scratch, this`queued, this`drained, events
      ensures Valid() && pool.Balanced(others + Held())
      ensures |shown| == Min(max, |old(events.q)|) && old(events.q) == shown + events.q
      ensures scratch == old(scratch) + shown && drained + queued == old(drained) + old(queued)
      ensures events.pushed == old(events.pushed) && events.eventsDropped == old(events.eventsDropped)
      ensures events.popped == old(events.popped) + |shown|
    {
      hide EventRefs, ChainRefs, MbufPool.Balanced, SmallBuffers, Intact, EventQueue.Valid;
      IntactSuffix(pool.data, events.q, queued, 0);
      ghost var s0, q0, d0, k0 := scratch, events.q, drained, queued;
      var n := 0;
      while n < max && events.q != []
        invariant n <= max && n <= |q0| == |k0| && Valid()
        invariant events.q == q0[n..] && scratch == s0 + q0[..n]
        invariant queued == k0[n..] && drained == d0 + k0[..n]
        invariant events.pushed == old(events.pushed) && events.eventsDropped == old(events.eventsDropped)
        invariant events.popped == old(events.popped) + n
      {
        DrainOne();
        n := n + 1;
      }
      assert s0 + q0 == scratch + events.q;
      EventRefsConcat(scratch, events.q);
      EventRefsConcat(s0, q0);
      assert others + Held() == others + ChainRefs(burst) + EventRefs(s0 + q0);
      assert others + old(Held()) == others + ChainRefs(burst) + EventRefs(s0 + q0);
      shown := scratch[|scratch| - n..];
      assert shown == q0[..n];
      assert d0 + k0[..n] + k0[n..] == d0 + k0;
    }

    /** The reference bracket around TCP input: one reference ahead of the handler when it may
        pin the buffer, taken back when nothing was stored out of order. */
    method TcpInput(c: RxConn, seg: Segment, m: Mbuf, single: bool, verdict: Verdict, ghost held: multiset<Mbuf>)
      returns (o: RxOutcome)
      requires c.Valid() && c.pool == pool && SmallBuffers(pool.data)
      requires pool.Balanced(held + c.Held()) && m in held
      requires seg.len < 0x1_0000 && m in pool.data && (single ==> seg.offset + seg.len <= |pool.data[m]|)
      modifies c, c.reorder, pool`refcnt, pool`free
      ensures c.Valid() && pool.Balanced(held + c.Held()) && pool.refcnt.Keys == old(pool.refcnt.Keys)
      ensures c.delivered == old(c.delivered) && |c.waiting| == |old(c.waiting)| + o.delivered
      ensures c.honest == (old(c.honest) &&
                (Accepts(verdict, old(c.finSeen), old(c.rcvNxt), c.rcvWnd, seg) && seg.len > 0 && single ==>
                   Genuine(pool.data, m, seg, c.stream, |old(c.taken)| + Off(old(c.rcvNxt), seg.seqno))))
      ensures c.finSeen && !old(c.finSeen) && old(c.honest) && Genuine(pool.data, m, seg, c.stream, |old(c.taken)|)
              && old(c.waiting) == [] ==>
                (c.taken == c.stream <==> seg.len == 0 || single)
      ensures old(c.waiting) == [] && single && seg.seqno == old(c.rcvNxt) ==> o.bufFullDrop == 0
      ensures Advanced(c, seg, single, verdict, o)
    {
      hide RxConn.Valid, MbufPool.Balanced, Holds, Genuine, BytesOf, InRefs, Refs, Accepts, Payload, RxConn.Held,
           RxConn.Placed;
      var ctx := seg.len > 0 && single;
      ghost var bump := if ctx then multiset{m} else multiset{};
      if ctx {
        pool.Retain(m, held + c.Held());
      }
      assert held + c.Held() + multiset{} == held + c.Held();
      ghost var added;
      o, added := c.Ingest(seg, m, ctx, verdict, held);
      assert held + c.Held() + multiset{} == held + c.Held();
      if ctx && !o.refRetained {
        pool.Rollback(m, held + c.Held() + multiset{m});
        assert held + c.Held() + multiset{m} - multiset{m} == held + c.Held();
      }
    }

    /** The close path: a closed event, then the connection leaves the flow table and drops its
        two receive queues. */
    method CloseConn(c: RxConn, handle: nat, ghost others: multiset<Mbuf>)
      requires Valid() && c.Valid() && c.pool == pool && pool.Balanced(others + Held() + c.Held())
      modifies this`queued, events, c`bytes, c.reorder, pool`refcnt, pool`free
      ensures Valid() && c.Held() == multiset{} && events.pushed == old(events.pushed) + [Other(handle, 0)]
      ensures pool.Balanced(others + Held()) && pool.refcnt.Keys == old(pool.refcnt.Keys)
    {
      hide MbufPool.Balanced, Holds, BytesOf, InRefs, Refs, ChainRefs, EventRefs, Intact, SmallBuffers, Sorted,
           TotalLen, Ahead, InData, At, Mirrors;
      NothingOwned(pool.data, handle);
      assert others + c.Held() + Held() + multiset{} == others + Held() + c.Held();
      PushEvent(Other(handle, 0), [], others + c.Held());
      assert others + c.Held() + Held() == others + Held() + c.Held();
      c.Remove(others + Held());
    }

    /** `rte_pktmbuf_free` on the oldest frame of the burst. */
    method ReleaseFrame(ghost others: multiset<Mbuf>)
      requires Valid() && burst != [] && pool.Balanced(others + Held())
      modifies this`burst, pool`refcnt, pool`free
      ensures Valid() && burst == old(burst)[1..]
      ensures pool.Balanced(others + Held()) && pool.refcnt.Keys == old(pool.refcnt.Keys)
    {
      hide MbufPool.Balanced, ChainRefs, EventRefs, Intact, SmallBuffers;
      ChainRefsFront(burst);
      ghost var kept := others + ChainRefs(burst[1..]) + EventRefs(events.q) + EventRefs(scratch);
      assert others + Held() == kept + multiset(burst[0]);
      pool.FreeAll(burst[0], kept);
      burst := burst[1..];
      assert others + Held() == kept;
    }

    /** TCP input on the oldest frame of the burst, then delivery of what became readable. */
    method InputAndDeliver(c: RxConn, handle: nat, seg: Segment, verdict: Verdict, ghost others: multiset<Mbuf>)
      returns (o: RxOutcome)
      requires Valid() && c.Valid() && c.pool == pool && burst != []
      requires seg.len < 0x1_0000
      requires burst[0][0] in pool.data && (|burst[0]| == 1 ==> seg.offset + seg.len <= |pool.data[burst[0][0]]|)
      requires pool.Balanced(others + Held() + c.Held())
      modifies this`queued, events, c, c.reorder, pool`refcnt, pool`free
      ensures Valid() && c.Valid() && pool.Balanced(others + Held() + c.Held())
              && pool.refcnt.Keys == old(pool.refcnt.Keys)
      ensures old(c.waiting) == [] ==> c.waiting == [] && |c.delivered| == |old(c.delivered)| + o.delivered
      ensures Advanced(c, seg, |burst[0]| == 1, verdict, o) && old(c.taken) <= c.taken
              && old(c.delivered) <= c.delivered
      ensures old(c.waiting) == [] && |burst[0]| == 1 && seg.seqno == old(c.rcvNxt) ==> o.bufFullDrop == 0
    {
      hide RxConn.Valid, MbufPool.Balanced, Holds, Genuine, BytesOf, InRefs, Refs, Accepts, Payload, ChainRefs,
           EventRefs, Intact, SmallBuffers, Announced;
      HeadHeld(burst, others, events.q, scratch);
      o := TcpInput(c, seg, burst[0][0], |burst[0]| == 1, verdict, others + Held());
      if o.delivered > 0 {
        DeliverReadable(c, handle, o.delivered, others);
      }
    }

    /** The end of a frame's dispatch: on a reset the connection goes, and the frame's own
        references are released. */
    method FinishFrame(c: RxConn, handle: nat, reset: bool, ghost others: multiset<Mbuf>)
      requires Valid() && c.Valid() && c.pool == pool && burst != []
      requires pool.Balanced(others + Held() + c.Held())
      modifies this`burst, this`queued, events, c`bytes, c.reorder, pool`refcnt, pool`free
      ensures Valid() && pool.Balanced(others + Held() + c.Held()) && pool.refcnt.Keys == old(pool.refcnt.Keys)
      ensures burst == old(burst)[1..]
      ensures if reset then c.Held() == multiset{} else c.Valid()
    {
      hide RxConn.Valid, MbufPool.Balanced, Holds, InRefs, Refs, ChainRefs, EventRefs, Intact, SmallBuffers;
      if reset {
        CloseConn(c, handle, others);
        assert others + Held() + c.Held() == others + Held();
      }
      assert others + c.Held() + Held() == others + Held() + c.Held();
      ReleaseFrame(others + c.Held());
      assert others + c.Held() + Held() == others + Held() + c.Held();
    }

    /** `dispatch_one_real_mbuf`: TCP input on the oldest frame of the burst, delivery of what
        became readable, removal of the connection on a reset, and the release of the frame's
        own references. A connection that had delivered everything it took has done so again
        afterwards. */
    method DispatchOne(c: RxConn, handle: nat, seg: Segment, verdict: Verdict, ghost others: multiset<Mbuf>)
      returns (o: RxOutcome)
      requires Valid() && c.Valid() && c.pool == pool && burst != []
      requires seg.len < 0x1_0000
      requires burst[0][0] in pool.data && (|burst[0]| == 1 ==> seg.offset + seg.len <= |pool.data[burst[0][0]]|)
      requires pool.Balanced(others + Held() + c.Held())
      modifies this`burst, this`queued, events, c, c.reorder, pool`refcnt, pool`free
      ensures Valid() && pool.Balanced(others + Held() + c.Held()) && pool.refcnt.Keys == old(pool.refcnt.Keys)
      ensures burst == old(burst)[1..]
      ensures if verdict == Reset then c.Held() == multiset{} else c.Valid()
      ensures old(c.waiting) == [] && verdict != Reset ==>
                c.waiting == [] && |c.delivered| == |old(c.delivered)| + o.delivered
      ensures Advanced(c, seg, |old(burst)[0]| == 1, verdict, o)
      ensures old(c.taken) <= c.taken && old(c.delivered) <= c.delivered
      ensures old(c.waiting) == [] && |old(burst)[0]| == 1 && seg.seqno == old(c.rcvNxt) ==> o.bufFullDrop == 0
    {
      hide Valid, Held, RxConn.Valid, RxConn.Held, MbufPool.Balanced, Accepts, Advanced;
      assert burst != [];
      o := InputAndDeliver(c, handle, seg, verdict, others);
      FinishFrame(c, handle, verdict == Reset, others);
    }

    /** One pop of the shutdown drain: the event is dropped at once. */
    method DropOldest(ghost others: multiset<Mbuf>)
      requires Valid() && events.q != [] && pool.Balanced(others + Held())
      modifies this`queued, events, pool`refcnt, pool`free
      ensures Valid() && events.q == old(events.q)[1..] && pool.Balanced(others + Held())
      ensures pool.refcnt.Keys == old(pool.refcnt.Keys)
    {
      hide InBufs, EventRefs, ChainRefs, Intact, MbufPool.Balanced, SmallBuffers;
      IntactSuffix(pool.data, events.q, queued, 1);
      EventRefsFront(events.q);
      ghost var kept := others + ChainRefs(burst) + EventRefs(events.q[1..]) + EventRefs(scratch);
      var ev := events.Pop();
      assert others + old(Held()) == kept + InRefs(ev.value.Owned());
      pool.FreeAll(InBufs(ev.value.Owned()), kept);
      queued := queued[1..];
      assert others + Held() == kept;
    }

    /** The first two steps of `Drop for Engine`: the drained events give their references back,
        then the queued ones, and the receive loop holds nothing any more. */
    method Teardown(ghost others: multiset<Mbuf>)
      requires Valid() && burst == [] && pool.Balanced(others + Held())
      modifies this`scratch, this`drained, this`queued, events, pool`refcnt, pool`free
      ensures Valid() && Held() == multiset{} && pool.Balanced(others) && pool.refcnt.Keys == old(pool.refcnt.Keys)
      ensures events.q == [] && scratch == []
      ensures others == multiset{} ==> pool.free == pool.refcnt.Keys
    {
      hide Valid, Held, MbufPool.Balanced;
      PollTop(others);
      while events.q != []
        invariant Valid() && pool.Balanced(others + Held()) && scratch == [] && burst == []
        invariant pool.refcnt.Keys == old(pool.refcnt.Keys)
        decreases |events.q|
      {
        DropOldest(others);
      }
      NothingHeld();
      assert others + Held() == others;
      AllFree(pool, others);
    }

    lemma NothingHeld()
      requires burst == [] && events.q == [] && scratch == []
      ensures Held() == multiset{}
    {
    }
  }

  lemma AllFree(pool: MbufPool, held: multiset<Mbuf>)
    requires pool.Balanced(held)
    ensures held == multiset{} ==> pool.free == pool.refcnt.Keys
  {
    assert held == multiset{} ==> forall m :: m in pool.refcnt ==> m in pool.free;
  }
}
