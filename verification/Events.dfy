/** The engine's event queue. A readable event owns one buffer reference per delivered segment
    and carries one iovec per segment; the queue drops its oldest event when it is full. */
module Events {
  import opened SeqArith
  import opened Mempool
  import opened Reorder

  /** A contiguous run of buffer bytes handed to the application. */
  datatype Iovec = Iovec(base: ByteRef, len: u32)

  datatype Event =
    | Readable(conn: nat, segs: seq<Iovec>, owned: seq<InOrderSegment>, totalLen: u32)
    | Other(conn: nat, code: int)
  {
    /** The segments whose references the event owns. */
    function Owned(): seq<InOrderSegment> { if Readable? then owned else [] }

    /** What the application reads through the event's iovecs. */
    function Reads(): seq<ByteRef> { if Readable? then IovecBytes(segs) else [] }

    /** The iovecs describe exactly the owned segments. */
    ghost predicate Coherent() {
      Readable? ==> segs == IovecsOf(owned) && totalLen == |BytesOf(owned)|
    }
  }

  function IovecsOf(owned: seq<InOrderSegment>): seq<Iovec> {
    seq(|owned|, i requires 0 <= i < |owned| => Iovec(ByteRef(owned[i].mbuf, owned[i].offset), owned[i].len))
  }

  function IovecBytes(segs: seq<Iovec>): seq<ByteRef> {
    if segs == [] then []
    else seq(segs[0].len, k requires 0 <= k => ByteRef(segs[0].base.mbuf, segs[0].base.pos + k)) + IovecBytes(segs[1..])
  }

  /** Reading through the iovecs is reading the owned segments, in order. */
  lemma {:induction false} IovecsCover(owned: seq<InOrderSegment>)
    ensures IovecBytes(IovecsOf(owned)) == BytesOf(owned)
  {
    if owned != [] {
      IovecsCover(owned[1..]);
      assert IovecsOf(owned)[1..] == IovecsOf(owned[1..]);
      assert SegBytes(owned[0])
          == seq(owned[0].len, k requires 0 <= k => ByteRef(owned[0].mbuf, owned[0].offset + k));
    }
  }

  function EventRefs(evs: seq<Event>): multiset<Mbuf> {
    if evs == [] then multiset{} else InRefs(evs[0].Owned()) + EventRefs(evs[1..])
  }

  lemma {:induction false} EventRefsConcat(a: seq<Event>, b: seq<Event>)
    ensures EventRefs(a + b) == EventRefs(a) + EventRefs(b)
  {
    if a == [] {
      assert a + b == b;
    } else {
      assert (a + b)[1..] == a[1..] + b;
      EventRefsConcat(a[1..], b);
    }
  }

  lemma EventRefsSnoc(a: seq<Event>, ev: Event)
    ensures EventRefs(a + [ev]) == EventRefs(a) + InRefs(ev.Owned())
  {
    EventRefsConcat(a, [ev]);
    assert [ev][1..] == [];
  }

  lemma NoRefs()
    ensures InRefs([]) == multiset{}
    ensures forall held: multiset<Mbuf> :: held + multiset{} == held
  {
  }

  lemma HeldByList(segs: seq<InOrderSegment>, i: nat)
    requires i < |segs|
    ensures segs[i].mbuf in InRefs(segs)
  {
    assert InBufs(segs)[i] == segs[i].mbuf;
  }

  lemma EventRefsFront(evs: seq<Event>)
    requires evs != []
    ensures EventRefs(evs) == InRefs(evs[0].Owned()) + EventRefs(evs[1..])
  {
  }

  /** `Clone for InternalEvent`: every owned segment is duplicated with one more reference. */
  method CloneEvent(pool: MbufPool, ev: Event, ghost held: multiset<Mbuf>) returns (copy: Event)
    requires pool.Balanced(held) && InRefs(ev.Owned()) <= held
    modifies pool`refcnt
    ensures copy == ev
    ensures pool.Balanced(held + InRefs(copy.Owned())) && pool.refcnt.Keys == old(pool.refcnt.Keys)
  {
    hide MbufPool.Balanced, InRefs;
    if ev.Other? {
      NoRefs();
      return ev;
    }
    var cloned: seq<InOrderSegment> := [];
    NoRefs();
    while |cloned| < |ev.owned|
      invariant |cloned| <= |ev.owned| && cloned == ev.owned[..|cloned|]
      invariant pool.Balanced(held + InRefs(cloned)) && pool.refcnt.Keys == old(pool.refcnt.Keys)
    {
      var s := ev.owned[|cloned|];
      HeldByList(ev.owned, |cloned|);
      pool.Retain(s.mbuf, held + InRefs(cloned));
      SnocBytes(cloned, s);
      assert held + InRefs(cloned) + multiset{s.mbuf} == held + (InRefs(cloned) + multiset{s.mbuf});
      cloned := cloned + [s];
    }
    return Readable(ev.conn, ev.segs, cloned, ev.totalLen);
  }

  /** `EventQueue`. The history fields say which pushes are still queued. */
  class EventQueue {
    var q: seq<Event>
    var eventsDropped: nat
    const softCap: nat
    const pool: MbufPool
    ghost var pushed: seq<Event>
    ghost var popped: nat

    /** The queue is always a suffix of everything ever pushed, short of it by the pops and
        the drops. */
    ghost predicate Valid()
      reads this
    {
      && 64 <= softCap && |q| <= softCap
      && popped + eventsDropped + |q| == |pushed|
      && q == pushed[popped + eventsDropped..]
    }

    constructor (cap: nat, pool: MbufPool)
      requires 64 <= cap
      ensures Valid() && q == [] && softCap == cap && this.pool == pool && pushed == []
    {
      q, eventsDropped, softCap, this.pool, pushed, popped := [], 0, cap, pool, [], 0;
    }

    /** `push`: a full queue gives up its oldest event and that event's references. */
    method Push(ev: Event, ghost held: multiset<Mbuf>)
      requires Valid() && pool.Balanced(held + EventRefs(q) + InRefs(ev.Owned()))
      modifies this, pool`refcnt, pool`free
      ensures Valid() && pushed == old(pushed) + [ev] && popped == old(popped)
      ensures q == (if |old(q)| < softCap then old(q) else old(q)[1..]) + [ev]
      ensures eventsDropped == old(eventsDropped) + if |old(q)| < softCap then 0 else 1
      ensures pool.Balanced(held + EventRefs(q)) && pool.refcnt.Keys == old(pool.refcnt.Keys)
    {
      hide EventRefs, InBufs, MbufPool.Balanced;
      ghost var own := InRefs(ev.Owned());
      if |q| >= softCap {
        var oldest := q[0];
        EventRefsFront(q);
        ghost var kept := held + EventRefs(q[1..]) + own;
        assert held + EventRefs(q) + own == kept + InRefs(oldest.Owned());
        pool.FreeAll(InBufs(oldest.Owned()), kept);
        q := q[1..];
        eventsDropped := eventsDropped + 1;
      }
      EventRefsSnoc(q, ev);
      assert held + EventRefs(q) + own == held + EventRefs(q + [ev]);
      q := q + [ev];
      pushed := pushed + [ev];
    }

    /** `pop`: the oldest event moves to the caller, references and all. */
    method Pop() returns (r: Option<Event>)
      requires Valid()
      modifies this
      ensures Valid() && pushed == old(pushed) && eventsDropped == old(eventsDropped)
      ensures r.None? <==> old(q) == []
      ensures r.None? ==> q == old(q) && popped == old(popped)
      ensures r.Some? ==> old(q) == [r.value] + q && popped == old(popped) + 1
    {
      if q == [] {
        return None;
      }
      r := Some(q[0]);
      q := q[1..];
      popped := popped + 1;
    }
  }
}
