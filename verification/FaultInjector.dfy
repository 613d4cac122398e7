/** The receive-side fault injector: drop, corrupt, duplicate and reorder, over chains of
    reference-counted buffers, with a bounded first-in first-out holding ring. Every random
    decision comes in as an argument. */
module FaultInjector {
  import opened SeqArith
  import opened Mempool

  /** A packet: its chain of buffers, head first. */
  type Packet = seq<Mbuf>

  /** The random decisions of one call: whether each fault fires, and for a corruption where
      and with which byte. */
  datatype Choice = Choice(drop: bool, corrupt: bool, dup: bool, reorder: bool, pick: nat, flip: u8)

  const RING_DEPTH: nat := 16

  /** A byte with some of its bits flipped. */
  function Xor(b: u8, x: u8): u8 { ((b as bv8) ^ (x as bv8)) as int }

  /** Flipping by a non-zero byte always changes the byte. */
  lemma FlipChanges(b: u8, x: u8)
    requires x != 0
    ensures Xor(b, x) != b
  {
    FlipBits(b as bv8, x as bv8);
    SameBits((b as bv8) ^ (x as bv8), b as bv8);
  }

  lemma FlipBits(p: bv8, q: bv8)
    requires q != 0
    ensures p ^ q != p
  {
  }

  lemma SameBits(p: bv8, q: bv8)
    requires p != q
    ensures p as int != q as int
  {
    assert p == (p as int) as bv8 && q == (q as int) as bv8;
  }

  /** The two differ in exactly one byte. */
  ghost predicate OneByteFlipped(a: seq<u8>, b: seq<u8>) {
    && |a| == |b|
    && exists i :: 0 <= i < |a| && a[i] != b[i] && (forall j :: 0 <= j < |a| && j != i ==> a[j] == b[j])
  }

  class Injector {
    const pool: MbufPool
    var ring: seq<Packet>
    /** Totals over all calls so far, per buffer, and the ring's history. */
    ghost var received: multiset<Mbuf>
    ghost var bumped: multiset<Mbuf>
    ghost var emitted: multiset<Mbuf>
    ghost var freed: multiset<Mbuf>
    ghost var entered: seq<Packet>
    ghost var evicted: nat

    /** Conservation over the whole run, buffer by buffer, and the ring as the youngest part of
        everything that ever entered it. */
    ghost predicate Valid()
      reads this
    {
      && received + bumped == emitted + freed + ChainRefs(ring)
      && |ring| <= RING_DEPTH && evicted + |ring| == |entered| && ring == entered[evicted..]
    }

    constructor (pool: MbufPool)
      ensures Valid() && this.pool == pool && ring == []
      ensures received == bumped == emitted == freed == multiset{}
    {
      this.pool, ring := pool, [];
      received, bumped, emitted, freed, entered, evicted := multiset{}, multiset{}, multiset{}, multiset{}, [], 0;
    }

    /** One non-zero flip of one byte of the head buffer, if it has any. */
    method Corrupt(m: Mbuf, pick: nat, flip: u8, ghost held: multiset<Mbuf>)
      requires pool.Balanced(held) && m in pool.data
      modifies pool`data
      ensures pool.Balanced(held) && pool.data.Keys == old(pool.data.Keys)
      ensures forall x :: x in pool.data && x != m ==> pool.data[x] == old(pool.data)[x]
      ensures |pool.data[m]| == |old(pool.data)[m]|
      ensures if old(pool.data)[m] != [] then OneByteFlipped(old(pool.data)[m], pool.data[m])
              else pool.data == old(pool.data)
    {
      hide Xor;
      var d := pool.data[m];
      if |d| > 0 {
        var i := pick % |d|;
        var x := Max(flip, 1);
        FlipChanges(d[i], x);
        var flipped: seq<u8> := d[i := Xor(d[i], x)];
        assert d[i] != flipped[i];
        pool.data := pool.data[m := flipped];
      }
    }

    /** The duplicate's walk down the chain: one more reference on every segment. */
    method BumpChain(p: Packet, ghost held: multiset<Mbuf>)
      requires pool.Balanced(held) && multiset(p) <= held
      modifies pool`refcnt
      ensures pool.Balanced(held + multiset(p)) && pool.refcnt.Keys == old(pool.refcnt.Keys)
    {
      hide MbufPool.Balanced;
      var i := 0;
      assert held + multiset(p[..0]) == held;
      while i < |p|
        invariant 0 <= i <= |p|
        invariant pool.Balanced(held + multiset(p[..i])) && pool.refcnt.Keys == old(pool.refcnt.Keys)
      {
        assert p[..i + 1] == p[..i] + [p[i]];
        assert p[i] in multiset(p);
        pool.Retain(p[i], held + multiset(p[..i]));
        assert held + multiset(p[..i]) + multiset{p[i]} == held + multiset(p[..i + 1]);
        i := i + 1;
      }
      assert p[..i] == p;
    }

    /** `process`. What comes out and what stays on the ring account for every reference that
        went in: the packet once, or twice when duplicated, or not at all when dropped. */
    method Process(p: Packet, c: Choice, ghost others: multiset<Mbuf>) returns (out: seq<Packet>)
      requires Valid() && p != [] && pool.Balanced(others + ChainRefs(ring) + multiset(p)) && p[0] in pool.data
      modifies this, pool`refcnt, pool`free, pool`data
      ensures pool.data.Keys == old(pool.data.Keys) && forall m :: m in pool.data && m != p[0] ==>
              pool.data[m] == old(pool.data)[m]
      ensures if !c.drop && c.corrupt && old(pool.data)[p[0]] != [] then OneByteFlipped(old(pool.data)[p[0]],
              pool.data[p[0]])
              else pool.data == old(pool.data)
      ensures Valid() && pool.Balanced(others + ChainRefs(ring) + ChainRefs(out))
      ensures pool.refcnt.Keys == old(pool.refcnt.Keys)
      ensures ChainRefs(out) + ChainRefs(ring) == ChainRefs(old(ring)) + Copies(p, c)
      ensures c.drop ==> out == [] && ring == old(ring)
      ensures !c.drop ==> ring == (if !c.reorder then old(ring) else if |old(ring)| < RING_DEPTH then old(ring) + [p]
              else old(ring)[1..] + [p])
      ensures !c.drop ==> out == (if c.dup then [p] else [])
                               + (if !c.reorder then [p] else if |old(ring)| < RING_DEPTH then [] else [old(ring)[0]])
    {
      hide MbufPool.Balanced, ChainRefs, OneByteFlipped;
      ChainRefsOne(p);
      received := received + multiset(p);
      if c.drop {
        pool.FreeAll(p, others + ChainRefs(ring));
        freed := freed + multiset(p);
        assert others + ChainRefs(ring) + multiset{} == others + ChainRefs(ring);
        Tally(old(received), old(bumped), emitted, old(freed), ChainRefs(ring), multiset(p));
        return [];
      }
      if c.corrupt {
        HeadHasData(pool, p, others + ChainRefs(ring));
        Corrupt(p[0], c.pick, c.flip, others + ChainRefs(ring) + multiset(p));
      }
      var twice := [p];
      if c.dup {
        BumpChain(p, others + ChainRefs(ring) + multiset(p));
        bumped := bumped + multiset(p);
        twice := [p, p];
      }
      CopiesOf(p, c);
      assert others + ChainRefs(ring) + multiset(p) + multiset(p)
          == others + ChainRefs(ring) + (multiset(p) + multiset(p));
      out := twice;
      if c.reorder {
        out := Reorder(p, c.dup);
      }
      emitted := emitted + ChainRefs(out);
      Settle(old(ChainRefs(ring)), Copies(p, c), ChainRefs(ring), ChainRefs(out), others);
      TallyOut(old(received), old(bumped), old(emitted), freed, old(ChainRefs(ring)), multiset(p), ChainRefs(ring),
          ChainRefs(out));
    }

    /** Step four on what the first three left: the last copy goes onto the ring. */
    method Reorder(p: Packet, dup: bool) returns (out: seq<Packet>)
      requires |ring| <= RING_DEPTH && evicted + |ring| == |entered| && ring == entered[evicted..]
      modifies this`ring, this`entered, this`evicted
      ensures |ring| <= RING_DEPTH && evicted + |ring| == |entered| && ring == entered[evicted..]
      ensures ring == (if |old(ring)| < RING_DEPTH then old(ring) else old(ring)[1..]) + [p]
      ensures out == (if dup then [p] else []) + (if |old(ring)| < RING_DEPTH then [] else [old(ring)[0]])
      ensures ChainRefs(out) + ChainRefs(ring) == ChainRefs(old(ring)) + if dup then multiset(p) + multiset(p)
              else multiset(p)
    {
      hide ChainRefs;
      out := if dup then [p, p] else [p];
      ChainRefsOne(p);
      var held := out[|out| - 1];
      out := out[..|out| - 1];
      var evict := Hold(held);
      ChainRefsConcat(out, evict);
      assert multiset(p) + (ChainRefs(evict) + ChainRefs(ring)) == multiset(p) + ChainRefs(evict) + ChainRefs(ring);
      assert out == if dup then [p] else [];
      assert multiset{} + ChainRefs(evict) == ChainRefs(evict);
      assert ChainRefs(old(ring)) + multiset(p) + multiset(p) == ChainRefs(old(ring)) + (multiset(p) + multiset(p));
      assert multiset(p) + (ChainRefs(old(ring)) + multiset(p)) == ChainRefs(old(ring)) + (multiset(p) + multiset(p));
      out := out + evict;
    }

    /** Step four: holds one packet back, and lets the oldest go when the ring is full. */
    method Hold(held: Packet) returns (evict: seq<Packet>)
      requires |ring| <= RING_DEPTH && evicted + |ring| == |entered| && ring == entered[evicted..]
      modifies this`ring, this`entered, this`evicted
      ensures |ring| <= RING_DEPTH && evicted + |ring| == |entered| && ring == entered[evicted..]
      ensures ring == (if |old(ring)| < RING_DEPTH then old(ring) else old(ring)[1..]) + [held]
      ensures evict == if |old(ring)| < RING_DEPTH then [] else [old(ring)[0]]
      ensures ChainRefs(evict) + ChainRefs(ring) == ChainRefs(old(ring)) + multiset(held)
    {
      ChainRefsOne(held);
      entered := entered + [held];
      if |ring| >= RING_DEPTH {
        evict := [ring[0]];
        ChainRefsOne(ring[0]);
        ChainRefsConcat([ring[0]], ring[1..]);
        assert [ring[0]] + ring[1..] == ring;
        ChainRefsConcat(ring[1..], [held]);
        ring := ring[1..] + [held];
        evicted := evicted + 1;
      } else {
        evict := [];
        ChainRefsConcat(ring, [held]);
        ring := ring + [held];
      }
    }

    /** `Drop for FaultInjector`: what the ring still holds is freed. */
    method Close(ghost others: multiset<Mbuf>)
      requires Valid() && pool.Balanced(others + ChainRefs(ring))
      modifies this, pool`refcnt, pool`free
      ensures Valid() && ring == [] && pool.Balanced(others) && pool.refcnt.Keys == old(pool.refcnt.Keys)
      ensures received == old(received) && received + bumped == emitted + freed
    {
      hide MbufPool.Balanced, ChainRefs;
      ChainRefsOne([]);
      while ring != []
        invariant Valid() && pool.Balanced(others + ChainRefs(ring)) && pool.refcnt.Keys == old(pool.refcnt.Keys)
        invariant received == old(received)
        decreases |ring|
      {
        var p := ring[0];
        ChainRefsOne(p);
        ChainRefsConcat([p], ring[1..]);
        assert [p] + ring[1..] == ring;
        assert others + ChainRefs(ring) == others + ChainRefs(ring[1..]) + multiset(p);
        pool.FreeAll(p, others + ChainRefs(ring[1..]));
        freed := freed + multiset(p);
        ring := ring[1..];
        evicted := evicted + 1;
      }
      assert others + multiset{} == others;
    }
  }

  lemma Settle(ring: multiset<Mbuf>, copies: multiset<Mbuf>, after: multiset<Mbuf>, out: multiset<Mbuf>,
               others: multiset<Mbuf>)
    requires out + after == ring + copies
    ensures others + ring + copies == others + after + out
  {
    assert others + ring + copies == others + (ring + copies);
    assert others + after + out == others + (out + after);
  }

  /** A dropped packet in the run's totals. */
  lemma Tally(received: multiset<Mbuf>, bumped: multiset<Mbuf>, emitted: multiset<Mbuf>, freed: multiset<Mbuf>,
              ring: multiset<Mbuf>, p: multiset<Mbuf>)
    requires received + bumped == emitted + freed + ring
    ensures received + p + bumped == emitted + (freed + p) + ring
  {
    assert received + p + bumped == (received + bumped) + p;
  }

  /** A packet that is not dropped, with or without its duplicate. */
  lemma TallyOut(received: multiset<Mbuf>, bumped: multiset<Mbuf>, emitted: multiset<Mbuf>, freed: multiset<Mbuf>,
                 ring: multiset<Mbuf>, p: multiset<Mbuf>, after: multiset<Mbuf>, out: multiset<Mbuf>)
    requires received + bumped == emitted + freed + ring
    ensures out + after == ring + p ==> received + p + bumped == emitted + out + freed + after
    ensures out + after == ring + (p + p) ==> received + p + (bumped + p) == emitted + out + freed + after
  {
    assert received + p + bumped == (received + bumped) + p;
    assert received + p + (bumped + p) == (received + bumped) + (p + p);
    assert emitted + out + freed + after == emitted + freed + (out + after);
    assert emitted + freed + ring + p == emitted + freed + (ring + p);
    assert emitted + freed + ring + (p + p) == emitted + freed + (ring + (p + p));
  }

  lemma CopiesOf(p: Packet, c: Choice)
    requires !c.drop
    ensures ChainRefs(if c.dup then [p, p] else [p]) == Copies(p, c)
  {
    ChainRefsOne(p);
    ChainRefsConcat([p], [p]);
  }

  lemma HeadHasData(pool: MbufPool, p: Packet, rest: multiset<Mbuf>)
    requires pool.Balanced(rest + multiset(p)) && p != []
    ensures p[0] in pool.data
  {
    assert p[0] in multiset(p);
  }

  /** The references a packet brings out of the first three steps. */
  function Copies(p: Packet, c: Choice): multiset<Mbuf> {
    if c.drop then multiset{} else if c.dup then multiset(p) + multiset(p) else multiset(p)
  }
}
