/** Reference-counted packet buffers and the pool they return to. */
module Mempool {
  import opened SeqArith

  /** A packet buffer, named by its place in the pool. */
  type Mbuf = nat

  /** The references a list of chains holds, one per buffer of each chain. */
  function ChainRefs(chains: seq<seq<Mbuf>>): multiset<Mbuf> {
    if chains == [] then multiset{} else multiset(chains[0]) + ChainRefs(chains[1..])
  }

  lemma {:induction false} ChainRefsConcat(a: seq<seq<Mbuf>>, b: seq<seq<Mbuf>>)
    ensures ChainRefs(a + b) == ChainRefs(a) + ChainRefs(b)
  {
    if a == [] {
      assert a + b == b;
    } else {
      assert (a + b)[1..] == a[1..] + b;
      ChainRefsConcat(a[1..], b);
    }
  }

  lemma ChainRefsOne(chain: seq<Mbuf>)
    ensures ChainRefs([chain]) == multiset(chain) && ChainRefs([]) == multiset{}
  {
    assert [chain][1..] == [];
  }

  lemma ChainRefsFront(chains: seq<seq<Mbuf>>)
    requires chains != []
    ensures ChainRefs(chains) == multiset(chains[0]) + ChainRefs(chains[1..])
  {
  }

  /** The chain's buffers hold the first links, and no other buffer changed but those refilled. */
  ghost predicate Filled(before: map<Mbuf, seq<u8>>, after: map<Mbuf, seq<u8>>, chain: seq<Mbuf>, links: seq<seq<u8>>,
                         held: multiset<Mbuf>) {
    && |chain| <= |links|
    && (forall i :: 0 <= i < |chain| ==> chain[i] in after && after[chain[i]] == links[i])
    && (forall m :: m in held ==> m in after && m in before && after[m] == before[m])
    && (forall m :: m in after ==> m in before && (after[m] == before[m] || after[m] in links))
  }

  lemma NoneFilled(data: map<Mbuf, seq<u8>>, links: seq<seq<u8>>, held: multiset<Mbuf>)
    requires forall m :: m in held ==> m in data
    ensures Filled(data, data, [], links, held)
  {
  }

  lemma OneFilled(before: map<Mbuf, seq<u8>>, after: map<Mbuf, seq<u8>>, chain: seq<Mbuf>, links: seq<seq<u8>>,
                  held: multiset<Mbuf>, m: Mbuf)
    requires Filled(before, after, chain, links, held) && |chain| < |links| && m in after
    requires held[m] == 0 && m !in chain
    ensures Filled(before, after[m := links[|chain|]], chain + [m], links, held)
  {
  }

  lemma FilledReads(before: map<Mbuf, seq<u8>>, after: map<Mbuf, seq<u8>>, chain: seq<Mbuf>, links: seq<seq<u8>>,
                    held: multiset<Mbuf>)
    requires Filled(before, after, chain, links, held)
    ensures forall i :: 0 <= i < |chain| ==> i < |links| && chain[i] in after && after[chain[i]] == links[i]
    ensures forall m :: m in held ==> m in after && m in before && after[m] == before[m]
    ensures forall m :: m in after ==> m in before && (after[m] == before[m] || after[m] in links)
  {
  }

  /** One pool of packet buffers. `refcnt` is the counter stored in each buffer, `free` the
      pool's free list and `data` the bytes of the buffer's live data region. */
  class MbufPool {
    var refcnt: map<Mbuf, nat>
    var free: set<Mbuf>
    var data: map<Mbuf, seq<u8>>

    ghost predicate Valid()
      reads this
    {
      free <= refcnt.Keys && data.Keys == refcnt.Keys
    }

    /** Every buffer's counter is the number of references in `held`, and the buffers nobody
        holds are exactly the ones on the free list. */
    ghost predicate Balanced(held: multiset<Mbuf>)
      reads this
    {
      && Valid()
      && (forall m :: m in held ==> m in refcnt)
      && (forall m :: m in refcnt ==> refcnt[m] == held[m])
      && (forall m :: m in refcnt ==> (m in free <==> refcnt[m] == 0))
    }

    constructor (all: set<Mbuf>)
      ensures Balanced(multiset{}) && refcnt.Keys == free == all
      ensures forall m :: m in all ==> m in data && data[m] == []
    {
      refcnt := map m | m in all :: 0;
      data := map m | m in all :: [];
      free := all;
    }

    /** `rte_mbuf_refcnt_update`: moves the counter and never touches the free list. */
    method RefcntUpdate(m: Mbuf, v: int)
      requires Valid() && m in refcnt && refcnt[m] + v >= 0
      modifies this`refcnt
      ensures Valid() && refcnt == old(refcnt)[m := old(refcnt)[m] + v]
    {
      refcnt := refcnt[m := refcnt[m] + v];
    }

    /** `MbufHandle::try_clone` and the other up-bumps: one more holder of a held buffer. */
    method Retain(m: Mbuf, ghost held: multiset<Mbuf>)
      requires Balanced(held) && m in held
      modifies this`refcnt
      ensures Balanced(held + multiset{m}) && refcnt.Keys == old(refcnt.Keys)
    {
      RefcntUpdate(m, 1);
    }

    /** A bump by `n`: that many more holders of a held buffer. */
    method RetainMany(m: Mbuf, n: nat, ghost held: multiset<Mbuf>)
      requires Balanced(held) && m in held
      modifies this`refcnt
      ensures Balanced(held + multiset{}[m := n]) && refcnt.Keys == old(refcnt.Keys)
    {
      RefcntUpdate(m, n);
    }

    /** The roll-back `rte_mbuf_refcnt_update(m, -1)`. It never returns the buffer to the
        pool, so it keeps the books exactly when another holder is left; rolled back by its
        last holder a buffer would sit at counter 0 outside the pool. */
    method Rollback(m: Mbuf, ghost held: multiset<Mbuf>)
      requires Balanced(held) && m in held
      modifies this`refcnt
      ensures Balanced(held - multiset{m}) <==> held[m] >= 2
      ensures refcnt.Keys == old(refcnt.Keys)
      ensures held[m] == 1 ==> m in refcnt && refcnt[m] == 0 && m !in free
    {
      RefcntUpdate(m, -1);
    }

    /** `rte_pktmbuf_free_seg`, the body of `MbufHandle::drop`: one holder fewer, and the last
        one puts the buffer back on the free list. */
    method FreeSeg(m: Mbuf, ghost held: multiset<Mbuf>)
      requires Balanced(held) && m in held
      modifies this`refcnt, this`free
      ensures Balanced(held - multiset{m}) && refcnt.Keys == old(refcnt.Keys)
    {
      if refcnt[m] == 1 {
        refcnt := refcnt[m := 0];
        free := free + {m};
      } else {
        refcnt := refcnt[m := refcnt[m] - 1];
      }
    }

    /** Drops a whole run of handles. */
    method FreeAll(ms: seq<Mbuf>, ghost held: multiset<Mbuf>)
      requires Balanced(held + multiset(ms))
      modifies this`refcnt, this`free
      ensures Balanced(held) && refcnt.Keys == old(refcnt.Keys)
    {
      hide Balanced;
      var i := 0;
      assert ms[0..] == ms;
      while i < |ms|
        invariant 0 <= i <= |ms|
        invariant Balanced(held + multiset(ms[i..])) && refcnt.Keys == old(refcnt.Keys)
      {
        assert ms[i..] == [ms[i]] + ms[i + 1..];
        FreeSeg(ms[i], held + multiset(ms[i..]));
        assert held + multiset(ms[i..]) - multiset{ms[i]} == held + multiset(ms[i + 1..]);
        i := i + 1;
      }
      assert held + multiset(ms[i..]) == held;
    }

    /** `rte_pktmbuf_alloc` followed by an append of `bytes`: null exactly when the pool is
        empty, otherwise a buffer nobody holds, with one reference. */
    method Alloc(bytes: seq<u8>, ghost held: multiset<Mbuf>) returns (r: Option<Mbuf>)
      requires Balanced(held)
      modifies this
      ensures refcnt.Keys == old(refcnt.Keys)
      ensures r.None? <==> old(free) == {}
      ensures r.None? ==> Balanced(held) && refcnt == old(refcnt) && data == old(data)
      ensures r.Some? ==> held[r.value] == 0 && Balanced(held + multiset{r.value})
      ensures r.Some? ==> r.value in old(data) && data == old(data)[r.value := bytes]
      ensures r.Some? ==> r.value in old(free) && free == old(free) - {r.value}
    {
      if free == {} {
        return None;
      }
      var m :| m in free;
      free := free - {m};
      refcnt := refcnt[m := 1];
      data := data[m := bytes];
      return Some(m);
    }

    /** Takes one buffer per link of a frame, or none at all when the pool has too few. */
    method AllocChain(links: seq<seq<u8>>, ghost held: multiset<Mbuf>) returns (chain: seq<Mbuf>, ok: bool)
      requires Balanced(held)
      modifies this
      ensures refcnt.Keys == old(refcnt.Keys)
      ensures Balanced(held + multiset(chain)) && |chain| == if ok then |links| else 0
      ensures ok <==> |links| <= |old(free)|
      ensures forall i :: 0 <= i < |chain| ==> chain[i] in data && data[chain[i]] == links[i]
      ensures forall m :: m in held ==> m in data && m in old(data) && data[m] == old(data)[m]
      ensures forall m :: m in data ==> m in old(data) && (data[m] == old(data)[m] || data[m] in links)
    {
      hide Balanced, Filled;
      HeldHaveData(held);
      chain, ok := [], true;
      assert held + multiset(chain) == held;
      NoneFilled(data, links, held);
      while |chain| < |links|
        invariant |chain| <= |links| && Filled(old(data), data, chain, links, held)
        invariant Balanced(held + multiset(chain)) && refcnt.Keys == old(refcnt.Keys) && |free| == |old(free)| - |chain|
      {
        ghost var before := data;
        var r := Alloc(links[|chain|], held + multiset(chain));
        if r.None? {
          FreeAll(chain, held);
          assert held + multiset([]) == held;
          FilledReads(old(data), data, chain, links, held);
          return [], false;
        }
        OneFilled(old(data), before, chain, links, held, r.value);
        assert held + multiset(chain) + multiset{r.value} == held + multiset(chain + [r.value]);
        chain := chain + [r.value];
      }
      FilledReads(old(data), data, chain, links, held);
    }

    lemma HeldHaveData(held: multiset<Mbuf>)
      requires Balanced(held)
      ensures forall m :: m in held ==> m in data
    {
    }
  }

  /** The counters leave no doubt about who holds what. */
  lemma SameBooks(pool: MbufPool, a: multiset<Mbuf>, b: multiset<Mbuf>)
    requires pool.Balanced(a) && pool.Balanced(b)
    ensures a == b
  {
    assert forall m :: a[m] == if m in pool.refcnt then pool.refcnt[m] else 0;
    assert forall m :: b[m] == if m in pool.refcnt then pool.refcnt[m] else 0;
  }
}
