/** The connection table: a fixed vector of slots and a tuple index. A handle is a slot number
    plus one and carries no generation. */
module FlowTable {
  import opened SeqArith

  datatype FourTuple = FourTuple(localIp: u32, localPort: u16, peerIp: u32, peerPort: u16)

  const INVALID_HANDLE: nat := 0

  class Table<C(==)> {
    var slots: seq<Option<C>>
    var byTuple: map<FourTuple, nat>
    const key: C -> FourTuple

    /** A tuple is indexed to slot `i` exactly when slot `i` holds a connection with that
        tuple; hence no two connections share a tuple. */
    ghost predicate Valid()
      reads this
    {
      && (forall t :: t in byTuple ==>
                byTuple[t] < |slots| && slots[byTuple[t]].Some? && key(slots[byTuple[t]].value) == t)
      && (forall i :: 0 <= i < |slots| && slots[i].Some? ==>
            key(slots[i].value) in byTuple && byTuple[key(slots[i].value)] == i)
    }

    /** The abstract table: the connections by handle. */
    function Get(h: nat): (r: Option<C>)
      reads this
    {
      if h != INVALID_HANDLE && h - 1 < |slots| then slots[h - 1] else None
    }

    constructor (maxConnections: nat, key: C -> FourTuple)
      ensures Valid() && |slots| == maxConnections && this.key == key
      ensures forall h :: Get(h) == None
      ensures maxConnections > 0 ==> forall t :: !Refuses(t)
    {
      slots := seq(maxConnections, _ => None);
      byTuple := map[];
      this.key := key;
      new;
      assert maxConnections > 0 ==> slots[0].None?;
    }

    /** A tuple already present, or no free slot. */
    ghost predicate Refuses(t: FourTuple)
      reads this`slots
    {
      || (exists i :: 0 <= i < |slots| && slots[i].Some? && key(slots[i].value) == t)
      || (forall i :: 0 <= i < |slots| ==> slots[i].Some?)
    }

    /** `insert`: refused for a tuple already present or a full table, otherwise the first free
        slot. */
    method Insert(c: C) returns (h: Option<nat>)
      requires Valid()
      modifies this
      ensures Valid() && |slots| == |old(slots)|
      ensures h.None? <==> old(Refuses(key(c)))
      ensures h.None? ==> slots == old(slots) && byTuple == old(byTuple)
      ensures h.Some? ==> h.value > 0 && old(Get(h.value)).None?
      ensures h.Some? ==> h.value - 1 < |slots| && slots == old(slots)[h.value - 1 := Some(c)]
      ensures h.Some? ==> forall i :: 0 <= i < h.value - 1 ==> old(slots)[i].Some?
      ensures forall i: nat :: Get(i) == if h == Some(i) then Some(c) else old(Get(i))
    {
      if key(c) in byTuple {
        return None;
      }
      var i := 0;
      while i < |slots| && slots[i].Some?
        invariant 0 <= i <= |slots|
        invariant forall j :: 0 <= j < i ==> slots[j].Some?
      {
        i := i + 1;
      }
      if i == |slots| {
        return None;
      }
      slots := slots[i := Some(c)];
      byTuple := byTuple[key(c) := i];
      return Some(i + 1);
    }

    /** A write through `get_mut`: the connection changes, its tuple does not. */
    method Update(h: nat, c: C)
      requires Valid() && Get(h).Some? && key(Get(h).value) == key(c)
      modifies this`slots
      ensures Valid() && slots == old(slots)[h - 1 := Some(c)]
      ensures forall i: nat :: Get(i) == if i == h then Some(c) else old(Get(i))
    {
      slots := slots[h - 1 := Some(c)];
    }

    /** `remove`: frees the slot and its index entry. */
    method Remove(h: nat) returns (r: Option<C>)
      requires Valid()
      modifies this
      ensures Valid() && r == old(Get(h))
      ensures slots == if r.Some? then old(slots)[h - 1 := None] else old(slots)
      ensures forall i: nat :: Get(i) == if i == h then None else old(Get(i))
    {
      r := Get(h);
      if r.Some? {
        slots := slots[h - 1 := None];
        byTuple := byTuple - {key(r.value)};
      }
    }

    /** `lookup_by_tuple` agrees with a search of the slots, in both directions. */
    method LookupByTuple(t: FourTuple) returns (h: Option<nat>)
      requires Valid()
      ensures h.Some? ==> Get(h.value).Some? && key(Get(h.value).value) == t
      ensures h.None? ==> forall i :: Get(i).Some? ==> key(Get(i).value) != t
    {
      if t in byTuple {
        return Some(byTuple[t] + 1);
      }
      return None;
    }

    /** `iter_handles`: every live handle once, in increasing order. */
    method IterHandles() returns (hs: seq<nat>)
      requires Valid()
      ensures forall h :: h in hs <==> Get(h).Some?
      ensures forall i, j :: 0 <= i < j < |hs| ==> hs[i] < hs[j]
    {
      hs := [];
      var i := 0;
      while i < |slots|
        invariant 0 <= i <= |slots|
        invariant forall h: nat :: h in hs <==> Get(h).Some? && h <= i
        invariant forall a :: 0 <= a < |hs| ==> hs[a] <= i
        invariant forall a, b :: 0 <= a < b < |hs| ==> hs[a] < hs[b]
      {
        if slots[i].Some? {
          hs := hs + [i + 1];
        }
        i := i + 1;
      }
    }

    /** `clear_all`. */
    method ClearAll()
      modifies this
      ensures Valid() && |slots| == |old(slots)| && forall h :: Get(h) == None
    {
      slots := seq(|slots|, _ => None);
      byTuple := map[];
    }

    /** Two handles never lead to the same tuple. */
    lemma TuplesDistinct(a: nat, b: nat)
      requires Valid() && Get(a).Some? && Get(b).Some? && key(Get(a).value) == key(Get(b).value)
      ensures a == b
    {
      assert byTuple[key(Get(a).value)] == a - 1;
    }
  }
}
