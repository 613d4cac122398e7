/** The hashed timing wheel: eight levels of 256 buckets over a store of recycled slots. Slots
    are told apart by a wrapping generation, cancelled timers stay as tombstones until their
    bucket comes up, and a bucket of a higher level is redistributed when its cursor reaches
    it. */
module TimerWheel {
  import opened SeqArith
  import opened WheelTime

  datatype TimerId = TimerId(slot: nat, generation: u32)

  datatype TimerKind = Rto | Tlp | SynRetrans | ApiPublic

  datatype TimerNode = TimerNode(fireAtNs: nat, owner: nat, kind: TimerKind, userData: u64, generation: u32,
                                 cancelled: bool) {
    function FireTick(): nat { fireAtNs / TICK_NS }
  }

  datatype Fired = Fired(id: TimerId, node: TimerNode)

  /** Where a slot is filed: its level, and the turn of that level's cursor it waits for. */
  datatype Place = Place(level: nat, turn: nat) {
    function Index(): nat { BUCKETS * level + turn % BUCKETS }
  }

  /** The ticks a timer may fire in. */
  datatype Span = Span(lo: nat, hi: nat)

  function NanosToTicks(fireAtNs: nat, nowNs: nat): nat {
    if fireAtNs <= nowNs then 0 else (fireAtNs - nowNs) / TICK_NS
  }

  /** When a timer armed with the wheel at tick `t` may fire: between the tick its delay counts to
      and the tick of its deadline, or one tick after. */
  function SpanFor(t: nat, nowNs: nat, fireAtNs: nat): Span {
    var aim, fireTick := t + NanosToTicks(fireAtNs, nowNs), fireAtNs / TICK_NS;
    Span(Min(aim, fireTick), Max(aim, fireTick) + 1)
  }

  /** A wheel that lags behind the clock by some ticks may fire a timer early by exactly the lag,
      and one more tick when it was armed later within its tick than it is due within its own;
      and late by at most one tick. */
  lemma LagIsEarliness(t: nat, nowNs: nat, fireAtNs: nat)
    requires t <= nowNs / TICK_NS && nowNs <= fireAtNs
    ensures var sp, fireTick, lag := SpanFor(t, nowNs, fireAtNs), fireAtNs / TICK_NS, nowNs / TICK_NS - t;
      && sp.lo == fireTick - lag - (if nowNs % TICK_NS > fireAtNs % TICK_NS then 1 else 0)
      && sp.hi == fireTick + 1
  {
    var a, b := fireAtNs / TICK_NS - nowNs / TICK_NS, fireAtNs % TICK_NS - nowNs % TICK_NS;
    assert fireAtNs - nowNs == TICK_NS * a + b;
  }

  function Ids(fired: seq<Fired>): set<TimerId> { set f | f in fired :: f.id }

  ghost predicate DistinctIds(fired: seq<Fired>) {
    forall a, b :: 0 <= a < b < |fired| ==> fired[a].id != fired[b].id
  }

  /** A sweep from tick `from` to tick `to` met every fired timer inside its span. */
  ghost predicate AllInSpan(fired: seq<Fired>, span: map<nat, Span>, from: nat, to: nat) {
    forall f :: f in fired ==> f.id.slot in span && from < span[f.id.slot].hi && span[f.id.slot].lo <= to
  }

  lemma IdsSnoc(fired: seq<Fired>, f: Fired)
    ensures Ids(fired + [f]) == Ids(fired) + {f.id}
  {
  }

  lemma IdsConcat(a: seq<Fired>, b: seq<Fired>)
    ensures Ids(a + b) == Ids(a) + Ids(b)
  {
  }

  /** As many ids as entries: no id twice. */
  lemma {:induction false} IdsDistinct(fired: seq<Fired>)
    ensures |Ids(fired)| <= |fired|
    ensures |Ids(fired)| == |fired| ==> DistinctIds(fired)
  {
    if fired != [] {
      var last := fired[|fired| - 1];
      var rest := fired[..|fired| - 1];
      IdsDistinct(rest);
      IdsSnoc(rest, last);
      assert fired == rest + [last];
      if |Ids(fired)| == |fired| {
        assert last.id !in Ids(rest);
        assert forall i :: 0 <= i < |rest| ==> rest[i] in rest && rest[i].id in Ids(rest);
      }
    }
  }

  lemma NoIds()
    ensures Ids([]) == {}
  {
  }

  /** Short of a full turn of the counter, one more reuse is one step further away. */
  lemma ReuseStep(g: u32, earlier: u32, adds: nat)
    requires SeqSub(g, earlier) <= adds < 0xFFFF_FFFF
    ensures SeqSub(SeqAdd(g, 1), earlier) == SeqSub(g, earlier) + 1 && SeqAdd(g, 1) != earlier
  {
    assert SeqAdd(g, 1) == g + 1 || (g == 0xFFFF_FFFF && SeqAdd(g, 1) == 0);
  }

  lemma SameGeneration(g: u32, h: u32)
    ensures SeqSub(g, h) <= 0 <==> g == h
  {
  }

  /** Ids with different slots below `n` are at most `n`. */
  lemma {:induction false} DistinctSlots(ids: set<TimerId>, n: nat)
    requires forall id :: id in ids ==> id.slot < n
    requires forall a, b :: a in ids && b in ids && a.slot == b.slot ==> a == b
    ensures |ids| <= n
    decreases n
  {
    if n == 0 {
      assert ids == {};
    } else if exists id :: id in ids && id.slot == n - 1 {
      var top :| top in ids && top.slot == n - 1;
      DistinctSlots(ids - {top}, n - 1);
    } else {
      DistinctSlots(ids, n - 1);
    }
  }

  lemma UpZero()
    ensures forall l: nat :: l < LEVELS ==> Up(0, l) == 0
  {
    forall l: nat | l < LEVELS
      ensures Up(0, l) == 0
    {
      UpOfZero(l);
    }
  }

  lemma {:induction false} UpOfZero(l: nat)
    ensures Up(0, l) == 0
  {
    if l > 0 {
      UpOfZero(l - 1);
    }
  }

  lemma SameIndex(turn: nat, off: nat)
    ensures (turn % BUCKETS + off) % BUCKETS == (turn + off) % BUCKETS
  {
  }

  // ---------- the filing of slots in buckets ----------

  ghost predicate NoDup(s: seq<nat>) { forall i, j :: 0 <= i < j < |s| ==> s[i] != s[j] }

  /** Every filed slot is in the one bucket its place names, once, and in no other. */
  ghost predicate Filed(buckets: seq<seq<nat>>, place: map<nat, Place>) {
    && |buckets| == LEVELS * BUCKETS
    && (forall k, s :: 0 <= k < |buckets| && s in buckets[k] ==> s in place && place[s].Index() == k)
    && (forall s :: s in place ==> place[s].level < LEVELS && s in buckets[place[s].Index()])
    && (forall k :: 0 <= k < |buckets| ==> NoDup(buckets[k]))
  }

  lemma FiledPush(buckets: seq<seq<nat>>, place: map<nat, Place>, s: nat, p: Place)
    requires Filed(buckets, place) && s !in place && p.level < LEVELS
    ensures p.Index() < |buckets| && Filed(buckets[p.Index() := buckets[p.Index()] + [s]], place[s := p])
  {
    var k := p.Index();
    assert s !in buckets[k];
    var after := buckets[k := buckets[k] + [s]];
    assert NoDup(after[k]);
  }

  lemma FiledOpen(buckets: seq<seq<nat>>, place: map<nat, Place>, k: nat)
    requires Filed(buckets, place) && k < |buckets|
    ensures Filed(buckets[k := []], place - Members(buckets[k]))
    ensures NoDup(buckets[k]) && forall s :: s in Members(buckets[k]) <==> s in place && place[s].Index() == k
  {
    var after, left := buckets[k := []], place - Members(buckets[k]);
    forall s | s in left
      ensures left[s].level < LEVELS && s in after[left[s].Index()]
    {
      assert place[s].Index() != k;
    }
    forall j, s | 0 <= j < |after| && s in after[j]
      ensures s in left && left[s].Index() == j
    {
      assert j != k && s in buckets[j];
      assert place[s].Index() == j;
    }
    assert forall j :: 0 <= j < |after| ==> NoDup(after[j]);
  }

  lemma FiledShape(buckets: seq<seq<nat>>, place: map<nat, Place>)
    requires Filed(buckets, place)
    ensures |buckets| == LEVELS * BUCKETS
  {
  }

  lemma NoMembers(list: seq<nat>)
    requires list == []
    ensures Members(list) == {}
  {
  }

  lemma MembersStep(list: seq<nat>, i: nat)
    requires NoDup(list) && i < |list|
    ensures list[i] in Members(list[i..]) && Members(list[i + 1..]) == Members(list[i..]) - {list[i]}
  {
    assert list[i..] == [list[i]] + list[i + 1..];
    assert list[i] !in list[i + 1..];
  }

  function Members(s: seq<nat>): (r: set<nat>)
    ensures forall x :: x in r <==> x in s
  {
    set x | x in s
  }

  /** Every filed slot waits for a turn within the next 255 of its level's cursor, and that
      turn comes inside the timer's span. */
  ghost predicate OnTime(place: map<nat, Place>, turns: seq<nat>, span: map<nat, Span>) {
    && |turns| == LEVELS
    && forall s :: s in place ==>
         && place[s].level < LEVELS && s in span
         && turns[place[s].level] < place[s].turn <= turns[place[s].level] + 255
         && DueNow(span[s], place[s].level, place[s].turn)
  }

  /** A turn of a level's cursor is inside a span. */
  predicate DueNow(sp: Span, l: nat, turn: nat) {
    if l == 0 then sp.lo <= turn <= sp.hi else sp.hi > 0 && turn <= Up(sp.hi - 1, l)
  }

  lemma OnTimeOf(place: map<nat, Place>, turns: seq<nat>, span: map<nat, Span>)
    requires OnTime(place, turns, span)
    ensures forall s :: s in place ==> s in span && DueNow(span[s], place[s].level, place[s].turn)
  {
  }

  lemma TurnUnique(t: nat, q: nat)
    requires t < q <= t + 255 && q % BUCKETS == (t + 1) % BUCKETS
    ensures q == t + 1
  {
    assert q - (t + 1) == BUCKETS * (q / BUCKETS - (t + 1) / BUCKETS);
  }

  lemma IndexLevel(p: Place, l: nat, c: nat)
    requires p.Index() == BUCKETS * l + c && c < BUCKETS
    ensures p.level == l && p.turn % BUCKETS == c
  {
  }

  /** When a cursor moves, exactly the slots of the bucket it reaches have come to their turn;
      all others still wait. */
  lemma OnTimeTurn(place: map<nat, Place>, turns: seq<nat>, span: map<nat, Span>, l: nat, members: set<nat>)
    requires OnTime(place, turns, span) && l < LEVELS
    requires forall s :: s in members <==> s in place && place[s].Index() == BUCKETS * l + (turns[l] + 1) % BUCKETS
    ensures OnTime(place - members, turns[l := turns[l] + 1], span)
    ensures forall s :: s in members ==> s in place && place[s] == Place(l, turns[l] + 1)
  {
    hide Up;
    forall s | s in members
      ensures place[s] == Place(l, turns[l] + 1)
    {
      IndexLevel(place[s], l, (turns[l] + 1) % BUCKETS);
      TurnUnique(turns[l], place[s].turn);
    }
    forall s | s in place && s !in members && place[s].level == l
      ensures turns[l] + 1 < place[s].turn
    {
      assert place[s].Index() == BUCKETS * l + place[s].turn % BUCKETS;
    }
  }

  lemma OnTimeFile(place: map<nat, Place>, turns: seq<nat>, span: map<nat, Span>, slot: nat, p: Place)
    requires OnTime(place, turns, span) && slot in span && p.level < LEVELS
    requires turns[p.level] < p.turn <= turns[p.level] + 255
    requires DueNow(span[slot], p.level, p.turn)
    ensures OnTime(place[slot := p], turns, span)
  {
    hide Up;
  }

  /** Filing a timer `d` ticks ahead keeps it inside a span that holds its target. */
  lemma FilesOnTime(t: nat, d: nat, turn: nat, sp: Span)
    requires turn <= Up(t, LevelAndOffset(d).0) && (LevelAndOffset(d).0 == 0 ==> turn == t)
    requires sp.lo <= t + d < sp.hi
    ensures DueNow(sp, LevelAndOffset(d).0, turn + LevelAndOffset(d).1)
  {
    hide LevelAndOffset;
    Placement(t, d, turn);
    UpMono(t + d, sp.hi - 1, LevelAndOffset(d).0);
  }

  /** The cursors after tick `t`, while the carry has reached level `l`: the levels below have
      turned, the others not yet. */
  ghost predicate Carrying(turns: seq<nat>, t: nat, l: nat) {
    && |turns| == LEVELS && t > 0 && Zero(t, l)
    && (forall j :: 0 <= j < l && j < LEVELS ==> turns[j] == Up(t, j))
    && (forall j :: l <= j < LEVELS ==> turns[j] == Up(t - 1, j))
  }

  ghost predicate Turned(turns: seq<nat>, t: nat) {
    |turns| == LEVELS && forall l :: 0 <= l < LEVELS ==> turns[l] == Up(t, l)
  }

  /** Turning one level passes the carry on exactly when its cursor comes back to bucket 0. */
  lemma CarryOn(turns: seq<nat>, t: nat, l: nat)
    requires Carrying(turns, t, l) && l < LEVELS
    ensures var after := turns[l := turns[l] + 1];
      && after[l] == Up(t, l)
      && (if after[l] % BUCKETS == 0 then Carrying(after, t, l + 1) else Turned(after, t))
  {
    UpStep(t, l);
    UpNext(t, l);
    var after := turns[l := turns[l] + 1];
    if after[l] % BUCKETS != 0 {
      forall j | l < j < LEVELS
        ensures after[j] == Up(t, j)
      {
        if Zero(t, j) {
          ZeroDown(t, l + 1, j);
        }
        UpStep(t, j);
      }
    }
  }

  lemma CarryZero(turns: seq<nat>, t: nat, l: nat)
    requires Carrying(turns, t, l)
    ensures |turns| == LEVELS && Zero(t, l)
  {
  }

  lemma CarryStart(turns: seq<nat>, t: nat)
    requires Turned(turns, t)
    ensures Carrying(turns, t + 1, 0)
  {
  }

  lemma CarryEnd(turns: seq<nat>, t: nat, l: nat)
    requires Carrying(turns, t, l) && l >= LEVELS
    ensures Turned(turns, t)
  {
  }

  /** No cursor is ahead of the time, and the lowest is on it. */
  ghost predicate Behind(turns: seq<nat>, t: nat) {
    |turns| == LEVELS && turns[0] == t && forall j :: 0 <= j < LEVELS ==> turns[j] <= Up(t, j)
  }

  lemma CarryBehind(turns: seq<nat>, t: nat, l: nat)
    requires Turned(turns, t) || (Carrying(turns, t, l) && l > 0)
    ensures Behind(turns, t)
  {
    UpBase(t);
    forall j | 0 <= j < LEVELS
      ensures turns[j] <= Up(t, j)
    {
      UpMono(if t > 0 then t - 1 else 0, t, j);
    }
  }

  /** A timer whose bucket on a higher level has just come up is not overdue. */
  lemma NotOverdue(sp: Span, t: nat, l: nat)
    requires DueNow(sp, l, Up(t, l)) && Zero(t, l) && l > 0
    ensures t < sp.hi
  {
    ZeroBelow(t, sp.hi - 1, l);
  }

  lemma OnTimeSpan(place: map<nat, Place>, turns: seq<nat>, span: map<nat, Span>, slot: nat, sp: Span)
    requires OnTime(place, turns, span) && slot !in place
    ensures OnTime(place, turns, span[slot := sp])
  {
    hide DueNow;
  }

  lemma OnTimeShape(place: map<nat, Place>, turns: seq<nat>, span: map<nat, Span>)
    requires OnTime(place, turns, span)
    ensures |turns| == LEVELS
  {
  }

  /** Exactly the occupied slots are filed or floating, not both, under a span around the tick
      each is meant for. */
  ghost predicate Tracked(slots: seq<Option<TimerNode>>, place: map<nat, Place>, span: map<nat, Span>,
                          floating: set<nat>) {
    && (forall s :: s in place || s in floating ==> s < |slots| && slots[s].Some? && s in span)
    && (forall s :: s in floating ==> s !in place)
    && (forall s :: 0 <= s < |slots| && slots[s].Some? ==> s in place || s in floating)
    && (forall s :: 0 <= s < |slots| && slots[s].Some? && s in span ==>
       span[s].lo <= slots[s].value.FireTick() < span[s].hi)
  }

  /** A free slot, or one more at the end, was taken; all other slots are as they were. */
  ghost predicate Settled(was: seq<Option<TimerNode>>, now: seq<Option<TimerNode>>, slot: nat) {
    && |was| <= |now| <= |was| + 1
    && (slot < |was| ==> was[slot].None?)
    && (forall s :: 0 <= s < |now| && s != slot ==> s < |was| && now[s] == was[s])
  }

  lemma TrackedAdd(was: seq<Option<TimerNode>>, now: seq<Option<TimerNode>>, place: map<nat, Place>,
                   span: map<nat, Span>, floating: set<nat>, slot: nat, sp: Span)
    requires Tracked(was, place, span, floating)
    requires slot < |now| && now[slot].Some? && sp.lo <= now[slot].value.FireTick() < sp.hi
    requires Settled(was, now, slot)
    ensures Tracked(now, place, span[slot := sp], floating + {slot}) && slot !in place
  {
  }

  lemma TrackedDrop(slots: seq<Option<TimerNode>>, place: map<nat, Place>, span: map<nat, Span>, floating: set<nat>,
                    slot: nat)
    requires Tracked(slots, place, span, floating) && slot in floating
    ensures slot < |slots| && slots[slot].Some? && slot !in place
    ensures Tracked(slots[slot := None], place, span, floating - {slot})
  {
  }

  lemma TrackedFile(slots: seq<Option<TimerNode>>, place: map<nat, Place>, span: map<nat, Span>, floating: set<nat>,
                    slot: nat, p: Place)
    requires Tracked(slots, place, span, floating) && slot in floating
    ensures slot < |slots| && slots[slot].Some? && slot in span && slot !in place
    ensures Tracked(slots, place[slot := p], span, floating - {slot})
  {
  }

  lemma TrackedLift(slots: seq<Option<TimerNode>>, place: map<nat, Place>, span: map<nat, Span>, members: set<nat>)
    requires Tracked(slots, place, span, {}) && forall s :: s in members ==> s in place
    ensures Tracked(slots, place - members, span, members)
  {
  }

  class Wheel {
    var slots: seq<Option<TimerNode>>
    var generations: seq<u32>
    var freeList: seq<nat>
    var buckets: seq<seq<nat>>
    var cursors: seq<nat>
    var lastTick: nat
    /** Where each occupied slot is filed and the ticks it may fire in; how often each cursor
        has moved; the slots of the bucket being emptied. */
    ghost var place: map<nat, Place>
    ghost var span: map<nat, Span>
    ghost var turns: seq<nat>
    ghost var floating: set<nat>
    /** The ids handed out by the latest sweep and not yet dealt with, and the adds since. */
    ghost var batch: set<TimerId>
    ghost var adds: nat

    /** An id of the batch can be told from whatever its slot holds now. */
    ghost predicate Recycled(id: TimerId)
      reads this`slots, this`generations, this`adds
    {
      && id.slot < |slots| == |generations|
      && SeqSub(generations[id.slot], id.generation) <= adds
      && (slots[id.slot].Some? ==> generations[id.slot] != id.generation)
    }

    /** Free slots are listed once each, and an occupant carries its slot's generation. */
    ghost predicate Store()
      reads this`slots, this`generations, this`freeList
    {
      && |slots| == |generations| <= 0xFFFF_FFFF
      && (forall i :: 0 <= i < |freeList| ==> freeList[i] < |slots| && slots[freeList[i]].None?)
      && (forall i, j :: 0 <= i < j < |freeList| ==> freeList[i] != freeList[j])
      && (forall s :: 0 <= s < |slots| && slots[s].Some? ==> slots[s].value.generation == generations[s])
    }

    ghost predicate Core()
      reads this`slots, this`generations, this`freeList, this`batch, this`adds
    {
      && Store()
      && (forall id :: id in batch ==> Recycled(id))
      && (forall a, b :: a in batch && b in batch && a.slot == b.slot ==> a == b)
      && |batch| <= |freeList| + adds
    }

    /** Every occupied slot is filed, or in the bucket being emptied, under a span around the
        tick it is meant for. */
    ghost predicate Filing()
      reads this`slots, this`buckets, this`cursors, this`place, this`span, this`turns, this`floating
    {
      && Filed(buckets, place) && OnTime(place, turns, span)
      && |cursors| == LEVELS && (forall l :: 0 <= l < LEVELS ==> cursors[l] == turns[l] % BUCKETS)
      && Tracked(slots, place, span, floating)
    }

    ghost predicate Valid()
      reads this
    {
      Core() && Filing() && floating == {} && Turned(turns, lastTick)
    }

    /** The live node an id names: present, not tombstoned, and of the same generation. */
    function Get(id: TimerId): (r: Option<TimerNode>)
      reads this`slots
      ensures r.Some? ==> !r.value.cancelled && r.value.generation == id.generation
    {
      if id.slot < |slots| && slots[id.slot].Some?
         && slots[id.slot].value.generation == id.generation && !slots[id.slot].value.cancelled
      then slots[id.slot]
      else None
    }

    /** Another node fits: a recycled slot, or one more below 2^32 - 1. While a batch is being dealt
        with, adds stay below a full turn of the generation counter. */
    ghost predicate HasRoom()
      reads this`slots, this`freeList, this`batch, this`adds
    {
      (freeList != [] || |slots| < 0xFFFF_FFFF) && (batch != {} ==> adds < 0xFFFF_FFFF)
    }

    constructor ()
      ensures Valid() && slots == [] && batch == {} && lastTick == 0 && forall id :: Get(id) == None
    {
      slots, generations, freeList, batch, adds := [], [], [], {}, 0;
      buckets := seq(LEVELS * BUCKETS, _ => []);
      cursors, lastTick := seq(LEVELS, _ => 0), 0;
      place, span, turns, floating := map[], map[], seq(LEVELS, _ => 0), {};
      new;
      UpZero();
    }

    // ---------- the slot store ----------

    /** Takes a slot for a node under a fresh id. */
    method TakeId(node: TimerNode) returns (id: TimerId)
      requires Core() && HasRoom()
      modifies this`slots, this`generations, this`freeList, this`adds
      ensures Core() && adds == old(adds) + 1
      ensures id !in batch && Settled(old(slots), slots, id.slot)
      ensures id.slot < |slots| && slots[id.slot] == Some(node.(generation := id.generation, cancelled := false))
    {
      hide SeqSub, SeqAdd;
      forall other | other in batch
        ensures adds < 0xFFFF_FFFF
        ensures SeqSub(SeqAdd(generations[other.slot], 1), other.generation) <= adds + 1
        ensures SeqAdd(generations[other.slot], 1) != other.generation
      {
        assert Recycled(other);
        ReuseStep(generations[other.slot], other.generation, adds);
      }
      var slot;
      if |freeList| > 0 {
        slot := freeList[|freeList| - 1];
        freeList := freeList[..|freeList| - 1];
        generations := generations[slot := SeqAdd(generations[slot], 1)];
      } else {
        slot := |slots|;
        slots := slots + [None];
        generations := generations + [0];
      }
      id := TimerId(slot, generations[slot]);
      slots := slots[slot := Some(node.(generation := id.generation, cancelled := false))];
      adds := adds + 1;
    }

    /** Before any add, the slots of the batch are empty and carry the batch's generations. */
    lemma JustFired()
      requires adds == 0 && |slots| == |generations|
      ensures forall id :: Recycled(id) <==>
                id.slot < |slots| && slots[id.slot].None? && generations[id.slot] == id.generation
    {
      forall id: TimerId | id.slot < |slots|
        ensures SeqSub(generations[id.slot], id.generation) <= 0 <==> generations[id.slot] == id.generation
      {
        SameGeneration(generations[id.slot], id.generation);
      }
    }

    lemma StoreShape()
      requires Store()
      ensures |slots| == |generations|
      ensures forall s :: 0 <= s < |slots| && slots[s].Some? ==> slots[s].value.generation == generations[s]
    {
    }

    /** An occupied slot goes back onto the free list. */
    method Vacate(slot: nat)
      requires Store() && slot < |slots| && slots[slot].Some?
      modifies this`slots, this`freeList
      ensures Store() && slots == old(slots)[slot := None] && |freeList| == |old(freeList)| + 1
    {
      slots := slots[slot := None];
      freeList := freeList + [slot];
    }

    /** One slot of a sweep: back onto the free list, its node handed out if it was live. */
    method TakeSlot(slot: nat) returns (f: Option<Fired>)
      requires Core() && slot < |slots| && slots[slot].Some? && adds == 0
      modifies this`slots, this`freeList, this`batch
      ensures Core() && slots == old(slots)[slot := None]
      ensures f.Some? <==> !old(slots)[slot].value.cancelled
      ensures f.Some? ==>
                f.value.id.slot == slot && old(Get(f.value.id)) == Some(f.value.node) && f.value.id !in old(batch)
      ensures batch == if f.Some? then old(batch) + {f.value.id} else old(batch)
    {
      hide Recycled, Store;
      StoreShape();
      JustFired();
      f := None;
      assert forall id :: id in batch ==> id.slot != slot;
      var node := slots[slot].value;
      Vacate(slot);
      if !node.cancelled {
        f := Some(Fired(TimerId(slot, node.generation), node));
        batch := batch + {TimerId(slot, node.generation)};
      }
      JustFired();
    }

    // ---------- the buckets ----------

    /** Files an occupied slot `d` ticks ahead of the cursors. */
    method FileSlot(slot: nat, d: nat)
      requires Filing() && slot in floating && slot in span
      requires DueNow(span[slot], LevelAndOffset(d).0, turns[LevelAndOffset(d).0] + LevelAndOffset(d).1)
      modifies this`buckets, this`place, this`floating
      ensures Filing() && floating == old(floating) - {slot}
    {
      hide Filed, OnTime, Up, LevelAndOffset, Tracked, DueNow;
      OnTimeShape(place, turns, span);
      var l, off := LevelAndBucketOffset(d);
      var index := (cursors[l] + off) % BUCKETS;
      ghost var p := Place(l, turns[l] + off);
      TrackedFile(slots, place, span, floating, slot, p);
      FiledPush(buckets, place, slot, p);
      FiledShape(buckets, place);
      SameIndex(turns[l], off);
      OnTimeFile(place, turns, span, slot, p);
      buckets := buckets[BUCKETS * l + index := buckets[BUCKETS * l + index] + [slot]];
      place, floating := place[slot := p], floating - {slot};
    }

    /** Moves the cursor of level `l` and empties the bucket it reaches. All of that bucket's
        slots were waiting for exactly this turn. */
    method TurnCursor(l: nat) returns (list: seq<nat>)
      requires Filing() && floating == {} && l < LEVELS
      modifies this`buckets, this`cursors, this`place, this`turns, this`floating
      ensures Filing() && floating == Members(list) && NoDup(list)
      ensures turns == old(turns)[l := old(turns)[l] + 1]
      ensures forall s :: s in list ==> s in span && DueNow(span[s], l, turns[l])
    {
      hide Up, Filed, OnTime, NoDup, Members, Tracked, DueNow;
      OnTimeShape(place, turns, span);
      FiledShape(buckets, place);
      SameIndex(turns[l], 1);
      var c := (cursors[l] + 1) % BUCKETS;
      var k := BUCKETS * l + c;
      FiledOpen(buckets, place, k);
      OnTimeTurn(place, turns, span, l, Members(buckets[k]));
      OnTimeOf(place, turns, span);
      TrackedLift(slots, place, span, Members(buckets[k]));
      list := buckets[k];
      cursors := cursors[l := c];
      turns := turns[l := turns[l] + 1];
      buckets := buckets[k := []];
      place, floating := place - Members(list), Members(list);
    }

    /** A cancelled timer whose bucket is being emptied is dropped. */
    method Discard(slot: nat)
      requires Core() && Filing() && slot in floating && slots[slot].value.cancelled
      modifies this`slots, this`freeList, this`floating
      ensures Core() && Filing() && floating == old(floating) - {slot} && slots == old(slots)[slot := None]
    {
      hide Store, Filed, OnTime, SeqSub, Tracked;
      TrackedDrop(slots, place, span, floating, slot);
      Vacate(slot);
      floating := floating - {slot};
    }

    /** `add`: the new id names the node, was free before, and is none of the batch's. */
    method Add(nowNs: nat, node: TimerNode) returns (id: TimerId)
      requires Valid() && HasRoom()
      modifies this`slots, this`generations, this`freeList, this`adds, this`buckets, this`place, this`span,
               this`floating
      ensures Valid() && adds == old(adds) + 1
      ensures |slots| <= |old(slots)| + 1
      ensures old(Get(id)).None? && id !in batch
      ensures Get(id) == Some(node.(generation := id.generation, cancelled := false))
      ensures forall other :: other != id ==> Get(other) == old(Get(other))
      ensures span == old(span)[id.slot := SpanFor(lastTick, nowNs, node.fireAtNs)]
    {
      hide Store, Filed, OnTime, Recycled, SeqSub, Up, LevelAndOffset, DueNow, Tracked;
      var d := NanosToTicks(node.fireAtNs, nowNs);
      CarryBehind(turns, lastTick, 0);
      id := TakeId(node);
      ghost var sp := SpanFor(lastTick, nowNs, node.fireAtNs);
      TrackedAdd(old(slots), slots, place, span, floating, id.slot, sp);
      OnTimeSpan(place, turns, span, id.slot, sp);
      floating, span := floating + {id.slot}, span[id.slot := sp];
      FilesOnTime(lastTick, d, turns[LevelAndOffset(d).0], span[id.slot]);
      FileSlot(id.slot, d);
    }

    /** `cancel`: idempotent, and blind to ids of earlier occupants of the slot. The slot stays
        filed until its bucket comes up. */
    method Cancel(id: TimerId) returns (found: bool)
      requires Valid()
      modifies this`slots
      ensures Valid() && |slots| == |old(slots)|
      ensures found <==> old(Get(id)).Some?
      ensures Get(id).None?
      ensures forall other :: other != id ==> Get(other) == old(Get(other))
    {
      hide Filed, OnTime, Up, SeqSub;
      if id.slot < |slots| && slots[id.slot].Some?
         && slots[id.slot].value.generation == id.generation && !slots[id.slot].value.cancelled
      {
        slots := slots[id.slot := Some(slots[id.slot].value.(cancelled := true))];
        return true;
      }
      return false;
    }

    /** A loop of cancels; overlaps in the list are harmless. */
    method CancelAll(ids: seq<TimerId>)
      requires Valid()
      modifies this`slots
      ensures Valid() && |slots| == |old(slots)|
      ensures forall x :: Get(x) == if x in ids then None else old(Get(x))
    {
      hide Valid, Get;
      var i := 0;
      while i < |ids|
        invariant 0 <= i <= |ids| && Valid() && |slots| == |old(slots)|
        invariant forall x :: Get(x) == if x in ids[..i] then None else old(Get(x))
      {
        assert ids[..i + 1] == ids[..i] + [ids[i]];
        var found := Cancel(ids[i]);
        i := i + 1;
      }
      assert ids[..i] == ids;
    }

    /** The batch has been dealt with. */
    ghost method EndBatch()
      requires Valid()
      modifies this`batch
      ensures Valid() && batch == {}
    {
      batch := {};
    }

    ghost method StartBatch()
      requires Valid() && batch == {}
      modifies this`adds
      ensures Valid() && adds == 0
    {
      adds := 0;
    }

    /** Dealing with a batch never runs the slot store or a generation counter out, as long as
        each entry is answered by at most one add. */
    lemma BatchRoom()
      requires Valid() && adds < |batch|
      ensures HasRoom()
    {
      hide Filed, OnTime, Turned, Tracked, SeqSub;
      DistinctSlots(batch, |slots|);
    }

    lemma BatchFits()
      requires Valid()
      ensures |batch| <= |freeList| + adds
    {
    }

    /** No live timer is overdue: the wheel has not reached the end of its span. */
    lemma NoneOverdue(id: TimerId)
      requires Valid() && Get(id).Some?
      ensures id.slot in span && lastTick < span[id.slot].hi
      ensures span[id.slot].lo <= Get(id).value.FireTick() < span[id.slot].hi
    {
      hide Core, Filed;
      var p, sp := place[id.slot], span[id.slot];
      UpBase(lastTick);
      if p.level > 0 && sp.hi <= lastTick {
        UpMono(sp.hi - 1, lastTick, p.level);
      }
    }

    // ---------- the sweep ----------

    /** One slot of the bucket that is due. */
    method EmptySlot(slot: nat) returns (f: Option<Fired>)
      requires Core() && Filing() && slot in floating && adds == 0
      modifies this`slots, this`freeList, this`batch, this`floating
      ensures Core() && Filing() && slot < |old(slots)| && slots == old(slots)[slot := None]
              && floating == old(floating) - {slot}
      ensures old(slots)[slot].Some? && (f.Some? <==> !old(slots)[slot].value.cancelled)
      ensures f.Some? ==>
                f.value.id.slot == slot && old(Get(f.value.id)) == Some(f.value.node) && f.value.id !in old(batch)
      ensures batch == if f.Some? then old(batch) + {f.value.id} else old(batch)
    {
      hide Core, Filed, OnTime, Tracked, Get;
      TrackedDrop(slots, place, span, floating, slot);
      f := TakeSlot(slot);
      floating := floating - {slot};
    }

    lemma CursorOf(l: nat)
      requires Filing() && l < LEVELS
      ensures |cursors| == |turns| == LEVELS && cursors[l] == turns[l] % BUCKETS
    {
      OnTimeShape(place, turns, span);
    }

    /** One slot of a bucket being redistributed: a cancelled timer is dropped, any other filed
        again for the ticks that are left. */
    method Refile(slot: nat)
      requires Core() && Filing() && slot in floating && slot in span && lastTick < span[slot].hi
               && Behind(turns, lastTick)
      modifies this`slots, this`freeList, this`buckets, this`place, this`floating
      ensures Core() && Filing() && floating == old(floating) - {slot} && |slots| == |old(slots)|
      ensures forall id :: Get(id) == old(Get(id))
    {
      hide Core, Store, Filed, OnTime, Up, DueNow, LevelAndOffset;
      var node := slots[slot].value;
      if node.cancelled {
        Discard(slot);
      } else {
        var d := NanosToTicks(node.fireAtNs, lastTick * TICK_NS);
        assert lastTick + d == Max(lastTick, node.FireTick());
        FilesOnTime(lastTick, d, turns[LevelAndOffset(d).0], span[slot]);
        FileSlot(slot, d);
      }
    }

    /** Redistributes the bucket a higher level's cursor comes to, nearer to where each timer
        is due; carries on upwards when that cursor wraps. */
    method Cascade(level: nat)
      requires Core() && Filing() && floating == {} && level > 0 && Carrying(turns, lastTick, level)
      modifies this`slots, this`freeList, this`buckets, this`cursors, this`place, this`turns, this`floating
      ensures Valid() && |slots| == |old(slots)|
      ensures forall id :: Get(id) == old(Get(id))
      decreases LEVELS - level
    {
      hide Core, Filing, Up, Carrying, Turned, Behind, DueNow, NoDup, Get, Members, Zero;
      if level >= LEVELS {
        CarryEnd(turns, lastTick, level);
        return;
      }
      CarryOn(turns, lastTick, level);
      CarryZero(turns, lastTick, level);
      var list := TurnCursor(level);
      CarryBehind(turns, lastTick, level + 1);
      forall s | s in list
        ensures s in span && lastTick < span[s].hi
      {
        NotOverdue(span[s], lastTick, level);
      }
      var i := 0;
      assert list[0..] == list;
      while i < |list|
        invariant 0 <= i <= |list| && Core() && Filing() && floating == Members(list[i..])
        invariant |slots| == |old(slots)| && forall id :: Get(id) == old(Get(id))
        modifies this`slots, this`freeList, this`buckets, this`place, this`floating
      {
        MembersStep(list, i);
        Refile(list[i]);
        i := i + 1;
      }
      NoMembers(list[i..]);
      CursorOf(level);
      if cursors[level] == 0 {
        Cascade(level + 1);
      }
    }

    /** Empties the bucket that is due: every listed slot becomes free, every live timer in it
        is handed out. */
    method EmptyBucket(list: seq<nat>) returns (fired: seq<Fired>)
      requires Core() && Filing() && floating == Members(list) && NoDup(list) && adds == 0
      modifies this`slots, this`freeList, this`batch, this`floating
      ensures Core() && Filing() && floating == {} && |slots| == |old(slots)|
      ensures forall f :: f in fired ==> old(Get(f.id)) == Some(f.node) && f.id.slot in list
      ensures batch == old(batch) + Ids(fired) && |batch| == |old(batch)| + |fired|
      ensures forall id :: Get(id) == if id in Ids(fired) then None else old(Get(id))
    {
      hide Core, Filing, NoDup, Members, Ids;
      NoIds();
      fired := [];
      var i := 0;
      assert list[0..] == list;
      while i < |list|
        invariant 0 <= i <= |list| && Core() && Filing() && floating == Members(list[i..]) && |slots| == |old(slots)|
        invariant forall s :: 0 <= s < |slots| ==> slots[s] == if s in list[..i] then None else old(slots)[s]
        invariant forall f :: f in fired ==> old(Get(f.id)) == Some(f.node) && f.id.slot in list[..i]
        invariant batch == old(batch) + Ids(fired) && |batch| == |old(batch)| + |fired|
        invariant forall id :: old(Get(id)).Some? && id.slot in list[..i] ==> id in Ids(fired)
        invariant forall id :: id in Ids(fired) ==> id.slot in list[..i]
      {
        assert list[..i + 1] == list[..i] + [list[i]];
        MembersStep(list, i);
        var f := EmptySlot(list[i]);
        if f.Some? {
          IdsSnoc(fired, f.value);
          fired := fired + [f.value];
        }
        i := i + 1;
      }
      NoMembers(list[i..]);
      assert list[..i] == list;
    }

    /** One tick: the lowest cursor moves, its bucket is emptied, and a wrap carries upwards. */
    method Tick() returns (fired: seq<Fired>)
      requires Valid() && adds == 0
      modifies this`slots, this`freeList, this`buckets, this`cursors, this`lastTick, this`batch, this`place,
               this`turns, this`floating
      ensures Valid() && lastTick == old(lastTick) + 1 && |slots| == |old(slots)|
      ensures forall f :: f in fired ==>
                old(Get(f.id)) == Some(f.node)
                && f.id.slot in span && span[f.id.slot].lo <= lastTick <= span[f.id.slot].hi
      ensures batch == old(batch) + Ids(fired) && |batch| == |old(batch)| + |fired|
      ensures forall id :: Get(id) == if id in Ids(fired) then None else old(Get(id))
    {
      hide Core, Filing, Up, Carrying, Turned, Behind, NoDup, Members, Ids, Get;
      CarryStart(turns, lastTick);
      CarryOn(turns, lastTick + 1, 0);
      UpBase(lastTick + 1);
      var list := TurnCursor(0);
      lastTick := lastTick + 1;
      fired := EmptyBucket(list);
      CursorOf(0);
      if cursors[0] == 0 {
        Cascade(1);
      }
    }

    /** `advance`: moves the wheel towards the given time, at most 2048 ticks a call. It hands out, once
        each, exactly the live timers that are gone afterwards, each at a tick of its span. */
    method Advance(nowNs: nat) returns (fired: seq<Fired>)
      requires Valid() && batch == {}
      modifies this`slots, this`freeList, this`buckets, this`cursors, this`lastTick, this`batch, this`adds,
               this`place, this`turns, this`floating
      ensures Valid() && |slots| == |old(slots)| && adds == 0
      ensures lastTick == Max(old(lastTick), Min(nowNs / TICK_NS, old(lastTick) + BUCKETS * LEVELS))
      ensures forall f :: f in fired ==> old(Get(f.id)) == Some(f.node)
      ensures AllInSpan(fired, span, old(lastTick), lastTick)
      ensures batch == Ids(fired) && |fired| == |batch| <= |freeList| && DistinctIds(fired)
      ensures forall id :: Get(id) == if id in batch then None else old(Get(id))
    {
      hide Valid, Get, Ids;
      StartBatch();
      fired := [];
      NoIds();
      var nowTick := nowNs / TICK_NS;
      if nowTick <= lastTick {
        BatchFits();
        return;
      }
      var ticks := Min(nowTick - lastTick, BUCKETS * LEVELS);
      var i := 0;
      while i < ticks
        invariant 0 <= i <= ticks && Valid() && |slots| == |old(slots)| && adds == 0 && lastTick == old(lastTick) + i
        invariant forall f :: f in fired ==> old(Get(f.id)) == Some(f.node)
        invariant AllInSpan(fired, span, old(lastTick), lastTick)
        invariant batch == Ids(fired) && |fired| == |batch|
        invariant forall id :: Get(id) == if id in batch then None else old(Get(id))
        modifies this`slots, this`freeList, this`buckets, this`cursors, this`lastTick, this`batch, this`place,
                 this`turns, this`floating
      {
        var due := Tick();
        IdsConcat(fired, due);
        fired := fired + due;
        i := i + 1;
      }
      IdsDistinct(fired);
      BatchFits();
    }
  }
}
