/** Loss detection by time (RFC 8985): the RACK state over acknowledged segments, the per-ACK
    detection rule and the marking pass of a retransmission timeout. */
module Rack {
  import opened Retrans
  import opened SeqArith

  /** The transmit time and end sequence number of one transmission. */
  datatype Xmit = Xmit(ts: u64, endSeq: u32)

  /** An entry's latest transmission. */
  function XmitOf(e: RetransEntry): Xmit { Xmit(e.xmitTs, e.EndSeq()) }

  // ---------- the order on transmissions ----------

  /** Later in time, or at the same time with a later end in sequence space. */
  predicate Newer(a: Xmit, b: Xmit) { a.ts > b.ts || (a.ts == b.ts && SeqLt(b.endSeq, a.endSeq)) }

  /** The update rule on one acknowledged transmission. */
  function Latest(s: Xmit, x: Xmit): Xmit { if Newer(x, s) then x else s }

  function LatestOf(s: Xmit, xs: seq<Xmit>): Xmit
    decreases |xs|
  {
    if xs == [] then s else LatestOf(Latest(s, xs[0]), xs[1..])
  }

  /** Transmissions of equal time lie within half the sequence space of each other, `base`
      telling where for each time. */
  ghost predicate Close(base: map<u64, u32>, xs: seq<Xmit>) {
    forall i :: 0 <= i < |xs| ==> xs[i].ts in base && Off(base[xs[i].ts], xs[i].endSeq) < 0x8000_0000
  }

  /** The place of a transmission in the lexicographic order on (time, position). */
  predicate Below(base: map<u64, u32>, a: Xmit, b: Xmit) {
    a.ts < b.ts || (a.ts == b.ts && Pos(base, a) <= Pos(base, b))
  }

  function Pos(base: map<u64, u32>, x: Xmit): nat { if x.ts in base then Off(base[x.ts], x.endSeq) else 0 }

  lemma NewerIsAbove(base: map<u64, u32>, a: Xmit, b: Xmit)
    requires Close(base, [a, b])
    ensures Newer(a, b) <==> !Below(base, a, b)
  {
    assert [a, b][0] == a && [a, b][1] == b;
    if a.ts == b.ts {
      SeqOrder(base[a.ts], b.endSeq, a.endSeq);
    }
  }

  /** The state after any run of acknowledgments is the lexicographic maximum of the state
      before and every transmission acknowledged. */
  lemma {:induction false} LatestIsMax(base: map<u64, u32>, s: Xmit, xs: seq<Xmit>)
    requires Close(base, [s] + xs)
    ensures var r := LatestOf(s, xs);
      && (r == s || r in xs) && r.ts in base
      && Below(base, s, r) && (forall i :: 0 <= i < |xs| ==> Below(base, xs[i], r))
    decreases |xs|
  {
    var all := [s] + xs;
    assert all[0] == s && forall i :: 0 <= i < |xs| ==> all[i + 1] == xs[i];
    if xs != [] {
      NewerIsAbove(base, xs[0], s);
      var t := Latest(s, xs[0]);
      assert Close(base, [t] + xs[1..]) by {
        assert forall i :: 0 <= i < |xs[1..]| ==> xs[1..][i] == xs[i + 1];
      }
      LatestIsMax(base, t, xs[1..]);
      assert forall i :: 1 <= i < |xs| ==> xs[i] == xs[1..][i - 1];
    }
  }

  /** So the order in which acknowledged entries are processed does not matter. */
  lemma OrderIndependent(base: map<u64, u32>, s: Xmit, xs: seq<Xmit>, ys: seq<Xmit>)
    requires Close(base, [s] + xs) && Close(base, [s] + ys)
    requires forall x :: x in xs <==> x in ys
    ensures LatestOf(s, xs) == LatestOf(s, ys)
  {
    LatestIsMax(base, s, xs);
    LatestIsMax(base, s, ys);
    var a, b := LatestOf(s, xs), LatestOf(s, ys);
    assert Below(base, a, b) by {
      if a in xs {
        assert a in ys;
      }
    }
    assert Below(base, b, a) by {
      if b in ys {
        assert b in xs;
      }
    }
    OffInjective(base[a.ts], a.endSeq, b.endSeq);
  }

  lemma OffInjective(base: u32, a: u32, b: u32)
    requires Off(base, a) == Off(base, b)
    ensures a == b
  {
  }

  /** Outside that condition the result depends on the order: three transmissions of one time
      spread evenly over the sequence space are ordered in a circle. No list in flight within a
      window is spread like that. */
  lemma OrderMattersAround()
    ensures var x, y, z := Xmit(1, 0), Xmit(1, 0x5555_5555), Xmit(1, 0xAAAA_AAAA);
      LatestOf(Xmit(0, 0), [x, y, z]) != LatestOf(Xmit(0, 0), [y, z, x])
  {
    var x, y, z := Xmit(1, 0), Xmit(1, 0x5555_5555), Xmit(1, 0xAAAA_AAAA);
    var s := Xmit(0, 0);
    assert Newer(y, x) && Newer(z, y) && Newer(x, z);
    assert [x, y, z][1..] == [y, z] && [y, z][1..] == [z] && [z][1..] == [];
    assert [y, z, x][1..] == [z, x] && [z, x][1..] == [x] && [x][1..] == [];
    assert LatestOf(z, []) == z && LatestOf(x, []) == x;
    assert LatestOf(y, [z]) == z && LatestOf(z, [x]) == x;
  }

  // ---------- lists in flight ----------

  /** The transmissions an acknowledgment reports received. */
  function Delivered(es: seq<RetransEntry>, sndUna: u32): seq<Xmit> {
    if es == [] then []
    else if es[0].sacked || SeqLe(es[0].EndSeq(), sndUna) then [XmitOf(es[0])] + Delivered(es[1..], sndUna)
    else Delivered(es[1..], sndUna)
  }

  /** What the state remembers lies within 2^30 of every listed transmission of the same time. */
  ghost predicate Level(newest: Xmit, es: seq<RetransEntry>) {
    forall i :: 0 <= i < |es| && es[i].xmitTs == newest.ts ==> Near(es[i].EndSeq(), newest.endSeq)
  }

  predicate Near(a: u32, b: u32) { -0x4000_0000 < AsI32(SeqSub(a, b)) < 0x4000_0000 }

  lemma RunNear(es: seq<RetransEntry>, end: u32, i: nat, j: nat)
    requires InWindowRun(es, end) && i < |es| && j < |es|
    ensures Off(es[0].EndSeq(), es[i].EndSeq()) < 0x4000_0000
    ensures Near(es[i].EndSeq(), es[j].EndSeq())
  {
    hide Lens, SeqSub;
    RunOffset(es, end, i);
    RunOffset(es, end, j);
    OffDistance(es[0].EndSeq(), es[i].EndSeq(), es[j].EndSeq());
  }

  lemma OffDistance(base: u32, a: u32, b: u32)
    requires Off(base, a) < 0x4000_0000 && Off(base, b) < 0x4000_0000
    ensures Near(a, b)
  {
    var x: int, y: int := Off(base, a), Off(base, b);
    var q := (a - base) / 0x1_0000_0000 - (b - base) / 0x1_0000_0000;
    assert a - b == x - y + q * 0x1_0000_0000;
  }

  function Times(newest: Xmit, es: seq<RetransEntry>): set<u64> { (set e | e in es :: e.xmitTs) + {newest.ts} }

  /** A base for the positions of each time. */
  function Bases(newest: Xmit, es: seq<RetransEntry>): map<u64, u32> {
    map t | t in Times(newest, es) ::
      if t == newest.ts || es == [] then SeqSub(newest.endSeq, 0x4000_0000) else es[0].EndSeq()
  }

  lemma {:induction false} DeliveredListed(es: seq<RetransEntry>, sndUna: u32, x: Xmit)
    requires x in Delivered(es, sndUna)
    ensures exists i :: 0 <= i < |es| && XmitOf(es[i]) == x
  {
    hide SeqLe;
    if x in Delivered(es[1..], sndUna) {
      DeliveredListed(es[1..], sndUna, x);
      var i :| 0 <= i < |es[1..]| && XmitOf(es[1..][i]) == x;
      assert XmitOf(es[i + 1]) == x;
    } else {
      assert x == XmitOf(es[0]);
    }
  }

  lemma ListedClose(newest: Xmit, es: seq<RetransEntry>, end: u32, i: nat)
    requires InWindowRun(es, end) && Level(newest, es) && i < |es|
    ensures es[i].xmitTs in Bases(newest, es) && Off(Bases(newest, es)[es[i].xmitTs], es[i].EndSeq()) < 0x8000_0000
  {
    hide Lens, SeqAdd;
    RunNear(es, end, i, 0);
    assert es[i] in es;
    if es[i].xmitTs == newest.ts {
      NearBase(es[i].EndSeq(), newest.endSeq);
    }
  }

  lemma NearBase(a: u32, b: u32)
    requires Near(a, b)
    ensures Off(SeqSub(b, 0x4000_0000), a) < 0x8000_0000
  {
    SubCases(a, b);
    SubCases(b, 0x4000_0000);
    SubCases(a, SeqSub(b, 0x4000_0000));
    hide SeqSub;
  }

  /** Whatever order the acknowledged entries of a list in flight are processed in, the state
      becomes the same maximum of what it was and all of them. */
  lemma AckOrder(newest: Xmit, es: seq<RetransEntry>, end: u32, sndUna: u32, xs: seq<Xmit>)
    requires InWindowRun(es, end) && Level(newest, es)
    requires forall x :: x in xs <==> x in Delivered(es, sndUna)
    ensures var r := LatestOf(newest, xs);
      && r == LatestOf(newest, Delivered(es, sndUna)) && (r == newest || r in xs)
      && Below(Bases(newest, es), newest, r) && forall i :: 0 <= i < |xs| ==> Below(Bases(newest, es), xs[i], r)
  {
    hide Bases, LatestOf, Delivered, Below, Tiled, Lens, SeqAdd, SeqSub;
    CloseFrom(newest, es, end, sndUna, xs);
    CloseFrom(newest, es, end, sndUna, Delivered(es, sndUna));
    OrderIndependent(Bases(newest, es), newest, xs, Delivered(es, sndUna));
    LatestIsMax(Bases(newest, es), newest, xs);
  }

  lemma CloseFrom(newest: Xmit, es: seq<RetransEntry>, end: u32, sndUna: u32, xs: seq<Xmit>)
    requires InWindowRun(es, end) && Level(newest, es) && forall x :: x in xs ==> x in Delivered(es, sndUna)
    ensures Close(Bases(newest, es), [newest] + xs)
  {
    hide Lens, Delivered, Tiled;
    var all := [newest] + xs;
    forall k | 0 <= k < |all|
      ensures all[k].ts in Bases(newest, es) && Off(Bases(newest, es)[all[k].ts], all[k].endSeq) < 0x8000_0000
    {
      if k == 0 {
        NearBase(newest.endSeq, newest.endSeq);
      } else {
        assert xs[k - 1] in xs;
        DeliveredListed(es, sndUna, all[k]);
        var i :| 0 <= i < |es| && XmitOf(es[i]) == all[k];
        ListedClose(newest, es, end, i);
      }
    }
  }

  /** The same transmissions, however flagged. */
  ghost predicate SameXmits(a: seq<RetransEntry>, b: seq<RetransEntry>) {
    |a| == |b| && forall k :: 0 <= k < |a| ==> XmitOf(a[k]) == XmitOf(b[k])
  }

  /** Being level is kept by every step: learning from an acknowledgment, pruning, flagging, and
      sending or resending later than what was acknowledged had been sent. */
  lemma LevelKept(newest: Xmit, es: seq<RetransEntry>, end: u32, sndUna: u32, now: u64, e: RetransEntry, i: nat)
    requires InWindowRun(es, end) && Level(newest, es)
    ensures Level(LatestOf(newest, Delivered(es, sndUna)), es)
    ensures Level(newest, PruneBelow(es, sndUna))
    ensures newest.ts < now && e.xmitTs == now ==> Level(newest, es + [e])
    ensures newest.ts < now && i < |es| ==> Level(newest, es[i := es[i].Again(now)])
    ensures forall flagged :: SameXmits(flagged, es) ==> Level(newest, flagged)
  {
    hide Lens, Delivered, LatestOf, Near, SeqLe, SeqAdd;
    var r := LatestOf(newest, Delivered(es, sndUna));
    AckOrder(newest, es, end, sndUna, Delivered(es, sndUna));
    if r != newest {
      DeliveredListed(es, sndUna, r);
      var j :| 0 <= j < |es| && XmitOf(es[j]) == r;
      forall k | 0 <= k < |es|
        ensures Near(es[k].EndSeq(), r.endSeq)
      {
        RunNear(es, end, k, j);
      }
    }
    PruneBelowIs(es, sndUna);
  }

  // ---------- detection ----------

  /** `detect_lost`. */
  predicate DetectLost(rack: Xmit, x: Xmit, nowNs: u64, reoWndUs: u32) {
    Newer(rack, x) && SatSub(nowNs, x.ts) > reoWndUs * 1000
  }

  /** The transmission that set the state is never marked, detection only grows with time, and
      only shrinks with a wider reordering window. */
  lemma DetectionLaws(rack: Xmit, x: Xmit, now: u64, later: u64, wnd: u32, wider: u32)
    requires now <= later && wnd <= wider
    ensures !DetectLost(rack, rack, now, wnd)
    ensures DetectLost(rack, x, now, wnd) ==> DetectLost(rack, x, later, wnd)
    ensures DetectLost(rack, x, now, wider) ==> DetectLost(rack, x, now, wnd)
  {
  }

  /** The reordering window of RFC 8985 section 6.2, with the engine's floor of one
      millisecond. */
  function ReoWndUs(aggressive: bool, minRttUs: u32, srttUs: Option<u32>): (r: u32)
    ensures r == 0 <==> aggressive
    ensures !aggressive ==> r >= 1000 && (r > 1000 ==> 2 * r <= minRttUs && (srttUs.Some? ==> 4 * r <= srttUs.value))
    ensures !aggressive ==> forall x: u32 :: 2 * x <= minRttUs && (srttUs.Some? ==> 4 * x <= srttUs.value) ==> x <= r
  {
    if aggressive then 0
    else match srttUs
      case None => Max(minRttUs / 2, 1000)
      case Some(srtt) => Max(Min(srtt / 4, minRttUs / 2), 1000)
  }

  // ---------- marking on a timeout ----------

  /** The age clause: the entry has been out for the round-trip time and the window. */
  predicate AgeExpired(xmitNs: u64, nowNs: u64, rttUs: u32, reoWndUs: u32) {
    SatSub(nowNs, xmitNs) >= rttUs * 1000 + reoWndUs * 1000
  }

  /** In 64 bits the age clause never wraps, so it is the comparison of unbounded times. */
  lemma AgeNeverWraps(xmitNs: u64, nowNs: u64, rttUs: u32, reoWndUs: u32)
    ensures rttUs * 1000 + reoWndUs * 1000 < 0x1_0000_0000_0000_0000
    ensures rttUs + reoWndUs > 0 ==> (AgeExpired(xmitNs, nowNs, rttUs, reoWndUs) <==>
            nowNs >= xmitNs + 1000 * (rttUs + reoWndUs))
  {
  }

  /** Still in flight, not reported received, and not marked before. */
  predicate Outstanding(e: RetransEntry, sndUna: u32) { !e.sacked && !e.lost && !SeqLe(e.EndSeq(), sndUna) }

  predicate LostOnRto(e: RetransEntry, sndUna: u32, rttUs: u32, reoWndUs: u32, nowNs: u64) {
    Outstanding(e, sndUna) && (e.seqno == sndUna || AgeExpired(e.xmitTs, nowNs, rttUs, reoWndUs))
  }

  /** The 16-bit indexes of the entries from `i` on that a timeout marks. */
  function MarkedFrom(es: seq<RetransEntry>, i: nat, sndUna: u32, rttUs: u32, reoWndUs: u32, nowNs: u64): seq<u16>
    decreases |es| - i
  {
    if i >= |es| then []
    else
      var rest := MarkedFrom(es, i + 1, sndUna, rttUs, reoWndUs, nowNs);
      if LostOnRto(es[i], sndUna, rttUs, reoWndUs, nowNs) then [i % 0x1_0000] + rest else rest
  }

  /** `rack_mark_losses_on_rto_into`: appends the marked indexes to the caller's list. */
  method MarkLossesOnRto(es: seq<RetransEntry>, sndUna: u32, rttUs: u32, reoWndUs: u32, nowNs: u64, scratch: seq<u16>)
    returns (out: seq<u16>)
    ensures out == scratch + MarkedFrom(es, 0, sndUna, rttUs, reoWndUs, nowNs)
  {
    hide LostOnRto;
    out := scratch;
    for i := 0 to |es|
      invariant out + MarkedFrom(es, i, sndUna, rttUs, reoWndUs, nowNs) == scratch + MarkedFrom(es, 0, sndUna, rttUs,
                reoWndUs, nowNs)
    {
      ghost var rest := MarkedFrom(es, i + 1, sndUna, rttUs, reoWndUs, nowNs);
      if LostOnRto(es[i], sndUna, rttUs, reoWndUs, nowNs) {
        assert out + ([i % 0x1_0000] + rest) == (out + [i % 0x1_0000]) + rest;
        out := out + [i % 0x1_0000];
      }
    }
    assert out + [] == out;
  }

  /** Up to 65536 entries the list is exactly the marked indexes, each once, in increasing
      order. */
  lemma {:induction false} MarkedExactly(es: seq<RetransEntry>, i: nat, sndUna: u32, rttUs: u32, reoWndUs: u32,
                                         nowNs: u64)
    requires |es| <= 0x1_0000 && i <= |es|
    ensures var m := MarkedFrom(es, i, sndUna, rttUs, reoWndUs, nowNs);
      && (forall j :: j in m <==> i <= j < |es| && LostOnRto(es[j], sndUna, rttUs, reoWndUs, nowNs))
      && (forall a, b :: 0 <= a < b < |m| ==> m[a] < m[b])
    decreases |es| - i
  {
    hide LostOnRto;
    if i < |es| {
      MarkedExactly(es, i + 1, sndUna, rttUs, reoWndUs, nowNs);
      var rest := MarkedFrom(es, i + 1, sndUna, rttUs, reoWndUs, nowNs);
      assert i % 0x1_0000 == i;
      assert forall a :: 0 <= a < |rest| ==> rest[a] in rest;
    }
  }

  /** The front entry is not picked always: exactly when it is outstanding and either starts
      at `snd_una` or has aged. In particular a partly acknowledged young front is passed
      over, and then the marking can come out empty with data in flight. */
  lemma FrontPicked(es: seq<RetransEntry>, sndUna: u32, rttUs: u32, reoWndUs: u32, nowNs: u64)
    requires 0 < |es| <= 0x1_0000
    ensures 0 in MarkedFrom(es, 0, sndUna, rttUs, reoWndUs, nowNs) <==>
              Outstanding(es[0], sndUna) && (es[0].seqno == sndUna || AgeExpired(es[0].xmitTs, nowNs, rttUs, reoWndUs))
    ensures MarkedFrom([NewEntry(100, 50, 0, 54, 7)], 0, 120, 1, 1, 7) == []
  {
    MarkedExactly(es, 0, sndUna, rttUs, reoWndUs, nowNs);
    var e := NewEntry(100, 50, 0, 54, 7);
    assert !LostOnRto(e, 120, 1, 1, 7);
    assert MarkedFrom([e], 1, 120, 1, 1, 7) == [];
  }

  // ---------- the per-ACK pass ----------

  /** Still outstanding, and overtaken by a delivered transmission for longer than the window. */
  predicate Overtaken(e: RetransEntry, newest: Xmit, sndUna: u32, nowNs: u64, reoWndUs: u32) {
    Outstanding(e, sndUna) && DetectLost(newest, XmitOf(e), nowNs, reoWndUs)
  }

  /** The 16-bit indexes of the entries from `i` on that have been overtaken. */
  function OvertakenFrom(es: seq<RetransEntry>, i: nat, newest: Xmit, sndUna: u32, nowNs: u64, reoWndUs: u32): seq<u16>
    decreases |es| - i
  {
    if i >= |es| then []
    else
      var rest := OvertakenFrom(es, i + 1, newest, sndUna, nowNs, reoWndUs);
      if Overtaken(es[i], newest, sndUna, nowNs, reoWndUs) then [i % 0x1_0000] + rest else rest
  }

  /** Up to 65536 entries these are exactly the overtaken ones, each once, in increasing order. */
  lemma {:induction false} OvertakenExactly(es: seq<RetransEntry>, i: nat, newest: Xmit, sndUna: u32, nowNs: u64,
                                            reoWndUs: u32)
    requires |es| <= 0x1_0000 && i <= |es|
    ensures var m := OvertakenFrom(es, i, newest, sndUna, nowNs, reoWndUs);
      && (forall j :: j in m <==> i <= j < |es| && Overtaken(es[j], newest, sndUna, nowNs, reoWndUs))
      && (forall a, b :: 0 <= a < b < |m| ==> m[a] < m[b])
    decreases |es| - i
  {
    hide Overtaken;
    if i < |es| {
      OvertakenExactly(es, i + 1, newest, sndUna, nowNs, reoWndUs);
      var rest := OvertakenFrom(es, i + 1, newest, sndUna, nowNs, reoWndUs);
      assert i % 0x1_0000 == i;
      assert forall a :: 0 <= a < |rest| ==> rest[a] in rest;
    }
  }

  /** Sets the flag of each indexed entry. */
  function FlagLost(es: seq<RetransEntry>, idxs: seq<u16>): (r: seq<RetransEntry>)
    ensures |r| == |es|
    decreases |idxs|
  {
    if idxs == [] then es
    else FlagLost(if idxs[0] < |es| then es[idxs[0] := es[idxs[0]].(lost := true)] else es, idxs[1..])
  }

  lemma {:induction false} FlagLostAt(es: seq<RetransEntry>, idxs: seq<u16>, i: nat)
    requires i < |es|
    ensures FlagLost(es, idxs)[i] == if i in idxs then es[i].(lost := true) else es[i]
    decreases |idxs|
  {
    if idxs != [] {
      FlagLostAt(if idxs[0] < |es| then es[idxs[0] := es[idxs[0]].(lost := true)] else es, idxs[1..], i);
    }
  }

  lemma FlagLostSame(es: seq<RetransEntry>, idxs: seq<u16>)
    ensures SameRun(es, FlagLost(es, idxs))
  {
    forall i | 0 <= i < |es|
      ensures FlagLost(es, idxs)[i].seqno == es[i].seqno && FlagLost(es, idxs)[i].len == es[i].len
              && FlagLost(es, idxs)[i].mbuf == es[i].mbuf
    {
      FlagLostAt(es, idxs, i);
    }
  }

  /** The state as a value. */
  datatype RackInfo = RackInfo(newest: Xmit, reoWndUs: u32, minRttUs: u32) {
    /** What an acknowledgment teaches; nothing when nothing is in flight. */
    function Learn(es: seq<RetransEntry>, sndUna: u32, aggressive: bool, srttUs: Option<u32>): RackInfo {
      if es == [] then this
      else RackInfo(LatestOf(newest, Delivered(es, sndUna)), ReoWndUs(aggressive, minRttUs, srttUs), minRttUs)
    }

    /** A round-trip sample. */
    function Sampled(rttUs: u32): RackInfo {
      RackInfo(newest, reoWndUs, if minRttUs == 0 || rttUs < minRttUs then rttUs else minRttUs)
    }
  }

  /** The state of one connection. */
  class State {
    var xmitTs: u64
    var endSeq: u32
    var reoWndUs: u32
    var minRttUs: u32

    constructor ()
      ensures Newest() == Xmit(0, 0) && reoWndUs == 0 && minRttUs == 0
    {
      xmitTs, endSeq, reoWndUs, minRttUs := 0, 0, 0, 0;
    }

    function Newest(): Xmit
      reads this`xmitTs, this`endSeq
    {
      Xmit(xmitTs, endSeq)
    }

    function Info(): RackInfo
      reads this
    {
      RackInfo(Newest(), reoWndUs, minRttUs)
    }

    /** `update_on_ack`. */
    method UpdateOnAck(x: Xmit)
      modifies this`xmitTs, this`endSeq
      ensures Newest() == Latest(old(Newest()), x)
    {
      if x.ts > xmitTs || (x.ts == xmitTs && SeqLt(endSeq, x.endSeq)) {
        xmitTs, endSeq := x.ts, x.endSeq;
      }
    }

    /** `update_min_rtt`: zero stands for no sample yet. */
    method UpdateMinRtt(rttUs: u32)
      modifies this`minRttUs
      ensures minRttUs <= rttUs && (old(minRttUs) != 0 ==> minRttUs <= old(minRttUs))
      ensures minRttUs == rttUs || minRttUs == old(minRttUs) != 0
      ensures Info() == old(Info()).Sampled(rttUs)
    {
      if minRttUs == 0 || rttUs < minRttUs {
        minRttUs := rttUs;
      }
    }

    /** The RACK part of acknowledgment processing: learn from every entry reported received,
        then flag what a delivered transmission has overtaken for longer than the window. */
    method AckPass(es: seq<RetransEntry>, sndUna: u32, aggressive: bool, srttUs: Option<u32>, nowNs: u64)
      returns (lost: seq<u16>, marked: seq<RetransEntry>)
      modifies this`xmitTs, this`endSeq, this`reoWndUs
      ensures Info() == old(Info()).Learn(es, sndUna, aggressive, srttUs)
      ensures lost == OvertakenFrom(es, 0, Newest(), sndUna, nowNs, reoWndUs) && marked == FlagLost(es, lost)
    {
      hide SeqLe, SeqLt, Overtaken, Newer, ReoWndUs;
      if es == [] {
        return [], [];
      }
      for i := 0 to |es|
        invariant LatestOf(Newest(), Delivered(es[i..], sndUna)) == LatestOf(old(Newest()), Delivered(es, sndUna))
      {
        assert es[i..][1..] == es[i + 1..];
        if es[i].sacked || SeqLe(es[i].EndSeq(), sndUna) {
          assert ([XmitOf(es[i])] + Delivered(es[i + 1..], sndUna))[1..] == Delivered(es[i + 1..], sndUna);
          UpdateOnAck(XmitOf(es[i]));
        }
      }
      reoWndUs := ReoWndUs(aggressive, minRttUs, srttUs);
      lost := CollectLost(es, Newest(), sndUna, nowNs, reoWndUs);
      marked := FlagAll(es, lost);
    }
  }

  /** The walk that collects the overtaken entries. */
  method CollectLost(es: seq<RetransEntry>, newest: Xmit, sndUna: u32, nowNs: u64, reoWndUs: u32)
    returns (lost: seq<u16>)
    ensures lost == OvertakenFrom(es, 0, newest, sndUna, nowNs, reoWndUs)
  {
    hide Overtaken;
    lost := [];
    for i := 0 to |es|
      invariant lost + OvertakenFrom(es, i, newest, sndUna, nowNs, reoWndUs) == OvertakenFrom(es, 0, newest, sndUna,
                nowNs, reoWndUs)
    {
      ghost var rest := OvertakenFrom(es, i + 1, newest, sndUna, nowNs, reoWndUs);
      if Overtaken(es[i], newest, sndUna, nowNs, reoWndUs) {
        assert lost + ([i % 0x1_0000] + rest) == (lost + [i % 0x1_0000]) + rest;
        lost := lost + [i % 0x1_0000];
      }
    }
    assert lost + [] == lost;
  }

  /** The loop that sets the flags. */
  method FlagAll(es: seq<RetransEntry>, idxs: seq<u16>) returns (marked: seq<RetransEntry>)
    ensures marked == FlagLost(es, idxs)
  {
    marked := es;
    for k := 0 to |idxs|
      invariant FlagLost(marked, idxs[k..]) == FlagLost(es, idxs)
    {
      assert idxs[k..][1..] == idxs[k + 1..];
      if idxs[k] < |marked| {
        marked := marked[idxs[k] := marked[idxs[k]].(lost := true)];
      }
    }
  }

  // ---------- the pass of a timeout ----------

  /** The indexes a timeout tries to resend: everything it marks, or the front when it marks
      nothing. */
  function Attempts(es: seq<RetransEntry>, sndUna: u32, rttUs: u32, reoWndUs: u32, nowNs: u64): (r: seq<u16>)
    ensures r != []
  {
    var marked := MarkedFrom(es, 0, sndUna, rttUs, reoWndUs, nowNs);
    if marked == [] then [0] else marked
  }

  /** One attempt after the other; attempt `k` goes out exactly when `ok(k)`, and a failed one
      leaves its entry alone. */
  function Attempted(es: seq<RetransEntry>, idxs: seq<u16>, ok: nat -> bool, k: nat, now: u64): (r: seq<RetransEntry>)
    ensures |r| == |es|
    decreases |idxs|
  {
    if idxs == [] then es
    else Attempted(if ok(k) && idxs[0] < |es| then es[idxs[0] := es[idxs[0]].Again(now)] else es, idxs[1..], ok,
        k + 1, now)
  }

  /** The list after the pass of a timeout. */
  function AfterRto(es: seq<RetransEntry>, sndUna: u32, rttUs: u32, reoWndUs: u32, ok: nat -> bool, now: u64)
    : (r: seq<RetransEntry>)
    ensures |r| == |es|
  {
    Attempted(FlagLost(es, MarkedFrom(es, 0, sndUna, rttUs, reoWndUs, now)),
        Attempts(es, sndUna, rttUs, reoWndUs, now), ok, 0, now)
  }

  /** The pass of `on_rto_fire`: mark, flag, and resend what was marked, or the front. */
  method ResendOnRto(es: seq<RetransEntry>, sndUna: u32, rttUs: u32, reoWndUs: u32, ok: nat -> bool, now: u64)
    returns (after: seq<RetransEntry>)
    ensures after == AfterRto(es, sndUna, rttUs, reoWndUs, ok, now)
  {
    hide MarkedFrom;
    var scratch := MarkLossesOnRto(es, sndUna, rttUs, reoWndUs, now, []);
    assert [] + MarkedFrom(es, 0, sndUna, rttUs, reoWndUs, now) == MarkedFrom(es, 0, sndUna, rttUs, reoWndUs, now);
    after := FlagAll(es, scratch);
    after := TryAll(after, if scratch == [] then [0] else scratch, ok, now);
  }

  /** The loop of resends. */
  method TryAll(es: seq<RetransEntry>, idxs: seq<u16>, ok: nat -> bool, now: u64) returns (after: seq<RetransEntry>)
    ensures after == Attempted(es, idxs, ok, 0, now)
  {
    after := es;
    for k := 0 to |idxs|
      invariant |after| == |es| && Attempted(after, idxs[k..], ok, k, now) == Attempted(es, idxs, ok, 0, now)
    {
      assert idxs[k..][1..] == idxs[k + 1..];
      if ok(k) && idxs[k] < |after| {
        after := after[idxs[k] := after[idxs[k]].Again(now)];
      }
    }
  }

  /** An entry no attempt names is left alone; one that exactly attempt `j` names is as that
      attempt leaves it. */
  lemma {:induction false} AttemptedAt(es: seq<RetransEntry>, idxs: seq<u16>, ok: nat -> bool, k: nat, now: u64, i: nat,
                                       j: nat)
    requires i < |es| && (j < |idxs| ==> idxs[j] == i)
    requires forall l :: 0 <= l < |idxs| && l != j ==> idxs[l] != i
    ensures Attempted(es, idxs, ok, k, now)[i] == if j < |idxs| && ok(k + j) then es[i].Again(now) else es[i]
    decreases |idxs|
  {
    if idxs != [] {
      var next := if ok(k) && idxs[0] < |es| then es[idxs[0] := es[idxs[0]].Again(now)] else es;
      AttemptedAt(next, idxs[1..], ok, k + 1, now, i, if j == 0 then |idxs| else j - 1);
    }
  }

  lemma {:induction false} AttemptedSame(es: seq<RetransEntry>, idxs: seq<u16>, ok: nat -> bool, k: nat, now: u64)
    ensures SameRun(es, Attempted(es, idxs, ok, k, now))
    decreases |idxs|
  {
    if idxs != [] {
      AttemptedSame(if ok(k) && idxs[0] < |es| then es[idxs[0] := es[idxs[0]].Again(now)] else es, idxs[1..], ok,
          k + 1, now);
    }
  }

  /** The whole effect of a timeout's pass on entry `i`: resent and clear of its flag if its
      attempt went out; flagged lost, and left so, if its attempt failed; untouched otherwise. */
  lemma RtoEffect(es: seq<RetransEntry>, sndUna: u32, rttUs: u32, reoWndUs: u32, ok: nat -> bool, now: u64, i: nat)
    requires i < |es| <= 0x1_0000
    ensures var idxs, e := Attempts(es, sndUna, rttUs, reoWndUs, now),
            AfterRto(es, sndUna, rttUs, reoWndUs, ok, now)[i];
      if exists j :: 0 <= j < |idxs| && idxs[j] == i && ok(j) then e == es[i].Again(now)
      else if LostOnRto(es[i], sndUna, rttUs, reoWndUs, now) then e == es[i].(lost := true)
      else e == es[i]
  {
    hide LostOnRto, MarkedFrom;
    var marked := MarkedFrom(es, 0, sndUna, rttUs, reoWndUs, now);
    var idxs := Attempts(es, sndUna, rttUs, reoWndUs, now);
    var flagged := FlagLost(es, marked);
    MarkedExactly(es, 0, sndUna, rttUs, reoWndUs, now);
    FlagLostAt(es, marked, i);
    if i in idxs {
      var j :| 0 <= j < |idxs| && idxs[j] == i;
      AttemptedAt(flagged, idxs, ok, 0, now, i, j);
    } else {
      AttemptedAt(flagged, idxs, ok, 0, now, i, |idxs|);
    }
  }

  /** A timeout resends the front exactly when it picks the front or nothing at all. */
  lemma FrontAttempted(es: seq<RetransEntry>, sndUna: u32, rttUs: u32, reoWndUs: u32, now: u64)
    requires 0 < |es| <= 0x1_0000
    ensures 0 in Attempts(es, sndUna, rttUs, reoWndUs, now) <==>
              || (Outstanding(es[0], sndUna) && (es[0].seqno == sndUna
                 || AgeExpired(es[0].xmitTs, now, rttUs, reoWndUs)))
              || (forall i :: 0 <= i < |es| ==> !LostOnRto(es[i], sndUna, rttUs, reoWndUs, now))
  {
    hide LostOnRto, MarkedFrom, Outstanding, AgeExpired;
    FrontPicked(es, sndUna, rttUs, reoWndUs, now);
    MarkedExactly(es, 0, sndUna, rttUs, reoWndUs, now);
    var marked := MarkedFrom(es, 0, sndUna, rttUs, reoWndUs, now);
    if marked != [] {
      assert marked[0] in marked;
    }
  }

  /** One timeout of a run: when it came and which of its resends went out. */
  datatype Fire = Fire(now: u64, ok: nat -> bool)

  function AfterFires(es: seq<RetransEntry>, sndUna: u32, rttUs: u32, reoWndUs: u32, fires: seq<Fire>)
    : (r: seq<RetransEntry>)
    ensures |r| == |es|
    decreases |fires|
  {
    if fires == [] then es
    else AfterFires(AfterRto(es, sndUna, rttUs, reoWndUs, fires[0].ok, fires[0].now), sndUna, rttUs, reoWndUs,
        fires[1..])
  }

  /** The timeouts come one age apart, and every resend goes out. */
  ghost predicate Spaced(from: u64, rttUs: u32, reoWndUs: u32, fires: seq<Fire>)
    decreases |fires|
  {
    fires == [] || (AgeExpired(from, fires[0].now, rttUs, reoWndUs) && (forall k: nat :: fires[0].ok(k))
        && Spaced(fires[0].now, rttUs, reoWndUs, fires[1..]))
  }

  /** A front entry left flagged by a failed resend stays as it is for any number of timeouts, as
      long as the second entry is outstanding and each timeout finds it aged: only the others are
      resent, however well that goes, and the front's count never moves. */
  lemma {:induction false} FrontStaysFlagged(es: seq<RetransEntry>, sndUna: u32, rttUs: u32, reoWndUs: u32,
                                             fires: seq<Fire>)
    requires 2 <= |es| <= 0x1_0000 && es[0].lost && Outstanding(es[1], sndUna)
    requires Spaced(es[1].xmitTs, rttUs, reoWndUs, fires)
    ensures AfterFires(es, sndUna, rttUs, reoWndUs, fires)[0] == es[0]
    decreases |fires|
  {
    hide MarkedFrom, SeqLe, AgeExpired;
    if fires != [] {
      var now, ok := fires[0].now, fires[0].ok;
      var next := AfterRto(es, sndUna, rttUs, reoWndUs, ok, now);
      assert LostOnRto(es[1], sndUna, rttUs, reoWndUs, now);
      MarkedExactly(es, 0, sndUna, rttUs, reoWndUs, now);
      var idxs := Attempts(es, sndUna, rttUs, reoWndUs, now);
      assert 1 in MarkedFrom(es, 0, sndUna, rttUs, reoWndUs, now);
      FrontAttempted(es, sndUna, rttUs, reoWndUs, now);
      RtoEffect(es, sndUna, rttUs, reoWndUs, ok, now, 0);
      RtoEffect(es, sndUna, rttUs, reoWndUs, ok, now, 1);
      var j :| 0 <= j < |idxs| && idxs[j] == 1;
      assert ok(j);
      assert next[1].EndSeq() == es[1].EndSeq();
      FrontStaysFlagged(next, sndUna, rttUs, reoWndUs, fires[1..]);
    }
  }

  /** So one failed resend can hold a front back for good: if a timeout marks the first two
      entries, resends the second and fails on the first, then the first stays unsent over any
      number of timeouts that find the second aged. */
  lemma OneFailureStalls(es: seq<RetransEntry>, sndUna: u32, rttUs: u32, reoWndUs: u32, ok: nat -> bool, now: u64,
                         fires: seq<Fire>)
    requires 2 <= |es| <= 0x1_0000 && !ok(0) && ok(1)
    requires LostOnRto(es[0], sndUna, rttUs, reoWndUs, now) && LostOnRto(es[1], sndUna, rttUs, reoWndUs, now)
    requires Spaced(now, rttUs, reoWndUs, fires)
    ensures AfterFires(AfterRto(es, sndUna, rttUs, reoWndUs, ok, now), sndUna, rttUs, reoWndUs,
            fires)[0] == es[0].(lost := true)
  {
    hide MarkedFrom, SeqLe, AgeExpired, Spaced, AfterFires;
    MarkedExactly(es, 0, sndUna, rttUs, reoWndUs, now);
    var idxs := MarkedFrom(es, 0, sndUna, rttUs, reoWndUs, now);
    assert 0 in idxs && 1 in idxs;
    assert idxs[0] == 0 && idxs[1] == 1;
    RtoEffect(es, sndUna, rttUs, reoWndUs, ok, now, 0);
    RtoEffect(es, sndUna, rttUs, reoWndUs, ok, now, 1);
    var after := AfterRto(es, sndUna, rttUs, reoWndUs, ok, now);
    assert after[1] == es[1].Again(now);
    assert after[1].EndSeq() == es[1].EndSeq();
    FrontStaysFlagged(after, sndUna, rttUs, reoWndUs, fires);
  }

  // ---------- a list that is all acknowledged ----------

  /** Every listed segment is acknowledged; the closing states leave such a list unpruned. */
  predicate AllCovered(es: seq<RetransEntry>, sndUna: u32) {
    forall i :: 0 <= i < |es| ==> SeqLe(es[i].EndSeq(), sndUna)
  }

  lemma {:induction false} NoneMarked(es: seq<RetransEntry>, i: nat, sndUna: u32, rttUs: u32, reoWndUs: u32, now: u64)
    requires i <= |es| && AllCovered(es, sndUna)
    ensures MarkedFrom(es, i, sndUna, rttUs, reoWndUs, now) == []
    decreases |es| - i
  {
    hide SeqLe;
    if i < |es| {
      NoneMarked(es, i + 1, sndUna, rttUs, reoWndUs, now);
    }
  }

  /** A timeout marks none of it, and so resends its front. */
  lemma CoveredFire(es: seq<RetransEntry>, sndUna: u32, rttUs: u32, reoWndUs: u32, ok: nat -> bool, now: u64)
    requires es != [] && AllCovered(es, sndUna)
    ensures MarkedFrom(es, 0, sndUna, rttUs, reoWndUs, now) == []
    ensures AfterRto(es, sndUna, rttUs, reoWndUs, ok, now) == if ok(0) then es[0 := es[0].Again(now)] else es
  {
    hide MarkedFrom, SeqLe;
    NoneMarked(es, 0, sndUna, rttUs, reoWndUs, now);
    var front: seq<u16> := [0];
    assert front[1..] == [] && Attempts(es, sndUna, rttUs, reoWndUs, now) == front;
  }

  /** How many of the fires send their first resend. */
  function Successes(fires: seq<Fire>): nat {
    if fires == [] then 0 else (if fires[0].ok(0) then 1 else 0) + Successes(fires[1..])
  }

  /** So it stays listed, and each timeout whose resend goes out adds one to the front's count. */
  lemma {:induction false} CoveredFires(es: seq<RetransEntry>, sndUna: u32, rttUs: u32, reoWndUs: u32, fires: seq<Fire>)
    requires es != [] && AllCovered(es, sndUna)
    ensures var r := AfterFires(es, sndUna, rttUs, reoWndUs, fires);
      && r[1..] == es[1..] && SameRun(es, r) && r[0].xmitCount == Min(es[0].xmitCount + Successes(fires), 0xFFFF)
    decreases |fires|
  {
    hide SeqLe, AfterRto;
    if fires != [] {
      CoveredFire(es, sndUna, rttUs, reoWndUs, fires[0].ok, fires[0].now);
      var next := if fires[0].ok(0) then es[0 := es[0].Again(fires[0].now)] else es;
      assert next[0].EndSeq() == es[0].EndSeq();
      CoveredFires(next, sndUna, rttUs, reoWndUs, fires[1..]);
    }
  }
}
