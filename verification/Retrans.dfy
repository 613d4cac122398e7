/** The connection states and the in-flight list, shared by the send path, the timers and loss
    detection. */
module Retrans {
  import opened SeqArith
  import opened Mempool

  datatype TcpState = Closed | SynSent | Established | FinWait1 | FinWait2 | Closing | LastAck | CloseWait | TimeWait

  /** The states behind our FIN. */
  predicate FinOut(state: TcpState) { state in {FinWait1, FinWait2, Closing, LastAck, TimeWait} }

  /** Where the segment handlers of the closing states lead, by whether the segment acknowledges our
      FIN and carries the peer's. */
  function NextState(state: TcpState, finAcked: bool, peerFin: bool): TcpState {
    match state
    case Established => if peerFin then CloseWait else Established
    case FinWait1 =>
      if finAcked then (if peerFin then TimeWait else FinWait2) else if peerFin then Closing else FinWait1
    case FinWait2 => if peerFin then TimeWait else FinWait2
    case Closing => if finAcked then TimeWait else Closing
    case LastAck => if finAcked then Closed else LastAck
    case _ => state
  }

  /** One transmitted and not yet acknowledged segment. Its buffer carries `len` payload bytes
      at the end of its data region; `hdrsLen` is how many header bytes it was built with. */
  datatype RetransEntry = RetransEntry(seqno: u32, len: u16, mbuf: Mbuf, hdrsLen: nat, firstTxTs: u64, xmitTs: u64,
                                       xmitCount: u16, sacked: bool, lost: bool)
  {
    function EndSeq(): u32 { SeqAdd(seqno, len) }

    /** The entry after one more transmission. */
    function Again(now: u64): RetransEntry {
      this.(xmitTs := now, xmitCount := Min(xmitCount + 1, 0xFFFF), lost := false)
    }
  }

  /** The entry of a first transmission. */
  function NewEntry(seqno: u32, len: u16, mbuf: Mbuf, hdrsLen: nat, now: u64): RetransEntry {
    RetransEntry(seqno, len, mbuf, hdrsLen, now, now, 1, false, false)
  }

  /** The entries follow each other without a gap and end at `end`, modulo 2^32. */
  ghost predicate Tiled(es: seq<RetransEntry>, end: u32) {
    && (forall i :: 0 <= i < |es| - 1 ==> es[i].EndSeq() == es[i + 1].seqno)
    && (es != [] ==> es[|es| - 1].EndSeq() == end)
  }

  function Lens(es: seq<RetransEntry>): nat { if es == [] then 0 else Lens(es[..|es| - 1]) + es[|es| - 1].len }

  /** A gap-free list with less than 2^30 bytes behind its first segment. A window field of 16
      bits scaled by up to 14 places allows no more (`WindowBound`). */
  ghost predicate InWindowRun(es: seq<RetransEntry>, end: u32) {
    Tiled(es, end) && (es != [] ==> Lens(es[1..]) < 0x4000_0000)
  }

  lemma WindowBound(field: u16, shift: nat)
    requires shift <= 14
    ensures field * Pow2(shift) < 0x4000_0000
  {
    hide Pow2;
    PowMono(shift, 14);
    PowFourteen();
    MulMono(Pow2(shift), 0x4000, field);
  }

  lemma {:induction false} RunOffset(es: seq<RetransEntry>, end: u32, i: nat)
    requires Tiled(es, end) && i < |es| && Lens(es[1..]) < 0x1_0000_0000
    ensures Lens(es[1..i + 1]) <= Lens(es[1..])
    ensures Off(es[0].EndSeq(), es[i].EndSeq()) == Lens(es[1..i + 1])
  {
    LensPrefix(es[1..], i);
    assert es[1..][..i] == es[1..i + 1];
    if i > 0 {
      RunOffset(es, end, i - 1);
      assert es[1..i + 1][..i - 1] == es[1..i];
      assert es[1..i + 1][i - 1] == es[i];
      assert es[i - 1].EndSeq() == es[i].seqno;
      OffAdd(es[0].EndSeq(), es[i].seqno, es[i].len);
    }
  }

  lemma {:induction false} LensPrefix(es: seq<RetransEntry>, n: nat)
    requires n <= |es|
    ensures Lens(es[..n]) <= Lens(es)
    decreases |es|
  {
    if n < |es| {
      LensPrefix(es[..|es| - 1], n);
      assert es[..|es| - 1][..n] == es[..n];
    } else {
      assert es[..n] == es;
    }
  }

  /** `prune_below`: drops the front entries an acknowledgment covers. */
  function PruneBelow(es: seq<RetransEntry>, ack: u32): (r: seq<RetransEntry>)
    ensures r != [] ==> es != []
  {
    if es == [] || !SeqLe(es[0].EndSeq(), ack) then es else PruneBelow(es[1..], ack)
  }

  /** What is left is a suffix whose first entry is not covered, and everything dropped is. */
  lemma {:induction false} PruneBelowIs(es: seq<RetransEntry>, ack: u32)
    ensures var r := PruneBelow(es, ack);
      && |r| <= |es| && r == es[|es| - |r|..]
      && (r != [] ==> !SeqLe(r[0].EndSeq(), ack))
      && (forall i :: 0 <= i < |es| - |r| ==> SeqLe(es[i].EndSeq(), ack))
  {
    hide SeqLe;
    if es != [] && SeqLe(es[0].EndSeq(), ack) {
      PruneBelowIs(es[1..], ack);
      assert forall i :: 1 <= i < |es| ==> es[i] == es[1..][i - 1];
    }
  }

  /** `mark_sacked`: flags every entry the reported block `[left, right)` overlaps. */
  function MarkSacked(es: seq<RetransEntry>, left: u32, right: u32): (r: seq<RetransEntry>)
    ensures |r| == |es|
  {
    seq(|es|, i requires 0 <= i < |es| =>
      es[i].(sacked := es[i].sacked || (SeqLt(es[i].seqno, right) && SeqLt(left, es[i].EndSeq()))))
  }

  /** The two lists hold the same segments; only their transmission record may differ. */
  ghost predicate SameRun(a: seq<RetransEntry>, b: seq<RetransEntry>) {
    && |a| == |b|
    && forall i :: 0 <= i < |a| ==> a[i].seqno == b[i].seqno && a[i].len == b[i].len && a[i].mbuf == b[i].mbuf
  }

  /** A report only ever adds flags, and leaves the run a run; reporting a block again changes
      nothing, and two blocks may come in either order. */
  lemma SackLaws(es: seq<RetransEntry>, end: u32, left: u32, right: u32, left': u32, right': u32)
    ensures SameRun(es, MarkSacked(es, left, right)) && (Tiled(es, end) ==> Tiled(MarkSacked(es, left, right), end))
    ensures forall i :: 0 <= i < |es| ==>
              MarkSacked(es, left, right)[i] == es[i]
                  || (!es[i].sacked && MarkSacked(es, left, right)[i] == es[i].(sacked := true))
    ensures MarkSacked(MarkSacked(es, left, right), left, right) == MarkSacked(es, left, right)
    ensures MarkSacked(MarkSacked(es, left, right), left', right') == MarkSacked(MarkSacked(es, left', right'), left,
            right)
  {
    hide SeqLt;
    var a, b := MarkSacked(es, left, right), MarkSacked(es, left', right');
    assert forall i :: 0 <= i < |es| ==> a[i].EndSeq() == es[i].EndSeq() && b[i].EndSeq() == es[i].EndSeq();
  }

  /** What a prune leaves depends on the segments only. */
  lemma {:induction false} PruneSame(a: seq<RetransEntry>, b: seq<RetransEntry>, ack: u32)
    requires SameRun(a, b)
    ensures SameRun(PruneBelow(a, ack), PruneBelow(b, ack))
  {
    hide SeqLe;
    if a != [] {
      assert a[0].EndSeq() == b[0].EndSeq();
      PruneSame(a[1..], b[1..], ack);
    }
  }

  /** A block with edges on entry boundaries, all within half the space of `base`, flags
      exactly the entries it contains, and the run stays a run. */
  lemma SackedExactly(es: seq<RetransEntry>, base: u32, left: u32, right: u32, i: nat)
    requires i < |es| && Off(base, es[i].seqno) + es[i].len < 0x8000_0000 && es[i].len > 0
    requires Off(base, left) < 0x8000_0000 && Off(base, right) < 0x8000_0000
    requires Off(base, left) <= Off(base, es[i].seqno) || Off(base, es[i].EndSeq()) <= Off(base, left)
    requires Off(base, es[i].EndSeq()) <= Off(base, right) || Off(base, right) <= Off(base, es[i].seqno)
    ensures MarkSacked(es, left, right)[i].sacked <==>
              es[i].sacked || (Off(base, left) <= Off(base, es[i].seqno)
                  && Off(base, es[i].EndSeq()) <= Off(base, right))
  {
    OffAdd(base, es[i].seqno, es[i].len);
    SeqOrder(base, es[i].seqno, right);
    SeqOrder(base, left, es[i].EndSeq());
  }

  // ---------- the list and the acknowledgment numbers ----------

  /** Fewer bytes are listed behind the first segment than are unacknowledged, and those are fewer
      than 2^30. */
  ghost predicate Spanned(es: seq<RetransEntry>, una: u32, nxt: u32) {
    es != [] ==> Lens(es[1..]) < SeqSub(nxt, una) < 0x4000_0000
  }

  lemma {:induction false} LensFront(es: seq<RetransEntry>)
    requires es != []
    ensures Lens(es) == es[0].len + Lens(es[1..])
    decreases |es|
  {
    if |es| > 1 {
      LensFront(es[..|es| - 1]);
      assert es[..|es| - 1][1..] == es[1..][..|es| - 2];
    }
  }

  lemma {:induction false} LensSame(a: seq<RetransEntry>, b: seq<RetransEntry>)
    requires SameRun(a, b)
    ensures Lens(a) == Lens(b)
    decreases |a|
  {
    if a != [] {
      LensSame(a[..|a| - 1], b[..|b| - 1]);
    }
  }

  /** Rewriting transmission records leaves the run in its window. */
  lemma RunSame(a: seq<RetransEntry>, b: seq<RetransEntry>, end: u32)
    requires SameRun(a, b) && InWindowRun(a, end)
    ensures InWindowRun(b, end) && forall una, nxt :: Spanned(a, una, nxt) ==> Spanned(b, una, nxt)
  {
    hide Lens, SeqAdd;
    assert forall i :: 0 <= i < |a| ==> b[i].EndSeq() == a[i].EndSeq();
    if a != [] {
      LensSame(a[1..], b[1..]);
    }
  }

  /** Where the first segment of a run ends, counted back from the end of the run. */
  lemma FrontEnd(es: seq<RetransEntry>, end: u32)
    requires InWindowRun(es, end) && es != []
    ensures SeqSub(end, es[0].EndSeq()) == Lens(es[1..])
  {
    hide Lens, SeqSub;
    RunOffset(es, end, |es| - 1);
    assert es[1..|es|] == es[1..];
  }

  /** A prune stops at the segment the acknowledgment falls into, and empties the list exactly when
      it reaches the end. */
  lemma {:induction false} PruneSpan(es: seq<RetransEntry>, ack: u32, nxt: u32)
    requires InWindowRun(es, nxt) && es != [] && SeqSub(nxt, ack) < 0x4000_0000
    ensures var r := PruneBelow(es, ack); (r == [] <==> ack == nxt) && InWindowRun(r, nxt) && Spanned(r, ack, nxt)
  {
    hide Lens;
    FrontEnd(es, nxt);
    var rest := es[1..];
    CoveredBack(es[0].EndSeq(), ack, nxt);
    if SeqLe(es[0].EndSeq(), ack) && rest != [] {
      LensFront(rest);
      PruneSpan(rest, ack, nxt);
    }
  }

  lemma CoveredBack(s: u32, ack: u32, end: u32)
    requires SeqSub(end, s) < 0x4000_0000 && SeqSub(end, ack) < 0x4000_0000
    ensures SeqLe(s, ack) <==> SeqSub(end, ack) <= SeqSub(end, s)
    ensures SeqSub(end, ack) == 0 <==> ack == end
  {
    SubCases(end, s);
    SubCases(end, ack);
    SubCases(s, ack);
    hide SeqSub;
  }

  /** An acknowledgment that advances `snd_una` within what was sent. */
  predicate Advances(una: u32, nxt: u32, ack: u32) { SeqLt(una, ack) && SeqLe(ack, nxt) }

  /** With less than half the space unacknowledged these are exactly the numbers up to `snd_nxt`;
      with nothing unacknowledged there is one, half the space away. */
  lemma AdvancesExactly(una: u32, nxt: u32, ack: u32)
    requires SeqSub(nxt, una) < 0x8000_0000
    ensures Advances(una, nxt, ack) <==>
              || 0 < SeqSub(ack, una) <= SeqSub(nxt, una)
              || (una == nxt && SeqSub(ack, una) == 0x8000_0000)
    ensures 0 < SeqSub(ack, una) <= SeqSub(nxt, una) ==> SeqSub(nxt, ack) == SeqSub(nxt, una) - SeqSub(ack, una)
  {
    SubCases(una, ack);
    SubCases(ack, una);
    SubCases(ack, nxt);
    SubCases(nxt, ack);
    SubCases(nxt, una);
    hide SeqSub;
  }

  /** An acknowledgment that advances prunes a list to one that spans what is left, and to nothing
      exactly when it acknowledges everything. */
  lemma PruneAdvance(es: seq<RetransEntry>, una: u32, nxt: u32, ack: u32)
    requires InWindowRun(es, nxt) && Spanned(es, una, nxt) && Advances(una, nxt, ack)
    ensures var r := PruneBelow(es, ack);
      InWindowRun(r, nxt) && Spanned(r, ack, nxt) && (es != [] ==> (r == [] <==> ack == nxt))
  {
    hide Lens, SeqSub, SeqLe, SeqLt;
    if es != [] {
      AdvancesExactly(una, nxt, ack);
      SelfSub(una);
      PruneSpan(es, ack, nxt);
    }
  }

  lemma SelfSub(a: u32)
    ensures SeqSub(a, a) == 0
  {
  }

  /** A send within a window below 2^30 leaves a run that spans what is then unacknowledged. */
  lemma GrownRun(es: seq<RetransEntry>, grown: seq<RetransEntry>, una: u32, nxt: u32, n: nat)
    requires es <= grown && Tiled(grown, SeqAdd(nxt, n)) && Spanned(es, una, nxt)
    requires Lens(grown) == Lens(es) + n && (es == [] && grown != [] ==> grown[0].len > 0) && (n == 0 ==> grown == es)
    requires n > 0 ==> SeqSub(nxt, una) + n < 0x4000_0000
    ensures InWindowRun(grown, SeqAdd(nxt, n)) && Spanned(grown, una, SeqAdd(nxt, n))
  {
    hide Lens, Tiled, SeqAdd, SeqSub;
    AddZero(nxt);
    if n > 0 {
      OffAdd(una, nxt, n);
      LensNone();
      LensFront(grown);
      if es != [] {
        LensFront(es);
      }
    }
  }

  lemma AddZero(a: u32)
    ensures SeqAdd(a, 0) == a
  {
  }

  lemma LensNone()
    ensures Lens([]) == 0
  {
  }
}
