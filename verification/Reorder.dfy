/** The out-of-order queue of one connection. Stored segments are windows into packet buffers;
    an insert carves the incoming window around what is already stored, and a drain hands the
    contiguous front over to the in-order queue. The queue is read as a partial map from
    stream positions (counted from some base sequence number) to buffer bytes. */
module Reorder {
  import opened SeqArith
  import opened Mempool

  /** One contiguous in-order window `[offset, offset + len)` of a held buffer. */
  datatype InOrderSegment = InOrderSegment(mbuf: Mbuf, offset: u16, len: u16)

  /** One out-of-order window and the sequence number of its first byte. */
  datatype OooSegment = OooSegment(seqno: u32, mbuf: Mbuf, offset: u16, len: u16) {
    function EndSeq(): u32 { SeqAdd(seqno, len) }
  }

  /** One byte of a buffer's data region. */
  datatype ByteRef = ByteRef(mbuf: Mbuf, pos: int)

  datatype InsertOutcome = InsertOutcome(newlyBuffered: u32, capDropped: u32, refRetained: bool)

  // ---------- what a list of segments stands for ----------

  function SegBytes(s: InOrderSegment): (r: seq<ByteRef>)
    ensures |r| == s.len
  {
    seq(s.len, k requires 0 <= k => ByteRef(s.mbuf, s.offset + k))
  }

  /** The buffer bytes an in-order list holds, first to last. */
  function BytesOf(segs: seq<InOrderSegment>): seq<ByteRef> {
    if segs == [] then [] else SegBytes(segs[0]) + BytesOf(segs[1..])
  }

  lemma {:induction false} BytesOfConcat(a: seq<InOrderSegment>, b: seq<InOrderSegment>)
    ensures BytesOf(a + b) == BytesOf(a) + BytesOf(b)
  {
    if a == [] {
      assert a + b == b;
    } else {
      BytesOfConcat(a[1..], b);
      assert (a + b)[0] == a[0] && (a + b)[1..] == a[1..] + b;
      var head, mid, tail := SegBytes(a[0]), BytesOf(a[1..]), BytesOf(b);
      assert head + (mid + tail) == (head + mid) + tail;
    }
  }

  function InBufs(segs: seq<InOrderSegment>): seq<Mbuf> {
    seq(|segs|, i requires 0 <= i < |segs| => segs[i].mbuf)
  }

  /** The references a list of windows holds: one per window. */
  function InRefs(segs: seq<InOrderSegment>): multiset<Mbuf> { multiset(InBufs(segs)) }

  lemma InRefsConcat(a: seq<InOrderSegment>, b: seq<InOrderSegment>)
    ensures InRefs(a + b) == InRefs(a) + InRefs(b)
  {
    assert InBufs(a + b) == InBufs(a) + InBufs(b);
  }

  /** An out-of-order segment with its sequence number turned into a position from a base. */
  datatype Window = Window(lo: int, mbuf: Mbuf, offset: int, len: int) {
    function Hi(): int { lo + len }

    predicate Covers(p: int) { lo <= p < Hi() }

    function Ref(p: int): ByteRef { ByteRef(mbuf, offset + (p - lo)) }

    /** Not empty, inside its buffer's 16-bit data length, and inside half the sequence space
        past the base. */
    predicate Fits() { 0 <= lo && len > 0 && 0 <= offset && offset + len < 0x1_0000 && Hi() < 0x8000_0000 }
  }

  function Lift(base: u32, s: OooSegment): Window { Window(Off(base, s.seqno), s.mbuf, s.offset, s.len) }

  /** The queue seen from `base`. */
  function View(base: u32, segs: seq<OooSegment>): seq<Window> {
    seq(|segs|, i requires 0 <= i < |segs| => Lift(base, segs[i]))
  }

  /** Windows in stream order, none overlapping the next. */
  ghost predicate Sorted(ws: seq<Window>) {
    && (forall i :: 0 <= i < |ws| ==> ws[i].Fits())
    && (forall i, j :: 0 <= i < j < |ws| ==> ws[i].Hi() <= ws[j].lo)
  }

  /** The buffer byte stored for position `p`, if any. */
  function At(ws: seq<Window>, p: int): Option<ByteRef>
  {
    if ws == [] then None
    else if ws[0].Covers(p) then Some(ws[0].Ref(p))
    else At(ws[1..], p)
  }

  /** How many positions of `[lo, hi)` are not stored. */
  function Uncovered(ws: seq<Window>, lo: int, hi: int): nat
    decreases hi - lo
  {
    if hi <= lo then 0
    else Uncovered(ws, lo, hi - 1) + if At(ws, hi - 1).None? then 1 else 0
  }

  function TotalLen(ws: seq<Window>): int {
    if ws == [] then 0 else ws[0].len + TotalLen(ws[1..])
  }

  function Bufs(ws: seq<Window>): seq<Mbuf> {
    seq(|ws|, i requires 0 <= i < |ws| => ws[i].mbuf)
  }

  function Refs(ws: seq<Window>): multiset<Mbuf> { multiset(Bufs(ws)) }

  lemma RefsConcat(a: seq<Window>, b: seq<Window>)
    ensures Refs(a + b) == Refs(a) + Refs(b)
  {
    assert Bufs(a + b) == Bufs(a) + Bufs(b);
  }

  lemma RefsOfOne(w: Window)
    ensures Refs([w]) == multiset{w.mbuf}
  {
    assert Bufs([w]) == [w.mbuf];
  }

  lemma {:induction false} TotalLenConcat(a: seq<Window>, b: seq<Window>)
    ensures TotalLen(a + b) == TotalLen(a) + TotalLen(b)
  {
    if a == [] {
      assert a + b == b;
    } else {
      TotalLenConcat(a[1..], b);
      assert (a + b)[1..] == a[1..] + b;
    }
  }

  // ---------- reading the map ----------

  lemma {:induction false} AtConcat(a: seq<Window>, b: seq<Window>, p: int)
    ensures At(a + b, p) == if At(a, p).Some? then At(a, p) else At(b, p)
  {
    if a == [] {
      assert a + b == b;
    } else {
      assert (a + b)[1..] == a[1..] + b;
      AtConcat(a[1..], b, p);
    }
  }

  lemma {:induction false} AtMiss(ws: seq<Window>, p: int)
    ensures At(ws, p).None? <==> forall i :: 0 <= i < |ws| ==> !ws[i].Covers(p)
  {
    if ws != [] {
      AtMiss(ws[1..], p);
      assert forall i :: 1 <= i < |ws| ==> ws[i] == ws[1..][i - 1];
    }
  }

  lemma {:induction false} AtHit(ws: seq<Window>, i: nat, p: int)
    requires Sorted(ws) && i < |ws| && ws[i].Covers(p)
    ensures At(ws, p) == Some(ws[i].Ref(p))
  {
    if i > 0 {
      assert ws[1..][i - 1] == ws[i];
      AtHit(ws[1..], i - 1, p);
    }
  }

  /** Between two stored neighbours nothing is stored. */
  lemma AtGap(ws: seq<Window>, i: nat, lo: int, hi: int)
    requires Sorted(ws) && i <= |ws|
    requires forall j :: 0 <= j < i ==> ws[j].Hi() <= lo
    requires i < |ws| ==> hi <= ws[i].lo
    ensures forall p :: lo <= p < hi ==> At(ws, p).None?
  {
    forall p | lo <= p < hi
      ensures At(ws, p).None?
    {
      AtMiss(ws, p);
    }
  }

  lemma AtSolid(ws: seq<Window>, i: nat)
    requires Sorted(ws) && i < |ws|
    ensures forall p :: ws[i].Covers(p) ==> At(ws, p) == Some(ws[i].Ref(p))
  {
    forall p | ws[i].Covers(p)
      ensures At(ws, p) == Some(ws[i].Ref(p))
    {
      AtHit(ws, i, p);
    }
  }

  lemma {:induction false} UncoveredSplit(ws: seq<Window>, lo: int, mid: int, hi: int)
    requires lo <= mid <= hi
    ensures Uncovered(ws, lo, hi) == Uncovered(ws, lo, mid) + Uncovered(ws, mid, hi)
    decreases hi - mid
  {
    if mid < hi {
      UncoveredSplit(ws, lo, mid, hi - 1);
    }
  }

  lemma {:induction false} UncoveredAll(ws: seq<Window>, lo: int, hi: int)
    requires lo <= hi
    ensures (forall p :: lo <= p < hi ==> At(ws, p).None?) ==> Uncovered(ws, lo, hi) == hi - lo
    ensures (forall p :: lo <= p < hi ==> At(ws, p).Some?) ==> Uncovered(ws, lo, hi) == 0
    decreases hi - lo
  {
    if lo < hi {
      UncoveredAll(ws, lo, hi - 1);
    }
  }

  lemma AtConcatAll(a: seq<Window>, b: seq<Window>)
    ensures forall p :: At(a + b, p) == if At(a, p).Some? then At(a, p) else At(b, p)
  {
    forall p
      ensures At(a + b, p) == if At(a, p).Some? then At(a, p) else At(b, p)
    {
      AtConcat(a, b, p);
    }
  }

  lemma AtSnoc(a: seq<Window>, w: Window)
    ensures forall p :: At(a + [w], p)
                     == if At(a, p).Some? then At(a, p) else if w.Covers(p) then Some(w.Ref(p)) else None
  {
    AtConcatAll(a, [w]);
    forall p
      ensures At([w], p) == if w.Covers(p) then Some(w.Ref(p)) else None
    {
      AtOne(w, p);
    }
  }

  lemma AtOne(w: Window, p: int)
    ensures At([w], p) == if w.Covers(p) then Some(w.Ref(p)) else None
  {
    assert [w][1..] == [];
  }

  lemma SumsSnoc(a: seq<Window>, w: Window)
    ensures Refs(a + [w]) == Refs(a) + multiset{w.mbuf}
    ensures TotalLen(a + [w]) == TotalLen(a) + w.len
  {
    SumsConcat(a, [w]);
    assert [w][1..] == [];
    RefsOfOne(w);
  }

  lemma SumsConcat(a: seq<Window>, b: seq<Window>)
    ensures Refs(a + b) == Refs(a) + Refs(b)
    ensures TotalLen(a + b) == TotalLen(a) + TotalLen(b)
  {
    RefsConcat(a, b);
    TotalLenConcat(a, b);
  }

  lemma SortedInsert(ws: seq<Window>, idx: nat, w: Window)
    requires Sorted(ws) && w.Fits() && idx <= |ws|
    requires forall p :: w.Covers(p) ==> At(ws, p).None?
    requires forall j :: 0 <= j < idx ==> ws[j].lo <= w.lo
    requires idx < |ws| ==> w.lo < ws[idx].lo
    ensures Sorted(ws[..idx] + [w] + ws[idx..])
  {
    forall j | 0 <= j < |ws|
      ensures ws[j].Hi() <= w.lo || w.Hi() <= ws[j].lo
    {
      AtMiss(ws, w.lo);
      AtSolid(ws, j);
      assert !w.Covers(ws[j].lo);
    }
    var r := ws[..idx] + [w] + ws[idx..];
    forall i, j | 0 <= i < j < |r|
      ensures r[i].Hi() <= r[j].lo
    {
      if j > idx && i <= idx {
        assert r[j] == ws[j - 1];
      }
    }
  }

  /** Storing one more window in the slot between two stored neighbours. */
  lemma InsertedAt(a: seq<Window>, w: Window, b: seq<Window>)
    requires forall p :: w.Covers(p) ==> At(a + b, p).None?
    ensures forall p :: At(a + [w] + b, p) == if w.Covers(p) then Some(w.Ref(p)) else At(a + b, p)
  {
    AtConcatAll(a, b);
    AtConcatAll(a + [w], b);
    AtSnoc(a, w);
  }

  lemma InsertedSums(a: seq<Window>, w: Window, b: seq<Window>)
    ensures Refs(a + [w] + b) == Refs(a + b) + multiset{w.mbuf}
    ensures TotalLen(a + [w] + b) == TotalLen(a + b) + w.len
  {
    SumsConcat(a, b);
    SumsConcat(a + [w], b);
    SumsSnoc(a, w);
  }

  lemma ViewInsert(base: u32, segs: seq<OooSegment>, idx: nat, s: OooSegment)
    requires idx <= |segs|
    ensures View(base, segs[..idx] + [s] + segs[idx..]) == View(base, segs)[..idx] + [Lift(base, s)] + View(base,
            segs)[idx..]
  {
  }

  /** `after` is `ws` with one more window, placed in stream order. */
  ghost predicate Merged(ws: seq<Window>, w: Window, after: seq<Window>) {
    && Sorted(after)
    && (forall p :: At(after, p) == if w.Covers(p) then Some(w.Ref(p)) else At(ws, p))
    && Refs(after) == Refs(ws) + multiset{w.mbuf}
    && TotalLen(after) == TotalLen(ws) + w.len
  }

  lemma MergedInsert(base: u32, segs: seq<OooSegment>, idx: nat, s: OooSegment)
    requires Sorted(View(base, segs)) && Lift(base, s).Fits() && idx <= |segs|
    requires forall p :: Lift(base, s).Covers(p) ==> At(View(base, segs), p).None?
    requires forall j :: 0 <= j < idx ==> View(base, segs)[j].lo <= Lift(base, s).lo
    requires idx < |segs| ==> Lift(base, s).lo < View(base, segs)[idx].lo
    ensures Merged(View(base, segs), Lift(base, s), View(base, segs[..idx] + [s] + segs[idx..]))
  {
    var ws, w := View(base, segs), Lift(base, s);
    SortedInsert(ws, idx, w);
    assert ws[..idx] + ws[idx..] == ws;
    InsertedAt(ws[..idx], w, ws[idx..]);
    InsertedSums(ws[..idx], w, ws[idx..]);
    ViewInsert(base, segs, idx, s);
  }

  /** `after` holds exactly the windows of `ws` and the `pieces`. */
  ghost predicate Joined(ws: seq<Window>, pieces: seq<Window>, after: seq<Window>) {
    forall x :: x in after <==> x in ws || x in pieces
  }

  lemma JoinedOne(ws: seq<Window>, idx: nat, w: Window)
    requires idx <= |ws|
    ensures Joined(ws, [w], ws[..idx] + [w] + ws[idx..])
  {
    assert ws == ws[..idx] + ws[idx..];
  }

  lemma JoinedStep(ws: seq<Window>, pieces: seq<Window>, k: nat, before: seq<Window>, after: seq<Window>)
    requires k < |pieces| && Joined(ws, pieces[..k], before) && Joined(before, [pieces[k]], after)
    ensures Joined(ws, pieces[..k + 1], after)
  {
    assert pieces[..k + 1] == pieces[..k] + [pieces[k]];
  }

  lemma SlotOrder(base: u32, segs: seq<OooSegment>, idx: nat, s: OooSegment)
    requires idx < |segs| && View(base, segs)[idx].Fits() && Lift(base, s).Fits()
    ensures SeqLt(s.seqno, segs[idx].seqno) <==> Lift(base, s).lo < View(base, segs)[idx].lo
  {
    SeqOrder(base, s.seqno, segs[idx].seqno);
  }

  // ---------- the carve ----------

  /** Windows of buffer `m` for positions of `[s, e)`, its byte `offset` standing for `s`. */
  ghost predicate PiecesOf(pieces: seq<Window>, m: Mbuf, offset: int, s: int, e: int) {
    && Sorted(pieces)
    && forall k :: 0 <= k < |pieces| ==>
         && s <= pieces[k].lo && pieces[k].Hi() <= e
         && pieces[k].mbuf == m && pieces[k].offset == offset + (pieces[k].lo - s)
  }

  /** What an insert's scan has collected when it has dealt with the incoming window
      `[s, e)` up to position `c`: `pieces` cover exactly the free positions below the cap's
      `cut`. */
  ghost predicate Scan(ws: seq<Window>, pieces: seq<Window>, m: Mbuf, offset: int, s: int, e: int, c: int, cut: int,
                       newly: int, dropped: int, room: int)
  {
    && Sorted(ws) && s <= c && s <= cut <= e
    && PiecesOf(pieces, m, offset, s, Min(c, e))
    && (forall p :: s <= p < Min(c, e) ==> (At(pieces, p).Some? <==> At(ws, p).None? && p < cut))
    && newly == TotalLen(pieces) && newly <= room && 0 <= dropped
    && newly + dropped == Uncovered(ws, s, Min(c, e))
    && if dropped == 0 then cut == e else cut <= Min(c, e) && newly == room
  }

  /** Each piece fills a whole gap: it starts where the incoming window does or behind stored data,
      and ends where the window or the cap does or ahead of stored data. */
  ghost predicate Gaps(ws: seq<Window>, pieces: seq<Window>, s: int, e: int, cut: int) {
    forall k :: 0 <= k < |pieces| ==>
      && (pieces[k].lo == s || At(ws, pieces[k].lo - 1).Some?)
      && (pieces[k].Hi() == e || pieces[k].Hi() == cut || At(ws, pieces[k].Hi()).Some?)
  }

  lemma GapsSnoc(ws: seq<Window>, pieces: seq<Window>, s: int, e: int, cut: int, cut': int, w: Window)
    requires Gaps(ws, pieces, s, e, cut) && (cut' == cut || cut == e)
    requires w.lo == s || At(ws, w.lo - 1).Some?
    requires w.Hi() == e || w.Hi() == cut' || At(ws, w.Hi()).Some?
    ensures Gaps(ws, pieces, s, e, cut') && Gaps(ws, pieces + [w], s, e, cut')
  {
    hide At;
  }

  /** One gap `[c, x)` of the incoming window: as much of it as the cap leaves room for. */
  lemma ScanGap(ws: seq<Window>, pieces: seq<Window>, m: Mbuf, offset: int, s: int, e: int, c: int, x: int, take: int,
                cut: int, newly: int, dropped: int, room: int)
    requires Scan(ws, pieces, m, offset, s, e, c, cut, newly, dropped, room)
    requires 0 <= s && c < x <= e < 0x8000_0000 && 0 <= offset && offset + (e - s) < 0x1_0000
    requires forall p :: c <= p < x ==> At(ws, p).None?
    requires take == Min(x - c, room - newly)
    ensures Scan(ws, if take > 0 then pieces + [Window(c, m, offset + (c - s), take)] else pieces, m, offset, s, e, x,
                 if take < x - c && dropped == 0 then c + take else cut, newly + take, dropped + (x - c - take), room)
  {
    UncoveredSplit(ws, s, c, x);
    UncoveredAll(ws, c, x);
    forall p | c <= p
      ensures At(pieces, p).None?
    {
      AtMiss(pieces, p);
    }
    if take > 0 {
      var w := Window(c, m, offset + (c - s), take);
      PiecesSnoc(pieces, m, offset, s, c, x, w);
      AtSnoc(pieces, w);
      SumsSnoc(pieces, w);
    }
  }

  lemma PiecesSnoc(pieces: seq<Window>, m: Mbuf, offset: int, s: int, c: int, x: int, w: Window)
    requires PiecesOf(pieces, m, offset, s, c) && s <= c <= w.lo && w.Hi() <= x && w.Fits()
    requires w.mbuf == m && w.offset == offset + (w.lo - s)
    ensures PiecesOf(pieces + [w], m, offset, s, x)
  {
  }

  lemma {:induction false} UncoveredBound(ws: seq<Window>, lo: int, hi: int)
    requires lo <= hi
    ensures Uncovered(ws, lo, hi) <= hi - lo
    decreases hi - lo
  {
    if lo < hi {
      UncoveredBound(ws, lo, hi - 1);
    }
  }

  lemma ScanInit(ws: seq<Window>, m: Mbuf, offset: int, s: int, e: int, room: int)
    requires Sorted(ws) && s <= e && 0 <= room
    ensures Scan(ws, [], m, offset, s, e, s, e, 0, 0, room)
  {
  }

  lemma {:induction false} PieceLens(pieces: seq<Window>)
    requires forall k :: 0 <= k < |pieces| ==> pieces[k].len > 0
    ensures TotalLen(pieces) >= |pieces|
  {
    if pieces != [] {
      PieceLens(pieces[1..]);
    }
  }

  lemma ScanBounds(ws: seq<Window>, pieces: seq<Window>, m: Mbuf, offset: int, s: int, e: int, c: int, cut: int,
                   newly: int, dropped: int, room: int)
    requires Scan(ws, pieces, m, offset, s, e, c, cut, newly, dropped, room)
    ensures 0 <= newly <= room && 0 <= dropped && newly + dropped <= Min(c, e) - s
  {
    UncoveredBound(ws, s, Min(c, e));
    PieceLens(pieces);
  }

  lemma ScanCut(ws: seq<Window>, pieces: seq<Window>, m: Mbuf, offset: int, s: int, e: int, c: int, cut: int,
                newly: int, dropped: int, room: int)
    requires Scan(ws, pieces, m, offset, s, e, c, cut, newly, dropped, room)
    ensures if dropped == 0 then cut == e else newly == room
  {
  }

  /** A stretch that is stored already, or lies past the incoming window, adds nothing. */
  lemma ScanSolid(ws: seq<Window>, pieces: seq<Window>, m: Mbuf, offset: int, s: int, e: int, c: int, h: int, cut: int,
                  newly: int, dropped: int, room: int)
    requires Scan(ws, pieces, m, offset, s, e, c, cut, newly, dropped, room)
    requires s <= e && c <= h && forall p :: c <= p < Min(h, e) ==> At(ws, p).Some?
    ensures Scan(ws, pieces, m, offset, s, e, h, cut, newly, dropped, room)
  {
    UncoveredSplit(ws, s, Min(c, e), Min(h, e));
    UncoveredAll(ws, Min(c, e), Min(h, e));
    forall p | Min(c, e) <= p
      ensures At(pieces, p).None?
    {
      AtMiss(pieces, p);
    }
  }

  /** What a collected piece stores. */
  lemma PieceAt(pieces: seq<Window>, m: Mbuf, offset: int, s: int, e: int, p: int)
    requires PiecesOf(pieces, m, offset, s, e)
    ensures At(pieces, p).Some? ==> s <= p < e && At(pieces, p) == Some(ByteRef(m, offset + (p - s)))
  {
    AtMiss(pieces, p);
    if At(pieces, p).Some? {
      var k :| 0 <= k < |pieces| && pieces[k].Covers(p);
      AtHit(pieces, k, p);
    }
  }

  /** The free positions of the next piece, and what the pieces up to it store. */
  lemma NextPiece(ws: seq<Window>, pieces: seq<Window>, m: Mbuf, offset: int, s: int, e: int, c: int, cut: int,
                  newly: int, dropped: int, room: int, k: nat)
    requires Scan(ws, pieces, m, offset, s, e, c, cut, newly, dropped, room) && k < |pieces|
    ensures forall p :: pieces[k].Covers(p) ==> At(ws, p).None? && At(pieces[..k], p).None?
    ensures pieces[k].Fits() && pieces[k].mbuf == m
  {
    AtSolid(pieces, k);
    forall p | pieces[k].Covers(p)
      ensures At(pieces[..k], p).None?
    {
      AtMiss(pieces[..k], p);
    }
  }

  /** The queue `after` storing the first `k` collected pieces in `ws`. */
  ghost predicate Stored(ws: seq<Window>, pieces: seq<Window>, m: Mbuf, k: nat, after: seq<Window>)
    requires k <= |pieces|
  {
    && Sorted(after)
    && (forall p :: At(after, p) == if At(ws, p).Some? then At(ws, p) else At(pieces[..k], p))
    && Refs(after) == Refs(ws) + multiset{}[m := k]
    && TotalLen(after) == TotalLen(ws) + TotalLen(pieces[..k])
  }

  lemma StoredFree(ws: seq<Window>, pieces: seq<Window>, m: Mbuf, k: nat, before: seq<Window>)
    requires k < |pieces| && Stored(ws, pieces, m, k, before)
    requires forall p :: pieces[k].Covers(p) ==> At(ws, p).None? && At(pieces[..k], p).None?
    ensures forall p :: pieces[k].Covers(p) ==> At(before, p).None?
  {
  }

  lemma StoredStep(ws: seq<Window>, pieces: seq<Window>, m: Mbuf, k: nat, before: seq<Window>, after: seq<Window>)
    requires k < |pieces| && pieces[k].mbuf == m && Stored(ws, pieces, m, k, before) && Merged(before, pieces[k], after)
    requires forall p :: pieces[k].Covers(p) ==> At(ws, p).None? && At(pieces[..k], p).None?
    ensures Stored(ws, pieces, m, k + 1, after)
  {
    assert pieces[..k + 1] == pieces[..k] + [pieces[k]];
    AtSnoc(pieces[..k], pieces[k]);
    SumsSnoc(pieces[..k], pieces[k]);
    assert multiset{}[m := k + 1] == multiset{}[m := k] + multiset{m};
  }

  /** The pieces lie in free gaps of the incoming window and fill them. */
  ghost predicate Filling(ws: seq<Window>, pieces: seq<Window>, s: int, e: int, cut: int) {
    && Gaps(ws, pieces, s, e, cut)
    && forall k :: 0 <= k < |pieces| ==>
              s <= pieces[k].lo && pieces[k].len > 0 && pieces[k].Hi() <= e && Free(ws, pieces[k])
  }

  ghost predicate Free(ws: seq<Window>, w: Window) { forall p :: w.Covers(p) ==> At(ws, p).None? }

  lemma NothingFills(ws: seq<Window>, s: int)
    ensures Joined(ws, [], ws) && Filling(ws, [], s, s, s)
  {
  }

  lemma ScanFills(ws: seq<Window>, pieces: seq<Window>, m: Mbuf, offset: int, s: int, e: int, c: int, cut: int,
                  newly: int, dropped: int, room: int)
    requires Scan(ws, pieces, m, offset, s, e, c, cut, newly, dropped, room) && e <= c && Gaps(ws, pieces, s, e, cut)
    ensures Filling(ws, pieces, s, e, cut)
  {
    hide At, Gaps, Uncovered, TotalLen;
    forall k | 0 <= k < |pieces|
      ensures Free(ws, pieces[k])
    {
      AtSolid(pieces, k);
    }
  }

  /** The stored queue, read off: old bytes win, the window's bytes below the cut come next. */
  ghost predicate Overlaid(ws: seq<Window>, m: Mbuf, offset: int, s: int, cut: int, after: seq<Window>) {
    forall p :: At(after, p)
             == if At(ws, p).Some? then At(ws, p)
                else if s <= p < cut then Some(ByteRef(m, offset + (p - s)))
                else None
  }

  lemma StoredAll(ws: seq<Window>, pieces: seq<Window>, m: Mbuf, offset: int, s: int, e: int, c: int, cut: int,
                  newly: int, dropped: int, room: int, after: seq<Window>)
    requires Scan(ws, pieces, m, offset, s, e, c, cut, newly, dropped, room) && e <= c
    requires Stored(ws, pieces, m, |pieces|, after)
    ensures Overlaid(ws, m, offset, s, cut, after) && Sorted(after)
    ensures Refs(after) == Refs(ws) + multiset{}[m := |pieces|] && TotalLen(after) == TotalLen(ws) + newly
    ensures newly > 0 <==> |pieces| > 0
    ensures s <= cut <= e && newly + dropped == Uncovered(ws, s, e) && newly <= room
    ensures if dropped == 0 then cut == e else newly == room
  {
    assert pieces[..|pieces|] == pieces;
    forall p
      ensures At(pieces, p).Some? ==> s <= p < e && At(pieces, p) == Some(ByteRef(m, offset + (p - s)))
    {
      PieceAt(pieces, m, offset, s, e, p);
    }
    PieceLens(pieces);
  }

  lemma OverlaidEmpty(ws: seq<Window>, m: Mbuf, offset: int, s: int)
    ensures Overlaid(ws, m, offset, s, s, ws) && Uncovered(ws, s, s) == 0
  {
  }

  lemma ViewSnoc(base: u32, segs: seq<OooSegment>, s: OooSegment)
    ensures View(base, segs + [s]) == View(base, segs) + [Lift(base, s)]
  {
  }

  lemma EndOff(base: u32, segs: seq<OooSegment>, i: nat)
    requires i < |segs| && View(base, segs)[i].Fits()
    ensures Off(base, segs[i].EndSeq()) == View(base, segs)[i].Hi()
  {
    OffAdd(base, segs[i].seqno, segs[i].len);
  }

  /** One bump made by the caller and `n - 1` made by the insert are the `n` references of
      the stored pieces. */
  lemma BumpBooks(held: multiset<Mbuf>, refs: multiset<Mbuf>, m: Mbuf, n: nat)
    ensures n == 0 ==> held + refs + multiset{m} == held + (refs + multiset{}[m := n]) + multiset{m}
    ensures n == 1 ==> held + refs + multiset{m} == held + (refs + multiset{}[m := n]) + multiset{}
    ensures n > 1 ==>
              held + refs + multiset{m} + multiset{}[m := n - 1] == held + (refs + multiset{}[m := n]) + multiset{}
  {
  }

  // ---------- the drain ----------

  /** The drain has gone through the first `i` windows: it appended `bytes` for the positions
      from `r0` up, and threw `dropped` more away because the cap's `room` ran out. */
  ghost predicate Draining(ws: seq<Window>, i: nat, r0: int, bytes: seq<ByteRef>, dropped: int, room: int) {
    && Sorted(ws) && i <= |ws| && 0 <= r0 && 0 <= dropped < 0x1_0000
    && (forall j :: 0 <= j < i ==> ws[j].Hi() <= r0 + |bytes| + dropped)
    && (forall k :: 0 <= k < |bytes| ==> At(ws, r0 + k) == Some(bytes[k]))
    && |bytes| <= room
    && (dropped > 0 ==>
          i > 0 && |bytes| == room && ws[i - 1].lo <= r0 + |bytes| && r0 + |bytes| + dropped == ws[i - 1].Hi())
  }

  /** What a drain hands over and what it leaves: the bytes appended are the ones stored from
      `r0` on, nothing below `r0 + |bytes| + dropped` stays, and everything above does. The
      drain stops at the first missing byte, or where the cap's room ran out. */
  ghost predicate Drained(ws: seq<Window>, r0: int, bytes: seq<ByteRef>, dropped: int, room: int, after: seq<Window>) {
    && 0 <= dropped < 0x1_0000
    && (forall k :: 0 <= k < |bytes| ==> At(ws, r0 + k) == Some(bytes[k]))
    && (forall p :: At(after, p) == if p < r0 + |bytes| + dropped then None else At(ws, p))
    && |bytes| <= room
    && (forall p :: r0 + |bytes| <= p < r0 + |bytes| + dropped ==> At(ws, p).Some?)
    && if dropped > 0 then |bytes| == room else At(ws, r0 + |bytes|).None?
  }

  lemma DrainInit(ws: seq<Window>, r0: int, room: int)
    requires Sorted(ws) && 0 <= r0 && 0 <= room
    ensures Draining(ws, 0, r0, BytesOf([]), 0, room)
    ensures BytesOf([]) == [] && InRefs([]) == multiset{} && ws[0..] == ws
  {
  }

  lemma DrainTake(ws: seq<Window>, i: nat, r0: int, bytes: seq<ByteRef>, room: int, out: InOrderSegment)
    requires Draining(ws, i, r0, bytes, 0, room) && i < |ws|
    requires ws[i].Covers(r0 + |bytes|)
    requires var c := r0 + |bytes|;
      && out.len == Min(ws[i].Hi() - c, room - |bytes|)
      && out.mbuf == ws[i].mbuf && out.offset == ws[i].offset + (c - ws[i].lo)
    ensures Draining(ws, i + 1, r0, bytes + SegBytes(out), ws[i].Hi() - (r0 + |bytes|) - out.len, room)
  {
    AtSolid(ws, i);
  }

  lemma DrainStale(ws: seq<Window>, i: nat, r0: int, bytes: seq<ByteRef>, dropped: int, room: int)
    requires Draining(ws, i, r0, bytes, dropped, room) && dropped == 0 && i < |ws| && ws[i].Hi() <= r0 + |bytes|
    ensures Draining(ws, i + 1, r0, bytes, dropped, room)
  {
  }

  /** Once the cap has cut a window short, the next one cannot be contiguous. */
  lemma DrainFresh(ws: seq<Window>, i: nat, r0: int, bytes: seq<ByteRef>, dropped: int, room: int)
    requires Draining(ws, i, r0, bytes, dropped, room) && i < |ws| && ws[i].lo <= r0 + |bytes|
    ensures dropped == 0 && |bytes| <= room && ws[i].Fits()
  {
  }

  /** Past everything popped, the rest of the queue stores what it stored before. */
  lemma DropFront(ws: seq<Window>, i: nat, x: int)
    requires Sorted(ws) && i <= |ws|
    requires forall j :: 0 <= j < i ==> ws[j].Hi() <= x
    requires i < |ws| ==> x <= ws[i].lo
    ensures forall p :: At(ws[i..], p) == if p < x then None else At(ws, p)
    ensures Sorted(ws[i..])
  {
    assert ws[..i] + ws[i..] == ws;
    AtConcatAll(ws[..i], ws[i..]);
    forall p
      ensures At(ws[i..], p) == if p < x then None else At(ws, p)
    {
      AtMiss(ws[i..], p);
      AtMiss(ws[..i], p);
    }
  }

  lemma DrainEnd(ws: seq<Window>, i: nat, r0: int, bytes: seq<ByteRef>, dropped: int, room: int)
    requires Draining(ws, i, r0, bytes, dropped, room)
    requires i < |ws| ==> r0 + |bytes| < ws[i].lo
    ensures Drained(ws, r0, bytes, dropped, room, ws[i..]) && Sorted(ws[i..])
  {
    var c := r0 + |bytes|;
    DropFront(ws, i, c + dropped);
    if dropped > 0 {
      AtSolid(ws, i - 1);
    } else {
      AtGap(ws, i, c, c + 1);
      assert At(ws, c).None?;
    }
  }

  lemma SumsFront(ws: seq<Window>, i: nat)
    requires Sorted(ws) && i < |ws|
    ensures Refs(ws[i..]) == multiset{ws[i].mbuf} + Refs(ws[i + 1..])
    ensures TotalLen(ws[i..]) == ws[i].len + TotalLen(ws[i + 1..])
    ensures TotalLen(ws[i + 1..]) >= 0
  {
    assert ws[i..] == [ws[i]] + ws[i + 1..];
    SumsConcat([ws[i]], ws[i + 1..]);
    SumsSnoc([], ws[i]);
    assert [] + [ws[i]] == [ws[i]];
    PieceLens(ws[i + 1..]);
  }

  lemma RegroupKept(held: multiset<Mbuf>, out: multiset<Mbuf>, left: multiset<Mbuf>, m: multiset<Mbuf>)
    ensures held + out + left + m == held + left + out + m && held + out + left == held + left + out
  {
  }

  lemma SnocBytes(out: seq<InOrderSegment>, s: InOrderSegment)
    ensures BytesOf(out + [s]) == BytesOf(out) + SegBytes(s)
    ensures InRefs(out + [s]) == InRefs(out) + multiset{s.mbuf}
  {
    BytesOfConcat(out, [s]);
    assert [s][1..] == [];
    assert InBufs(out + [s]) == InBufs(out) + [s.mbuf];
  }

  // ---------- moving the base ----------

  function Shift(ws: seq<Window>, d: int): seq<Window> {
    seq(|ws|, i requires 0 <= i < |ws| => ws[i].(lo := ws[i].lo - d))
  }

  lemma {:induction false} ShiftReads(ws: seq<Window>, d: int, p: int)
    ensures At(Shift(ws, d), p) == At(ws, p + d)
    ensures TotalLen(Shift(ws, d)) == TotalLen(ws)
  {
    if ws != [] {
      ShiftReads(ws[1..], d, p);
      assert Shift(ws, d)[1..] == Shift(ws[1..], d);
    }
  }

  /** Counting from a later base, with nothing stored before it, only moves the positions. */
  lemma Rebase(base: u32, d: nat, segs: seq<OooSegment>)
    requires Sorted(View(base, segs))
    requires forall p :: At(View(base, segs), p).Some? ==> d <= p
    ensures Sorted(View(SeqAdd(base, d), segs))
    ensures forall p :: At(View(SeqAdd(base, d), segs), p) == At(View(base, segs), p + d)
    ensures TotalLen(View(SeqAdd(base, d), segs)) == TotalLen(View(base, segs))
    ensures Refs(View(SeqAdd(base, d), segs)) == Refs(View(base, segs))
  {
    var ws, after := View(base, segs), View(SeqAdd(base, d), segs);
    forall i | 0 <= i < |segs|
      ensures d <= ws[i].lo && after[i] == Shift(ws, d)[i]
    {
      AtSolid(ws, i);
      assert ws[i].Covers(ws[i].lo);
      OffRebase(base, d, segs[i].seqno);
    }
    assert after == Shift(ws, d);
    assert Bufs(after) == Bufs(ws);
    ShiftReads(ws, d, 0);
    forall p
      ensures At(after, p) == At(ws, p + d)
    {
      ShiftReads(ws, d, p);
    }
  }

  // ---------- the queue ----------

  class ReorderQueue {
    var segments: seq<OooSegment>
    var totalBytes: u32
    const cap: u32
    const pool: MbufPool

    /** The references the queue holds: one per stored segment. */
    ghost function Held(): multiset<Mbuf>
      reads this
    {
      Refs(View(0, segments))
    }

    ghost predicate Valid(base: u32)
      reads this
    {
      Sorted(View(base, segments)) && totalBytes == TotalLen(View(base, segments)) <= cap
    }

    constructor (cap: u32, pool: MbufPool)
      ensures this.cap == cap && this.pool == pool && segments == []
      ensures forall base :: Valid(base)
    {
      this.cap, this.pool, segments, totalBytes := cap, pool, [], 0;
    }

    /** `insert_merged`: puts one window that overlaps nothing stored at its place in stream
        order. */
    method InsertMerged(s: OooSegment, ghost base: u32)
      requires Sorted(View(base, segments)) && Lift(base, s).Fits()
      requires forall p :: Lift(base, s).Covers(p) ==> At(View(base, segments), p).None?
      modifies this`segments
      ensures Merged(View(base, old(segments)), Lift(base, s), View(base, segments))
      ensures Joined(View(base, old(segments)), [Lift(base, s)], View(base, segments))
    {
      ghost var ws, w := View(base, segments), Lift(base, s);
      var idx := 0;
      while idx < |segments| && !SeqLt(s.seqno, segments[idx].seqno)
        invariant segments == old(segments)
        invariant 0 <= idx <= |segments|
        invariant forall j :: 0 <= j < idx ==> ws[j].lo <= w.lo
      {
        SlotOrder(base, segments, idx, s);
        idx := idx + 1;
      }
      if idx < |segments| {
        SlotOrder(base, segments, idx, s);
      }
      MergedInsert(base, segments, idx, s);
      JoinedOne(ws, idx, w);
      ViewInsert(base, segments, idx, s);
      segments := segments[..idx] + [s] + segments[idx..];
    }

    /** The second pass of `insert`: stores the collected pieces, one `insert_merged` each. */
    method StoreAll(pieces: seq<OooSegment>, m: Mbuf, ghost base: u32, ghost s: int, ghost e: int, ghost offset: nat,
                    ghost c: int, ghost cut: int, ghost newly: nat, ghost dropped: nat)
      requires Scan(View(base, segments), View(base, pieces), m, offset, s, e, c, cut, newly, dropped, cap - totalBytes)
      modifies this`segments
      ensures Stored(View(base, old(segments)), View(base, pieces), m, |pieces|, View(base, segments))
      ensures Joined(View(base, old(segments)), View(base, pieces), View(base, segments))
    {
      ghost var ws, ps := View(base, segments), View(base, pieces);
      var k := 0;
      while k < |pieces|
        invariant 0 <= k <= |pieces|
        invariant Stored(ws, ps, m, k, View(base, segments)) && Joined(ws, ps[..k], View(base, segments))
      {
        ghost var before := View(base, segments);
        NextPiece(ws, ps, m, offset, s, e, c, cut, newly, dropped, cap - totalBytes, k);
        StoredFree(ws, ps, m, k, before);
        InsertMerged(pieces[k], base);
        StoredStep(ws, ps, m, k, before, View(base, segments));
        JoinedStep(ws, ps, k, before, View(base, segments));
        k := k + 1;
      }
      assert ps[..k] == ps;
    }

    /** One gap of the scan: collects as much of it as the byte cap has room for, and counts
        the rest as dropped. */
    method CollectGap(pieces: seq<OooSegment>, newly: u32, dropped: u32, cursor: u32, off: nat, gap: nat, m: Mbuf,
                      payloadOffset: u16, ghost base: u32, ghost s: int, ghost e: int, ghost cut: int)
      returns (pieces': seq<OooSegment>, newly': u32, dropped': u32, ghost cut': int)
      requires Scan(View(base, segments), View(base, pieces), m, payloadOffset, s, e, Off(base, cursor), cut, newly,
               dropped, cap - totalBytes)
      requires 0 <= s && 0 < gap && Off(base, cursor) + gap <= e < 0x8000_0000 && off == Off(base, cursor) - s
      requires payloadOffset + (e - s) < 0x1_0000
      requires forall p :: Off(base, cursor) <= p < Off(base, cursor) + gap ==> At(View(base, segments), p).None?
      requires Gaps(View(base, segments), View(base, pieces), s, e, cut)
      requires Off(base, cursor) == s || At(View(base, segments), Off(base, cursor) - 1).Some?
      requires Off(base, cursor) + gap == e || At(View(base, segments), Off(base, cursor) + gap).Some?
      ensures Scan(View(base, segments), View(base, pieces'), m, payloadOffset, s, e, Off(base, cursor) + gap, cut',
                   newly', dropped', cap - totalBytes)
      ensures Gaps(View(base, segments), View(base, pieces'), s, e, cut')
      ensures |pieces'| <= |pieces| + 1
    {
      hide SeqSub, Scan, At, Uncovered, TotalLen, PiecesOf, Gaps;
      ScanBounds(View(base, segments), View(base, pieces), m, payloadOffset, s, e, Off(base, cursor), cut, newly,
          dropped,
                 cap - totalBytes);
      var remainingCap := SatSub(cap, totalBytes + newly);
      var take := Min(gap, remainingCap);
      ghost var c := Off(base, cursor);
      ScanGap(View(base, segments), View(base, pieces), m, payloadOffset, s, e, c, c + gap, take, cut, newly, dropped,
          cap - totalBytes);
      ScanBounds(View(base, segments),
                 if take > 0 then View(base, pieces) + [Window(c, m, payloadOffset + (c - s), take)]
                     else View(base, pieces),
                 m, payloadOffset, s, e, c + gap, if take < gap && dropped == 0 then c + take else cut,
                 newly + take, dropped + (gap - take), cap - totalBytes);
      pieces', newly', dropped', cut' := pieces, newly, dropped, cut;
      ScanCut(View(base, segments), View(base, pieces), m, payloadOffset, s, e, c, cut, newly, dropped,
          cap - totalBytes);
      GapsSnoc(View(base, segments), View(base, pieces), s, e, cut, if take < gap && dropped == 0 then c + take
          else cut,
               Window(c, m, payloadOffset + (c - s), if take > 0 then take else gap));
      if take > 0 {
        var piece := OooSegment(cursor, m, payloadOffset + off, take);
        ViewSnoc(base, pieces, piece);
        pieces' := pieces + [piece];
        newly' := newly + take;
      }
      if take < gap {
        cut' := if dropped == 0 then c + take else cut;
        dropped' := dropped + (gap - take);
      }
    }

    /** The scan of `insert`: walks the stored windows with a cursor and collects a piece for
        every gap the incoming window fills, as far as the byte cap allows. */
    method Carve(seqno: u32, len: nat, m: Mbuf, payloadOffset: u16, ghost base: u32)
      returns (pieces: seq<OooSegment>, newly: u32, dropped: u32, ghost c: int, ghost cut: int)
      requires Valid(base) && 0 < len
      requires Off(base, seqno) + len < 0x8000_0000 && payloadOffset + len < 0x1_0000
      ensures Off(base, seqno) + len <= c
      ensures Scan(View(base, segments), View(base, pieces), m, payloadOffset, Off(base, seqno), Off(base, seqno) + len,
                   c, cut, newly, dropped, cap - totalBytes)
      ensures Gaps(View(base, segments), View(base, pieces), Off(base, seqno), Off(base, seqno) + len, cut)
      ensures 2 * |pieces| <= len + 1
    {
      hide SeqSub, SeqLt, SeqLe, AsI32, Scan, At, Uncovered, TotalLen, PiecesOf;
      ghost var ws, s := View(base, segments), Off(base, seqno);
      ghost var e := s + len;
      ghost var room := cap - totalBytes;
      OffAdd(base, seqno, len);
      var incomingEnd := SeqAdd(seqno, len);
      var cursor := seqno;
      pieces, newly, dropped, c, cut := [], 0, 0, s, e;
      ScanInit(ws, m, payloadOffset, s, e, room);
      assert View(base, pieces) == [];
      var i := 0;
      while i < |segments|
        invariant 0 <= i <= |segments| && c == Off(base, cursor) < 0x8000_0000
        invariant forall j :: 0 <= j < i ==> ws[j].Hi() <= c
        invariant Scan(ws, View(base, pieces), m, payloadOffset, s, e, c, cut, newly, dropped, room)
        invariant Gaps(ws, View(base, pieces), s, e, cut) && (c == s || At(ws, c - 1).Some?)
        invariant s + 2 * |pieces| <= Min(c, e)
      {
        var existing := segments[i];
        var existingEnd := existing.EndSeq();
        EndOff(base, segments, i);
        SeqOrder(base, incomingEnd, existing.seqno);
        if SeqLe(incomingEnd, existing.seqno) {
          break;
        }
        SeqOrder(base, existingEnd, cursor);
        if SeqLe(existingEnd, cursor) {
          i := i + 1;
          continue;
        }
        SeqOrder(base, cursor, existing.seqno);
        if SeqLt(cursor, existing.seqno) {
          SubOff(base, existing.seqno, cursor);
          SubOff(base, cursor, seqno);
          var gapLen := SeqSub(existing.seqno, cursor);
          var off := SeqSub(cursor, seqno);
          var takeEnd := off + Min(gapLen, len - off);
          AtGap(ws, i, c, ws[i].lo);
          AtSolid(ws, i);
          pieces, newly, dropped, cut := CollectGap(pieces, newly, dropped, cursor, off, takeEnd - off, m,
              payloadOffset, base, s, e, cut);
          OffAdd(base, cursor, takeEnd - off);
          cursor := SeqAdd(cursor, takeEnd - off);
          c := ws[i].lo;
        }
        AtSolid(ws, i);
        ScanSolid(ws, View(base, pieces), m, payloadOffset, s, e, c, ws[i].Hi(), cut, newly, dropped, room);
        SeqOrder(base, cursor, existingEnd);
        if SeqLt(cursor, existingEnd) {
          cursor := existingEnd;
        }
        c := ws[i].Hi();
        i := i + 1;
      }
      SeqOrder(base, cursor, incomingEnd);
      if SeqLt(cursor, incomingEnd) {
        SubOff(base, cursor, seqno);
        var off := SeqSub(cursor, seqno);
        AtGap(ws, i, c, e);
        pieces, newly, dropped, cut := CollectGap(pieces, newly, dropped, cursor, off, len - off, m, payloadOffset,
            base, s, e, cut);
        c := e;
      }
    }

    /** The bumps of the second pass: the caller made one, every piece after the first needs
        one more. The count goes through a signed 16-bit cast. */
    method RetainPieces(n: nat, m: Mbuf, ghost held: multiset<Mbuf>, ghost refs: multiset<Mbuf>)
      requires pool.Balanced(held + refs + multiset{m}) && n <= 0x8000
      modifies pool`refcnt
      ensures pool.refcnt.Keys == old(pool.refcnt.Keys)
      ensures pool.Balanced(held + (refs + multiset{}[m := n]) + if n > 0 then multiset{} else multiset{m})
    {
      hide MbufPool.Balanced;
      BumpBooks(held, refs, m, n);
      if n > 1 {
        pool.RetainMany(m, AsI16(n - 1), held + refs + multiset{m});
      }
    }

    /** `insert`: carves the window `[seqno, seqno + len)` of buffer `m` around the stored
        windows. The caller has bumped the counter once, and the bump is kept exactly when
        something was stored. `cut` is where the byte cap ran out: every free position of the
        window below it is stored, and none from it on. */
    method Insert(seqno: u32, len: nat, m: Mbuf, payloadOffset: u16, ghost base: u32, ghost held: multiset<Mbuf>)
      returns (o: InsertOutcome, ghost cut: int, ghost pieces: seq<Window>)
      requires Valid(base) && pool.Balanced(held + Refs(View(base, segments)) + multiset{m})
      requires Off(base, seqno) + len < 0x8000_0000 && payloadOffset + len < 0x1_0000
      modifies this, pool`refcnt
      ensures Valid(base) && pool.refcnt.Keys == old(pool.refcnt.Keys)
      ensures Off(base, seqno) <= cut <= Off(base, seqno) + len
      ensures Overlaid(View(base, old(segments)), m, payloadOffset, Off(base, seqno), cut, View(base, segments))
      ensures o.newlyBuffered == totalBytes - old(totalBytes)
      ensures o.newlyBuffered + o.capDropped
           == Uncovered(View(base, old(segments)), Off(base, seqno), Off(base, seqno) + len)
      ensures if o.capDropped == 0 then cut == Off(base, seqno) + len else totalBytes == cap
      ensures o.refRetained <==> o.newlyBuffered > 0
      ensures Joined(View(base, old(segments)), pieces, View(base, segments)) && (o.newlyBuffered > 0 <==> pieces != [])
      ensures Filling(View(base, old(segments)), pieces, Off(base, seqno), Off(base, seqno) + len, cut)
      ensures pool.Balanced(held + Refs(View(base, segments)) + if o.refRetained then multiset{} else multiset{m})
    {
      hide SeqSub, Scan, At, Uncovered, Sorted, TotalLen, PiecesOf, Overlaid, Stored, Refs, MbufPool.Balanced, Gaps,
           Joined, Filling;
      if len == 0 {
        OverlaidEmpty(View(base, segments), m, payloadOffset, Off(base, seqno));
        NothingFills(View(base, segments), Off(base, seqno));
        return InsertOutcome(0, 0, false), Off(base, seqno), [];
      }
      var segs, newly, dropped;
      ghost var c;
      segs, newly, dropped, c, cut := Carve(seqno, len, m, payloadOffset, base);
      ghost var ws, ps, s := View(base, segments), View(base, segs), Off(base, seqno);
      ScanFills(ws, ps, m, payloadOffset, s, s + len, c, cut, newly, dropped, cap - totalBytes);
      StoreAll(segs, m, base, s, s + len, payloadOffset, c, cut, newly, dropped);
      StoredAll(ws, ps, m, payloadOffset, s, s + len, c, cut, newly, dropped, cap - totalBytes, View(base, segments));
      totalBytes := totalBytes + newly;
      RetainPieces(|segs|, m, held, Refs(ws));
      o := InsertOutcome(newly, dropped, |segs| > 0);
      pieces := ps;
    }

    /** A popped window that continues the stream: what the room allows of it goes out with the
        window's reference; with no room at all the reference goes back to the pool. */
    method KeepFront(seg: OooSegment, nxt: u32, room: u32, out: seq<InOrderSegment>, ghost base: u32,
                     ghost ws: seq<Window>, ghost i: nat, ghost r0: int, ghost capRoom: int,
                     ghost rest: multiset<Mbuf>)
      returns (out': seq<InOrderSegment>, appended: u32, cut: u32)
      requires Draining(ws, i, r0, BytesOf(out), 0, capRoom) && i < |ws| && ws[i] == Lift(base, seg) && ws[i].Fits()
      requires Off(base, nxt) == r0 + |BytesOf(out)| && ws[i].Covers(Off(base, nxt)) && room == capRoom - |BytesOf(out)|
      requires pool.Balanced(rest + InRefs(out) + multiset{seg.mbuf})
      modifies pool`refcnt, pool`free
      ensures Draining(ws, i + 1, r0, BytesOf(out'), cut, capRoom)
      ensures |BytesOf(out')| == |BytesOf(out)| + appended && appended <= room
              && appended + Off(base, nxt) <= ws[i].Hi()
      ensures pool.Balanced(rest + InRefs(out')) && pool.refcnt.Keys == old(pool.refcnt.Keys)
    {
      hide SeqSub, Draining, InRefs, BytesOf, SegBytes, MbufPool.Balanced;
      SubOff(base, nxt, seg.seqno);
      var skip := SeqSub(nxt, seg.seqno);
      var kept := seg.len - skip;
      appended, out' := Min(kept, room), out;
      cut := kept - appended;
      var one := InOrderSegment(seg.mbuf, seg.offset + skip, appended);
      DrainTake(ws, i, r0, BytesOf(out), capRoom, one);
      if appended > 0 {
        SnocBytes(out, one);
        assert rest + InRefs(out) + multiset{seg.mbuf} == rest + (InRefs(out) + multiset{seg.mbuf});
        out' := out + [one];
      } else {
        assert BytesOf(out) + SegBytes(one) == BytesOf(out);
        pool.FreeSeg(seg.mbuf, rest + InRefs(out) + multiset{seg.mbuf});
        assert rest + InRefs(out) + multiset{seg.mbuf} - multiset{seg.mbuf} == rest + InRefs(out);
      }
    }

    /** `drain_contiguous_into`: pops the stored front that continues `rcvNxt` and hands every
        window's reference over to an in-order segment; windows wholly behind `rcvNxt`, or
        wholly past the room left, give theirs back to the pool. */
    method DrainContiguousInto(rcvNxt: u32, capRoom: u32, ghost base: u32, ghost held: multiset<Mbuf>)
      returns (out: seq<InOrderSegment>, total: u32, capDropped: u32)
      requires Valid(base) && pool.Balanced(held + Refs(View(base, segments)))
      requires Off(base, rcvNxt) < 0x8000_0000
      modifies this, pool`refcnt, pool`free
      ensures Valid(base) && pool.refcnt.Keys == old(pool.refcnt.Keys)
      ensures total == |BytesOf(out)|
      ensures Drained(View(base, old(segments)), Off(base, rcvNxt), BytesOf(out), capDropped, capRoom,
              View(base, segments))
      ensures pool.Balanced(held + InRefs(out) + Refs(View(base, segments)))
    {
      hide SeqSub, SeqLt, SeqLe, AsI32, At, TotalLen, Draining, Drained, Refs, InRefs, BytesOf, SegBytes,
           MbufPool.Balanced;
      ghost var ws, r0, i := View(base, segments), Off(base, rcvNxt), 0;
      DrainInit(ws, r0, capRoom);
      out, total, capDropped := [], 0, 0;
      var nxt, room := rcvNxt, capRoom;
      assert held + InRefs([]) + Refs(ws[0..]) == held + Refs(ws);
      while segments != []
        invariant i <= |ws| && View(base, segments) == ws[i..]
        invariant Draining(ws, i, r0, BytesOf(out), capDropped, capRoom)
        invariant total == |BytesOf(out)| && room == capRoom - total && Off(base, nxt) == r0 + total < 0x8000_0000
        invariant Valid(base) && pool.refcnt.Keys == old(pool.refcnt.Keys)
        invariant pool.Balanced(held + InRefs(out) + Refs(ws[i..]))
        decreases |segments|
      {
        var seg := segments[0];
        assert View(base, segments)[0] == ws[i] && ws[i].Fits();
        SeqOrder(base, nxt, seg.seqno);
        if SeqLt(nxt, seg.seqno) {
          break;
        }
        DrainFresh(ws, i, r0, BytesOf(out), capDropped, capRoom);
        SumsFront(ws, i);
        EndOff(base, segments, 0);
        SeqOrder(base, seg.EndSeq(), nxt);
        segments := segments[1..];
        totalBytes := SatSub(totalBytes, seg.len);
        ghost var books := held + InRefs(out) + Refs(ws[i + 1..]);
        assert held + InRefs(out) + Refs(ws[i..]) == books + multiset{seg.mbuf};
        if SeqLe(seg.EndSeq(), nxt) {
          DrainStale(ws, i, r0, BytesOf(out), capDropped, capRoom);
          pool.FreeSeg(seg.mbuf, books + multiset{seg.mbuf});
          assert books + multiset{seg.mbuf} - multiset{seg.mbuf} == books;
        } else {
          var appended, cut;
          RegroupKept(held, InRefs(out), Refs(ws[i + 1..]), multiset{seg.mbuf});
          out, appended, cut := KeepFront(seg, nxt, room, out, base, ws, i, r0, capRoom, held + Refs(ws[i + 1..]));
          RegroupKept(held, InRefs(out), Refs(ws[i + 1..]), multiset{});
          total := total + appended;
          room := room - appended;
          capDropped := cut;
          OffAdd(base, nxt, appended);
          nxt := SeqAdd(nxt, appended);
        }
        i := i + 1;
      }
      DrainEnd(ws, i, r0, BytesOf(out), capDropped, capRoom);
    }

    /** `Drop for ReorderQueue`: gives every stored reference back. */
    method Clear(ghost base: u32, ghost held: multiset<Mbuf>)
      requires pool.Balanced(held + Refs(View(base, segments)))
      modifies this, pool`refcnt, pool`free
      ensures segments == [] && totalBytes == 0
      ensures pool.Balanced(held) && pool.refcnt.Keys == old(pool.refcnt.Keys)
    {
      var ms := seq(|segments|, i requires 0 <= i < |segments| reads this => segments[i].mbuf);
      assert ms == Bufs(View(base, segments));
      pool.FreeAll(ms, held);
      segments, totalBytes := [], 0;
    }
  }
}
