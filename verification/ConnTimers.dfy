/** Connections and their timers: who arms, restarts and cancels the RTO, TLP and SYN timers,
    and why a fired timer only ever acts on the connection that armed it although handles are
    reused without a generation. */
module ConnTimers {
  import opened SeqArith
  import opened FlowTable
  import opened Mempool
  import opened Rack
  import opened Retrans
  import opened TimerWheel
  import opened WheelTime

  // ---------- round-trip estimator ----------

  /** The estimator of RFC 6298 in 32-bit microseconds. */
  datatype Rtt = Rtt(srtt: Option<u32>, rttvar: u32, rto: u32, minRto: u32, maxRto: u32) {

    function Sample(us: u32): Rtt {
      var rtt: u32 := Max(us, 1);
      var rttvar: u32 := match srtt
        case None => rtt / 2
        case Some(s) =>
          var delta := if s <= rtt then rtt - s else s - rtt;
          SeqAdd(rttvar - rttvar / 4, delta / 4);
      var smoothed: u32 := match srtt
        case None => rtt
        case Some(s) => SeqAdd(s - s / 8, rtt / 8);
      var rto := Min(smoothed + Min(4 * rttvar, 0xFFFF_FFFF), 0xFFFF_FFFF);
      Rtt(Some(smoothed), rttvar, Clamp(rto, minRto, maxRto), minRto, maxRto)
    }

    function Backoff(): Rtt { this.(rto := Min(Min(2 * rto, 0xFFFF_FFFF), maxRto)) }

    /** Every smoothed sample and the current timeout are positive. */
    predicate Positive() {
      0 < rto && 0 < maxRto && minRto <= maxRto && (srtt.Some? ==> 0 < srtt.value)
    }
  }

  function Clamp(x: u32, lo: u32, hi: u32): u32 { if x < lo then lo else if x > hi then hi else x }

  function NewRtt(minRto: u32, initialRto: u32, maxRto: u32): Rtt {
    Rtt(None, 0, Max(initialRto, minRto), minRto, maxRto)
  }

  /** The timeout never reaches zero: neither the smoothing (which cannot wrap) nor the
      back-off loses positivity, so it holds forever exactly when it holds at the start. */
  lemma TimeoutStaysPositive(r: Rtt, us: u32)
    requires r.Positive()
    ensures r.Sample(us).Positive() && r.Backoff().Positive()
  {
    var rtt := Max(us, 1);
    if r.srtt.Some? {
      var s := r.srtt.value;
      assert s - s / 8 + rtt / 8 < 0x1_0000_0000;
      assert s - s / 8 > 0;
    }
  }

  // ---------- connections ----------

  /** A connection's timers: one named per kind, and the list of all of them. */
  datatype Timers = Timers(rto: Option<TimerId>, tlp: Option<TimerId>, syn: Option<TimerId>, ids: seq<TimerId>) {

    function Named(k: TimerKind): Option<TimerId> {
      match k
      case Rto => rto
      case Tlp => tlp
      case SynRetrans => syn
      case ApiPublic => None
    }

    function Rename(k: TimerKind, id: Option<TimerId>, all: seq<TimerId>): Timers {
      match k
      case Rto => Timers(id, tlp, syn, all)
      case Tlp => Timers(rto, id, syn, all)
      case SynRetrans => Timers(rto, tlp, id, all)
      case ApiPublic => this
    }

    /** Naming a new timer also puts it on the list. */
    function Name(k: TimerKind, id: TimerId): Timers { Rename(k, Some(id), ids + [id]) }

    /** Clearing a name also takes it off the list. */
    function Unname(k: TimerKind): Timers {
      if Named(k).None? then this else Rename(k, None, Retain(ids, Named(k).value))
    }

    /** What a close path cancels: the list and the named timers, overlaps and all. */
    function All(): seq<TimerId> {
      ids
      + (if rto.Some? then [rto.value] else [])
      + (if tlp.Some? then [tlp.value] else [])
      + (if syn.Some? then [syn.value] else [])
    }

    /** The list is the named timers, each once. */
    ghost predicate Listed() {
      && (forall id :: id in ids <==> rto == Some(id) || tlp == Some(id) || syn == Some(id))
      && Distinct(ids)
    }
  }

  predicate Distinct(ids: seq<TimerId>) { forall i, j :: 0 <= i < j < |ids| ==> ids[i] != ids[j] }

  /** `timer_ids.retain(|t| *t != id)`. */
  function Retain(ids: seq<TimerId>, id: TimerId): (r: seq<TimerId>)
    ensures forall x :: x in r <==> x in ids && x != id
  {
    if ids == [] then []
    else
      assert ids == [ids[0]] + ids[1..];
      if ids[0] == id then Retain(ids[1..], id) else [ids[0]] + Retain(ids[1..], id)
  }

  lemma {:induction false} RetainDistinct(ids: seq<TimerId>, id: TimerId)
    requires Distinct(ids)
    ensures Distinct(Retain(ids, id))
  {
    if ids != [] {
      RetainDistinct(ids[1..], id);
      assert ids[0] !in ids[1..];
    }
  }

  lemma NoTimersListed()
    ensures Timers(None, None, None, []).Listed()
  {
  }

  lemma ListedName(t: Timers, k: TimerKind, id: TimerId)
    requires t.Listed() && t.Named(k).None? && k != ApiPublic && id !in t.ids
    ensures t.Name(k, id).Listed()
  {
  }

  lemma ListedUnname(t: Timers, k: TimerKind)
    requires t.Listed() && t.Named(k).Some?
    requires forall j :: j != k ==> t.Named(j) != t.Named(k)
    ensures t.Unname(k).Listed()
  {
    var id := t.Named(k).value;
    RetainDistinct(t.ids, id);
    assert t.Named(Rto) == t.rto && t.Named(Tlp) == t.tlp && t.Named(SynRetrans) == t.syn;
  }

  datatype Conn = Conn(tuple: FourTuple, state: TcpState, sndUna: u32, sndNxt: u32, retrans: seq<RetransEntry>,
                       rtt: Rtt, rack: RackInfo, timers: Timers, synCount: nat, tlp: TlpBudget,
                       twDeadline: Option<u64>, opts: ConnOpts)
  {
    /** The round trip of the age test: the smoothed one, or the least sample before there is one. */
    function RttUs(): u32 { if rtt.srtt.Some? then rtt.srtt.value else rack.minRttUs }

    /** The gate for arming a tail loss probe. */
    predicate TlpGate() {
      && retrans != [] && timers.tlp.None? && tlp.fired < tlp.max
      && (opts.skipSampleGate || tlp.sampleSeen) && rtt.srtt.Some?
    }
  }

  /** The tail-loss-probe budget and its three hooks. */
  datatype TlpBudget = TlpBudget(max: nat, fired: nat, sampleSeen: bool) {
    function RttSampleHook(): TlpBudget { TlpBudget(max, 0, true) }
    function NewDataHook(): TlpBudget { TlpBudget(max, 0, sampleSeen) }
    function ProbeFiredHook(): TlpBudget { TlpBudget(max, fired + 1, false) }
  }

  /** Per-connection opt-ins. */
  datatype ConnOpts = ConnOpts(noBackoff: bool, skipSampleGate: bool, twSkip: bool, rackAggressive: bool)

  function TupleOf(c: Conn): FourTuple { c.tuple }

  datatype Config = Config(minRtoUs: u32, initialRtoUs: u32, maxRtoUs: u32, maxRetrans: nat) {
    /** The base of the handshake back-off. */
    function SynBase(): u32 { Max(initialRtoUs, minRtoUs) }

    /** A usable configuration: positive timeouts in order. */
    predicate Ok() { 0 < SynBase() && 0 < maxRtoUs && minRtoUs <= maxRtoUs }
  }

  /** `checked_shl`: a 32-bit shift by fewer than 32 places drops the bits shifted out. */
  function Shl32(base: u32, n: nat): u32 { if n < 32 then (base * Pow2(n)) % 0x1_0000_0000 else 0xFFFF_FFFF }

  /** The delay armed after `count` handshake retransmits. */
  function SynDelayUs(base: u32, count: nat): u32 { Shl32(base, Min(count, 6)) }

  /** `align_up_to_tick_ns`. */
  function AlignUp(deadlineNs: nat): nat { (deadlineNs + TICK_NS - 1) / TICK_NS * TICK_NS }

  /** What each connection keeps between steps, apart from how its timers are linked to the
      wheel: a retransmission timer is named exactly when data is in flight, that data is one run
      within a peer's window, an armed probe has data to probe for and budget left, and a handshake
      in progress has its timer and at most three retransmits. */
  ghost predicate Sound(c: Conn) {
    && c.rtt.Positive()
    && (c.timers.rto.Some? <==> c.retrans != []) && (c.timers.tlp.Some? ==> c.retrans != [])
    && InWindowRun(c.retrans, DataEnd(c)) && (c.state == Established ==> Spanned(c.retrans, c.sndUna, c.sndNxt))
    && c.tlp.fired <= c.tlp.max && (c.timers.tlp.Some? ==> c.tlp.fired < c.tlp.max)
    && c.synCount <= 3 && (c.timers.syn.Some? <==> c.state == SynSent)
    && (c.state == SynSent ==> c.retrans == [] && c.sndNxt == SeqAdd(c.sndUna, 1))
  }

  /** Where the data in flight ends: at `snd_nxt`, or just before our FIN. */
  function DataEnd(c: Conn): u32 { if FinOut(c.state) then SeqSub(c.sndNxt, 1) else c.sndNxt }

  /** The reported blocks, one after the other. */
  function MarkAll(es: seq<RetransEntry>, blocks: seq<(u32, u32)>): (r: seq<RetransEntry>)
    ensures |r| == |es|
    decreases |blocks|
  {
    if blocks == [] then es else MarkAll(MarkSacked(es, blocks[0].0, blocks[0].1), blocks[1..])
  }

  /** The acknowledgment number's share: `snd_una`, the estimators and the probe hooks. */
  function AckIn(c: Conn, ack: u32, sample: Option<u32>): Conn {
    if !Acks(c, ack) then c
    else if sample.Some? then
      c.(sndUna := ack, rtt := c.rtt.Sample(sample.value), rack := c.rack.Sampled(sample.value),
          tlp := c.tlp.RttSampleHook())
    else c.(sndUna := ack, tlp := c.tlp.NewDataHook())
  }

  function LearnIn(c: Conn): RackInfo { c.rack.Learn(c.retrans, c.sndUna, c.opts.rackAggressive, c.rtt.srtt) }

  /** The entries the loss detection of an acknowledgment flags. */
  function RackLost(c: Conn, now: u64): seq<u16> {
    OvertakenFrom(c.retrans, 0, LearnIn(c).newest, c.sndUna, now, LearnIn(c).reoWndUs)
  }

  /** Loss detection: learn, flag, and try to resend what was flagged. */
  function RackIn(c: Conn, ok: nat -> bool, now: u64): Conn {
    c.(rack := LearnIn(c), retrans := Attempted(FlagLost(c.retrans, RackLost(c, now)), RackLost(c, now), ok, 0, now))
  }

  /** What a segment accepted in ESTABLISHED makes of the connection's send state: the reported
      blocks, the acknowledgment number, loss detection, and the prune when `snd_una` advanced. An
      acknowledgment of what was never sent stops after the blocks. */
  function AfterAck(c: Conn, blocks: seq<(u32, u32)>, ack: u32, sample: Option<u32>, ok: nat -> bool, now: u64): Conn {
    var s := c.(retrans := MarkAll(c.retrans, blocks));
    if !Acks(c, ack) && SeqLt(c.sndNxt, ack) then s
    else
      var r := RackIn(AckIn(s, ack, sample), ok, now);
      if Acks(c, ack) then r.(retrans := PruneBelow(r.retrans, ack)) else r
  }

  /** What an accepted acknowledgment leaves. In ESTABLISHED everything drained means both
      timers gone; in the closing states only the blocks and `snd_una` are taken in, and in
      TIME_WAIT nothing is. */
  ghost predicate Acked(c: Conn, d: Conn, blocks: seq<(u32, u32)>, ack: u32, sample: Option<u32>, ok: nat -> bool,
                        now: u64) {
    if c.state == Established then
      && d == AfterAck(c, blocks, ack, sample, ok, now).(timers := d.timers)
      && (Acks(c, ack) && d.retrans == [] && ack == c.sndNxt ==> d.timers.rto.None? && d.timers.tlp.None?)
      && (!Acks(c, ack) ==> d.timers.rto == c.timers.rto)
    else
      && d.timers.rto == c.timers.rto
      && if c.state == TimeWait then d == c.(timers := d.timers)
         else d == c.(retrans := MarkAll(c.retrans, blocks), sndUna := if Acks(c, ack) then ack else c.sndUna,
             timers := d.timers)
  }

  lemma {:induction false} MarkAllSame(es: seq<RetransEntry>, blocks: seq<(u32, u32)>)
    ensures SameRun(es, MarkAll(es, blocks))
    decreases |blocks|
  {
    if blocks != [] {
      SackLaws(es, 0, blocks[0].0, blocks[0].1, 0, 0);
      MarkAllSame(MarkSacked(es, blocks[0].0, blocks[0].1), blocks[1..]);
    }
  }

  /** Blocks, flags and resends never change which segments are in flight: what an
      acknowledgment leaves is the prune of what was there. */
  lemma AckKeepsRun(c: Conn, blocks: seq<(u32, u32)>, ack: u32, sample: Option<u32>, ok: nat -> bool, now: u64)
    ensures SameRun(AfterAck(c, blocks, ack, sample, ok, now).retrans, if Acks(c, ack) then PruneBelow(c.retrans, ack)
            else c.retrans)
  {
    hide MarkAll, OvertakenFrom, FlagLost, Attempted, PruneBelow, Acks, SeqLt;
    var s := c.(retrans := MarkAll(c.retrans, blocks));
    MarkAllSame(c.retrans, blocks);
    var a := AckIn(s, ack, sample);
    FlagLostSame(a.retrans, RackLost(a, now));
    AttemptedSame(FlagLost(a.retrans, RackLost(a, now)), RackLost(a, now), ok, 0, now);
    var r := RackIn(a, ok, now);
    assert SameRun(r.retrans, c.retrans);
    PruneSame(r.retrans, c.retrans, ack);
  }

  predicate Acks(c: Conn, ack: u32) { Advances(c.sndUna, c.sndNxt, ack) }

  /** In ESTABLISHED an acknowledgment leaves a run that spans what is then unacknowledged; a list
      that drains has been acknowledged to its end. */
  lemma AckWindow(c: Conn, blocks: seq<(u32, u32)>, ack: u32, sample: Option<u32>, ok: nat -> bool, now: u64)
    requires Sound(c) && c.state == Established
    ensures var d := AfterAck(c, blocks, ack, sample, ok, now);
      && InWindowRun(d.retrans, d.sndNxt) && Spanned(d.retrans, d.sndUna, d.sndNxt)
      && d.sndUna == (if Acks(c, ack) then ack else c.sndUna) && (d.retrans != [] ==> c.retrans != [])
      && (c.retrans != [] && d.retrans == [] ==> Acks(c, ack) && ack == c.sndNxt)
      && (c.retrans != [] && Acks(c, ack) && ack == c.sndNxt ==> d.retrans == [])
  {
    hide MarkAll, OvertakenFrom, FlagLost, Attempted, PruneBelow, Advances, SeqLt, SeqLe, SeqSub, Lens;
    AckKeepsRun(c, blocks, ack, sample, ok, now);
    var d := AfterAck(c, blocks, ack, sample, ok, now);
    if Acks(c, ack) {
      PruneAdvance(c.retrans, c.sndUna, c.sndNxt, ack);
      RunSame(PruneBelow(c.retrans, ack), d.retrans, c.sndNxt);
    } else {
      RunSame(c.retrans, d.retrans, c.sndNxt);
    }
  }

  /** What an acknowledgment leaves alone, and what it keeps positive and within budget. */
  lemma AckFrame(c: Conn, blocks: seq<(u32, u32)>, ack: u32, sample: Option<u32>, ok: nat -> bool, now: u64)
    requires Sound(c)
    ensures var d := AfterAck(c, blocks, ack, sample, ok, now);
      && d.tuple == c.tuple && d.state == c.state && d.sndNxt == c.sndNxt
      && d.timers == c.timers && d.synCount == c.synCount
      && d.rtt.Positive() && d.tlp.max == c.tlp.max && d.tlp.fired <= c.tlp.fired
  {
    hide MarkAll, OvertakenFrom, FlagLost, Attempted, PruneBelow, Advances, SeqLt, Rtt.Sample, RackInfo.Learn,
         RackInfo.Sampled;
    if sample.Some? {
      TimeoutStaysPositive(c.rtt, sample.value);
    }
  }

  /** The two comparisons of the handshake pass for the number behind our SYN, and for the one half
      the space further. */
  lemma SynAckExactly(una: u32, ack: u32)
    ensures SeqLe(SeqAdd(una, 1), ack) && SeqLe(ack, SeqAdd(una, 1)) <==>
              ack == SeqAdd(una, 1) || ack == SeqAdd(SeqAdd(una, 1), 0x8000_0000)
  {
    SubCases(SeqAdd(una, 1), ack);
    SubCases(ack, SeqAdd(una, 1));
    hide SeqSub;
  }

  /** The end of a 2 MSL wait, saturating. */
  function Deadline(now: u64, twoMslNs: u64): u64 { Min(now + twoMslNs, 0xFFFF_FFFF_FFFF_FFFF) }

  function Unnamed(c: Conn, k: TimerKind): Conn { c.(timers := c.timers.Unname(k)) }

  /** One segment of a send: its payload length, and the buffer and header length it got. */
  datatype Piece = Piece(len: u16, mbuf: Mbuf, hdrsLen: nat)

  /** The entries of a send that starts at `start`. */
  function Cut(start: u32, pieces: seq<Piece>, now: u64): (r: seq<RetransEntry>)
    ensures |r| == |pieces|
    decreases |pieces|
  {
    if pieces == [] then []
    else
      var last := pieces[|pieces| - 1];
      var front := pieces[..|pieces| - 1];
      Cut(start, front, now) + [NewEntry(CutEnd(start, front), last.len, last.mbuf, last.hdrsLen, now)]
  }

  function CutEnd(start: u32, pieces: seq<Piece>): u32 {
    if pieces == [] then start else SeqAdd(CutEnd(start, pieces[..|pieces| - 1]), pieces[|pieces| - 1].len)
  }

  /** A send carries a gap-free run on without a gap. */
  lemma {:induction false} CutTiled(es: seq<RetransEntry>, start: u32, pieces: seq<Piece>, now: u64)
    requires Tiled(es, start)
    ensures Tiled(es + Cut(start, pieces, now), CutEnd(start, pieces))
    decreases |pieces|
  {
    hide SeqAdd;
    if pieces == [] {
      assert es + [] == es;
    } else {
      var front := pieces[..|pieces| - 1];
      CutTiled(es, start, front, now);
      var e := Cut(start, pieces, now)[|pieces| - 1];
      assert es + Cut(start, pieces, now) == (es + Cut(start, front, now)) + [e];
    }
  }

  /** The bytes of the pieces. */
  function Bytes(pieces: seq<Piece>): nat
    decreases |pieces|
  {
    if pieces == [] then 0 else Bytes(pieces[..|pieces| - 1]) + pieces[|pieces| - 1].len
  }

  /** Segments, none of them empty, that fit what the peer's window leaves, as `send_bytes` cuts
      them. A 16-bit field scaled by at most fourteen places stays below 2^30. */
  ghost predicate Fits(c: Conn, pieces: seq<Piece>, window: u32) {
    && window < 0x4000_0000 && (forall i :: 0 <= i < |pieces| ==> pieces[i].len > 0)
    && (pieces != [] ==> SeqSub(c.sndNxt, c.sndUna) + Bytes(pieces) <= window)
  }

  lemma {:induction false} CutGrows(es: seq<RetransEntry>, start: u32, pieces: seq<Piece>, now: u64)
    ensures Lens(es + Cut(start, pieces, now)) == Lens(es) + Bytes(pieces)
    ensures CutEnd(start, pieces) == SeqAdd(start, Bytes(pieces))
    decreases |pieces|
  {
    hide SeqAdd;
    if pieces == [] {
      AddZero(start);
      assert es + Cut(start, pieces, now) == es;
    } else {
      var front, last := pieces[..|pieces| - 1], pieces[|pieces| - 1];
      CutGrows(es, start, front, now);
      AddTwice(start, Bytes(front), last.len);
      var grown := es + Cut(start, pieces, now);
      assert grown == (es + Cut(start, front, now)) + [grown[|grown| - 1]];
      assert grown[..|grown| - 1] == es + Cut(start, front, now);
    }
  }

  lemma {:induction false} CutFront(start: u32, pieces: seq<Piece>, now: u64)
    requires pieces != [] && forall i :: 0 <= i < |pieces| ==> pieces[i].len > 0
    ensures Cut(start, pieces, now)[0].len > 0 && Bytes(pieces) > 0
    decreases |pieces|
  {
    if |pieces| > 1 {
      CutFront(start, pieces[..|pieces| - 1], now);
    }
  }

  /** A send within the window leaves a run that spans what is then unacknowledged. */
  lemma SendWindow(c: Conn, pieces: seq<Piece>, window: u32, now: u64)
    requires Sound(c) && c.state == Established && Fits(c, pieces, window)
    ensures var es := c.retrans + Cut(c.sndNxt, pieces, now);
      InWindowRun(es, CutEnd(c.sndNxt, pieces)) && Spanned(es, c.sndUna, CutEnd(c.sndNxt, pieces))
  {
    hide Lens, SeqAdd, SeqSub, Tiled;
    var es := c.retrans + Cut(c.sndNxt, pieces, now);
    CutTiled(c.retrans, c.sndNxt, pieces, now);
    CutGrows(c.retrans, c.sndNxt, pieces, now);
    if pieces != [] {
      CutFront(c.sndNxt, pieces, now);
    }
    GrownRun(c.retrans, es, c.sndUna, c.sndNxt, Bytes(pieces));
  }

  function RtoList(c: Conn, ok: nat -> bool, now: u64): (r: seq<RetransEntry>)
    ensures |r| == |c.retrans|
  {
    AfterRto(c.retrans, c.sndUna, c.RttUs(), c.rack.reoWndUs, ok, now)
  }

  lemma RtoSame(c: Conn, ok: nat -> bool, now: u64)
    requires InWindowRun(c.retrans, DataEnd(c))
    ensures SameRun(c.retrans, RtoList(c, ok, now)) && InWindowRun(RtoList(c, ok, now), DataEnd(c))
    ensures Spanned(c.retrans, c.sndUna, c.sndNxt) ==> Spanned(RtoList(c, ok, now), c.sndUna, c.sndNxt)
  {
    hide FlagLost, Attempted, MarkedFrom, InWindowRun, Spanned;
    var marked := MarkedFrom(c.retrans, 0, c.sndUna, c.RttUs(), c.rack.reoWndUs, now);
    var idxs := Attempts(c.retrans, c.sndUna, c.RttUs(), c.rack.reoWndUs, now);
    FlagLostSame(c.retrans, marked);
    AttemptedSame(FlagLost(c.retrans, marked), idxs, ok, 0, now);
    RunSame(c.retrans, RtoList(c, ok, now), DataEnd(c));
  }

  /** What a current RTO fire makes of a connection: closed exactly when its front entry is then
      over budget, and otherwise armed again behind the resends. */
  ghost predicate RtoFired(c: Conn, after: Option<Conn>, ok: nat -> bool, now: u64, maxRetrans: nat) {
    && c.retrans != [] && (after.None? <==> RtoList(c, ok, now)[0].xmitCount > maxRetrans)
    && (after.Some? ==>
          var d := after.value;
          && d.timers.rto.Some?
          && d == c.(retrans := RtoList(c, ok, now), rtt := if c.opts.noBackoff then c.rtt else c.rtt.Backoff(),
                     timers := c.timers.Unname(Rto).Name(Rto, d.timers.rto.value)))
  }

  /** A fire that does not attempt the front cannot close a connection whose front is within
      budget; with a front left flagged by a failed resend that is every fire that marks anything. */
  lemma FlaggedFrontSurvives(c: Conn, after: Option<Conn>, ok: nat -> bool, now: u64, maxRetrans: nat, i: nat)
    requires RtoFired(c, after, ok, now, maxRetrans) && i < |c.retrans| <= 0x1_0000
    requires c.retrans[0].lost && c.retrans[0].xmitCount <= maxRetrans
    requires LostOnRto(c.retrans[i], c.sndUna, c.RttUs(), c.rack.reoWndUs, now)
    ensures after.Some? && after.value.retrans != [] && after.value.retrans[0] == c.retrans[0]
  {
    FrontAttempted(c.retrans, c.sndUna, c.RttUs(), c.rack.reoWndUs, now);
    RtoEffect(c.retrans, c.sndUna, c.RttUs(), c.rack.reoWndUs, ok, now, 0);
  }

  lemma NewRttPositive(cfg: Config)
    requires cfg.Ok()
    ensures NewRtt(cfg.minRtoUs, cfg.initialRtoUs, cfg.maxRtoUs).Positive()
  {
  }

  lemma SynDelayZero(base: u32)
    ensures SynDelayUs(base, 0) == base
  {
    assert Pow2(0) == 1;
  }

  /** The four handshake delays double exactly for bases below 2^29 microseconds; from there on
      the 32-bit shift drops bits. Below it a handshake waits fifteen bases before giving up. */
  lemma SynBackoff(base: u32)
    ensures (forall n :: 0 <= n <= 3 ==> SynDelayUs(base, n) == base * Pow2(n)) <==> base < 0x2000_0000
    ensures base < 0x2000_0000 ==>
              SynDelayUs(base, 0) + SynDelayUs(base, 1) + SynDelayUs(base, 2) + SynDelayUs(base, 3) == 15 * base
  {
    assert Pow2(0) == 1 && Pow2(1) == 2 && Pow2(2) == 4 && Pow2(3) == 8;
    assert forall n :: 0 <= n <= 3 ==> SynDelayUs(base, n) == (base * Pow2(n)) % 0x1_0000_0000;
    if base < 0x2000_0000 {
      forall n | 0 <= n <= 3
        ensures SynDelayUs(base, n) == base * Pow2(n)
      {
        assert n == 0 || n == 1 || n == 2 || n == 3;
      }
    } else {
      assert SynDelayUs(base, 3) < 0x1_0000_0000 <= base * Pow2(3);
    }
  }

  /** An acknowledgment of everything in flight cancels the retransmission timer exactly in
      ESTABLISHED; in the closing states the list and the timer stay, though nothing is left
      to recover. */
  lemma FullAckCancels(c: Conn, d: Conn, blocks: seq<(u32, u32)>, ack: u32, sample: Option<u32>, ok: nat -> bool,
                       now: u64)
    requires Sound(c) && c.retrans != [] && Acked(c, d, blocks, ack, sample, ok, now) && Acks(c, ack)
    requires ack == c.sndNxt
    ensures d.timers.rto.None? <==> c.state == Established
  {
    hide AfterAck, Advances, InWindowRun, Spanned;
    if c.state == Established {
      AckWindow(c, blocks, ack, sample, ok, now);
    }
  }

  /** A run of current retransmission fires with nothing in between. */
  ghost predicate FireRun(c: Conn, fires: seq<Fire>, after: Option<Conn>, maxRetrans: nat)
    decreases |fires|
  {
    if fires == [] then after == Some(c)
    else exists d: Option<Conn> ::
           RtoFired(c, d, fires[0].ok, fires[0].now, maxRetrans)
           && if d.None? then after.None? else FireRun(d.value, fires[1..], after, maxRetrans)
  }

  /** In a closing state everything may be acknowledged and still listed. */
  lemma DrainedCovered(c: Conn, i: nat)
    requires Sound(c) && c.state != Established && (c.sndUna == c.sndNxt || c.sndUna == DataEnd(c)) && i < |c.retrans|
    ensures SeqLe(c.retrans[i].EndSeq(), c.sndUna)
  {
    hide Lens, SeqSub, SeqAdd, SeqLe, DataEnd;
    FinBefore(c);
    RunOffset(c.retrans, DataEnd(c), i);
    RunOffset(c.retrans, DataEnd(c), |c.retrans| - 1);
    assert c.retrans[1..|c.retrans|] == c.retrans[1..];
    BehindEnd(c.retrans[0].EndSeq(), c.retrans[i].EndSeq(), DataEnd(c));
  }

  lemma FinBefore(c: Conn)
    ensures c.sndNxt == DataEnd(c) || c.sndNxt == SeqAdd(DataEnd(c), 1)
  {
  }

  lemma BehindEnd(base: u32, s: u32, end: u32)
    requires Off(base, s) <= Off(base, end) < 0x4000_0000
    ensures SeqLe(s, end) && SeqLe(s, SeqAdd(end, 1))
  {
    SeqOrder(base, s, end);
    OffAdd(base, end, 1);
    SeqOrder(base, s, SeqAdd(end, 1));
  }

  /** With everything acknowledged in a closing state the timer goes on: each fire marks nothing and
      tries to resend the acknowledged front, and the success that brings its count over the budget
      closes the connection with a timeout. */
  lemma {:induction false} DrainedTimesOut(c: Conn, fires: seq<Fire>, after: Option<Conn>, maxRetrans: nat)
    requires c.retrans != [] && AllCovered(c.retrans, c.sndUna) && FireRun(c, fires, after, maxRetrans)
    requires c.retrans[0].xmitCount <= maxRetrans < 0xFFFF
    ensures after.None? <==> c.retrans[0].xmitCount + Successes(fires) > maxRetrans
    decreases |fires|
  {
    hide SeqLe, AfterRto;
    if fires != [] {
      var d :| RtoFired(c, d, fires[0].ok, fires[0].now, maxRetrans)
               && if d.None? then after.None? else FireRun(d.value, fires[1..], after, maxRetrans);
      CoveredFire(c.retrans, c.sndUna, c.RttUs(), c.rack.reoWndUs, fires[0].ok, fires[0].now);
      var next := c.retrans[0 := c.retrans[0].Again(fires[0].now)];
      assert next[0].EndSeq() == c.retrans[0].EndSeq();
      if d.Some? {
        DrainedTimesOut(d.value, fires[1..], after, maxRetrans);
      }
    }
  }

  /** A batch by id. */
  function FiredMap(fired: seq<Fired>): map<TimerId, TimerNode> {
    if fired == [] then map[] else FiredMap(fired[1..])[fired[0].id := fired[0].node]
  }

  lemma FiredMapEmpty()
    ensures FiredMap([]) == map[]
  {
  }

  lemma {:induction false} FiredMapIs(fired: seq<Fired>)
    requires DistinctIds(fired)
    ensures FiredMap(fired).Keys == Ids(fired)
    ensures forall f :: f in fired ==> f.id in FiredMap(fired) && FiredMap(fired)[f.id] == f.node
  {
    if fired != [] {
      FiredMapIs(fired[1..]);
      assert fired == [fired[0]] + fired[1..];
      assert forall f :: f in fired[1..] ==> f.id != fired[0].id;
    }
  }

  lemma IdsOf(fired: seq<Fired>)
    ensures forall id :: id in Ids(fired) ==> exists f :: f in fired && f.id == id
  {
  }

  lemma FiredMapFront(fired: seq<Fired>)
    requires DistinctIds(fired) && fired != []
    ensures fired[0].id in FiredMap(fired) && FiredMap(fired)[fired[0].id] == fired[0].node
    ensures FiredMap(fired) - {fired[0].id} == FiredMap(fired[1..]) && DistinctIds(fired[1..])
  {
    FiredMapIs(fired[1..]);
    assert fired[0].id !in Ids(fired[1..]);
  }

  predicate Increasing(hs: seq<nat>) { forall i, j :: 0 <= i < j < |hs| ==> hs[i] < hs[j] }

  lemma IncreasingSnoc(all: seq<nat>, some: seq<nat>, h: nat)
    requires Increasing(all + [h]) && Increasing(some) && forall g :: g in some ==> g in all
    ensures Increasing(some + [h])
  {
    forall i | 0 <= i < |some|
      ensures some[i] < h
    {
      assert some[i] in all;
      var j :| 0 <= j < |all| && all[j] == some[i];
      assert (all + [h])[j] < (all + [h])[|all|];
    }
  }

  datatype Notice =
    | StateChange(h: nat, from: TcpState, to: TcpState)
    | Connected(h: nat)
    | Error(h: nat, err: int)
    | ClosedEvent(h: nat, err: int)

  const ETIMEDOUT: int := 110

  class Engine {
    const table: Table<Conn>
    const wheel: Wheel
    const cfg: Config
    var events: seq<Notice>
    /** The batch entries not yet dispatched; the serial number of the connection in each slot;
        and for every id handed out, who armed it. */
    ghost var pending: map<TimerId, TimerNode>
    ghost var serial: map<nat, nat>
    ghost var armedBy: map<TimerId, nat>
    ghost var nextSerial: nat
    ghost var synWaits: map<nat, seq<u32>>
    /** For each connection that has sent its FIN, whether data was in flight then. */
    ghost var hadData: map<nat, bool>

    constructor (cfg: Config, maxConnections: nat)
      requires cfg.Ok()
      ensures Valid() && fresh(table) && fresh(wheel) && this.cfg == cfg && |table.slots| == maxConnections
      ensures pending == map[] && wheel.batch == {} && wheel.slots == [] && events == []
      ensures maxConnections > 0 ==> forall t :: !table.Refuses(t)
    {
      this.cfg := cfg;
      table := new Table(maxConnections, TupleOf);
      wheel := new Wheel();
      events, pending, serial, armedBy, nextSerial, synWaits, hadData := [], map[], map[], map[], 0, map[], map[];
    }

    /** The node behind an id: live on the wheel, or fired and waiting its turn. */
    ghost function NodeOf(id: TimerId): Option<TimerNode>
      reads this`pending, wheel`slots
    {
      if wheel.Get(id).Some? then wheel.Get(id)
      else if id in pending then Some(pending[id])
      else None
    }

    /** A named timer exists, belongs to this slot and kind, and was armed by the very
        connection that names it. */
    ghost predicate NamesOk(h: nat, k: TimerKind)
      reads this`pending, this`serial, this`armedBy, table, wheel`slots
    {
      table.Get(h).Some? && table.Get(h).value.timers.Named(k).Some? ==>
        var id := table.Get(h).value.timers.Named(k).value;
        && NodeOf(id).Some? && NodeOf(id).value.owner == h && NodeOf(id).value.kind == k
        && h in serial && id in armedBy && armedBy[id] == serial[h]
    }

    /** A live kernel timer is named by the connection in its owner's slot. */
    ghost predicate Owned(id: TimerId)
      reads table, wheel`slots
    {
      wheel.Get(id).Some? && wheel.Get(id).value.kind != ApiPublic ==>
        var n := wheel.Get(id).value;
        table.Get(n.owner).Some? && table.Get(n.owner).value.timers.Named(n.kind) == Some(id)
    }

    ghost predicate Links()
      reads this`pending, this`serial, this`armedBy, table, wheel
    {
      && table.Valid() && wheel.Valid() && table.key == TupleOf
      && (forall h: nat, k :: NamesOk(h, k))
      && (forall id :: Owned(id))
      && (forall id :: id in pending ==> id in wheel.batch && wheel.Get(id).None?)
      && (forall h: nat :: table.Get(h).Some? ==> table.Get(h).value.timers.Listed())
    }

    /** What holds of the connection in slot `h` between steps: `synWaits` records the delays
        armed for its handshake so far, and behind its FIN data is in flight exactly when it was as
        the FIN went out. */
    ghost predicate SlotOk(h: nat)
      reads this`serial, this`nextSerial, this`synWaits, this`hadData, table
    {
      table.Get(h).Some? ==>
        var c := table.Get(h).value;
        && Sound(c) && h in serial && serial[h] < nextSerial
        && (FinOut(c.state) ==> serial[h] in hadData && (hadData[serial[h]] <==> c.retrans != []))
        && (c.state == SynSent ==>
              && serial[h] in synWaits && |synWaits[serial[h]]| == c.synCount + 1
              && forall i :: 0 <= i <= c.synCount ==> synWaits[serial[h]][i] == SynDelayUs(cfg.SynBase(), i))
    }

    ghost predicate Slots()
      reads this`serial, this`nextSerial, this`synWaits, this`hadData, table
    {
      && (forall h: nat :: SlotOk(h))
      && (forall g: nat, h: nat :: g != h && table.Get(g).Some? && table.Get(h).Some? && g in serial && h in serial ==>
                serial[g] != serial[h])
    }

    ghost predicate Valid()
      reads this`pending, this`serial, this`armedBy, this`nextSerial, this`synWaits, this`hadData, table, wheel
    {
      Links() && cfg.Ok() && Slots()
    }

    /** What a listed id stands for. */
    lemma ListedIn(c: Conn, h: nat)
      requires Links() && table.Get(h) == Some(c)
      ensures c.timers.Listed() && forall id :: id in c.timers.ids ==> NodeOf(id).Some?
    {
      assert NamesOk(h, Rto) && NamesOk(h, Tlp) && NamesOk(h, SynRetrans);
    }

    /** Arms a timer of kind `k` for the connection in slot `h`. */
    method Arm(h: nat, k: TimerKind, now: nat, delayUs: nat) returns (id: TimerId)
      requires Links() && wheel.HasRoom() && k != ApiPublic
      requires table.Get(h).Some? && table.Get(h).value.timers.Named(k).None? && h in serial
      modifies table`slots, wheel, this`armedBy
      ensures Links() && wheel.batch == old(wheel.batch) && wheel.adds == old(wheel.adds) + 1
              && wheel.lastTick == old(wheel.lastTick)
      ensures |wheel.slots| <= |old(wheel.slots)| + 1
      ensures var c := old(table.Get(h)).value;
        table.slots == old(table.slots)[h - 1 := Some(c.(timers := c.timers.Name(k, id)))]
      ensures wheel.Get(id).Some? && wheel.Get(id).value.fireAtNs == now + delayUs * 1000
      ensures wheel.span == old(wheel.span)[id.slot := SpanFor(wheel.lastTick, now, now + delayUs * 1000)]
      ensures forall i: nat :: i != h ==> table.Get(i) == old(table.Get(i))
      ensures var c := old(table.Get(h)).value; table.Get(h) == Some(c.(timers := c.timers.Name(k, id)))
      ensures forall x :: old(wheel.Get(x)).Some? ==> wheel.Get(x) == old(wheel.Get(x))
    {
      hide Wheel.Valid, Table.Valid, Wheel.Get, Table.Get, Timers.Listed;
      var c := table.Get(h).value;
      ListedIn(c, h);
      id := wheel.Add(now, TimerNode(now + delayUs * 1000, h, k, 0, 0, false));
      assert old(NodeOf(id)).None?;
      ListedName(c.timers, k, id);
      table.Update(h, c.(timers := c.timers.Name(k, id)));
      armedBy := armedBy[id := serial[h]];
      assert table.Get(h).value.timers.Named(k) == Some(id);
      forall h': nat, k': TimerKind
        ensures NamesOk(h', k')
      {
        assert old(NamesOk(h', k'));
      }
      forall x: TimerId
        ensures Owned(x)
      {
        assert old(Owned(x));
      }
      assert forall x :: x in pending ==> x != id;
    }

    /** A free slot has no live kernel timer, so whoever is put there next starts clean. */
    lemma FreeSlotHasNoTimers(h: nat)
      requires Links() && table.Get(h).None?
      ensures forall x :: wheel.Get(x).Some? && wheel.Get(x).value.owner == h ==> wheel.Get(x).value.kind == ApiPublic
    {
      forall x | wheel.Get(x).Some? && wheel.Get(x).value.owner == h
        ensures wheel.Get(x).value.kind == ApiPublic
      {
        assert Owned(x);
      }
    }

    /** A connection never has two live timers of one kind. */
    lemma OneTimerPerKind(x: TimerId, y: TimerId)
      requires Links() && wheel.Get(x).Some? && wheel.Get(y).Some?
      requires wheel.Get(x).value.kind == wheel.Get(y).value.kind != ApiPublic
      requires wheel.Get(x).value.owner == wheel.Get(y).value.owner
      ensures x == y
    {
      assert Owned(x) && Owned(y);
    }

    /** A live retransmission timer of slot `h`. */
    ghost predicate RtoOf(h: nat, id: TimerId)
      reads wheel`slots
    {
      wheel.Get(id).Some? && wheel.Get(id).value.kind == Rto && wheel.Get(id).value.owner == h
    }

    /** Between batches a connection has a live retransmission timer exactly when data is in flight:
        the one it names, armed by this very connection, and not overdue. */
    lemma RtoRunning(h: nat)
      requires Valid() && pending == map[] && table.Get(h).Some?
      ensures (exists x :: RtoOf(h, x)) <==> table.Get(h).value.retrans != []
      ensures table.Get(h).value.retrans != [] ==>
                && table.Get(h).value.timers.rto.Some?
                && var id := table.Get(h).value.timers.rto.value;
                  && (forall x :: RtoOf(h, x) <==> x == id)
                  && h in serial && id in armedBy && armedBy[id] == serial[h]
                  && id.slot in wheel.span && wheel.lastTick < wheel.span[id.slot].hi
    {
      hide Wheel.Valid, Table.Valid, Wheel.Get, Table.Get, Timers.Listed, InWindowRun, Spanned;
      assert SlotOk(h) && NamesOk(h, Rto);
      var c := table.Get(h).value;
      assert c.timers.Named(Rto) == c.timers.rto;
      forall x | RtoOf(h, x)
        ensures c.timers.rto == Some(x)
      {
        assert Owned(x);
      }
      if c.retrans != [] {
        assert RtoOf(h, c.timers.rto.value);
        wheel.NoneOverdue(c.timers.rto.value);
      }
    }

    /** Behind our FIN a retransmission timer runs exactly when data was in flight as it went out:
        the FIN itself is never covered, and no later step arms a timer for it. */
    lemma FinTimer(h: nat)
      requires Valid() && pending == map[] && table.Get(h).Some? && FinOut(table.Get(h).value.state)
      ensures h in serial && serial[h] in hadData && ((exists x :: RtoOf(h, x)) <==> hadData[serial[h]])
    {
      hide Wheel.Valid, Table.Valid, Wheel.Get, Table.Get, Links, Sound;
      assert SlotOk(h);
      RtoRunning(h);
    }

    /** A handshake timer lives exactly in SYN_SENT. */
    lemma HandshakeTimer(h: nat)
      requires Valid() && pending == map[] && table.Get(h).Some?
      ensures (exists x :: wheel.Get(x).Some? && wheel.Get(x).value.kind == SynRetrans && wheel.Get(x).value.owner == h)
                <==> table.Get(h).value.state == SynSent
    {
      hide Wheel.Valid, Table.Valid, Wheel.Get, Table.Get, Timers.Listed, InWindowRun, Spanned;
      assert SlotOk(h) && NamesOk(h, SynRetrans);
      var c := table.Get(h).value;
      assert c.timers.Named(SynRetrans) == c.timers.syn;
      if x :| wheel.Get(x).Some? && wheel.Get(x).value.kind == SynRetrans && wheel.Get(x).value.owner == h {
        assert Owned(x);
      }
      if c.timers.syn.Some? {
        assert wheel.Get(c.timers.syn.value).Some?;
      }
    }

    lemma TimersOfOwned(c: Conn, h: nat)
      requires Links() && table.Get(h) == Some(c)
      ensures forall x :: x in c.timers.All() ==> NodeOf(x).Some? && NodeOf(x).value.owner == h
      ensures forall k: TimerKind :: c.timers.Named(k).Some? ==> c.timers.Named(k).value in c.timers.All()
    {
      assert NamesOk(h, Rto) && NamesOk(h, Tlp) && NamesOk(h, SynRetrans);
    }

    /** A write to a connection that leaves its tuple and its timers alone. */
    method SetConn(h: nat, c: Conn)
      requires Links() && table.Get(h).Some?
      requires c.tuple == table.Get(h).value.tuple && c.timers == table.Get(h).value.timers
      modifies table`slots
      ensures Links() && table.slots == old(table.slots)[h - 1 := Some(c)]
      ensures table.Get(h) == Some(c)
      ensures forall i: nat :: i != h ==> table.Get(i) == old(table.Get(i))
    {
      hide Wheel.Valid, Table.Valid, Wheel.Get, Table.Get;
      table.Update(h, c);
      forall h': nat, k': TimerKind
        ensures NamesOk(h', k')
      {
        assert old(NamesOk(h', k'));
      }
      forall x: TimerId
        ensures Owned(x)
      {
        assert old(Owned(x));
      }
    }

    /** Clears the name of a timer that is no longer live. */
    method Forget(h: nat, k: TimerKind, id: TimerId)
      requires Links() && table.Get(h).Some? && table.Get(h).value.timers.Named(k) == Some(id)
      requires wheel.Get(id).None?
      modifies table`slots
      ensures Links()
      ensures table.Get(h) == Some(Unnamed(old(table.Get(h)).value, k))
      ensures forall i: nat :: i != h ==> table.Get(i) == old(table.Get(i))
    {
      hide Wheel.Valid, Table.Valid, Wheel.Get, Table.Get, Timers.Listed;
      var c := table.Get(h).value;
      forall j: TimerKind | j != k
        ensures c.timers.Named(j) != Some(id)
      {
        assert NamesOk(h, j) && NamesOk(h, k);
      }
      ListedUnname(c.timers, k);
      table.Update(h, Unnamed(c, k));
      forall h': nat, k': TimerKind
        ensures NamesOk(h', k')
      {
        assert old(NamesOk(h', k'));
      }
      forall x: TimerId
        ensures Owned(x)
      {
        assert old(Owned(x));
      }
    }

    /** Cancels the timer of kind `k`, if the connection names one, and clears the name. */
    method Disarm(h: nat, k: TimerKind)
      requires Links() && table.Get(h).Some?
      modifies table`slots, wheel`slots
      ensures Links() && |wheel.slots| == |old(wheel.slots)|
      ensures table.Get(h) == Some(Unnamed(old(table.Get(h)).value, k))
      ensures forall i: nat :: i != h ==> table.Get(i) == old(table.Get(i))
      ensures forall x :: wheel.Get(x).Some? ==> wheel.Get(x) == old(wheel.Get(x))
    {
      hide Wheel.Valid, Table.Valid, Wheel.Get, Table.Get, Timers.Listed;
      var c := table.Get(h).value;
      if c.timers.Named(k).Some? {
        var id := c.timers.Named(k).value;
        forall j: TimerKind | j != k
          ensures c.timers.Named(j) != Some(id)
        {
          assert NamesOk(h, j) && NamesOk(h, k);
        }
        ListedUnname(c.timers, k);
        var found := wheel.Cancel(id);
        table.Update(h, Unnamed(c, k));
        forall h': nat, k': TimerKind
          ensures NamesOk(h', k')
        {
          assert old(NamesOk(h', k')) && old(NamesOk(h, k));
        }
        forall x: TimerId
          ensures Owned(x)
        {
          assert old(Owned(x));
        }
      }
    }

    /** The removal shared by every close path: cancels everything the connection lists or
        names, then frees the slot. No live kernel timer of the handle stays behind. */
    method RemoveConn(h: nat)
      requires Links() && table.Get(h).Some?
      modifies table, wheel`slots
      ensures Links() && |wheel.slots| == |old(wheel.slots)|
      ensures table.Get(h) == None
      ensures forall i: nat :: i != h ==> table.Get(i) == old(table.Get(i))
      ensures forall x :: wheel.Get(x).Some? ==> wheel.Get(x) == old(wheel.Get(x))
    {
      hide Wheel.Valid, Table.Valid, Wheel.Get, Table.Get, Timers.Listed, Timers.All;
      var c := table.Get(h).value;
      var ids := c.timers.All();
      TimersOfOwned(c, h);
      wheel.CancelAll(ids);
      var gone := table.Remove(h);
      forall h': nat, k': TimerKind
        ensures NamesOk(h', k')
      {
        assert old(NamesOk(h', k'));
      }
      forall x: TimerId
        ensures Owned(x)
      {
        assert old(Owned(x));
      }
    }

    // ---------- steps ----------

    /** A step on the connection in slot `h` that keeps it sound keeps everything. */
    twostate lemma StepOk(h: nat)
      requires old(Slots()) && Links() && cfg.Ok()
      requires forall i: nat :: i != h ==> table.Get(i) == old(table.Get(i))
      requires old(table.Get(h)).Some? && table.Get(h).Some? && Sound(table.Get(h).value)
      requires table.Get(h).value.state == SynSent ==>
                 old(table.Get(h)).value.state == SynSent
                     && table.Get(h).value.synCount == old(table.Get(h)).value.synCount
      requires FinOut(table.Get(h).value.state) ==>
                 FinOut(old(table.Get(h)).value.state)
                     && (table.Get(h).value.retrans == [] <==> old(table.Get(h)).value.retrans == [])
      requires unchanged(this`serial) && unchanged(this`nextSerial) && unchanged(this`synWaits)
      requires unchanged(this`hadData)
      ensures Valid()
    {
      hide Sound, SynDelayUs, Table.Get;
      forall i: nat
        ensures SlotOk(i)
      {
        assert old(SlotOk(i));
      }
    }

    /** The id names a live timer due at `at`. */
    ghost predicate Due(id: Option<TimerId>, at: nat)
      reads wheel`slots
    {
      id.Some? && wheel.Get(id.value).Some? && wheel.Get(id.value).value.fireAtNs == at
    }

    lemma SlotSound(h: nat)
      requires Slots() && table.Get(h).Some?
      ensures Sound(table.Get(h).value) && h in serial
    {
      assert SlotOk(h);
    }

    lemma SoundAt(h: nat)
      requires Valid() && table.Get(h).Some?
      ensures Sound(table.Get(h).value) && h in serial
    {
      SlotSound(h);
    }

    /** `arm_tlp_pto`: arms a probe `ptoUs` ahead when the gate passes. */
    method ArmTlpPto(h: nat, ptoUs: u32, now: nat)
      requires Valid() && wheel.HasRoom() && table.Get(h).Some?
      modifies table`slots, wheel, this`armedBy
      ensures Valid() && wheel.batch == old(wheel.batch) && wheel.adds <= old(wheel.adds) + 1
              && |wheel.slots| <= |old(wheel.slots)| + 1
      ensures forall i: nat :: i != h ==> table.Get(i) == old(table.Get(i))
      ensures var c := old(table.Get(h)).value; table.Get(h).Some? && var d := table.Get(h).value;
        if c.TlpGate() then Due(d.timers.tlp, now + ptoUs * 1000)
            && d == c.(timers := c.timers.Name(Tlp, d.timers.tlp.value)) else d == c
      ensures forall x :: old(wheel.Get(x)).Some? ==> wheel.Get(x) == old(wheel.Get(x))
    {
      hide Links, Wheel.Valid, Table.Valid, Table.Get, Wheel.Get, Slots, SlotOk;
      var c := table.Get(h).value;
      SlotSound(h);
      if c.TlpGate() {
        var id := Arm(h, Tlp, now, ptoUs);
        StepOk(h);
      }
    }

    /** Nothing left in flight: the retransmission and the probe timer go. */
    method CancelWhenDrained(h: nat)
      requires Links() && table.Get(h).Some?
      modifies table`slots, wheel`slots
      ensures Links() && |wheel.slots| == |old(wheel.slots)|
      ensures table.Get(h) == Some(Unnamed(Unnamed(old(table.Get(h)).value, Rto), Tlp))
      ensures forall i: nat :: i != h ==> table.Get(i) == old(table.Get(i))
    {
      hide Links, Wheel.Valid, Table.Valid, Table.Get, Wheel.Get, Retain;
      Disarm(h, Rto);
      Disarm(h, Tlp);
    }

    /** A partial acknowledgment restarts the retransmission timer. */
    method RestartRto(h: nat, now: nat)
      requires Links() && table.Get(h).Some? && table.Get(h).value.timers.rto.Some? && wheel.HasRoom()
      requires table.Get(h).value.rtt.Positive() && h in serial
      modifies table`slots, wheel, this`armedBy
      ensures Links() && wheel.batch == old(wheel.batch) && wheel.adds == old(wheel.adds) + 1
              && |wheel.slots| <= |old(wheel.slots)| + 1
      ensures forall i: nat :: i != h ==> table.Get(i) == old(table.Get(i))
      ensures table.Get(h).Some? && Due(table.Get(h).value.timers.rto, now + old(table.Get(h)).value.rtt.rto * 1000)
      ensures var c := Unnamed(old(table.Get(h)).value, Rto); var d := table.Get(h).value;
        d == c.(timers := c.timers.Name(Rto, d.timers.rto.value))
    {
      hide Links, Wheel.Valid, Table.Valid, Table.Get, Wheel.Get, Retain;
      var rto := table.Get(h).value.rtt.rto;
      Disarm(h, Rto);
      if rto > 0 {
        var id := Arm(h, Rto, now, rto);
      }
    }

    /** The ESTABLISHED handler's share of an accepted segment, and the timer block behind it. */
    method AckEstablished(h: nat, blocks: seq<(u32, u32)>, ack: u32, sample: Option<u32>, ok: nat -> bool, now: u64)
      requires Valid() && table.Get(h).Some? && table.Get(h).value.state == Established && wheel.HasRoom()
      modifies table`slots, wheel, this`armedBy
      ensures Valid() && wheel.batch == old(wheel.batch) && wheel.adds <= old(wheel.adds) + 1
      ensures |wheel.slots| <= |old(wheel.slots)| + 1
      ensures forall i: nat :: i != h ==> table.Get(i) == old(table.Get(i))
      ensures table.Get(h).Some? && Acked(old(table.Get(h)).value, table.Get(h).value, blocks, ack, sample, ok, now)
      ensures var d := table.Get(h).value; d.retrans != [] && Acks(old(table.Get(h)).value, ack) ==>
                Due(d.timers.rto, now + d.rtt.rto * 1000)
    {
      hide Links, Wheel.Valid, Table.Valid, Table.Get, Wheel.Get, Slots, SlotOk, Rtt.Sample, Rtt.Backoff, SeqLt, SeqLe,
           SeqSub, SeqAdd, AsI32, Retain, PruneBelow, Timers.Listed, Wheel.HasRoom, MarkAll, OvertakenFrom, FlagLost,
           Attempted, RackInfo.Learn, RackInfo.Sampled, Advances, InWindowRun, Spanned, AfterAck;
      var c := table.Get(h).value;
      SlotSound(h);
      AckFrame(c, blocks, ack, sample, ok, now);
      AckWindow(c, blocks, ack, sample, ok, now);
      var d := AfterAck(c, blocks, ack, sample, ok, now);
      SetConn(h, d);
      if Acks(c, ack) {
        if d.retrans == [] && d.sndUna == d.sndNxt {
          CancelWhenDrained(h);
        }
        if d.retrans != [] && d.timers.rto.Some? {
          RestartRto(h, now);
        }
      }
      StepOk(h);
    }

    /** Acknowledgment processing of an accepted segment, and the probe timer behind it. Only the
        ESTABLISHED handler detects losses and reports the advance; the closing states take in
        the blocks and `snd_una`, TIME_WAIT nothing. */
    method AckInput(h: nat, blocks: seq<(u32, u32)>, ack: u32, sample: Option<u32>, ok: nat -> bool, ptoUs: u32,
                    now: u64)
      requires Valid() && table.Get(h).Some?
      requires var st := table.Get(h).value.state; st != Closed && st != SynSent
      requires wheel.batch == {} && |wheel.slots| + 2 <= 0xFFFF_FFFF
      modifies table`slots, wheel, this`armedBy
      ensures Valid() && wheel.batch == {} && |wheel.slots| <= |old(wheel.slots)| + 2
      ensures forall i: nat :: i != h ==> table.Get(i) == old(table.Get(i))
      ensures table.Get(h).Some? && Acked(old(table.Get(h)).value, table.Get(h).value, blocks, ack, sample, ok, now)
      ensures var c, d := old(table.Get(h)).value, table.Get(h).value;
                d.retrans != [] && Acks(c, ack) && c.state == Established ==> Due(d.timers.rto, now + d.rtt.rto * 1000)
    {
      hide Links, Wheel.Valid, Table.Valid, Table.Get, Wheel.Get, Slots, SlotOk, Rtt.Sample, SeqLt, SeqLe, SeqSub,
           SeqAdd, AsI32, Retain, PruneBelow, Timers.Listed, AfterAck, MarkAll, Advances, InWindowRun, Spanned;
      var c := table.Get(h).value;
      SlotSound(h);
      if c.state == Established {
        AckEstablished(h, blocks, ack, sample, ok, now);
      } else if c.state != TimeWait {
        MarkAllSame(c.retrans, blocks);
        RunSame(c.retrans, MarkAll(c.retrans, blocks), DataEnd(c));
        SetConn(h, c.(retrans := MarkAll(c.retrans, blocks), sndUna := if Acks(c, ack) then ack else c.sndUna));
        StepOk(h);
      }
      ArmTlpPto(h, ptoUs, now);
    }

    /** One segment pushed by `send_bytes`; the first one in flight arms the timer. */
    method PushSegment(h: nat, e: RetransEntry, now: nat)
      requires Links() && table.Get(h).Some? && table.Get(h).value.rtt.Positive() && h in serial
      requires table.Get(h).value.timers.rto.Some? <==> table.Get(h).value.retrans != []
      requires table.Get(h).value.timers.rto.None? ==> wheel.HasRoom()
      modifies table`slots, wheel, this`armedBy
      ensures Links() && wheel.batch == old(wheel.batch)
      ensures |wheel.slots| <= |old(wheel.slots)| + if old(table.Get(h)).value.timers.rto.None? then 1 else 0
      ensures forall i: nat :: i != h ==> table.Get(i) == old(table.Get(i))
      ensures table.Get(h).Some? && var c, d := old(table.Get(h)).value, table.Get(h).value;
        && d.timers.rto.Some? && d == c.(retrans := c.retrans + [e], timers := d.timers)
        && d.timers.tlp == c.timers.tlp && d.timers.syn == c.timers.syn
        && (c.timers.rto.Some? ==> d.timers == c.timers)
    {
      hide Links, Wheel.Valid, Table.Valid, Table.Get, Wheel.Get, Retain;
      var c := table.Get(h).value;
      SetConn(h, c.(retrans := c.retrans + [e]));
      if c.retrans == [] && c.timers.rto.None? {
        if c.rtt.rto > 0 {
          var id := Arm(h, Rto, now, c.rtt.rto);
        }
      }
    }

    /** The timer side of `send_bytes`: the entries it stashes, one by one, then the probe
        timer. What is in flight afterwards is again one run within the peer's window. */
    method Send(h: nat, pieces: seq<Piece>, ptoUs: u32, now: u64, ghost window: u32)
      requires Valid() && table.Get(h).Some?
      requires table.Get(h).value.state == Established && Fits(table.Get(h).value, pieces, window)
      requires wheel.batch == {} && |wheel.slots| + 2 <= 0xFFFF_FFFF
      modifies table`slots, wheel, this`armedBy
      ensures Valid() && wheel.batch == {} && |wheel.slots| <= |old(wheel.slots)| + 2
      ensures forall i: nat :: i != h ==> table.Get(i) == old(table.Get(i))
      ensures table.Get(h).Some? && var c, d := old(table.Get(h)).value, table.Get(h).value;
        && d == c.(retrans := c.retrans + Cut(c.sndNxt, pieces, now), sndNxt := CutEnd(c.sndNxt, pieces),
                   timers := d.timers)
        && (d.timers.rto.Some? <==> d.retrans != []) && InWindowRun(d.retrans, d.sndNxt)
    {
      hide Links, Wheel.Valid, Table.Valid, Table.Get, Wheel.Get, Slots, SlotOk, Retain, Timers.Listed, Rtt.Sample,
           Rtt.Backoff, SeqAdd, InWindowRun, Spanned, Fits;
      SlotSound(h);
      SendWindow(table.Get(h).value, pieces, window, now);
      SendEntries(h, pieces, now);
      StepOk(h);
      if pieces != [] {
        ArmTlpPto(h, ptoUs, now);
      }
      SlotSound(h);
    }

    /** The entries of a send, and `snd_nxt` behind them. */
    method SendEntries(h: nat, pieces: seq<Piece>, now: u64)
      requires Links() && table.Get(h).Some? && table.Get(h).value.rtt.Positive() && h in serial
      requires table.Get(h).value.timers.rto.Some? <==> table.Get(h).value.retrans != []
      requires wheel.batch == {} && |wheel.slots| < 0xFFFF_FFFF
      modifies table`slots, wheel, this`armedBy
      ensures Links() && wheel.batch == {} && |wheel.slots| <= |old(wheel.slots)| + 1
      ensures forall i: nat :: i != h ==> table.Get(i) == old(table.Get(i))
      ensures table.Get(h).Some? && var c, d := old(table.Get(h)).value, table.Get(h).value;
        && d == c.(retrans := c.retrans + Cut(c.sndNxt, pieces, now), sndNxt := CutEnd(c.sndNxt, pieces),
                   timers := d.timers)
        && (d.timers.rto.Some? <==> d.retrans != []) && d.timers.tlp == c.timers.tlp && d.timers.syn == c.timers.syn
    {
      hide Links, Wheel.Valid, Table.Valid, Table.Get, Wheel.Get, Retain, Timers.Listed, SeqAdd;
      ghost var c := table.Get(h).value;
      var cur, i := table.Get(h).value.sndNxt, 0;
      while i < |pieces|
        invariant 0 <= i <= |pieces| && Links() && wheel.batch == {} && table.Get(h).Some?
        invariant forall j: nat :: j != h ==> table.Get(j) == old(table.Get(j))
        invariant cur == CutEnd(c.sndNxt, pieces[..i])
        invariant var d := table.Get(h).value;
          && d == c.(retrans := c.retrans + Cut(c.sndNxt, pieces[..i], now), timers := d.timers)
          && (d.timers.rto.Some? <==> d.retrans != []) && d.timers.tlp == c.timers.tlp && d.timers.syn == c.timers.syn
          && |wheel.slots| <= |old(wheel.slots)| + if d.timers.rto.None? then 0 else 1
      {
        assert pieces[..i + 1][..i] == pieces[..i];
        var e := NewEntry(cur, pieces[i].len, pieces[i].mbuf, pieces[i].hdrsLen, now);
        assert Cut(c.sndNxt, pieces[..i + 1], now) == Cut(c.sndNxt, pieces[..i], now) + [e];
        PushSegment(h, e, now);
        cur := SeqAdd(cur, pieces[i].len);
        i := i + 1;
      }
      assert pieces[..i] == pieces;
      SetConn(h, table.Get(h).value.(sndNxt := cur));
    }

    // ---------- closing ----------

    twostate lemma StepSame()
      requires old(Slots()) && Links() && cfg.Ok()
      requires forall i: nat :: table.Get(i) == old(table.Get(i))
      requires unchanged(this`serial) && unchanged(this`nextSerial) && unchanged(this`synWaits)
      requires unchanged(this`hadData)
      ensures Valid()
    {
      forall i: nat
        ensures SlotOk(i)
      {
        assert old(SlotOk(i));
      }
    }

    /** Freeing one slot leaves the others as they are. */
    twostate lemma StepGone(h: nat)
      requires old(Slots()) && Links() && cfg.Ok() && table.Get(h).None?
      requires forall i: nat :: i != h ==> table.Get(i) == old(table.Get(i))
      requires unchanged(this`serial) && unchanged(this`nextSerial) && unchanged(this`hadData)
      requires forall s :: s in old(synWaits) && (old(table.Get(h)).Some? && h in serial ==> s != serial[h]) ==>
                 s in synWaits && synWaits[s] == old(synWaits)[s]
      ensures Valid()
    {
      forall i: nat
        ensures SlotOk(i)
      {
        assert old(SlotOk(i)) && old(SlotOk(h));
      }
    }

    /** `force_close_etimedout`: cancels every timer, reports the timeout and frees the slot. */
    method ForceClose(h: nat)
      requires Links() && table.Get(h).Some?
      modifies table, wheel`slots, this`events
      ensures Links() && table.Get(h).None? && |wheel.slots| == |old(wheel.slots)|
      ensures forall i: nat :: i != h ==> table.Get(i) == old(table.Get(i))
      ensures old(events) <= events && |events| >= |old(events)| + 2
      ensures events[|events| - 2..] == [Error(h, -ETIMEDOUT), ClosedEvent(h, -ETIMEDOUT)]
    {
      hide Links;
      var from := table.Get(h).value.state;
      RemoveConn(h);
      if from != Closed {
        events := events + [StateChange(h, from, Closed)];
      }
      events := events + [Error(h, -ETIMEDOUT), ClosedEvent(h, -ETIMEDOUT)];
    }

    /** The final close of a segment's outcome: the slot and its timers go. */
    method CloseConn(h: nat)
      requires Valid() && table.Get(h).Some?
      modifies table, wheel`slots, this`events
      ensures Valid() && table.Get(h).None? && |wheel.slots| == |old(wheel.slots)|
      ensures forall i: nat :: i != h ==> table.Get(i) == old(table.Get(i))
      ensures events == old(events) + [StateChange(h, old(table.Get(h)).value.state, Closed), ClosedEvent(h, 0)]
    {
      hide Links, Wheel.Valid, Table.Valid, Table.Get, Wheel.Get, Slots, SlotOk;
      events := events + [StateChange(h, table.Get(h).value.state, Closed), ClosedEvent(h, 0)];
      RemoveConn(h);
      StepGone(h);
    }

    // ---------- firing ----------

    /** A fired timer is stale when the connection in its owner's slot does not name it. */
    ghost predicate Stale(id: TimerId, k: TimerKind, h: nat)
      reads table
    {
      table.Get(h).None? || table.Get(h).value.timers.Named(k) != Some(id)
    }

    /** Takes a batch entry that nobody names any more off the pending list. */
    ghost method Settle(id: TimerId)
      requires Links() && id in pending && Stale(id, pending[id].kind, pending[id].owner)
      modifies this`pending
      ensures Links() && pending == old(pending) - {id}
    {
      hide Wheel.Valid, Table.Valid, Wheel.Get, Table.Get, Timers.Listed;
      pending := pending - {id};
      forall h': nat, k': TimerKind
        ensures NamesOk(h', k')
      {
        assert old(NamesOk(h', k'));
      }
      forall x: TimerId
        ensures Owned(x)
      {
        assert old(Owned(x));
      }
    }

    /** The stale check all three fire handlers open with, and the clearing of the fired name.
        When the check passes, the timer was armed by the very connection now in the slot,
        however often the slot and its handle were reused in between. */
    method TakeFired(h: nat, k: TimerKind, id: TimerId) returns (current: bool)
      requires Links() && id in pending && pending[id].owner == h && pending[id].kind == k && k != ApiPublic
      modifies table`slots, this`pending
      ensures Links() && pending == old(pending) - {id}
      ensures current <==> !old(Stale(id, k, h))
      ensures current ==> h in serial && id in armedBy && armedBy[id] == serial[h]
      ensures forall i: nat :: i != h ==> table.Get(i) == old(table.Get(i))
      ensures table.Get(h) == if current then Some(Unnamed(old(table.Get(h)).value, k)) else old(table.Get(h))
    {
      hide Wheel.Valid, Table.Valid, Wheel.Get, Table.Get, Timers.Listed;
      current := table.Get(h).Some? && table.Get(h).value.timers.Named(k) == Some(id);
      if current {
        assert NamesOk(h, k);
        Forget(h, k, id);
      }
      Settle(id);
    }

    /** `on_rto_fire`; `ok` tells which of its resends go out. A current fire
        either leaves the timer running again (backed off unless opted out), or closes the
        connection once its front entry is over budget. */
    method OnRtoFire(h: nat, id: TimerId, ok: nat -> bool, now: u64) returns (current: bool)
      requires Valid() && wheel.HasRoom()
      requires id in pending && pending[id].owner == h && pending[id].kind == Rto
      modifies table, wheel, this`armedBy, this`pending, this`events
      ensures Valid() && pending == old(pending) - {id}
      ensures wheel.batch == old(wheel.batch) && wheel.adds <= old(wheel.adds) + 1
              && wheel.lastTick == old(wheel.lastTick)
      ensures current <==> !old(Stale(id, Rto, h))
      ensures current ==> h in old(serial) && id in old(armedBy) && old(armedBy)[id] == old(serial)[h]
      ensures forall i: nat :: i != h || !current ==> table.Get(i) == old(table.Get(i))
      ensures current ==> RtoFired(old(table.Get(h)).value, table.Get(h), ok, now, cfg.maxRetrans)
      ensures current && table.Get(h).Some? ==>
                Due(table.Get(h).value.timers.rto, now + table.Get(h).value.rtt.rto * 1000)
    {
      hide Links, Wheel.Valid, Table.Valid, Table.Get, Wheel.Get, Slots, SlotOk, Retain, Timers.Listed, Rtt.Sample,
           Rtt.Backoff, Wheel.HasRoom, AfterRto, InWindowRun, Spanned;
      if table.Get(h).Some? {
        SlotSound(h);
      }
      current := TakeFired(h, Rto, id);
      if !current {
        StepSame();
        return;
      }
      var c := table.Get(h).value;
      if c.retrans == [] {
        // A retransmission timer never outlives the list, so the source's early return is dead.
        assert false;
      }
      var after := ResendOnRto(c.retrans, c.sndUna, c.RttUs(), c.rack.reoWndUs, ok, now);
      var d := c.(retrans := after);
      RtoSame(c, ok, now);
      if d.retrans[0].xmitCount > cfg.maxRetrans {
        SetConn(h, d);
        ForceClose(h);
        StepGone(h);
        return;
      }
      if !c.opts.noBackoff {
        TimeoutStaysPositive(c.rtt, 0);
        d := d.(rtt := c.rtt.Backoff());
      }
      SetConn(h, d);
      if d.rtt.rto > 0 {
        var next := Arm(h, Rto, now, d.rtt.rto);
      }
      StepOk(h);
    }

    /** `on_tlp_fire`: a current fire sends one probe and spends one unit of budget; the probe timer
        stays disarmed. */
    method OnTlpFire(h: nat, id: TimerId, sent: bool, now: u64) returns (current: bool)
      requires Valid() && id in pending && pending[id].owner == h && pending[id].kind == Tlp
      modifies table`slots, this`pending
      ensures Valid() && pending == old(pending) - {id}
      ensures current <==> !old(Stale(id, Tlp, h))
      ensures current ==> h in old(serial) && id in old(armedBy) && old(armedBy)[id] == old(serial)[h]
      ensures forall i: nat :: i != h || !current ==> table.Get(i) == old(table.Get(i))
      ensures current ==> table.Get(h).Some? && var c, d := old(table.Get(h)).value, table.Get(h).value;
        && c.retrans != [] && d.tlp.fired == c.tlp.fired + 1 <= c.tlp.max == d.tlp.max && !d.tlp.sampleSeen
        && d == Unnamed(c, Tlp).(retrans := d.retrans, tlp := d.tlp) && var last := |c.retrans| - 1;
        d.retrans == if sent then c.retrans[last := c.retrans[last].Again(now)] else c.retrans
    {
      hide Links, Wheel.Valid, Table.Valid, Table.Get, Wheel.Get, Slots, SlotOk, Retain, Timers.Listed, Rtt.Sample,
           Rtt.Backoff;
      if table.Get(h).Some? {
        SlotSound(h);
      }
      current := TakeFired(h, Tlp, id);
      if !current {
        StepSame();
        return;
      }
      var c := table.Get(h).value;
      if c.retrans == [] {
        // A probe timer never outlives the list, so the source's early return is dead.
        assert false;
      }
      var last := |c.retrans| - 1;
      var again := if sent then c.retrans[last := c.retrans[last].Again(now)] else c.retrans;
      RunSame(c.retrans, again, DataEnd(c));
      SetConn(h, c.(retrans := again, tlp := c.tlp.ProbeFiredHook()));
      StepOk(h);
    }

    lemma SynWaitsOf(h: nat)
      requires Slots() && table.Get(h).Some? && table.Get(h).value.state == SynSent
      ensures h in serial && serial[h] in synWaits && |synWaits[serial[h]]| == table.Get(h).value.synCount + 1
      ensures forall i :: 0 <= i < |synWaits[serial[h]]| ==> synWaits[serial[h]][i] == SynDelayUs(cfg.SynBase(), i)
    {
      assert SlotOk(h);
    }

    /** A step that arms the next handshake delay and records it. */
    twostate lemma StepHandshake(h: nat)
      requires old(Slots()) && Links() && cfg.Ok()
      requires forall i: nat :: i != h ==> table.Get(i) == old(table.Get(i))
      requires old(table.Get(h)).Some? && table.Get(h).Some? && Sound(table.Get(h).value)
      requires !FinOut(table.Get(h).value.state) && unchanged(this`hadData)
      requires unchanged(this`serial) && unchanged(this`nextSerial) && h in serial && serial[h] in synWaits
      requires forall s :: s in old(synWaits) && s != serial[h] ==> s in synWaits && synWaits[s] == old(synWaits)[s]
      requires |synWaits[serial[h]]| == table.Get(h).value.synCount + 1
      requires forall i :: 0 <= i < |synWaits[serial[h]]| ==> synWaits[serial[h]][i] == SynDelayUs(cfg.SynBase(), i)
      ensures Valid()
    {
      hide SynDelayUs, Sound, Table.Get;
      forall i: nat
        ensures SlotOk(i)
      {
        assert old(SlotOk(i)) && old(SlotOk(h));
      }
    }

    /** A new connection gets the next serial number, so no other one has it. */
    twostate lemma SlotsOccupied(h: nat)
      requires old(Slots()) && table.Get(h).Some? && Sound(table.Get(h).value) && table.Get(h).value.state == Closed
      requires forall i: nat :: i != h ==> table.Get(i) == old(table.Get(i))
      requires serial == old(serial)[h := old(nextSerial)] && nextSerial == old(nextSerial) + 1
               && unchanged(this`synWaits) && unchanged(this`hadData)
      ensures Slots()
    {
      hide Table.Get, Sound;
      forall i: nat
        ensures SlotOk(i)
        ensures i != h && table.Get(i).Some? ==> i in serial && serial[i] < old(nextSerial)
      {
        assert old(SlotOk(i));
      }
    }

    /** Nobody's timer was armed for the free slot, so the links stay right. */
    twostate lemma LinksOccupied(h: nat)
      requires old(Links()) && table.Valid()
      requires old(table.Get(h)).None? && table.Get(h).Some?
               && table.Get(h).value.timers == Timers(None, None, None, [])
      requires forall i: nat :: i != h ==> table.Get(i) == old(table.Get(i))
      requires serial == old(serial)[h := old(nextSerial)] && unchanged(this`armedBy) && unchanged(this`pending)
               && unchanged(wheel)
      ensures Links()
    {
      hide Wheel.Valid, Wheel.Get, Table.Valid, Table.Get, Timers.Listed;
      NoTimersListed();
      forall h': nat, k': TimerKind
        ensures NamesOk(h', k')
      {
        assert old(NamesOk(h', k'));
      }
      forall x: TimerId
        ensures Owned(x)
      {
        assert old(Owned(x));
      }
    }

    twostate lemma LinksKept()
      requires old(Links()) && table.Valid() && forall i: nat :: table.Get(i) == old(table.Get(i))
      requires unchanged(this`serial) && unchanged(this`armedBy) && unchanged(this`pending) && unchanged(wheel)
      ensures Links()
    {
      hide Wheel.Valid, Wheel.Get, Table.Valid, Table.Get, Timers.Listed;
      forall h': nat, k': TimerKind
        ensures NamesOk(h', k')
      {
        assert old(NamesOk(h', k'));
      }
      forall x: TimerId
        ensures Owned(x)
      {
        assert old(Owned(x));
      }
    }

    /** Puts a new connection into the first free slot, under a serial number of its own. */
    method Occupy(c: Conn) returns (h: Option<nat>)
      requires Valid() && pending == map[] && Sound(c) && c.timers == Timers(None, None, None, []) && c.state == Closed
      modifies table, this`serial, this`nextSerial
      ensures Valid()
      ensures h.None? <==> old(table.Refuses(c.tuple))
      ensures h.Some? ==> old(table.Get(h.value)).None? && h.value in serial && serial[h.value] == old(nextSerial)
      ensures h.None? ==> unchanged(this`serial) && unchanged(this`nextSerial)
      ensures forall i: nat :: table.Get(i) == if h == Some(i) then Some(c) else old(table.Get(i))
    {
      hide Links, Wheel.Valid, Wheel.Get, Table.Valid, Table.Get, Sound, SlotOk, Slots;
      TableIsValid();
      h := table.Insert(c);
      if h.Some? {
        serial := serial[h.value := nextSerial];
        nextSerial := nextSerial + 1;
        LinksOccupied(h.value);
        SlotsOccupied(h.value);
      } else {
        LinksKept();
        StepSame();
      }
    }

    /** `on_syn_retrans_fire`: the first three current fires retransmit the handshake segment
        and arm the next delay; the fourth closes the connection with a timeout and leaves no
        timer of the slot behind. */
    method OnSynFire(h: nat, id: TimerId, now: nat) returns (current: bool)
      requires Valid() && wheel.HasRoom()
      requires id in pending && pending[id].owner == h && pending[id].kind == SynRetrans
      modifies table, wheel, this`armedBy, this`pending, this`events, this`synWaits
      ensures Valid() && pending == old(pending) - {id}
      ensures wheel.batch == old(wheel.batch) && wheel.adds <= old(wheel.adds) + 1
              && wheel.lastTick == old(wheel.lastTick)
      ensures current <==> !old(Stale(id, SynRetrans, h))
      ensures current ==> h in old(serial) && id in old(armedBy) && old(armedBy)[id] == old(serial)[h]
      ensures forall i: nat :: i != h || !current ==> table.Get(i) == old(table.Get(i))
      ensures current ==> old(table.Get(h)).value.state == SynSent
      ensures current && old(table.Get(h)).value.synCount < 3 ==>
                && table.Get(h).Some? && table.Get(h).value.synCount == old(table.Get(h)).value.synCount + 1
                && table.Get(h).value == old(table.Get(h)).value.(synCount := table.Get(h).value.synCount,
                   timers := table.Get(h).value.timers)
                && Due(table.Get(h).value.timers.syn,
                   now + SynDelayUs(cfg.SynBase(), table.Get(h).value.synCount) * 1000)
      ensures current && old(table.Get(h)).value.synCount == 3 ==>
                && table.Get(h).None? && |events| >= 2
                && events[|events| - 2..] == [Error(h, -ETIMEDOUT), ClosedEvent(h, -ETIMEDOUT)]
                && old(serial)[h] in synWaits && |synWaits[old(serial)[h]]| == 4
    {
      hide Links, Wheel.Valid, Table.Valid, Table.Get, Wheel.Get, Slots, SlotOk, Retain, Timers.Listed, Wheel.HasRoom,
           SynDelayUs, Config.SynBase;
      if table.Get(h).Some? {
        SlotSound(h);
        if table.Get(h).value.state == SynSent {
          SynWaitsOf(h);
        }
      }
      current := TakeFired(h, SynRetrans, id);
      if !current {
        StepSame();
        return;
      }
      var c := table.Get(h).value;
      if c.state != SynSent {
        // A handshake timer never outlives the handshake, so the source's early return is dead.
        assert false;
      }
      var count := c.synCount + 1;
      SetConn(h, c.(synCount := count));
      if count > 3 {
        ForceClose(h);
        StepGone(h);
        return;
      }
      var delay := SynDelayUs(cfg.SynBase(), count);
      var next := Arm(h, SynRetrans, now, delay);
      synWaits := synWaits[serial[h] := synWaits[serial[h]] + [delay]];
      StepHandshake(h);
    }

    /** `connect`: a free slot, the handshake segment, and the handshake timer with the base
        delay; nothing is left behind when the table is full or the segment cannot be sent. */
    method Connect(tuple: FourTuple, tlpMax: nat, opts: ConnOpts, sent: bool, iss: u32, now: nat)
      returns (h: Option<nat>)
      requires Valid() && pending == map[] && wheel.batch == {} && |wheel.slots| < 0xFFFF_FFFF
      modifies table, wheel, this`armedBy, this`serial, this`nextSerial, this`synWaits, this`events
      ensures Valid() && wheel.batch == {} && |wheel.slots| <= |old(wheel.slots)| + 1
      ensures events == old(events) + if h.Some? then [StateChange(h.value, Closed, SynSent)] else []
      ensures h.None? <==> !sent || old(table.Refuses(tuple))
      ensures h.None? ==> forall i: nat :: table.Get(i) == old(table.Get(i))
      ensures h.Some? ==>
                old(table.Get(h.value)).None? && table.Get(h.value).Some? && table.Get(h.value).value.tuple == tuple
      ensures h.Some? ==>
                var c := table.Get(h.value).value; c.sndUna == iss && c.sndNxt == SeqAdd(iss, 1) && c.retrans == []
      ensures h.Some? ==> forall i: nat :: i != h.value ==> table.Get(i) == old(table.Get(i))
      ensures h.Some? ==> table.Get(h.value).value.state == SynSent && table.Get(h.value).value.synCount == 0
      ensures h.Some? ==> Due(table.Get(h.value).value.timers.syn, now + cfg.SynBase() * 1000)
      ensures h.Some? ==> h.value in serial && serial[h.value] == old(nextSerial)
    {
      hide Links, Wheel.Valid, Table.Valid, Table.Get, Wheel.Get, Slots, SlotOk, SynDelayUs, Config.SynBase;
      NewRttPositive(cfg);
      var c := Conn(tuple, Closed, iss, iss, [], NewRtt(cfg.minRtoUs, cfg.initialRtoUs, cfg.maxRtoUs),
                    RackInfo(Xmit(0, 0), 0, 0), Timers(None, None, None, []), 0, TlpBudget(tlpMax, 0, false), None,
                        opts);
      h := Occupy(c);
      label L:
      if h.None? {
        StepSame();
        return;
      }
      if !sent {
        RemoveConn(h.value);
        StepGone@L(h.value);
        return None;
      }
      SetConn(h.value, c.(state := SynSent, sndNxt := SeqAdd(iss, 1)));
      events := events + [StateChange(h.value, Closed, SynSent)];
      var id := Arm(h.value, SynRetrans, now, cfg.SynBase());
      synWaits := synWaits[serial[h.value] := [cfg.SynBase()]];
      SynDelayZero(cfg.SynBase());
      StepHandshake@L(h.value);
    }

    /** A SYN-ACK in SYN_SENT. One that acknowledges our SYN completes the handshake: the handshake
        timer goes, and the round trip may be sampled; any other closes the connection. The test
        also passes for the number half the space further. */
    method HandshakeDone(h: nat, ack: u32, sample: Option<u32>) returns (ok: bool)
      requires Valid() && table.Get(h).Some? && table.Get(h).value.state == SynSent
      modifies table, wheel`slots, this`events
      ensures Valid() && |wheel.slots| == |old(wheel.slots)| && wheel.batch == old(wheel.batch)
      ensures forall i: nat :: i != h ==> table.Get(i) == old(table.Get(i))
      ensures var nxt := old(table.Get(h)).value.sndNxt; ok <==> ack == nxt || ack == SeqAdd(nxt, 0x8000_0000)
      ensures ok ==> table.Get(h).Some? && var c, d := old(table.Get(h)).value, table.Get(h).value;
        && d == Unnamed(c, SynRetrans).(state := Established, sndUna := ack, rtt := d.rtt, rack := d.rack)
        && d.timers.syn.None? && d.timers.rto.None?
        && if sample.Some? && c.synCount == 0 then
             d.rtt == c.rtt.Sample(sample.value) && d.rack == c.rack.Sampled(sample.value)
           else d.rtt == c.rtt && d.rack == c.rack
      ensures !ok ==> table.Get(h).None?
      ensures events == old(events) + if ok then [StateChange(h, SynSent, Established), Connected(h)]
                                      else [StateChange(h, SynSent, Closed), ClosedEvent(h, 0)]
    {
      hide Links, Wheel.Valid, Table.Valid, Table.Get, Wheel.Get, Slots, SlotOk, Retain, Timers.Listed, Rtt.Sample,
           Rtt.Backoff, RackInfo.Sampled, SeqLe, SeqAdd;
      SlotSound(h);
      var c := table.Get(h).value;
      SynAckExactly(c.sndUna, ack);
      ok := SeqLe(SeqAdd(c.sndUna, 1), ack) && SeqLe(ack, c.sndNxt);
      if !ok {
        CloseConn(h);
        return;
      }
      if sample.Some? && c.synCount == 0 {
        TimeoutStaysPositive(c.rtt, sample.value);
        c := c.(rtt := c.rtt.Sample(sample.value), rack := c.rack.Sampled(sample.value));
      }
      SetConn(h, c.(state := Established, sndUna := ack));
      Disarm(h, SynRetrans);
      StepOk(h);
      events := events + [StateChange(h, SynSent, Established), Connected(h)];
    }

    /** `close_conn`: from ESTABLISHED and CLOSE_WAIT our FIN takes the next sequence number;
        elsewhere, and when the FIN cannot be sent, nothing changes. No timer is armed for it. */
    method Close(h: nat, sent: bool) returns (ok: bool)
      requires Valid() && table.Get(h).Some?
      modifies table`slots, this`events, this`hadData
      ensures Valid() && forall i: nat :: i != h ==> table.Get(i) == old(table.Get(i))
      ensures table.Get(h).Some? && var c, d := old(table.Get(h)).value, table.Get(h).value;
        var may := c.state == Established || c.state == CloseWait;
        && (ok <==> !may || sent)
        && if may && sent then
             var to := if c.state == Established then FinWait1 else LastAck;
             && d == c.(state := to, sndNxt := SeqAdd(c.sndNxt, 1)) && DataEnd(d) == DataEnd(c)
             && events == old(events) + [StateChange(h, c.state, to)]
             && h in serial && hadData == old(hadData)[serial[h] := c.retrans != []]
           else d == c && events == old(events) && hadData == old(hadData)
    {
      hide Links, Wheel.Valid, Table.Valid, Table.Get, Wheel.Get, SlotOk, Slots, Retain, Timers.Listed, InWindowRun,
           Spanned;
      SlotSound(h);
      var c := table.Get(h).value;
      if c.state != Established && c.state != CloseWait {
        return true;
      }
      if !sent {
        return false;
      }
      var to := if c.state == Established then FinWait1 else LastAck;
      SetConn(h, c.(state := to, sndNxt := SeqAdd(c.sndNxt, 1)));
      hadData := hadData[serial[h] := c.retrans != []];
      StepClosed(h);
      events := events + [StateChange(h, c.state, to)];
      return true;
    }

    /** A step that sends the FIN and records whether data was in flight. */
    twostate lemma StepClosed(h: nat)
      requires old(Slots()) && Links() && cfg.Ok()
      requires forall i: nat :: i != h ==> table.Get(i) == old(table.Get(i))
      requires old(table.Get(h)).Some? && table.Get(h).Some? && Sound(table.Get(h).value)
      requires table.Get(h).value.state != SynSent && h in serial
      requires unchanged(this`serial) && unchanged(this`nextSerial) && unchanged(this`synWaits)
      requires hadData == old(hadData)[serial[h] := table.Get(h).value.retrans != []]
      ensures Valid()
    {
      hide Table.Get, Sound, SynDelayUs;
      forall i: nat
        ensures SlotOk(i)
      {
        assert old(SlotOk(i)) && old(SlotOk(h));
      }
    }

    /** `transition_conn` behind a segment handler: the state moves as the handler decided, the 2 MSL
        deadline is stamped on entry to TIME_WAIT, and a connection whose last FIN is acknowledged
        goes. */
    method Transition(h: nat, finAcked: bool, peerFin: bool, twoMslNs: u64, now: u64)
      requires Valid() && table.Get(h).Some?
      modifies table, wheel`slots, this`events
      ensures Valid() && forall i: nat :: i != h ==> table.Get(i) == old(table.Get(i))
      ensures var c := old(table.Get(h)).value; var to := NextState(c.state, finAcked, peerFin);
        if to == c.state then table.Get(h) == Some(c) && events == old(events)
        else if to == Closed then
          table.Get(h).None? && events == old(events) + [StateChange(h, c.state, Closed), ClosedEvent(h, 0)]
        else
          var deadline := if to == TimeWait then Some(Deadline(now, twoMslNs)) else c.twDeadline;
          && table.Get(h) == Some(c.(state := to, twDeadline := deadline))
          && events == old(events) + [StateChange(h, c.state, to)]
    {
      hide Links, Wheel.Valid, Table.Valid, Table.Get, Wheel.Get, Slots, SlotOk, Retain, Timers.Listed, InWindowRun,
           Spanned;
      SlotSound(h);
      var c := table.Get(h).value;
      var to := NextState(c.state, finAcked, peerFin);
      if c.state == to {
        StepSame();
      } else if to == Closed {
        CloseConn(h);
      } else {
        var deadline := if to == TimeWait then Some(Deadline(now, twoMslNs)) else c.twDeadline;
        SetConn(h, c.(state := to, twDeadline := deadline));
        StepOk(h);
        events := events + [StateChange(h, c.state, to)];
      }
    }

    /** Every segment inside the window restarts the 2 MSL wait; one outside it does not. */
    method RefreshTimeWait(h: nat, inWindow: bool, twoMslNs: u64, now: u64)
      requires Valid() && table.Get(h).Some?
      modifies table`slots
      ensures Valid() && forall i: nat :: i != h ==> table.Get(i) == old(table.Get(i))
      ensures var c := old(table.Get(h)).value;
        table.Get(h) == if c.state == TimeWait && inWindow then Some(c.(twDeadline := Some(Deadline(now, twoMslNs))))
                        else Some(c)
    {
      hide Links, Wheel.Valid, Table.Valid, Table.Get, Wheel.Get, Slots, SlotOk, Timers.Listed, InWindowRun, Spanned;
      SlotSound(h);
      var c := table.Get(h).value;
      if c.state == TimeWait && inWindow {
        SetConn(h, c.(twDeadline := Some(Deadline(now, twoMslNs))));
        StepOk(h);
      } else {
        StepSame();
      }
    }

    /** A timer of the application's own: it belongs to no connection. Its deadline is rounded
        up to a whole tick. */
    method PublicTimerAdd(deadlineNs: nat, userData: u64, now: nat) returns (id: TimerId)
      requires Valid() && pending == map[] && wheel.HasRoom()
      modifies wheel
      ensures Valid() && wheel.batch == old(wheel.batch) && old(wheel.Get(id)).None? && wheel.Get(id).Some?
      ensures var n := wheel.Get(id).value;
        n.kind == ApiPublic && n.userData == userData && deadlineNs <= n.fireAtNs < deadlineNs + TICK_NS
            && n.fireAtNs % TICK_NS == 0
      ensures forall x :: x != id ==> wheel.Get(x) == old(wheel.Get(x))
    {
      hide Wheel.Valid, Wheel.Get, Table.Valid, Table.Get, Timers.Listed, Wheel.HasRoom, SlotOk, Slots;
      id := wheel.Add(now, TimerNode(AlignUp(deadlineNs), 0, ApiPublic, userData, 0, false));
      forall h': nat, k': TimerKind
        ensures NamesOk(h', k')
      {
        assert old(NamesOk(h', k'));
      }
      forall x: TimerId
        ensures Owned(x)
      {
        assert old(Owned(x));
      }
    }

    /** Cancelling by id does not look at the timer's kind: everything stays in order exactly
        when the id does not name one of the engine's own timers. */
    method PublicTimerCancel(id: TimerId) returns (found: bool)
      requires Valid() && pending == map[]
      modifies wheel`slots
      ensures found <==> old(wheel.Get(id)).Some?
      ensures wheel.Get(id).None? && forall x :: x != id ==> wheel.Get(x) == old(wheel.Get(x))
      ensures Valid() <==> (found ==> old(wheel.Get(id)).value.kind == ApiPublic)
    {
      hide Wheel.Valid, Wheel.Get, Table.Valid, Table.Get, Timers.Listed, SlotOk, Slots;
      assert Owned(id);
      found := wheel.Cancel(id);
      if found && old(wheel.Get(id)).value.kind != ApiPublic {
        ghost var n := old(wheel.Get(id)).value;
        assert !NamesOk(n.owner, n.kind);
      } else {
        forall h': nat, k': TimerKind
          ensures NamesOk(h', k')
        {
          assert old(NamesOk(h', k'));
        }
        forall x: TimerId
          ensures Owned(x)
        {
          assert old(Owned(x));
        }
      }
    }

    /** Whether the 2 MSL wait of a connection is over, or waived. */
    predicate Expired(c: Conn, now: nat) {
      c.state == TimeWait && (c.opts.twSkip || (c.twDeadline.Some? && now >= c.twDeadline.value))
    }

    /** `reap_time_wait`: afterwards no expired or waived TIME_WAIT connection is left, and no
        other connection was touched. */
    method ReapTimeWait(now: nat)
      requires Valid()
      modifies table, wheel`slots, this`events
      ensures Valid() && |wheel.slots| == |old(wheel.slots)|
      ensures forall i: nat :: table.Get(i) == if old(table.Get(i)).Some?
              && Expired(old(table.Get(i)).value, now) then None else old(table.Get(i))
    {
      hide Links, Wheel.Valid, Table.Valid, Table.Get, Wheel.Get, Slots, SlotOk;
      TableIsValid();
      var all := table.IterHandles();
      var candidates: seq<nat> := [];
      for n := 0 to |all|
        modifies {}
        invariant forall h :: h in candidates <==> h in all[..n] && Expired(table.Get(h).value, now)
        invariant Increasing(candidates) && forall h :: h in candidates ==> h in all[..n]
      {
        assert all[..n + 1] == all[..n] + [all[n]];
        var h := all[n];
        assert Increasing(all[..n + 1]);
        IncreasingSnoc(all[..n], candidates, h);
        if Expired(table.Get(h).value, now) {
          candidates := candidates + [h];
        }
      }
      assert all[..|all|] == all;
      ghost var doomed := candidates;
      assert doomed[|doomed|..] == [];
      while candidates != []
        invariant Valid() && |wheel.slots| == |old(wheel.slots)|
        invariant candidates <= doomed
        invariant forall i: nat :: table.Get(i) == if i in doomed[|candidates|..] then None else old(table.Get(i))
      {
        var h := candidates[|candidates| - 1];
        assert doomed[|candidates| - 1..] == [h] + doomed[|candidates|..];
        CloseConn(h);
        candidates := candidates[..|candidates| - 1];
      }
      assert doomed[0..] == doomed;
    }

    /** The sweep: the timers that fire are now pending, the others still live. */
    method Sweep(now: nat) returns (fired: seq<Fired>)
      requires Valid() && pending == map[] && wheel.batch == {}
      modifies wheel, this`pending
      ensures Valid() && DistinctIds(fired) && pending == FiredMap(fired) && wheel.adds == 0 && |wheel.batch| == |fired|
      ensures wheel.lastTick == Max(old(wheel.lastTick), Min(now / TICK_NS, old(wheel.lastTick) + BUCKETS * LEVELS))
      ensures forall i :: 0 <= i < |fired| ==> old(wheel.Get(fired[i].id)) == Some(fired[i].node)
      ensures forall id :: old(wheel.Get(id)).Some? ==> id in pending || wheel.Get(id) == old(wheel.Get(id))
    {
      hide Wheel.Valid, Wheel.Get, Table.Valid, Table.Get, Timers.Listed, SlotOk, Slots, FiredMap, DistinctIds,
           AllInSpan, Ids;
      fired := wheel.Advance(now);
      FiredMapIs(fired);
      pending := FiredMap(fired);
      IdsOf(fired);
      assert forall id :: id in pending ==> old(wheel.Get(id)) == Some(pending[id]);
      forall h': nat, k': TimerKind
        ensures NamesOk(h', k')
      {
        assert old(NamesOk(h', k'));
      }
      forall x: TimerId
        ensures Owned(x)
      {
        assert old(Owned(x));
      }
    }

    ghost method PublicFired(id: TimerId)
      requires Valid() && id in pending && pending[id].kind == ApiPublic
      modifies this`pending
      ensures Valid() && pending == old(pending) - {id}
    {
      Settle(id);
    }

    ghost method FinishBatch()
      requires Valid() && pending == map[]
      modifies wheel`batch
      ensures Valid() && wheel.batch == {}
    {
      hide Wheel.Get, Table.Valid, Table.Get, Timers.Listed, SlotOk, Slots;
      wheel.EndBatch();
      forall h': nat, k': TimerKind
        ensures NamesOk(h', k')
      {
        assert old(NamesOk(h', k'));
      }
      forall x: TimerId
        ensures Owned(x)
      {
        assert old(Owned(x));
      }
    }

    lemma WheelRoom()
      requires Links() && wheel.adds < |wheel.batch|
      ensures wheel.HasRoom()
    {
      wheel.BatchRoom();
    }

    lemma TableIsValid()
      requires Links()
      ensures table.Valid() && table.key == TupleOf
    {
    }

    /** `fire_timers_at`: turns the wheel and deals with the batch in order, each entry once; only
        the owners of fired timers can change. `ok` tells which resends of each fire go out. */
    method FireTimersAt(ok: nat -> nat -> bool, now: u64) returns (count: nat, ghost fired: seq<Fired>)
      requires Valid() && pending == map[] && wheel.batch == {}
      modifies table, wheel, this
      ensures Valid() && pending == map[] && wheel.batch == {}
      ensures wheel.lastTick == Max(old(wheel.lastTick), Min(now / TICK_NS, old(wheel.lastTick) + BUCKETS * LEVELS))
      ensures count == |fired| && DistinctIds(fired)
      ensures forall k :: 0 <= k < |fired| ==> old(wheel.Get(fired[k].id)) == Some(fired[k].node)
      ensures forall i: nat :: Unfired(fired, i) ==> table.Get(i) == old(table.Get(i))
      ensures serial == old(serial) && hadData == old(hadData)
    {
      hide Links, Wheel.Valid, Table.Valid, Table.Get, Wheel.Get, Slots, SlotOk, Wheel.HasRoom, Stale, FiredMap,
           DistinctIds;
      var all := Sweep(now);
      fired := all;
      ghost var tick := wheel.lastTick;
      count := |all|;
      FiredMapEmpty();
      assert all[0..] == all;
      for i := 0 to |all|
        invariant Valid() && wheel.adds <= i && |wheel.batch| == |all| && wheel.lastTick == tick
        invariant pending == FiredMap(all[i..]) && DistinctIds(all[i..])
        invariant forall h: nat :: Unfired(all, h) ==> table.Get(h) == old(table.Get(h))
        invariant serial == old(serial) && hadData == old(hadData)
      {
        var f := all[i];
        FiredMapFront(all[i..]);
        assert all[i..][1..] == all[i + 1..];
        WheelRoom();
        match f.node.kind
        case Rto => var c := OnRtoFire(f.node.owner, f.id, ok(i), now);
        case Tlp => var c := OnTlpFire(f.node.owner, f.id, ok(i)(0), now);
        case SynRetrans => var c := OnSynFire(f.node.owner, f.id, now);
        case ApiPublic => PublicFired(f.id);
      }
      assert all[|all|..] == [];
      FinishBatch();
    }
  }

  /** A connection opened on a fresh engine: connect, and complete the handshake. */
  method Opened(tuple: FourTuple, opts: ConnOpts, iss: u32, now: nat) returns (e: Engine, h: nat)
    ensures fresh(e) && fresh(e.table) && fresh(e.wheel) && e.Valid() && e.pending == map[] && e.cfg.maxRetrans == 3
    ensures e.wheel.batch == {} && |e.wheel.slots| <= 1 && e.table.Get(h).Some?
    ensures var c := e.table.Get(h).value;
      c.state == Established && c.sndUna == c.sndNxt == SeqAdd(iss, 1) && c.retrans == []
  {
    hide Engine.Valid, Engine.Links, Engine.Slots, Wheel.Valid, Wheel.Get, Table.Valid, Table.Get;
    e := new Engine(Config(1, 1, 1, 3), 1);
    var r := e.Connect(tuple, 0, opts, true, iss, now);
    h := r.value;
    var ok := e.HandshakeDone(h, SeqAdd(iss, 1), None);
  }

  /** A run that ends with our FIN unacknowledged and no retransmission timer: open, and close with
      nothing sent. */
  method FinUncovered(tuple: FourTuple, opts: ConnOpts, iss: u32, now: nat) returns (e: Engine, h: nat)
    ensures fresh(e) && e.Valid() && e.table.Get(h).Some? && e.table.Get(h).value.state == FinWait1
    ensures e.table.Get(h).value.sndUna != e.table.Get(h).value.sndNxt && forall x :: !e.RtoOf(h, x)
  {
    hide Engine.Valid, Engine.Links, Engine.Slots, Wheel.Valid, Wheel.Get, Table.Valid, Table.Get, Engine.RtoOf;
    e, h := Opened(tuple, opts, iss, now);
    var ok := e.Close(h, true);
    e.RtoRunning(h);
  }

  lemma OnePiece(c: Conn, p: Piece, now: u64)
    requires c.sndUna == c.sndNxt && p.len == 1
    ensures Fits(c, [p], 1) && CutEnd(c.sndNxt, [p]) == SeqAdd(c.sndNxt, 1)
    ensures Cut(c.sndNxt, [p], now) == [NewEntry(c.sndNxt, 1, p.mbuf, p.hdrsLen, now)]
  {
    var none: seq<Piece> := [];
    assert [p][..0] == none;
    assert Bytes([p]) == Bytes(none) + 1;
    assert CutEnd(c.sndNxt, none) == c.sndNxt && Cut(c.sndNxt, none, now) == [];
  }

  lemma NextNumber(una: u32)
    ensures Advances(una, SeqAdd(SeqAdd(una, 1), 1), SeqAdd(SeqAdd(una, 1), 1))
  {
    AddTwice(una, 1, 1);
    SelfSub(una);
    OffAdd(una, una, 2);
    AdvancesExactly(una, SeqAdd(una, 2), SeqAdd(una, 2));
  }

  lemma NoBlocks(es: seq<RetransEntry>)
    ensures MarkAll(es, []) == es
  {
  }

  /** A run into the drained closing state: open, send one byte, close, and take the acknowledgment of
      the byte and the FIN. The byte stays listed and its timer runs. */
  method DrainedRun(tuple: FourTuple, opts: ConnOpts, iss: u32, ok: nat -> bool, now: u64) returns (e: Engine, h: nat)
    ensures fresh(e) && e.Valid() && e.table.Get(h).Some?
    ensures var c := e.table.Get(h).value;
      && c.state == FinWait1 && c.sndUna == c.sndNxt && |c.retrans| == 1 && AllCovered(c.retrans, c.sndUna)
      && c.retrans[0].xmitCount == 1 && exists x :: e.RtoOf(h, x)
  {
    hide Engine.Valid, Engine.Links, Engine.Slots, Wheel.Valid, Wheel.Get, Table.Valid, Table.Get, Engine.RtoOf,
         InWindowRun, Spanned, AfterAck, Fits, Cut, CutEnd, MarkAll;
    e, h := Opened(tuple, opts, iss, now);
    var pieces := [Piece(1, 0, 54)];
    OnePiece(e.table.Get(h).value, pieces[0], now);
    e.Send(h, pieces, 1, now, 1);
    ghost var sent := e.table.Get(h).value;
    var done := e.Close(h, true);
    var closed := e.table.Get(h).value;
    NextNumber(sent.sndUna);
    e.AckInput(h, [], closed.sndNxt, None, ok, 1, now);
    NoBlocks(closed.retrans);
    ghost var c := e.table.Get(h).value;
    e.SoundAt(h);
    e.RtoRunning(h);
    forall i | 0 <= i < |c.retrans|
      ensures SeqLe(c.retrans[i].EndSeq(), c.sndUna)
    {
      DrainedCovered(c, i);
    }
  }

  /** No engine timer of slot `h` is among the fired ones. */
  ghost predicate Unfired(fired: seq<Fired>, h: nat) {
    forall k :: 0 <= k < |fired| ==> fired[k].node.owner != h || fired[k].node.kind == ApiPublic
  }
}
