/** The five-slot record of recent tail loss probes, and the attribution of duplicate-SACK
    reports to them. */
module TlpProbes {
  import opened SeqArith

  datatype Probe = Probe(seqno: u32, len: u16, txTsNs: u64, attributed: bool) {
    function EndSeq(): u32 { SeqAdd(seqno, len) }

    /** The probe lies inside the reported block and is young enough to explain it. */
    predicate Explains(left: u32, right: u32, nowNs: u64, windowNs: nat) {
      !attributed && SeqLe(left, seqno) && SeqLe(EndSeq(), right) && SatSub(nowNs, txTsNs) < windowNs
    }
  }

  const SLOTS: nat := 5

  /** Four smoothed round trips; the least sample stands in before there is a smoothed one, and a
      second before there is any. */
  function WindowNs(srttUs: Option<u32>, minRttUs: u32): nat {
    var us := if srttUs.Some? then srttUs.value else minRttUs;
    (if us == 0 then 1_000_000 else us) * 1000 * 4
  }

  class Recent {
    var slots: seq<Option<Probe>>
    var next: nat
    var attributions: nat
    /** Every probe fired so far, in order; `attributed` is kept up to date. */
    ghost var fired: seq<Probe>

    /** The ring holds exactly the latest five probes, probe `i` in slot `i` modulo five. */
    ghost predicate Valid()
      reads this
    {
      && |slots| == SLOTS && next == |fired| % SLOTS
      && (forall k :: 0 <= k < |fired| && |fired| <= k + SLOTS ==> slots[k % SLOTS] == Some(fired[k]))
      && (forall s :: |fired| <= s < SLOTS ==> slots[s] == None)
      && attributions == Credited(fired)
    }

    constructor ()
      ensures Valid() && fired == [] && attributions == 0
    {
      slots, next, attributions, fired := [None, None, None, None, None], 0, 0, [];
    }

    /** `on_tlp_probe_fired`: the new probe takes the oldest one's slot. */
    method OnProbeFired(seqno: u32, len: u16, txTsNs: u64)
      requires Valid()
      modifies this
      ensures Valid() && attributions == old(attributions)
      ensures fired == old(fired) + [Probe(seqno, len, txTsNs, false)]
    {
      var p := Probe(seqno, len, txTsNs, false);
      CreditedSnoc(fired, p);
      forall k | 0 <= k < |fired| < k + SLOTS
        ensures k % SLOTS != next
      {
        OtherSlot(k, |fired|);
      }
      NextSlot(|fired|);
      slots := slots[next := Some(p)];
      next := (next + 1) % SLOTS;
      fired := fired + [p];
    }

    /** `attribute_dsack_to_recent_tlp_probe`: true exactly when a recorded probe explains the
        block; that probe is used up, so it can never explain another. */
    method Attribute(left: u32, right: u32, nowNs: u64, srttUs: Option<u32>, minRttUs: u32) returns (ok: bool)
      requires Valid()
      modifies this
      ensures Valid() && attributions == old(attributions) + if ok then 1 else 0
      ensures ok <==> exists s :: 0 <= s < SLOTS && old(slots)[s].Some?
                                  && old(slots)[s].value.Explains(left, right, nowNs, WindowNs(srttUs, minRttUs))
      ensures !ok ==> fired == old(fired)
      ensures ok ==> exists i: nat :: UsedUp(old(fired), fired, i)
                                      && old(fired)[i].Explains(left, right, nowNs, WindowNs(srttUs, minRttUs))
    {
      var windowNs := WindowNs(srttUs, minRttUs);
      var s := 0;
      while s < SLOTS && !(slots[s].Some? && slots[s].value.Explains(left, right, nowNs, windowNs))
        invariant 0 <= s <= SLOTS
        invariant forall j :: 0 <= j < s ==> !(slots[j].Some? && slots[j].value.Explains(left, right, nowNs, windowNs))
      {
        s := s + 1;
      }
      if s == SLOTS {
        return false;
      }
      var p := slots[s].value;
      SlotIndex(|fired|, s);
      ghost var i: nat := IndexIn(|fired|, s);
      forall k | 0 <= k < |fired| && |fired| <= k + SLOTS && k != i
        ensures k % SLOTS != s
      {
        OtherSlot(k, i);
      }
      CreditedUpdate(fired, i, p.(attributed := true));
      slots := slots[s := Some(p.(attributed := true))];
      attributions := attributions + 1;
      fired := fired[i := p.(attributed := true)];
      assert UsedUp(old(fired), fired, i);
      return true;
    }

    /** Attributions never outnumber the probes fired. */
    lemma AttributionsBounded()
      requires Valid()
      ensures attributions <= |fired|
    {
      CreditedBound(fired);
    }
  }

  /** Probe `i`, one of the latest five and not yet used, has been used up and nothing else
      changed. */
  ghost predicate UsedUp(before: seq<Probe>, after: seq<Probe>, i: nat) {
    && i < |before| <= i + SLOTS && !before[i].attributed
    && after == before[i := before[i].(attributed := true)]
  }

  /** The latest of `n` probes that went to slot `s`. */
  function IndexIn(n: nat, s: nat): int { n - 1 - (n - 1 - s) % SLOTS }

  lemma SlotIndex(n: nat, s: nat)
    requires s < SLOTS && (s < n || SLOTS <= n)
    ensures 0 <= IndexIn(n, s) < n <= IndexIn(n, s) + SLOTS && IndexIn(n, s) % SLOTS == s
  {
    var r := (n - 1 - s) % SLOTS;
    var q := (n - 1 - s) / SLOTS;
    assert n - 1 - s == SLOTS * q + r;
    assert IndexIn(n, s) == SLOTS * q + s;
  }

  lemma OtherSlot(a: nat, b: nat)
    requires a != b && a < b + SLOTS && b < a + SLOTS
    ensures a % SLOTS != b % SLOTS
  {
    assert a == SLOTS * (a / SLOTS) + a % SLOTS && b == SLOTS * (b / SLOTS) + b % SLOTS;
  }

  lemma NextSlot(n: nat)
    ensures (n + 1) % SLOTS == (n % SLOTS + 1) % SLOTS
  {
  }

  function Credited(fired: seq<Probe>): nat {
    if fired == [] then 0 else (if fired[0].attributed then 1 else 0) + Credited(fired[1..])
  }

  lemma {:induction false} CreditedSnoc(fired: seq<Probe>, p: Probe)
    ensures Credited(fired + [p]) == Credited(fired) + if p.attributed then 1 else 0
  {
    if fired == [] {
      assert [p][1..] == [];
    } else {
      assert (fired + [p])[1..] == fired[1..] + [p];
      CreditedSnoc(fired[1..], p);
    }
  }

  lemma {:induction false} CreditedUpdate(fired: seq<Probe>, i: nat, p: Probe)
    requires i < |fired| && !fired[i].attributed && p.attributed
    ensures Credited(fired[i := p]) == Credited(fired) + 1
  {
    if i == 0 {
      assert fired[0 := p][1..] == fired[1..];
    } else {
      assert fired[i := p][1..] == fired[1..][i - 1 := p];
      CreditedUpdate(fired[1..], i - 1, p);
    }
  }

  lemma {:induction false} CreditedBound(fired: seq<Probe>)
    ensures Credited(fired) <= |fired|
  {
    if fired != [] {
      CreditedBound(fired[1..]);
    }
  }
}
