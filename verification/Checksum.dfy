/** The Internet checksum of RFC 1071 over a list of chunks, and the IPv4 header decode that
    verifies it. */
module Checksum {
  import opened SeqArith

  // ---------- the reference: one buffer ----------

  /** `u16::from_be_bytes`. */
  function Word(hi: u8, lo: u8): u16 { 256 * hi + lo }

  /** The sum of the big-endian 16-bit words, an odd last byte padded with zero. */
  function WordSum(b: seq<u8>): nat {
    if |b| == 0 then 0
    else if |b| == 1 then 256 * b[0]
    else Word(b[0], b[1]) + WordSum(b[2..])
  }

  /** End-around carry down to 16 bits. */
  function Fold(x: nat): (r: u16)
    decreases x
  {
    if x < 0x1_0000 then x else Fold(x % 0x1_0000 + x / 0x1_0000)
  }

  /** The checksum of one buffer: the complement of the folded 32-bit word sum. */
  function ChecksumOf(b: seq<u8>): u16 { 0xFFFF - Fold(WordSum(b) % 0x1_0000_0000) }

  function Flatten(chunks: seq<seq<u8>>): seq<u8> {
    if chunks == [] then [] else Flatten(chunks[..|chunks| - 1]) + chunks[|chunks| - 1]
  }

  lemma {:induction false} WordSumConcat(a: seq<u8>, b: seq<u8>)
    requires |a| % 2 == 0
    ensures WordSum(a + b) == WordSum(a) + WordSum(b)
    decreases |a|
  {
    if |a| == 0 {
      assert a + b == b;
    } else {
      assert (a + b)[2..] == a[2..] + b;
      WordSumConcat(a[2..], b);
    }
  }

  /** Folding keeps the value modulo 65535 and only zero folds to zero. */
  lemma {:induction false} FoldMod(x: nat)
    ensures Fold(x) % 0xFFFF == x % 0xFFFF
    ensures Fold(x) == 0 <==> x == 0
    decreases x
  {
    if x >= 0x1_0000 {
      var q, r := x / 0x1_0000, x % 0x1_0000;
      FoldMod(r + q);
      assert x == (r + q) + 0xFFFF * q;
      ModDrop(r + q, q);
    }
  }

  lemma ModDrop(y: nat, q: nat)
    ensures (y + 0xFFFF * q) % 0xFFFF == y % 0xFFFF
  {
    var d, m := y / 0xFFFF, y % 0xFFFF;
    assert y + 0xFFFF * q == 0xFFFF * (d + q) + m;
  }

  lemma {:induction false} WordSumBound(b: seq<u8>)
    ensures WordSum(b) <= 0xFFFF * ((|b| + 1) / 2)
    decreases |b|
  {
    if |b| >= 2 {
      WordSumBound(b[2..]);
    }
  }

  /** Up to 65537 words the 32-bit sum cannot wrap, and then the checksum is the negated word
      sum modulo 65535. */
  lemma ChecksumMeaning(b: seq<u8>)
    requires |b| <= 2 * 0x1_0001
    ensures WordSum(b) < 0x1_0000_0000
    ensures (ChecksumOf(b) + WordSum(b)) % 0xFFFF == 0
    ensures ChecksumOf(b) == 0xFFFF <==> WordSum(b) == 0
  {
    WordSumBound(b);
    FoldMod(WordSum(b));
    var s, f := WordSum(b), Fold(WordSum(b));
    assert s % 0x1_0000_0000 == s;
    Multiple(s, f);
  }

  lemma Multiple(s: nat, f: u16)
    requires s % 0xFFFF == f % 0xFFFF
    ensures (0xFFFF - f + s) % 0xFFFF == 0
  {
    var d := s / 0xFFFF - f / 0xFFFF;
    assert s == f + 0xFFFF * d;
    assert 0xFFFF - f + s == 0xFFFF * (1 + d);
  }

  // ---------- the chunked loop ----------

  /** How far the chunked loop has come: the word sum of the bytes so far, the odd last one
      still waiting for its partner. */
  ghost predicate Summed(done: seq<u8>, sum: u32, carry: Option<u8>) {
    if carry.None? then |done| % 2 == 0 && sum == WordSum(done) % 0x1_0000_0000
    else |done| % 2 == 1 && done[|done| - 1] == carry.value && sum == WordSum(done[..|done| - 1]) % 0x1_0000_0000
  }

  lemma AddMod(a: nat, b: nat)
    ensures (a % 0x1_0000_0000 + b) % 0x1_0000_0000 == (a + b) % 0x1_0000_0000
  {
  }

  lemma WordSumTwo(hi: u8, lo: u8)
    ensures WordSum([hi, lo]) == Word(hi, lo)
  {
    assert [hi, lo][2..] == [];
  }

  /** One more word in the 32-bit sum. */
  lemma SumWord(head: seq<u8>, hi: u8, lo: u8)
    requires |head| % 2 == 0
    ensures (WordSum(head) % 0x1_0000_0000 + Word(hi, lo)) % 0x1_0000_0000 == WordSum(head + [hi, lo]) % 0x1_0000_0000
  {
    hide WordSum;
    WordSumConcat(head, [hi, lo]);
    WordSumTwo(hi, lo);
    AddMod(WordSum(head), Word(hi, lo));
  }

  lemma SummedPair(done: seq<u8>, sum: u32, hi: u8, lo: u8)
    requires Summed(done, sum, None)
    ensures Summed(done + [hi, lo], (sum + Word(hi, lo)) % 0x1_0000_0000, None)
  {
    hide WordSum;
    SumWord(done, hi, lo);
  }

  lemma SummedOdd(done: seq<u8>, sum: u32, hi: u8)
    requires Summed(done, sum, None)
    ensures Summed(done + [hi], sum, Some(hi))
  {
    assert (done + [hi])[..|done|] == done;
  }

  lemma SummedEnd(done: seq<u8>, sum: u32, carry: Option<u8>)
    requires Summed(done, sum, carry)
    ensures WordSum(done) % 0x1_0000_0000 == if carry.None? then sum else (sum + 256 * carry.value) % 0x1_0000_0000
  {
    if carry.Some? {
      var head := done[..|done| - 1];
      assert done == head + [carry.value];
      WordSumConcat(head, [carry.value]);
      AddMod(WordSum(head), 256 * carry.value);
    }
  }

  /** `internet_checksum`: however the bytes are cut into chunks, empty and odd ones included,
      the result is the checksum of their concatenation. */
  method InternetChecksum(chunks: seq<seq<u8>>) returns (r: u16)
    ensures r == ChecksumOf(Flatten(chunks))
  {
    hide WordSum, Summed, Fold;
    var sum: u32 := 0;
    var carry: Option<u8> := None;
    SummedInit();
    for k := 0 to |chunks|
      invariant Summed(Flatten(chunks[..k]), sum, carry)
    {
      var chunk := chunks[k];
      ghost var base := Flatten(chunks[..k]);
      assert chunks[..k + 1][..k] == chunks[..k];
      assert base + chunk[..0] == base;
      var i := 0;
      if carry.Some? {
        if chunk == [] {
          continue;
        }
        SummedPartner(base, sum, carry.value, chunk[0]);
        assert base + [chunk[0]] == base + chunk[..1];
        sum := (sum + Word(carry.value, chunk[0])) % 0x1_0000_0000;
        carry := None;
        i := 1;
      }
      while i + 1 < |chunk|
        invariant i <= |chunk| && carry.None?
        invariant Summed(base + chunk[..i], sum, None)
      {
        SummedPair(base + chunk[..i], sum, chunk[i], chunk[i + 1]);
        assert base + chunk[..i] + [chunk[i], chunk[i + 1]] == base + chunk[..i + 2];
        sum := (sum + Word(chunk[i], chunk[i + 1])) % 0x1_0000_0000;
        i := i + 2;
      }
      if i < |chunk| {
        SummedOdd(base + chunk[..i], sum, chunk[i]);
        assert base + chunk[..i] + [chunk[i]] == base + chunk[..i + 1];
        carry := Some(chunk[i]);
        i := i + 1;
      }
      assert chunk[..i] == chunk;
    }
    assert chunks[..|chunks|] == chunks;
    SummedEnd(Flatten(chunks), sum, carry);
    if carry.Some? {
      sum := (sum + 256 * carry.value) % 0x1_0000_0000;
    }
    FoldStep(sum);
    while sum / 0x1_0000 != 0
      invariant Fold(sum) == Fold(WordSum(Flatten(chunks)) % 0x1_0000_0000)
      decreases sum
    {
      FoldStep(sum);
      sum := sum % 0x1_0000 + sum / 0x1_0000;
    }
    FoldStep(sum);
    return 0xFFFF - sum;
  }

  lemma SummedInit()
    ensures Summed([], 0, None) && Flatten([]) == []
  {
  }

  lemma SummedPartner(done: seq<u8>, sum: u32, hi: u8, lo: u8)
    requires Summed(done, sum, Some(hi))
    ensures Summed(done + [lo], (sum + Word(hi, lo)) % 0x1_0000_0000, None)
  {
    hide WordSum;
    var head := done[..|done| - 1];
    SumWord(head, hi, lo);
    assert done == head + [hi];
    assert done + [lo] == head + [hi, lo];
  }

  lemma FoldStep(x: nat)
    ensures if x / 0x1_0000 == 0 then Fold(x) == x else Fold(x) == Fold(x % 0x1_0000 + x / 0x1_0000)
    ensures x / 0x1_0000 != 0 ==> x % 0x1_0000 + x / 0x1_0000 < x
  {
  }

  // ---------- IPv4 header decode ----------

  datatype L3Drop =
    Short | BadVersion | BadHeaderLen | BadTotalLen | Fragment | TtlZero | CsumBad | NotOurs | UnsupportedProto

  datatype L3Decoded = L3Decoded(protocol: u8, srcIp: u32, dstIp: u32, headerLen: nat, totalLen: nat, ttl: u8)

  datatype L3Result = Ok(header: L3Decoded) | Drop(reason: L3Drop)

  function Word32(a: u8, b: u8, c: u8, d: u8): u32 { Word(a, b) * 0x1_0000 + Word(c, d) }

  /** The header with its checksum field zeroed. */
  function Zeroed(hdr: seq<u8>): seq<u8>
    requires |hdr| >= 12
  {
    hdr[10 := 0][11 := 0]
  }

  /** `ip_decode`, in the order of its checks. */
  function IpDecode(pkt: seq<u8>, ourIp: u32, nicCsumOk: bool): L3Result {
    if |pkt| < 20 then Drop(Short)
    else if pkt[0] / 16 != 4 then Drop(BadVersion)
    else
      var ihl := pkt[0] % 16;
      var headerLen := 4 * ihl;
      if ihl < 5 || headerLen > |pkt| then Drop(BadHeaderLen)
      else
        var totalLen := Word(pkt[2], pkt[3]);
        if totalLen < headerLen || totalLen > |pkt| then Drop(BadTotalLen)
        else
          var flagsFrag := Word(pkt[6], pkt[7]);
          if (flagsFrag / 0x2000) % 2 != 0 || flagsFrag % 0x2000 != 0 then Drop(Fragment)
          else if pkt[8] == 0 then Drop(TtlZero)
          else if !nicCsumOk && ChecksumOf(Zeroed(pkt[..headerLen])) != Word(pkt[10], pkt[11]) then Drop(CsumBad)
          else
            var dst := Word32(pkt[16], pkt[17], pkt[18], pkt[19]);
            if ourIp != 0 && dst != ourIp then Drop(NotOurs)
            else if pkt[9] != 6 && pkt[9] != 1 then Drop(UnsupportedProto)
            else Ok(L3Decoded(pkt[9], Word32(pkt[12], pkt[13], pkt[14], pkt[15]), dst, headerLen, totalLen, pkt[8]))
  }

  /** The receiver's test of RFC 1071 section 1: the folded sum over the header, checksum field
      included, is all ones. */
  predicate SumsToOnes(hdr: seq<u8>) { Fold(WordSum(hdr)) == 0xFFFF }

  /** The header around its checksum field. */
  lemma Parts(hdr: seq<u8>)
    requires |hdr| >= 12
    ensures hdr == hdr[..10] + ([hdr[10], hdr[11]] + hdr[12..])
    ensures Zeroed(hdr) == hdr[..10] + ([0, 0] + hdr[12..])
  {
  }

  lemma ZeroedSum(hdr: seq<u8>)
    requires |hdr| >= 12
    ensures WordSum(hdr) == WordSum(Zeroed(hdr)) + Word(hdr[10], hdr[11])
  {
    hide WordSum;
    var a, b, z, c := hdr[..10], [hdr[10], hdr[11]], [0, 0], hdr[12..];
    Parts(hdr);
    WordSumConcat(a, b + c);
    WordSumConcat(b, c);
    WordSumConcat(a, z + c);
    WordSumConcat(z, c);
    WordSumTwo(hdr[10], hdr[11]);
    WordSumTwo(0, 0);
  }

  lemma ZeroedPositive(hdr: seq<u8>)
    requires |hdr| >= 12 && hdr[0] > 0
    ensures WordSum(Zeroed(hdr)) > 0
  {
    assert Zeroed(hdr)[0] == hdr[0];
  }

  /** Comparing the stored checksum with the one over the zeroed header is the RFC 1071 test,
      except that a stored 0xFFFF is never accepted. */
  lemma ZeroAndCompare(hdr: seq<u8>)
    requires 12 <= |hdr| <= 60 && hdr[0] > 0
    ensures ChecksumOf(Zeroed(hdr)) == Word(hdr[10], hdr[11]) <==> SumsToOnes(hdr) && Word(hdr[10], hdr[11]) != 0xFFFF
  {
    var s, stored := WordSum(Zeroed(hdr)), Word(hdr[10], hdr[11]);
    hide WordSum, Fold;
    ZeroedSum(hdr);
    WordSumBound(Zeroed(hdr));
    ZeroedPositive(hdr);
    assert s % 0x1_0000_0000 == s;
    FoldSum(s, stored);
  }

  lemma FoldSum(s: nat, stored: u16)
    requires s > 0
    ensures Fold(s) + stored == 0xFFFF <==> Fold(s + stored) == 0xFFFF && stored != 0xFFFF
  {
    FoldMod(s);
    FoldMod(s + stored);
    var f, g := Fold(s), Fold(s + stored);
    SameMod(s, f, stored);
    assert (f + stored) % 0xFFFF == g % 0xFFFF;
    assert 0 < f && 0 < g;
    if f + stored == 0xFFFF {
      assert g == 0xFFFF;
    } else if g == 0xFFFF {
      assert (f + stored) % 0xFFFF == 0;
      assert f + stored == 2 * 0xFFFF;
    }
  }

  lemma SameMod(s: nat, f: nat, n: nat)
    requires s % 0xFFFF == f % 0xFFFF
    ensures (s + n) % 0xFFFF == (f + n) % 0xFFFF
  {
    var d := s / 0xFFFF - f / 0xFFFF;
    assert s + n == (f + n) + 0xFFFF * d;
    var q := (f + n) / 0xFFFF;
    assert s + n == 0xFFFF * (q + d) + (f + n) % 0xFFFF;
  }

  /** What a decodable packet is, with no order among the conditions. */
  predicate Decodable(pkt: seq<u8>, ourIp: u32, nicCsumOk: bool) {
    && |pkt| >= 20 && pkt[0] / 16 == 4
    && var h := 4 * (pkt[0] % 16);
    && 20 <= h <= Word(pkt[2], pkt[3]) <= |pkt|
    && Word(pkt[6], pkt[7]) % 0x4000 == 0 && pkt[8] > 0
    && (nicCsumOk || (SumsToOnes(pkt[..h]) && Word(pkt[10], pkt[11]) != 0xFFFF))
    && (ourIp == 0 || Word32(pkt[16], pkt[17], pkt[18], pkt[19]) == ourIp) && pkt[9] in {1, 6}
  }

  /** A packet is accepted exactly when it is a whole, unfragmented, live IPv4 packet for us
      whose header passes the RFC 1071 test with a stored checksum other than 0xFFFF. */
  lemma DecodeAccepts(pkt: seq<u8>, ourIp: u32, nicCsumOk: bool)
    ensures IpDecode(pkt, ourIp, nicCsumOk).Ok? <==> Decodable(pkt, ourIp, nicCsumOk)
  {
    hide ChecksumOf, SumsToOnes;
    if |pkt| >= 20 && pkt[0] / 16 == 4 && 20 <= 4 * (pkt[0] % 16) <= |pkt| {
      var hdr := pkt[..4 * (pkt[0] % 16)];
      ZeroAndCompare(hdr);
      NoFragment(Word(pkt[6], pkt[7]));
    }
  }

  /** The more-fragments bit and the offset are the low fourteen bits. */
  lemma NoFragment(f: u16)
    ensures (f / 0x2000) % 2 == 0 && f % 0x2000 == 0 <==> f % 0x4000 == 0
  {
  }

  /** The refused case exists: a header that the RFC 1071 test passes, dropped because its stored
      checksum is 0xFFFF. */
  lemma RefusedHeader()
    ensures var pkt: seq<u8> := [0x45, 0, 0, 20, 0x66, 0xE2, 0, 0, 64, 6, 0xFF, 0xFF, 10, 0, 0, 1, 10, 0, 0, 2];
      SumsToOnes(pkt) && Word(pkt[10], pkt[11]) == 0xFFFF && IpDecode(pkt, 0, false) == Drop(CsumBad)
  {
    hide WordSum, Fold;
    var pkt: seq<u8> := [0x45, 0, 0, 20, 0x66, 0xE2, 0, 0, 64, 6, 0xFF, 0xFF, 10, 0, 0, 1, 10, 0, 0, 2];
    SumSplit(pkt, 4);
    SumSplit(pkt[4..], 4);
    SumSplit(pkt[8..], 4);
    SumSplit(pkt[12..], 4);
    assert pkt[4..][4..] == pkt[8..] && pkt[8..][4..] == pkt[12..] && pkt[12..][4..] == pkt[16..];
    assert pkt[..4] == [0x45, 0, 0, 20] && pkt[4..][..4] == [0x66, 0xE2, 0, 0] && pkt[8..][..4] == [64, 6, 0xFF, 0xFF];
    assert pkt[12..][..4] == [10, 0, 0, 1] && pkt[16..] == [10, 0, 0, 2];
    SumFour(0x45, 0, 0, 20);
    SumFour(0x66, 0xE2, 0, 0);
    SumFour(64, 6, 0xFF, 0xFF);
    SumFour(10, 0, 0, 1);
    SumFour(10, 0, 0, 2);
    assert WordSum(pkt) == 0x1_FFFE;
    FoldStep(0x1_FFFE);
    FoldStep(0xFFFF);
    ZeroAndCompare(pkt);
    assert pkt[..20] == pkt;
  }

  lemma SumSplit(b: seq<u8>, n: nat)
    requires n <= |b| && n % 2 == 0
    ensures WordSum(b) == WordSum(b[..n]) + WordSum(b[n..])
  {
    assert b[..n] + b[n..] == b;
    WordSumConcat(b[..n], b[n..]);
  }

  lemma SumFour(a: u8, b: u8, c: u8, d: u8)
    ensures WordSum([a, b, c, d]) == Word(a, b) + Word(c, d)
  {
    assert [a, b, c, d][2..] == [c, d];
    WordSumTwo(c, d);
  }
}
