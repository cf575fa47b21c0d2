/** Internet checksums of the packets the browser synthesises for a pcap export.
    The accumulator is a JavaScript number and the folding loop shifts it as a
    signed 32-bit integer; section 1 of RFC 1071 is the yardstick. */
module PcapChecksum {
  import opened Basics

  const TWO16 := 65536
  const TWO31 := 0x8000_0000
  const TWO32 := 0x1_0000_0000

  // ----- The algorithm -------------------------------------------------------

  /** The sum of big-endian 16-bit words, an odd last byte padded with zero. */
  function WordSum(s: seq<Byte>): nat {
    if s == [] then 0
    else if |s| == 1 then s[0] as int * 256
    else s[0] as int * 256 + s[1] as int + WordSum(s[2..])
  }

  /** JavaScript's conversion of an integer to a signed 32-bit one. */
  function ToInt32(x: int): int { (x + TWO31) % TWO32 - TWO31 }

  function Shr16(x: int): int { ToInt32(x) / TWO16 }

  function Low16(x: int): int { x % TWO16 }

  function Rank(sum: int): nat {
    if Shr16(sum) == 0 then 0 else if -32768 <= sum <= 98302 then 1 else 2
  }

  lemma FoldStepRank(sum: int)
    requires Shr16(sum) != 0
    ensures Rank(Low16(sum) + Shr16(sum)) < Rank(sum)
  {
  }

  function Fold(sum: int): int
    decreases Rank(sum)
  {
    if Shr16(sum) == 0 then sum
    else
      FoldStepRank(sum);
      Fold(Low16(sum) + Shr16(sum))
  }

  function Checksum(s: seq<Byte>): (c: int)
    ensures 0 <= c <= 65535
  {
    (-1 - Fold(WordSum(s))) % TWO16
  }

  method Checksum16(bytes: seq<Byte>) returns (c: int)
    ensures c == Checksum(bytes)
  {
    var sum := 0;
    var i := 0;
    assert bytes[0..] == bytes;
    while i < |bytes|
      invariant 0 <= i <= |bytes| + 1
      invariant sum + WordSum(if i <= |bytes| then bytes[i..] else []) == WordSum(bytes)
    {
      var hi := bytes[i] as int;
      var lo := if i + 1 < |bytes| then bytes[i + 1] as int else 0;
      assert i + 2 <= |bytes| ==> bytes[i..][2..] == bytes[i + 2..];
      sum := sum + hi * 256 + lo;
      i := i + 2;
    }
    while Shr16(sum) != 0
      invariant Fold(sum) == Fold(WordSum(bytes))
      decreases Rank(sum)
    {
      FoldStepRank(sum);
      sum := Low16(sum) + Shr16(sum);
    }
    c := (-1 - sum) % TWO16;
  }

  // ----- The yardstick -------------------------------------------------------

  /** The ones-complement sum of 16-bit words whose plain sum is s: s modulo
      65535, with 65535 rather than 0 for a non-zero multiple. */
  function OnesSum(s: nat): nat { if s == 0 then 0 else (s - 1) % 65535 + 1 }

  /** Section 1 of RFC 1071: the ones complement of the ones-complement sum. */
  function Rfc1071(s: seq<Byte>): nat { 65535 - OnesSum(WordSum(s)) }

  lemma SmallOnes(x: nat)
    ensures x <= 65535 ==> OnesSum(x) == x
    ensures OnesSum(x + 65535) == if x == 0 then 65535 else OnesSum(x)
  {
    if x > 0 {
      assert (x - 1 + 65535) % 65535 == (x - 1) % 65535;
    }
  }

  /** Addition of two 16-bit words in ones complement: a carry out goes back in. */
  function AddCarry(a: nat, b: nat): nat { if a + b > 65535 then a + b - 65535 else a + b }

  /** The words of s, high byte first and an odd last byte padded with zero, added
      up one by one with the carry brought round. */
  function Carried(s: seq<Byte>): nat
    decreases |s|
  {
    if s == [] then 0
    else AddCarry(256 * (s[0] as int) + (if |s| > 1 then s[1] as int else 0), Carried(if |s| > 1 then s[2..] else []))
  }

  lemma OnesAdd(a: nat, b: nat)
    requires a <= 65535
    ensures OnesSum(a + b) == AddCarry(a, OnesSum(b))
  {
    SmallOnes(a);
    if b > 0 {
      var r, q := OnesSum(b), (b - 1) / 65535;
      assert b == r + 65535 * q;
      OnesShift(a + r, q);
      assert a + b == a + r + 65535 * q;
      SmallOnes(a + r);
      if a + r > 65535 { SmallOnes(a + r - 65535); }
    }
  }

  /** So the yardstick is that sum, complemented. */
  lemma {:induction false} RfcByCarry(s: seq<Byte>)
    ensures Carried(s) <= 65535 && Rfc1071(s) == 65535 - Carried(s)
    decreases |s|
  {
    if s != [] {
      var rest := if |s| > 1 then s[2..] else [];
      RfcByCarry(rest);
      OnesAdd(256 * (s[0] as int) + (if |s| > 1 then s[1] as int else 0), WordSum(rest));
    }
  }

  lemma {:induction false} OnesShift(x: nat, k: nat)
    requires x > 0
    ensures OnesSum(x + 65535 * k) == OnesSum(x)
  {
    if k > 0 {
      OnesShift(x, k - 1);
      SmallOnes(x + 65535 * (k - 1));
    }
  }

  /** Splitting a sum into its halves does not change its ones-complement sum. */
  lemma HalvesOnes(sum: nat)
    ensures OnesSum(sum) == OnesSum(sum % TWO16 + sum / TWO16)
  {
    var hi, lo := sum / TWO16, sum % TWO16;
    assert sum == (lo + hi) + 65535 * hi;
    if lo + hi > 0 { OnesShift(lo + hi, hi); }
  }

  lemma PlainStep(sum: nat)
    requires TWO16 <= sum < TWO31
    ensures Fold(sum) == Fold(sum % TWO16 + sum / TWO16)
  {
    assert ToInt32(sum) == sum;
  }

  /** Below 2^31 the folding loop computes the ones-complement sum. */
  lemma FoldIsOnes(sum: nat)
    requires sum < TWO31
    ensures Fold(sum) == OnesSum(sum)
  {
    if sum < TWO16 {
      FoldSmall(sum);
    } else {
      PlainStep(sum);
      HalvesOnes(sum);
      FoldSmall(sum % TWO16 + sum / TWO16);
    }
  }

  lemma FoldSmall(x: nat)
    requires x <= 98302
    ensures Fold(x) == OnesSum(x)
  {
    assert ToInt32(x) == x;
    if x < TWO16 {
      SmallOnes(x);
    } else {
      var y := x - 65535;
      assert Low16(x) + Shr16(x) == y && ToInt32(y) == y;
      SmallOnes(y);
    }
  }

  lemma NegativeFold(y: int)
    requires -32768 <= y < 0
    ensures Fold(y) == y + 65535
  {
    assert ToInt32(y) == y && Shr16(y) == -1 && Low16(y) == y + TWO16;
    assert ToInt32(y + 65535) == y + 65535;
  }

  /** How many times a sum passes out of the signed 32-bit range. */
  function Wraps(sum: nat): nat { (sum + TWO31) / TWO32 }

  /** What one turn of the loop makes of a sum. */
  function FirstTurn(sum: int): int { Low16(sum) + Shr16(sum) }

  /** Each pass out of range takes one off, modulo 65535. */
  lemma TurnLoses(sum: nat)
    ensures FirstTurn(sum) == (sum - Wraps(sum)) - 65535 * (sum / TWO16 + Wraps(sum))
    ensures -32768 <= FirstTurn(sum) <= 98302
  {
    var k := Wraps(sum);
    assert ToInt32(sum) == sum - k * TWO32;
    assert Shr16(sum) == sum / TWO16 - k * TWO16;
  }

  /** f is v brought into 16 bits by at most one multiple of 65535, zero only for zero. */
  predicate Reduced(v: int, f: int) {
    0 <= f <= 65535 && (f == v || f == v + 65535 || f == v - 65535) && (f == 0 <==> v == 0)
  }

  lemma FoldReduces(v: int)
    requires -32768 <= v <= 98302
    ensures Reduced(v, Fold(v))
  {
    if v < 0 {
      NegativeFold(v);
    } else {
      FoldSmall(v);
      SmallOnes(if v < TWO16 then v else v - 65535);
    }
  }

  lemma FoldTurn(sum: int)
    ensures Fold(sum) == if Shr16(sum) == 0 then sum else Fold(FirstTurn(sum))
  {
    if Shr16(sum) != 0 { FoldStepRank(sum); }
  }

  lemma LowOfReduced(v: int, f: int)
    requires Reduced(v, f)
    ensures Low16(f) == f
  {
  }

  lemma LowIsReduced(sum: int)
    requires Shr16(sum) == 0
    ensures Reduced(FirstTurn(sum), Low16(sum))
  {
  }

  lemma FoldedLow(sum: nat)
    ensures Reduced(FirstTurn(sum), Low16(Fold(sum)))
  {
    FoldTurn(sum);
    if Shr16(sum) == 0 {
      LowIsReduced(sum);
    } else {
      var v := FirstTurn(sum);
      TurnLoses(sum);
      FoldReduces(v);
      LowOfReduced(v, Fold(v));
    }
  }

  lemma OnesQuotient(sum: nat) returns (q: nat)
    ensures OnesSum(sum) == sum - 65535 * q && OnesSum(sum) <= 65535 && (sum > 0 ==> OnesSum(sum) > 0)
  {
    q := if sum == 0 then 0 else (sum - 1) / 65535;
  }

  /** The passes out of range cancel. */
  predicate Cancels(sum: nat) { Wraps(sum) % 65535 == 0 }

  /** When the folding loop is right: they cancel, and a sum other than zero does not
      fold to zero. */
  predicate FoldsRight(sum: nat) { Cancels(sum) && (sum == 0 || FirstTurn(sum) != 0) }

  lemma Multiples(k: nat, m: int)
    requires -65535 <= 65535 * m - k <= 65535
    ensures k % 65535 == 0 <==> 65535 * m - k == 0 || 65535 * m - k == -65535 || 65535 * m - k == 65535
  {
    var d := 65535 * m - k;
    assert d == 0 ==> k == 65535 * m;
    assert d == 65535 ==> k == 65535 * (m - 1);
    assert d == -65535 ==> k == 65535 * (m + 1);
    assert k == 65535 * (k / 65535) + k % 65535;
  }

  /** For every sum the loop ends on the ones-complement sum if and only if the
      passes out of the signed range cancel. */
  lemma FoldIsOnesIff(sum: nat)
    ensures Low16(Fold(sum)) == OnesSum(sum) <==> FoldsRight(sum)
  {
    TurnLoses(sum);
    FoldedLow(sum);
    var q := OnesQuotient(sum);
    var v: int, f: int, k: int := FirstTurn(sum), Low16(Fold(sum)), Wraps(sum);
    var turn: int := if f == v then 0 else if f == v + 65535 then 1 else -1;
    var m: int := q - sum / TWO16 - k + turn;
    assert f - OnesSum(sum) == 65535 * m - k;
    Multiples(k, m);
    if sum == 0 { assert v == 0; }
  }

  /** Below 2^31 nothing passes out of range. */
  lemma InRangeFolds(sum: nat)
    requires Wraps(sum) < 65535
    ensures FoldsRight(sum) <==> sum < TWO31
  {
    TurnLoses(sum);
    assert Wraps(sum) == 0 <==> sum < TWO31;
    if sum < TWO31 { assert FirstTurn(sum) == sum % TWO16 + sum / TWO16; }
  }

  /** Every word is at most 65535. */
  lemma {:induction false} WordSumBound(s: seq<Byte>)
    ensures WordSum(s) <= 65535 * ((|s| + 1) / 2)
  {
    if |s| >= 2 { WordSumBound(s[2..]); }
  }

  lemma ComplementOf(f: int)
    ensures (-1 - f) % TWO16 == 65535 - Low16(f)
  {
  }

  /** For every input the code agrees with the RFC if and only if the passes of its
      word sum out of the signed 32-bit range cancel. */
  lemma ChecksumIff(s: seq<Byte>)
    ensures Checksum(s) == Rfc1071(s) <==> FoldsRight(WordSum(s))
  {
    FoldIsOnesIff(WordSum(s));
    ComplementOf(Fold(WordSum(s)));
  }

  /** Up to 4 GiB that is exactly when the word sum stays below 2^31. */
  lemma ChecksumIffBelow2To31(s: seq<Byte>)
    requires |s| <= TWO32
    ensures Checksum(s) == Rfc1071(s) <==> WordSum(s) < TWO31
  {
    WordSumBound(s);
    ChecksumIff(s);
    InRangeFolds(WordSum(s));
  }

  /** Up to 65536 bytes that is always so. */
  lemma ChecksumIsRfc1071(s: seq<Byte>)
    requires |s| <= 65536
    ensures Checksum(s) == Rfc1071(s) && 0 <= Checksum(s) <= 65535
  {
    WordSumBound(s);
    ChecksumIffBelow2To31(s);
  }

  function Ones(n: nat): (s: seq<Byte>)
    ensures |s| == 2 * n
  {
    seq(2 * n, _ => 255)
  }

  lemma {:induction false} OnesWordSum(n: nat)
    ensures WordSum(Ones(n)) == 65535 * n
  {
    if n > 0 {
      OnesWordSum(n - 1);
      assert Ones(n)[2..] == Ones(n - 1);
    }
  }

  /** The bound is tight: 65538 bytes of all ones are already wrong. */
  lemma FirstWrongLength()
    ensures |Ones(32769)| == 65538 && Checksum(Ones(32769)) != Rfc1071(Ones(32769))
  {
    OnesWordSum(32769);
    ChecksumIffBelow2To31(Ones(32769));
  }

  // ----- Verifying a patched checksum ----------------------------------------

  /** s with c stored big-endian at k. */
  function Patch(s: seq<Byte>, k: nat, c: int): (t: seq<Byte>)
    requires k + 2 <= |s| && 0 <= c <= 65535
    ensures |t| == |s|
  {
    s[k := c / 256][k + 1 := c % 256]
  }

  lemma PatchZero(s: seq<Byte>, k: nat)
    requires k + 2 <= |s| && s[k] == 0 && s[k + 1] == 0
    ensures Patch(s, k, 0) == s
  {
  }

  lemma {:induction false} PatchSum(s: seq<Byte>, k: nat, c: int)
    requires k + 2 <= |s| && k % 2 == 0 && s[k] == 0 && s[k + 1] == 0 && 0 <= c <= 65535
    ensures WordSum(Patch(s, k, c)) == WordSum(s) + c
  {
    if k == 0 {
      assert Patch(s, k, c)[2..] == s[2..];
    } else {
      assert Patch(s, k, c)[2..] == Patch(s[2..], k - 2, c);
      PatchSum(s[2..], k - 2, c);
    }
  }

  /** The patched sum is congruent to the passes out of range. */
  lemma PatchedSum(sum: nat) returns (m: int)
    ensures sum + 65535 - Low16(Fold(sum)) == 65535 * m + Wraps(sum) > 0
  {
    TurnLoses(sum);
    FoldedLow(sum);
    var v: int, f: int, k: int := FirstTurn(sum), Low16(Fold(sum)), Wraps(sum);
    var turn: int := if f == v then 0 else if f == v + 65535 then 1 else -1;
    m := 1 + sum / TWO16 + k - turn;
    if sum == 0 { assert v == 0; }
  }

  /** Zero is what the RFC computes exactly for non-zero multiples of 65535. */
  lemma RfcZeroIff(s: seq<Byte>)
    ensures Rfc1071(s) == 0 <==> WordSum(s) > 0 && WordSum(s) % 65535 == 0
  {
    var sum := WordSum(s);
    if sum > 0 {
      var q, r := (sum - 1) / 65535, (sum - 1) % 65535;
      assert sum == 65535 * q + r + 1;
      MultipleIff(q, r + 1);
    }
  }

  lemma MultipleIff(q: nat, r: nat)
    requires 0 < r <= 65535
    ensures (65535 * q + r) % 65535 == 0 <==> r == 65535
  {
    if r == 65535 { assert 65535 * q + r == 65535 * (q + 1); }
  }

  lemma SameRemainder(m: int, k: nat)
    requires 65535 * m + k >= 0
    ensures (65535 * m + k) % 65535 == k % 65535
  {
    assert 65535 * m + k == 65535 * (m + k / 65535) + k % 65535;
  }

  /** Filling in the checksum of a packet of any length whose checksum field was zero
      makes the packet verify if and only if the passes of its word sum out of the
      signed 32-bit range cancel; up to 65536 bytes there are none, and the packet
      also re-checksums to zero. */
  lemma PatchedVerifies(s: seq<Byte>, k: nat)
    requires k + 2 <= |s| && k % 2 == 0 && s[k] == 0 && s[k + 1] == 0
    ensures 0 <= Checksum(s) <= 65535
    ensures Rfc1071(Patch(s, k, Checksum(s))) == 0 <==> Cancels(WordSum(s))
    ensures |s| <= 65536 ==> Cancels(WordSum(s)) && Checksum(Patch(s, k, Checksum(s))) == 0
  {
    ChecksumCompletes(s);
    VerifiesIff(s, k, Checksum(s), Cancels(WordSum(s)));
    NoWraps(s);
  }

  lemma ChecksumCompletes(s: seq<Byte>)
    ensures Cancels(WordSum(s)) <==> WordSum(s) + Checksum(s) > 0 && (WordSum(s) + Checksum(s)) % 65535 == 0
  {
    PatchedSumIff(WordSum(s), Checksum(s), Cancels(WordSum(s)));
  }

  /** With any value stored, the sum decides; up to 65536 bytes also for the code. */
  lemma VerifiesIff(s: seq<Byte>, k: nat, c: int, ok: bool)
    requires k + 2 <= |s| && k % 2 == 0 && s[k] == 0 && s[k + 1] == 0 && 0 <= c <= 65535
    requires ok <==> WordSum(s) + c > 0 && (WordSum(s) + c) % 65535 == 0
    ensures Rfc1071(Patch(s, k, c)) == 0 <==> ok
    ensures |s| <= 65536 ==> (Checksum(Patch(s, k, c)) == 0 <==> ok)
  {
    PatchSum(s, k, c);
    RfcZeroIff(Patch(s, k, c));
    if |s| <= 65536 { ChecksumIsRfc1071(Patch(s, k, c)); }
  }

  lemma PatchedSumIff(sum: nat, c: int, ok: bool)
    requires c == (-1 - Fold(sum)) % TWO16 && ok == Cancels(sum)
    ensures 0 <= c <= 65535 && (ok <==> sum + c > 0 && (sum + c) % 65535 == 0)
  {
    ComplementOf(Fold(sum));
    var m := PatchedSum(sum);
    SameRemainder(m, Wraps(sum));
  }

  lemma NoWraps(s: seq<Byte>)
    ensures |s| <= 65536 ==> Cancels(WordSum(s))
  {
    WordSumBound(s);
    assert |s| <= 65536 ==> Wraps(WordSum(s)) == 0;
  }

  // ----- The packets ---------------------------------------------------------

  /** The 16-bit and the 32-bit number stored at k, most significant byte first. */
  function WordAt(s: seq<Byte>, k: nat): nat
    requires k + 2 <= |s|
  {
    256 * (s[k] as int) + s[k + 1] as int
  }

  function LongAt(s: seq<Byte>, k: nat): nat
    requires k + 4 <= |s|
  {
    65536 * WordAt(s, k) + WordAt(s, k + 2)
  }

  function U16be(v: int): (s: seq<Byte>)
    ensures |s| == 2 && WordAt(s, 0) == v % 65536
  {
    [v / 256 % 256, v % 256]
  }

  /** A 32-bit number is its high word and its low word. */
  lemma TwoWords(v: int)
    ensures v % 0x1_0000_0000 == 65536 * (v / 65536 % 65536) + v % 65536
    ensures v / 0x100_0000 == v / 65536 / 256
  {
    var hi, lo := v / 65536, v % 65536;
    assert hi == 65536 * (hi / 65536) + hi % 65536;
    assert v == 0x1_0000_0000 * (hi / 65536) + (65536 * (hi % 65536) + lo);
    Remainder(v, 0x1_0000_0000, hi / 65536, 65536 * (hi % 65536) + lo);
    assert v == 0x100_0000 * (hi / 256) + (65536 * (hi % 256) + lo);
    Remainder(v, 0x100_0000, hi / 256, 65536 * (hi % 256) + lo);
  }

  lemma TwoBytes(v: int)
    ensures 256 * (v / 256 % 256) + v % 256 == v % 65536
  {
  }

  lemma BytesOf32(v: int)
    ensures v % 0x1_0000_0000 == 65536 * (256 * (v / 0x100_0000 % 256) + v / 65536 % 256) + (256 * (v / 256 % 256) + v % 256)
  {
    TwoWords(v);
    TwoBytes(v);
    TwoBytes(v / 65536);
  }

  lemma Remainder(v: int, m: int, q: int, r: int)
    requires m > 0 && v == m * q + r && 0 <= r < m
    ensures v / m == q && v % m == r
  {
    var d := q - v / m;
    assert m * d == v % m - r;
  }

  function U32be(v: int): (s: seq<Byte>)
    ensures |s| == 4 && LongAt(s, 0) == v % 0x1_0000_0000
  {
    BytesOf32(v);
    [v / 0x100_0000 % 256, v / TWO16 % 256, v / 256 % 256, v % 256]
  }

  type Ip = s: seq<Byte> | |s| == 4 witness [0, 0, 0, 0]

  function Ipv4HeaderBlank(src: Ip, dst: Ip, protocol: int, payloadLen: nat, ttl: int, id: int): (h: seq<Byte>)
    ensures |h| == 20 && h[0] == 0x45 && h[1] == 0 && WordAt(h, 2) == (20 + payloadLen) % 65536 && WordAt(h, 4) == id % 65536
    ensures WordAt(h, 6) == 0x4000 && h[8] == ttl % 256 && h[9] == protocol % 256 && h[10] == 0 && h[11] == 0
    ensures h[12..16] == src && h[16..20] == dst
  {
    [0x45, 0x00] + U16be(20 + payloadLen) + U16be(id) + [0x40, 0x00] + [ttl % 256, protocol % 256] + [0, 0] + src + dst
  }

  function Pseudo(src: Ip, dst: Ip, protocol: Byte, segLen: nat): (p: seq<Byte>)
    ensures |p| == 12 && p[..4] == src && p[4..8] == dst && p[8] == 0 && p[9] == protocol && WordAt(p, 10) == segLen % 65536
  {
    src + dst + [0, protocol] + U16be(segLen)
  }

  function TcpBlank(srcPort: int, dstPort: int, seqNo: int, ack: int, window: int, payload: seq<Byte>): (s: seq<Byte>)
    ensures |s| == 20 + |payload| && WordAt(s, 0) == srcPort % 65536 && WordAt(s, 2) == dstPort % 65536
    ensures LongAt(s, 4) == seqNo % 0x1_0000_0000 && LongAt(s, 8) == ack % 0x1_0000_0000
    ensures s[12] == 0x50 && s[13] == 0x18 && WordAt(s, 14) == window % 65536
    ensures s[16] == 0 && s[17] == 0 && s[18] == 0 && s[19] == 0 && s[20..] == payload
  {
    U16be(srcPort) + U16be(dstPort) + U32be(seqNo) + U32be(ack) + [0x50, 0x18] + U16be(window) + [0, 0] + [0, 0] + payload
  }

  function UdpBlank(srcPort: int, dstPort: int, payload: seq<Byte>): (s: seq<Byte>)
    ensures |s| == 8 + |payload| && WordAt(s, 0) == srcPort % 65536 && WordAt(s, 2) == dstPort % 65536
    ensures WordAt(s, 4) == (8 + |payload|) % 65536 && s[6] == 0 && s[7] == 0 && s[8..] == payload
  {
    U16be(srcPort) + U16be(dstPort) + U16be(8 + |payload|) + [0, 0] + payload
  }

  function IcmpBlank(isEcho: bool, payload: seq<Byte>): (s: seq<Byte>)
    ensures |s| == 8 + |payload| && s[0] == (if isEcho then 8 else 0) && s[1] == 0 && s[2] == 0 && s[3] == 0
    ensures s[4] == 0 && s[5] == 0 && s[6] == 0 && s[7] == 0 && s[8..] == payload
  {
    [if isEcho then 8 else 0, 0] + [0, 0] + [0, 0, 0, 0] + payload
  }

  lemma PseudoPatch(pseudo: seq<Byte>, seg: seq<Byte>, k: nat, c: int)
    requires |pseudo| == 12 && k + 2 <= |seg| && 0 <= c <= 65535
    ensures pseudo + Patch(seg, k, c) == Patch(pseudo + seg, 12 + k, c)
  {
  }

  /** The same for a segment with its pseudo-header. */
  lemma SegmentVerifies(pseudo: seq<Byte>, seg: seq<Byte>, k: nat)
    requires |pseudo| == 12 && k + 2 <= |seg| && k % 2 == 0 && seg[k] == 0 && seg[k + 1] == 0
    ensures var c := Checksum(pseudo + seg);
            && 0 <= c <= 65535
            && (Rfc1071(pseudo + Patch(seg, k, c)) == 0 <==> Cancels(WordSum(pseudo + seg)))
            && (|pseudo| + |seg| <= 65536 ==> Cancels(WordSum(pseudo + seg)) && Checksum(pseudo + Patch(seg, k, c)) == 0)
  {
    PatchedVerifies(pseudo + seg, 12 + k);
    PseudoPatch(pseudo, seg, k, Checksum(pseudo + seg));
  }

  /** Store a checksum in a packet, in place. */
  method Store(packet: array<Byte>, k: nat, c: int)
    requires k + 2 <= packet.Length && 0 <= c <= 65535
    modifies packet
    ensures packet[..] == Patch(old(packet[..]), k, c)
  {
    packet[k] := c / 256;
    packet[k + 1] := c % 256;
  }

  method Copy(s: seq<Byte>) returns (a: array<Byte>)
    ensures fresh(a) && a[..] == s
  {
    a := new Byte[|s|](i requires 0 <= i < |s| => s[i]);
  }

  method Ipv4Header(src: Ip, dst: Ip, protocol: int, payloadLen: nat, ttl: int, id: int) returns (header: array<Byte>)
    ensures fresh(header) && Checksum(header[..]) == 0 && Rfc1071(header[..]) == 0
    ensures var blank := Ipv4HeaderBlank(src, dst, protocol, payloadLen, ttl, id);
            header.Length == 20 && header[..10] == blank[..10] && header[12..] == blank[12..]
  {
    ghost var blank := Ipv4HeaderBlank(src, dst, protocol, payloadLen, ttl, id);
    header := Copy(Ipv4HeaderBlank(src, dst, protocol, payloadLen, ttl, id));
    PatchedVerifies(blank, 10);
    var csum := Checksum16(header[..]);
    Store(header, 10, csum);
  }

  method TcpSegment(src: Ip, dst: Ip, srcPort: int, dstPort: int, seqNo: int, ack: int, window: int, payload: seq<Byte>)
    returns (segment: array<Byte>)
    ensures fresh(segment)
    ensures |payload| + 32 <= 65536 ==> Checksum(Pseudo(src, dst, 6, segment.Length) + segment[..]) == 0
    ensures var blank := TcpBlank(srcPort, dstPort, seqNo, ack, window, payload);
            Rfc1071(Pseudo(src, dst, 6, |blank|) + segment[..]) == 0 <==> Cancels(WordSum(Pseudo(src, dst, 6, |blank|) + blank))
    ensures var blank := TcpBlank(srcPort, dstPort, seqNo, ack, window, payload);
            segment.Length == |blank| && segment[..16] == blank[..16] && segment[18..] == blank[18..]
  {
    ghost var blank := TcpBlank(srcPort, dstPort, seqNo, ack, window, payload);
    segment := Copy(TcpBlank(srcPort, dstPort, seqNo, ack, window, payload));
    SegmentVerifies(Pseudo(src, dst, 6, |blank|), blank, 16);
    var csum := Checksum16(Pseudo(src, dst, 6, segment.Length) + segment[..]);
    Store(segment, 16, csum);
  }

  /** A computed checksum of zero is left out, as the reserved value; the segment
      then verifies as it stands. */
  method UdpSegment(src: Ip, dst: Ip, srcPort: int, dstPort: int, payload: seq<Byte>) returns (segment: array<Byte>)
    ensures fresh(segment)
    ensures |payload| + 20 <= 65536 ==> Checksum(Pseudo(src, dst, 17, segment.Length) + segment[..]) == 0
    ensures var blank := UdpBlank(srcPort, dstPort, payload);
            Rfc1071(Pseudo(src, dst, 17, |blank|) + segment[..]) == 0 <==> Cancels(WordSum(Pseudo(src, dst, 17, |blank|) + blank))
    ensures var blank := UdpBlank(srcPort, dstPort, payload);
            segment.Length == |blank| && segment[..6] == blank[..6] && segment[8..] == blank[8..]
  {
    ghost var blank := UdpBlank(srcPort, dstPort, payload);
    segment := Copy(UdpBlank(srcPort, dstPort, payload));
    SegmentVerifies(Pseudo(src, dst, 17, |blank|), blank, 6);
    var csum := Checksum16(Pseudo(src, dst, 17, segment.Length) + segment[..]);
    PatchZero(blank, 6);
    if csum != 0 {
      Store(segment, 6, csum);
    }
  }

  method IcmpSegment(isEcho: bool, payload: seq<Byte>) returns (segment: array<Byte>)
    ensures fresh(segment)
    ensures |payload| + 8 <= 65536 ==> Checksum(segment[..]) == 0
    ensures Rfc1071(segment[..]) == 0 <==> Cancels(WordSum(IcmpBlank(isEcho, payload)))
    ensures var blank := IcmpBlank(isEcho, payload);
            segment.Length == |blank| && segment[..2] == blank[..2] && segment[4..] == blank[4..]
  {
    ghost var blank := IcmpBlank(isEcho, payload);
    segment := Copy(IcmpBlank(isEcho, payload));
    PatchedVerifies(blank, 2);
    var csum := Checksum16(segment[..]);
    Store(segment, 2, csum);
  }
}
