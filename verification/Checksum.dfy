/** The ICMPv6 checksum: a one's-complement sum over the pseudo-header of section 8.1 of RFC 8200
    and the payload.  The two programs compute it separately, in wrapping 32-bit arithmetic. */
module Checksum {
  import opened Bytes

  // ---- The sum ---------------------------------------------------------------------------

  /** The sum of the 16-bit words; an odd last byte is the high half of a word. */
  function Words(s: seq<byte>): nat {
    if |s| == 0 then 0
    else if |s| == 1 then 256 * (s[0] as int)
    else FromU16Be(s[0], s[1]) + Words(s[2..])
  }

  predicate Address(a: seq<byte>) {
    |a| == 16
  }

  const ICMPV6: int := 58

  function PseudoSum(src: seq<byte>, dst: seq<byte>, payload: seq<byte>): nat {
    var len := |payload| % TWO_32;
    Words(src) + Words(dst) + len / TWO_16 + len % TWO_16 + ICMPV6 + Words(payload)
  }

  /** End-around carry: the representative in 1..65535 of a non-zero sum modulo 65535. */
  function Fold(sum: nat): (f: nat)
    ensures f < TWO_16
  {
    if sum == 0 then 0 else 1 + (sum - 1) % 65535
  }

  /** What both implementations compute, for every payload. */
  function Checksum(src: seq<byte>, dst: seq<byte>, payload: seq<byte>): (c: nat)
    ensures c < TWO_16
  {
    65535 - Fold(PseudoSum(src, dst, payload) % TWO_32)
  }

  // ---- The two implementations -----------------------------------------------------------

  lemma CarryKeepsFold(sum: nat)
    ensures Fold(sum % TWO_16 + sum / TWO_16) == Fold(sum)
    ensures sum >= TWO_16 ==> sum % TWO_16 + sum / TWO_16 < sum
  {
    var q, r := sum / TWO_16, sum % TWO_16;
    assert sum == 65535 * q + (q + r);
    if sum > 0 {
      SameRemainder(sum - 1, q + r - 1, q);
    }
  }

  lemma SameRemainder(a: nat, b: nat, q: nat)
    requires a == 65535 * q + b
    ensures a % 65535 == b % 65535
  {
    assert b == 65535 * (b / 65535) + b % 65535;
    assert a == 65535 * (q + b / 65535) + b % 65535;
    Remainder(a, q + b / 65535, b % 65535);
  }

  lemma Remainder(a: nat, q: nat, r: nat)
    requires a == 65535 * q + r && r < 65535
    ensures a % 65535 == r
  {
    assert a % 65535 == a - 65535 * (a / 65535);
  }

  method FoldCarries(start: nat) returns (sum: nat)
    ensures sum == Fold(start)
  {
    sum := start;
    while sum / TWO_16 != 0
      invariant Fold(sum) == Fold(start)
      decreases sum
    {
      CarryKeepsFold(sum);
      sum := sum % TWO_16 + sum / TWO_16;
    }
    if sum > 0 {
      assert (sum - 1) % 65535 == sum - 1;
    }
  }

  /** Addition in 32 bits. */
  function Add32(a: nat, b: nat): (c: nat)
    ensures c < TWO_32
  {
    (a + b) % TWO_32
  }

  /** Two 32-bit sums that stand for the same total. */
  predicate Same(a: int, b: int) {
    a % TWO_32 == b % TWO_32
  }

  lemma WrapAdd(a: nat, b: nat, more: nat, total: int)
    requires Same(a + (b + more), total)
    ensures Same(Add32(a, b) + more, total)
  {
    var q := (a + b) / TWO_32;
    assert (a + b) % TWO_32 + more == a + (b + more) - TWO_32 * q;
    ModShift((a + b) % TWO_32 + more, q);
  }

  lemma ModShift(a: nat, q: nat)
    ensures (a + TWO_32 * q) % TWO_32 == a % TWO_32
  {
    if q > 0 {
      ModShift(a, q - 1);
      assert a + TWO_32 * q == (a + TWO_32 * (q - 1)) + TWO_32;
    }
  }

  /** Adds the words of `s` to a wrapping sum. */
  method AddWords(start: nat, s: seq<byte>) returns (sum: nat)
    requires start < TWO_32
    ensures sum < TWO_32 && Same(sum, start + Words(s))
  {
    hide Add32, Same, FromU16Be;
    sum := start;
    ghost var total := start + Words(s);
    assert s[0..] == s;
    assert Same(sum + Words(s[0..]), total) by {
      SameAsItself(total);
    }
    var i := 0;
    while i + 1 < |s|
      invariant 0 <= i <= |s| && sum < TWO_32
      invariant Same(sum + Words(s[i..]), total)
    {
      var word := FromU16Be(s[i], s[i + 1]);
      WordsStep(s, i);
      WrapAdd(sum, word, Words(s[i + 2..]), total);
      sum := Add32(sum, word);
      i := i + 2;
    }
    if i < |s| {
      WrapAdd(sum, 256 * (s[i] as int), 0, total);
      sum := Add32(sum, 256 * (s[i] as int));
    }
  }

  lemma SameAsItself(a: int)
    ensures Same(a, a)
  {
  }

  lemma WordsStep(s: seq<byte>, i: nat)
    requires i + 1 < |s|
    ensures Words(s[i..]) == FromU16Be(s[i], s[i + 1]) + Words(s[i + 2..])
    ensures FromU16Be(s[i], s[i + 1]) >= 0
  {
    assert s[i..][2..] == s[i + 2..];
  }

  /** Sums of the same total fold to the same checksum. */
  lemma SameSum(sum: nat, total: nat)
    requires sum < TWO_32 && Same(sum, total)
    ensures sum == total % TWO_32
  {
  }

  /** The relay's implementation: one running sum, part by part. */
  method RelayChecksum(src: seq<byte>, dst: seq<byte>, payload: seq<byte>) returns (c: nat)
    requires Address(src) && Address(dst)
    ensures c == Checksum(src, dst, payload)
  {
    hide Words, Fold, Same, Add32;
    ghost var x, y := Words(src), Words(dst);
    var len := |payload| % TWO_32;
    var sum := AddWords(0, src);
    var sum' := AddWords(sum, dst);
    SumsChain(sum, x, sum', y);
    var high := Add32(sum', len / TWO_16);
    AddChain(sum', x + y, len / TWO_16);
    var low := Add32(high, len % TWO_16);
    AddChain(high, x + y + len / TWO_16, len % TWO_16);
    var next := Add32(low, ICMPV6);
    AddChain(low, x + y + len / TWO_16 + len % TWO_16, ICMPV6);
    sum := AddWords(next, payload);
    SumsChain(next, x + y + len / TWO_16 + len % TWO_16 + ICMPV6, sum, Words(payload));
    SameSum(sum, PseudoSum(src, dst, payload));
    sum := FoldCarries(sum);
    return 65535 - sum;
  }

  lemma SameShift(a: nat, x: nat, y: nat)
    requires Same(a, x)
    ensures Same(a + y, x + y)
  {
    var lo, hi := if a < x then a else x, if a < x then x else a;
    assert hi == lo + TWO_32 * ((hi - lo) / TWO_32);
    ModShift(lo + y, (hi - lo) / TWO_32);
  }

  lemma AddChain(a: nat, x: nat, y: nat)
    requires Same(a, x)
    ensures Same(Add32(a, y), x + y)
  {
    SameShift(a, x, y);
    hide Same, Add32;
    WrapAdd(a, y, 0, x + y);
  }

  lemma SumsChain(a: nat, x: nat, b: nat, y: nat)
    requires Same(a, x) && Same(b, a + y)
    ensures Same(b, x + y)
  {
    SameShift(a, x, y);
  }

  /** The pseudo-header, written out. */
  function PseudoHeader(src: seq<byte>, dst: seq<byte>, len: int): seq<byte>
    requires 0 <= len < TWO_32
  {
    src + dst + U32Be(len) + [0, 0, 0, 58]
  }

  lemma {:induction false} WordsAppend(a: seq<byte>, b: seq<byte>)
    requires |a| % 2 == 0
    ensures Words(a + b) == Words(a) + Words(b)
  {
    if a == [] {
      assert a + b == b;
    } else {
      assert (a + b)[2..] == a[2..] + b;
      WordsAppend(a[2..], b);
    }
  }

  lemma FourWords(l: seq<byte>)
    requires |l| == 4
    ensures Words(l) == FromU16Be(l[0], l[1]) + FromU16Be(l[2], l[3])
  {
    var z := l[2..];
    assert z[2..] == [];
    assert Words(z) == FromU16Be(z[0], z[1]);
  }

  lemma HalvesRecombine(len: nat)
    ensures len / TWO_16 == 256 * (len / 0x100_0000) + len / TWO_16 % 256
    ensures len % TWO_16 == 256 * (len / 0x100 % 0x100) + len % 0x100
  {
    assert len == 256 * (len / 256) + len % 256;
    assert len / 256 == 256 * (len / 256 / 256) + len / 256 % 256;
    assert len / 256 / 256 == len / TWO_16;
  }

  lemma LengthWords(len: int)
    requires 0 <= len < TWO_32
    ensures Words(U32Be(len)) == len / TWO_16 + len % TWO_16
  {
    hide Words;
    FourWords(U32Be(len));
    HalvesRecombine(len);
  }

  lemma PseudoHeaderWords(src: seq<byte>, dst: seq<byte>, len: int)
    requires Address(src) && Address(dst) && 0 <= len < TWO_32
    ensures Words(PseudoHeader(src, dst, len)) == Words(src) + Words(dst) + len / TWO_16 + len % TWO_16 + ICMPV6
  {
    var l, z: seq<byte> := U32Be(len), [0, 0, 0, 58];
    assert z[2..] == [0, 58] && z[2..][2..] == [];
    assert Words(z) == ICMPV6;
    LengthWords(len);
    hide Words;
    WordsAppend(src + dst + l, z);
    WordsAppend(src + dst, l);
    WordsAppend(src, dst);
  }

  /** The helper daemon's implementation: the pseudo-header is built, then both parts added. */
  method HelperChecksum(src: seq<byte>, dst: seq<byte>, payload: seq<byte>) returns (c: nat)
    requires Address(src) && Address(dst)
    ensures c == Checksum(src, dst, payload)
  {
    var ulen := |payload| % TWO_32;
    var pseudo := PseudoHeader(src, dst, ulen);
    PseudoHeaderWords(src, dst, ulen);
    var a := AddWords(0, pseudo);
    var sum := AddWords(a, payload);
    SumsChain(a, Words(pseudo), sum, Words(payload));
    SameSum(sum, PseudoSum(src, dst, payload));
    sum := FoldCarries(sum);
    return 65535 - sum;
  }

  // ---- What a receiver finds -------------------------------------------------------------

  /** The receiver adds everything up, checksum included, and expects all ones. */
  predicate Accepts(src: seq<byte>, dst: seq<byte>, payload: seq<byte>) {
    Fold(PseudoSum(src, dst, payload)) == 0xFFFF
  }

  /** The checksum goes into bytes 2 and 3. */
  function Sealed(src: seq<byte>, dst: seq<byte>, payload: seq<byte>): (p: seq<byte>)
    requires |payload| >= 4
    ensures |p| == |payload| && p[..2] == payload[..2] && p[4..] == payload[4..]
  {
    payload[..2] + U16Be(Checksum(src, dst, payload)) + payload[4..]
  }

  lemma SealedSum(src: seq<byte>, dst: seq<byte>, payload: seq<byte>)
    requires |payload| >= 4 && payload[2] == payload[3] == 0
    ensures PseudoSum(src, dst, Sealed(src, dst, payload))
         == PseudoSum(src, dst, payload) + Checksum(src, dst, payload)
  {
    var c := Checksum(src, dst, payload);
    var z: seq<byte> := [0, 0];
    assert payload == payload[..2] + z + payload[4..];
    WordsAppend(payload[..2] + z, payload[4..]);
    WordsAppend(payload[..2], z);
    WordsAppend(payload[..2] + U16Be(c), payload[4..]);
    WordsAppend(payload[..2], U16Be(c));
    assert z[2..] == [] && U16Be(c)[2..] == [];
  }

  lemma FoldIsRemainder(sum: nat)
    requires sum > 0
    ensures Fold(sum) == 0xFFFF <==> sum % 65535 == 0
  {
    var q, r := (sum - 1) / 65535, (sum - 1) % 65535;
    assert sum == 65535 * q + (r + 1);
    if r == 65534 {
      Remainder(sum, q + 1, 0);
    } else {
      Remainder(sum, q, r + 1);
    }
  }

  /** What the receiver's sum comes to, when the sender's has wrapped k times. */
  lemma WrapsRemain(sum: nat)
    ensures (sum + (65535 - Fold(sum % TWO_32))) % 65535 == sum / TWO_32 % 65535
  {
    var k, s := sum / TWO_32, sum % TWO_32;
    var j := if s == 0 then 0 else (s - 1) / 65535;
    assert Fold(s) == s - 65535 * j;
    assert sum + (65535 - Fold(s)) == 65535 * (65537 * k + 1 + j) + k;
    SameRemainder(sum + (65535 - Fold(s)), k, 65537 * k + 1 + j);
  }

  /** Every receiver accepts the checksum exactly when the 32-bit sum did not wrap, or wrapped a
      multiple of 65535 times. */
  lemma ReceiverAccepts(src: seq<byte>, dst: seq<byte>, payload: seq<byte>)
    requires |payload| >= 4 && payload[2] == payload[3] == 0
    ensures Accepts(src, dst, Sealed(src, dst, payload))
            <==> PseudoSum(src, dst, payload) / TWO_32 % 65535 == 0
  {
    var sum := PseudoSum(src, dst, payload);
    SealedSum(src, dst, payload);
    FoldIsRemainder(sum + Checksum(src, dst, payload));
    WrapsRemain(sum);
  }

  lemma {:induction false} WordsBound(s: seq<byte>)
    ensures Words(s) <= 65535 * (|s| / 2) + 65280 * (|s| % 2)
  {
    if |s| >= 2 {
      WordsBound(s[2..]);
      assert |s| / 2 == |s[2..]| / 2 + 1;
    }
  }

  /** A checksum field still zero leaves one word out. */
  lemma ZeroFieldBound(s: seq<byte>)
    requires |s| >= 4 && s[2] == s[3] == 0
    ensures Words(s) <= 65535 * (|s| / 2 - 1) + 65280 * (|s| % 2)
  {
    var t := s[2..];
    assert t[2..] == s[4..];
    assert Words(t) == Words(s[4..]);
    hide Words;
    WordsBound(s[4..]);
    WordsStep(s, 0);
    assert s[0..] == s;
    assert FromU16Be(s[0], s[1]) <= 65535;
    assert |s| / 2 == |s[4..]| / 2 + 2;
  }

  const LONGEST_SAFE: nat := 131039
  const LONGEST_SEALED: nat := 131041

  /** Up to 131039 bytes of any payload, and up to 131041 with the checksum field still zero, the sum
      cannot wrap; so every receiver accepts what is sealed. */
  lemma ShortPayloadsAccepted(src: seq<byte>, dst: seq<byte>, payload: seq<byte>)
    requires Address(src) && Address(dst)
    ensures |payload| <= LONGEST_SAFE ==> PseudoSum(src, dst, payload) < TWO_32
    ensures 4 <= |payload| <= LONGEST_SEALED && payload[2] == payload[3] == 0 ==>
              PseudoSum(src, dst, payload) < TWO_32 && Accepts(src, dst, Sealed(src, dst, payload))
  {
    hide Words, Accepts, Sealed;
    WordsBound(src);
    WordsBound(dst);
    if |payload| <= LONGEST_SAFE {
      WordsBound(payload);
    }
    if 4 <= |payload| <= LONGEST_SEALED && payload[2] == payload[3] == 0 {
      ZeroFieldBound(payload);
      ReceiverAccepts(src, dst, payload);
    }
  }

  function Ones(n: nat): (s: seq<byte>)
    ensures |s| == n
  {
    seq(n, _ => 255)
  }

  lemma {:induction false} WordsOfOnes(n: nat)
    ensures Words(Ones(2 * n)) == 65535 * n
  {
    if n > 0 {
      assert Ones(2 * n)[2..] == Ones(2 * (n - 1));
      WordsOfOnes(n - 1);
    }
  }

  /** One byte more can wrap. */
  lemma LongestSafeIsTight()
    ensures PseudoSum(Ones(16), Ones(16), Ones(LONGEST_SAFE + 1)) >= TWO_32
  {
    WordsOfOnes(8);
    WordsOfOnes(65520);
  }

  /** All ones but for the checksum field. */
  function OnesAround(n: nat): (s: seq<byte>)
    ensures |s| == n + 4 && s[2] == s[3] == 0
  {
    [255, 255, 0, 0] + Ones(n)
  }

  /** The bound is tight for what is sealed, too: one byte more, and there is a payload that the
      receiver rejects. */
  lemma LongestSealedIsTight()
    ensures var payload := OnesAround(LONGEST_SEALED - 3);
            |payload| == LONGEST_SEALED + 1 && !Accepts(Ones(16), Ones(16), Sealed(Ones(16), Ones(16), payload))
  {
    hide Words, Accepts, Sealed, Ones, OnesAround;
    SumAround();
    ReceiverAccepts(Ones(16), Ones(16), OnesAround(131038));
  }

  lemma SumAround()
    ensures PseudoSum(Ones(16), Ones(16), OnesAround(131038)) == TWO_32 + 29
  {
    hide Words, Ones, OnesAround;
    WordsOfOnes(8);
    WordsOfOnes(65519);
    WordsAround(131038);
  }

  lemma WordsAround(n: nat)
    ensures Words(OnesAround(n)) == 65535 + Words(Ones(n))
  {
    hide Words, Ones;
    FourWords([255, 255, 0, 0]);
    WordsAppend([255, 255, 0, 0], Ones(n));
  }
}
