/** Bytes and the big-endian integers of the wire formats. */
module Bytes {

  type byte = b: int | 0 <= b < 256

  const TWO_16: int := 0x1_0000
  const TWO_31: int := 0x8000_0000
  const TWO_32: int := 0x1_0000_0000

  function U16Be(n: int): (s: seq<byte>)
    requires 0 <= n < TWO_16
    ensures |s| == 2
  {
    [n / 256, n % 256]
  }

  function FromU16Be(hi: byte, lo: byte): int {
    256 * (hi as int) + lo as int
  }

  function U32Be(n: int): (s: seq<byte>)
    requires 0 <= n < TWO_32
    ensures |s| == 4
  {
    [n / 0x100_0000, n / 0x1_0000 % 256, n / 0x100 % 256, n % 256]
  }

  /** The most significant byte comes first: a number shifted by a byte is its bytes moved along. */
  lemma MostSignificantFirst(n: int)
    ensures 0 <= n < TWO_16 ==> U16Be(n)[1] == n % 256 && U16Be(n / 256) == [0, U16Be(n)[0]]
    ensures 0 <= n < TWO_32 ==> U32Be(n)[3] == n % 256 && U32Be(n / 256) == [0] + U32Be(n)[..3]
  {
    if 0 <= n < TWO_32 {
      assert n / 256 / 0x100 == n / 0x1_0000;
      assert n / 256 / 0x1_0000 == n / 0x100_0000;
      assert U32Be(n / 256) == [0, n / 0x100_0000, n / 0x1_0000 % 256, n / 0x100 % 256];
    }
  }

  function FromU32Be(s: seq<byte>): (n: int)
    requires |s| == 4
    ensures 0 <= n < TWO_32
  {
    0x100_0000 * (s[0] as int) + 0x1_0000 * (s[1] as int) + 0x100 * (s[2] as int) + s[3] as int
  }

  lemma U32RoundTrip(n: int)
    requires 0 <= n < TWO_32
    ensures FromU32Be(U32Be(n)) == n
  {
    assert n == 0x100 * (n / 0x100) + n % 0x100;
    assert n / 0x100 == 0x100 * (n / 0x1_0000) + n / 0x100 % 0x100;
    assert n / 0x1_0000 == 0x100 * (n / 0x100_0000) + n / 0x1_0000 % 0x100;
  }

  lemma ByteOff(n: int, q: int, b: int)
    requires n == 0x100 * q + b && 0 <= b < 0x100
    ensures n / 0x100 == q && n % 0x100 == b
  {
  }

  lemma U32Again(s: seq<byte>)
    requires |s| == 4
    ensures U32Be(FromU32Be(s)) == s
  {
    var n := FromU32Be(s);
    var q := 0x1_0000 * (s[0] as int) + 0x100 * (s[1] as int) + s[2] as int;
    var p := 0x100 * (s[0] as int) + s[1] as int;
    ByteOff(n, q, s[3]);
    ByteOff(q, p, s[2]);
    ByteOff(p, s[0], s[1]);
    Shifts(n);
    hide FromU32Be;
  }

  lemma Shifts(n: nat)
    ensures n / 0x1_0000 == n / 0x100 / 0x100 && n / 0x100_0000 == n / 0x100 / 0x100 / 0x100
  {
  }

  /** Two's complement, most significant byte first. */
  function I32Be(code: int): (s: seq<byte>)
    requires -TWO_31 <= code < TWO_31
    ensures |s| == 4
  {
    U32Be(if code < 0 then code + TWO_32 else code)
  }

  function FromI32Be(s: seq<byte>): int
    requires |s| == 4
  {
    var n := FromU32Be(s);
    if n >= TWO_31 then n - TWO_32 else n
  }

  lemma I32RoundTrip(code: int)
    requires -TWO_31 <= code < TWO_31
    ensures FromI32Be(I32Be(code)) == code
  {
    U32RoundTrip(if code < 0 then code + TWO_32 else code);
  }
}
