/** Octets and the fixed-width integers that `struct.pack` and `struct.unpack` move. */
module Bytes {
  type Byte = x: int | 0 <= x < 0x100
  type Octets = seq<Byte>

  /** `s.encode("ascii")`. */
  function Ascii(s: string): (n: Octets)
    requires forall i :: 0 <= i < |s| ==> s[i] < 128 as char
    ensures |n| == |s| && forall i :: 0 <= i < |s| ==> n[i] == s[i] as int
  {
    seq(|s|, i requires 0 <= i < |s| => s[i] as int)
  }

  const U16_LIMIT := 0x1_0000
  const U32_LIMIT := 0x1_0000_0000

  /** `struct.pack(">H", n)`. */
  function PackU16(n: nat): (b: Octets)
    requires n < U16_LIMIT
    ensures |b| == 2 && UnpackU16(b) == n
  {
    [n / 0x100, n % 0x100]
  }

  /** `struct.unpack(">H", b)`. */
  function UnpackU16(b: Octets): (n: nat)
    requires |b| == 2
    ensures n < U16_LIMIT
  {
    (b[0] as int) * 0x100 + b[1] as int
  }

  /** `struct.pack(">I", n)`. */
  function PackU32(n: nat): (b: Octets)
    requires n < U32_LIMIT
    ensures |b| == 4 && UnpackU32(b) == n
  {
    var high, low := n / 0x1_0000, n % 0x1_0000;
    [high / 0x100, high % 0x100, low / 0x100, low % 0x100]
  }

  /** `struct.unpack(">I", b)`. */
  function UnpackU32(b: Octets): (n: nat)
    requires |b| == 4
    ensures n < U32_LIMIT
  {
    (((b[0] as int) * 0x100 + b[1] as int) * 0x100 + b[2] as int) * 0x100 + b[3] as int
  }

  /** In network order numbers compare as their octets do: the first different one decides. */
  lemma NetworkOrder16(m: nat, n: nat)
    requires m < n < U16_LIMIT
    ensures var a, b := PackU16(m), PackU16(n); a[0] < b[0] || (a[0] == b[0] && a[1] < b[1])
  {
  }

  lemma NetworkOrder32(m: nat, n: nat)
    requires m < n < U32_LIMIT
    ensures var a, b := PackU32(m), PackU32(n);
            || a[0] < b[0] || (a[0] == b[0] && a[1] < b[1])
            || (a[..2] == b[..2] && a[2] < b[2]) || (a[..3] == b[..3] && a[3] < b[3])
  {
    var a, b := PackU32(m), PackU32(n);
    assert a[..2] == [a[0], a[1]] && b[..2] == [b[0], b[1]];
    assert a[..3] == [a[0], a[1], a[2]] && b[..3] == [b[0], b[1], b[2]];
    assert UnpackU32(a) == m && UnpackU32(b) == n;
  }

  /** The same four octets in the other byte order. */
  function Swap32(b: Octets): (r: Octets)
    requires |b| == 4
    ensures |r| == 4
  {
    [b[3], b[2], b[1], b[0]]
  }

  function Pow2(n: nat): (p: nat)
    ensures p > 0
  {
    if n == 0 then 1 else 2 * Pow2(n - 1)
  }

  /** A buffer of `n` zero octets, as `bytearray(n)` makes it. */
  function Zeros(n: nat): (b: Octets)
    ensures |b| == n && forall i :: 0 <= i < n ==> b[i] == 0
  {
    seq(n, _ => 0)
  }
}

/** The smaller of two integers, and the few facts about products that row-major addressing needs. */
module Arithmetic {
  function Min(a: int, b: int): int {
    if a <= b then a else b
  }

  lemma MulMono(a: int, b: int, k: int)
    requires a <= b && 0 <= k
    ensures a * k <= b * k
  {
  }

  lemma MulNat(a: nat, b: nat)
    ensures 0 <= a * b
  {
  }

  lemma MulNext(a: int, k: int)
    ensures (a + 1) * k == a * k + k
  {
  }
}
