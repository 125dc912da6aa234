/**
 CRC-32 (section 3.4 of RFC 2083): the shift register, and why what it holds is
 the remainder of a polynomial division over the field of two elements.
 */
module Crc {
  import opened Bytes

  type Word32 = x: int | 0 <= x < U32_LIMIT

  // ------------------------------------------------------------------
  // The register
  // ------------------------------------------------------------------

  /** Bitwise exclusive or of the low `bits` bits. */
  function Xor(a: nat, b: nat, bits: nat): (r: nat)
    ensures r < Pow2(bits)
    decreases bits
  {
    if bits == 0 then 0 else (a % 2 + b % 2) % 2 + 2 * Xor(a / 2, b / 2, bits - 1)
  }

  lemma Pow2Of32()
    ensures Pow2(32) == U32_LIMIT
  {
    assert Pow2(4) == 0x10 && Pow2(8) == 0x100 && Pow2(12) == 0x1000 && Pow2(16) == 0x1_0000;
    assert Pow2(20) == 0x10_0000 && Pow2(24) == 0x100_0000 && Pow2(28) == 0x1000_0000;
  }

  function Xor32(a: Word32, b: Word32): Word32 {
    Pow2Of32();
    Xor(a, b, 32)
  }

  const FEEDBACK: Word32 := 0xEDB8_8320

  /** One turn of the register: the reflected CRC-32 polynomial is fed back when a one bit drops out. */
  function ShiftBit(c: Word32): Word32 {
    if c % 2 == 1 then Xor32(c / 2, FEEDBACK) else c / 2
  }

  function ShiftBits(c: Word32, n: nat): Word32
    decreases n
  {
    if n == 0 then c else ShiftBits(ShiftBit(c), n - 1)
  }

  /** One octet through the shift register, low bit first. */
  function ShiftOctet(c: Word32, octet: Byte): Word32 {
    ShiftBits(Xor32(c, octet), 8)
  }

  function Fold<S>(step: (S, Byte) -> S, state: S, data: Octets): S
    decreases |data|
  {
    if data == [] then state else Fold(step, step(state, data[0]), data[1..])
  }

  /** A checksum whose register is flipped on the way in and on the way out. */
  function Checksum<S>(step: (S, Byte) -> S, flip: S -> S, data: Octets, value: S): S {
    flip(Fold(step, flip(value), data))
  }

  /** Exclusive or with all ones. */
  function Flip(c: Word32): Word32 {
    U32_LIMIT - 1 - c
  }

  /** `zlib.crc32(data, value)`. */
  function Crc32(data: Octets, value: Word32): Word32 {
    Checksum(ShiftOctet, Flip, data, value)
  }

  lemma {:induction false} FoldConcat<S>(step: (S, Byte) -> S, state: S, a: Octets, b: Octets)
    ensures Fold(step, state, a + b) == Fold(step, Fold(step, state, a), b)
    decreases |a|
  {
    if a == [] {
      assert a + b == b;
    } else {
      FoldConcat(step, step(state, a[0]), a[1..], b);
      assert (a + b)[1..] == a[1..] + b;
    }
  }

  lemma ChecksumIncremental<S(!new)>(step: (S, Byte) -> S, flip: S -> S, a: Octets, b: Octets, value: S)
    requires forall c :: flip(flip(c)) == c
    ensures Checksum(step, flip, b, Checksum(step, flip, a, value)) == Checksum(step, flip, a + b, value)
  {
    FoldConcat(step, flip(value), a, b);
  }

  /** Feeding the parts one after the other gives the CRC of the whole. */
  lemma CrcIncremental(a: Octets, b: Octets)
    ensures Crc32(b, Crc32(a, 0)) == Crc32(a + b, 0)
  {
    ChecksumIncremental(ShiftOctet, Flip, a, b, 0);
  }

  // ------------------------------------------------------------------
  // Polynomials over the field of two elements
  // ------------------------------------------------------------------

  /** A polynomial: the exponents whose coefficient is one. */
  type Polynomial = set<nat>

  ghost function Add(p: Polynomial, q: Polynomial): Polynomial {
    (p - q) + (q - p)
  }

  /** The product with a power of x. */
  ghost function TimesPower(p: Polynomial, n: nat): Polynomial {
    set e | e in p :: e + n
  }

  ghost predicate Below(p: Polynomial, n: nat) {
    forall e :: e in p ==> e < n
  }

  /** The generator of CRC-32, by its exponents. */
  ghost const GENERATOR: Polynomial := {32, 26, 23, 22, 16, 12, 11, 10, 8, 7, 5, 4, 2, 1, 0}

  /** All exponents below 32. */
  ghost const ONES: Polynomial := set e: nat | e < 32

  /** Long division by the generator: what is left of exponents up to `top`. */
  ghost function Remainder(p: Polynomial, top: nat): Polynomial
    decreases top
  {
    if top < 32 then p
    else Remainder(if top in p then Add(p, TimesPower(GENERATOR, top - 32)) else p, top - 1)
  }

  lemma InTimesPower(p: Polynomial, n: nat, e: nat)
    ensures e in TimesPower(p, n) <==> e >= n && e - n in p
  {
    if e >= n && e - n in p {
      assert e - n + n == e;
    }
  }

  lemma TimesPowerSum(p: Polynomial, m: nat, n: nat)
    ensures TimesPower(TimesPower(p, m), n) == TimesPower(p, m + n)
  {
    forall e: nat ensures e in TimesPower(TimesPower(p, m), n) <==> e in TimesPower(p, m + n) {
      InTimesPower(TimesPower(p, m), n, e);
      InTimesPower(p, m + n, e);
      if e >= n {
        InTimesPower(p, m, e - n);
      }
    }
  }

  lemma TimesPowerAdds(p: Polynomial, q: Polynomial, n: nat)
    ensures TimesPower(Add(p, q), n) == Add(TimesPower(p, n), TimesPower(q, n))
  {
    forall e: nat ensures e in TimesPower(Add(p, q), n) <==> e in Add(TimesPower(p, n), TimesPower(q, n)) {
      InTimesPower(p, n, e);
      InTimesPower(q, n, e);
      InTimesPower(Add(p, q), n, e);
    }
  }

  lemma TimesOne(p: Polynomial)
    ensures TimesPower(p, 0) == p
  {
    forall e: nat ensures e in TimesPower(p, 0) <==> e in p {
      InTimesPower(p, 0, e);
    }
  }

  /** Multiplying by x and, when exponent 32 appears, subtracting the generator. */
  ghost function Turn(p: Polynomial): Polynomial {
    var q := TimesPower(p, 1);
    if 32 in q then Add(q, GENERATOR) else q
  }

  ghost function Turns(p: Polynomial, n: nat): Polynomial
    decreases n
  {
    if n == 0 then p else Turns(Turn(p), n - 1)
  }

  // ------------------------------------------------------------------
  // Words as polynomials
  // ------------------------------------------------------------------

  predicate Bit(n: nat, i: nat)
    decreases i
  {
    if i == 0 then n % 2 == 1 else Bit(n / 2, i - 1)
  }

  /** Bit `i` of the register is the coefficient of exponent 31 - i. */
  predicate Coefficient(c: nat, e: nat) {
    e < 32 && Bit(c, 31 - e)
  }

  ghost function PolynomialOf(c: Word32): Polynomial {
    set e: nat | e < 32 && Coefficient(c, e)
  }

  lemma {:induction false} ZeroBits(i: nat)
    ensures !Bit(0, i)
  {
    if i > 0 {
      ZeroBits(i - 1);
    }
  }

  lemma {:induction false} ZeroAbove(n: nat, bits: nat, i: nat)
    requires n < Pow2(bits) && bits <= i
    ensures !Bit(n, i)
  {
    if bits > 0 {
      ZeroAbove(n / 2, bits - 1, i - 1);
    } else {
      ZeroBits(i);
    }
  }

  lemma {:induction false} XorBit(a: nat, b: nat, bits: nat, i: nat)
    requires i < bits
    ensures Bit(Xor(a, b, bits), i) <==> Bit(a, i) != Bit(b, i)
    decreases bits
  {
    if i > 0 {
      assert Xor(a, b, bits) / 2 == Xor(a / 2, b / 2, bits - 1);
      XorBit(a / 2, b / 2, bits - 1, i - 1);
    }
  }

  lemma Xor32Bit(a: Word32, b: Word32, i: nat)
    requires i < 32
    ensures Bit(Xor32(a, b), i) <==> Bit(a, i) != Bit(b, i)
  {
    XorBit(a, b, 32, i);
  }

  lemma XorCoefficient(a: Word32, b: Word32, e: nat)
    requires e < 32
    ensures Coefficient(Xor32(a, b), e) <==> Coefficient(a, e) != Coefficient(b, e)
  {
    Xor32Bit(a, b, 31 - e);
  }

  lemma XorAdds(a: Word32, b: Word32)
    ensures PolynomialOf(Xor32(a, b)) == Add(PolynomialOf(a), PolynomialOf(b))
  {
    var c := Xor32(a, b);
    forall e: nat ensures e in PolynomialOf(c) <==> e in Add(PolynomialOf(a), PolynomialOf(b)) {
      if e < 32 {
        XorCoefficient(a, b, e);
      }
    }
  }

  lemma {:induction false} FlipBit(c: nat, bits: nat, i: nat)
    requires c < Pow2(bits) && i < bits
    ensures Bit(Pow2(bits) - 1 - c, i) <==> !Bit(c, i)
    decreases bits
  {
    if i > 0 {
      assert (Pow2(bits) - 1 - c) / 2 == Pow2(bits - 1) - 1 - c / 2;
      FlipBit(c / 2, bits - 1, i - 1);
    }
  }

  lemma FlipCoefficient(c: Word32, e: nat)
    requires e < 32
    ensures Coefficient(Flip(c), e) <==> !Coefficient(c, e)
  {
    Pow2Of32();
    FlipBit(c, 32, 31 - e);
  }

  lemma FlipAdds(c: Word32)
    ensures PolynomialOf(Flip(c)) == Add(ONES, PolynomialOf(c))
  {
    var f := Flip(c);
    forall e: nat ensures e in PolynomialOf(f) <==> e in Add(ONES, PolynomialOf(c)) {
      if e < 32 {
        FlipCoefficient(c, e);
      }
    }
  }

  lemma AllOnes()
    ensures PolynomialOf(Flip(0)) == ONES
  {
    FlipAdds(0);
    forall e: nat ensures e !in PolynomialOf(0) {
      if e < 32 {
        ZeroBits(31 - e);
      }
    }
  }

  lemma {:induction false} SameBits(a: nat, b: nat, bits: nat)
    requires a < Pow2(bits) && b < Pow2(bits) && forall i: nat :: i < bits ==> (Bit(a, i) <==> Bit(b, i))
    ensures a == b
    decreases bits
  {
    if bits > 0 {
      assert Bit(a, 0) <==> Bit(b, 0);
      forall i: nat | i < bits - 1 ensures Bit(a / 2, i) <==> Bit(b / 2, i) {
        assert Bit(a, i + 1) <==> Bit(b, i + 1);
      }
      SameBits(a / 2, b / 2, bits - 1);
    }
  }

  /** A word is determined by its polynomial. */
  lemma PolynomialDetermines(a: Word32, b: Word32)
    requires PolynomialOf(a) == PolynomialOf(b)
    ensures a == b
  {
    Pow2Of32();
    forall i: nat | i < 32 ensures Bit(a, i) <==> Bit(b, i) {
      var e: nat := 31 - i;
      assert e in PolynomialOf(a) <==> Coefficient(a, e);
      assert e in PolynomialOf(b) <==> Coefficient(b, e);
    }
    SameBits(a, b, 32);
  }

  // ------------------------------------------------------------------
  // One turn of the register
  // ------------------------------------------------------------------

  lemma NextDigit(n: nat, i: nat)
    requires i >= 4
    ensures Bit(n, i) <==> Bit(n / 0x10, i - 4)
  {
    assert Bit(n, i) <==> Bit(n / 2, i - 1);
    assert Bit(n / 2, i - 1) <==> Bit(n / 2 / 2, i - 2);
    assert Bit(n / 2 / 2, i - 2) <==> Bit(n / 2 / 2 / 2, i - 3);
    assert n / 2 / 2 / 2 / 2 == n / 0x10;
  }

  /** The low four bits of a number are the coefficients of the generator from exponent 31 - i down. */
  ghost predicate DigitOf(n: nat, i: nat)
    requires i <= 28
  {
    && (n % 2 == 1 <==> 31 - i in GENERATOR) && (n / 2 % 2 == 1 <==> 30 - i in GENERATOR)
    && (n / 4 % 2 == 1 <==> 29 - i in GENERATOR) && (n / 8 % 2 == 1 <==> 28 - i in GENERATOR)
  }

  lemma BitInDigit(n: nat, start: nat, i: nat)
    requires start <= 28 && start <= i < start + 4 && DigitOf(n, start)
    ensures Bit(n, i - start) <==> 31 - i in GENERATOR
  {
    assert n / 2 / 2 == n / 4 && n / 2 / 2 / 2 == n / 8;
    assert Bit(n, 1) <==> Bit(n / 2, 0);
    assert Bit(n, 2) <==> Bit(n / 2, 1);
    assert Bit(n, 3) <==> Bit(n / 2, 2);
  }

  lemma FeedbackFrom28(i: nat)
    requires 28 <= i < 32
    ensures Bit(0xE, i - 28) <==> 31 - i in GENERATOR
  {
    BitInDigit(0xE, 28, i);
  }

  lemma FeedbackFrom24(i: nat)
    requires 24 <= i < 32
    ensures Bit(0xED, i - 24) <==> 31 - i in GENERATOR
  {
    if i < 28 {
      BitInDigit(0xED, 24, i);
    } else {
      NextDigit(0xED, i - 24);
      FeedbackFrom28(i);
    }
  }

  lemma FeedbackFrom20(i: nat)
    requires 20 <= i < 32
    ensures Bit(0xEDB, i - 20) <==> 31 - i in GENERATOR
  {
    if i < 24 {
      BitInDigit(0xEDB, 20, i);
    } else {
      NextDigit(0xEDB, i - 20);
      FeedbackFrom24(i);
    }
  }

  lemma FeedbackFrom16(i: nat)
    requires 16 <= i < 32
    ensures Bit(0xEDB8, i - 16) <==> 31 - i in GENERATOR
  {
    if i < 20 {
      BitInDigit(0xEDB8, 16, i);
    } else {
      NextDigit(0xEDB8, i - 16);
      FeedbackFrom20(i);
    }
  }

  lemma FeedbackFrom12(i: nat)
    requires 12 <= i < 32
    ensures Bit(0xE_DB88, i - 12) <==> 31 - i in GENERATOR
  {
    if i < 16 {
      BitInDigit(0xE_DB88, 12, i);
    } else {
      NextDigit(0xE_DB88, i - 12);
      FeedbackFrom16(i);
    }
  }

  lemma FeedbackFrom8(i: nat)
    requires 8 <= i < 32
    ensures Bit(0xED_B883, i - 8) <==> 31 - i in GENERATOR
  {
    if i < 12 {
      BitInDigit(0xED_B883, 8, i);
    } else {
      NextDigit(0xED_B883, i - 8);
      FeedbackFrom12(i);
    }
  }

  lemma FeedbackFrom4(i: nat)
    requires 4 <= i < 32
    ensures Bit(0xEDB_8832, i - 4) <==> 31 - i in GENERATOR
  {
    if i < 8 {
      BitInDigit(0xEDB_8832, 4, i);
    } else {
      NextDigit(0xEDB_8832, i - 4);
      FeedbackFrom8(i);
    }
  }

  /** The constant that is fed back is the generator without exponent 32. */
  lemma FeedbackBit(i: nat)
    requires i < 32
    ensures Bit(FEEDBACK, i) <==> 31 - i in GENERATOR
  {
    if i < 4 {
      BitInDigit(FEEDBACK, 0, i);
    } else {
      NextDigit(FEEDBACK, i);
      FeedbackFrom4(i);
    }
  }

  lemma HalfCoefficient(c: Word32, e: nat)
    requires e < 32
    ensures Coefficient(c / 2, e) <==> e > 0 && Coefficient(c, e - 1)
  {
    if e == 0 {
      Pow2Of32();
      ZeroAbove(c, 32, 32);
    }
  }

  lemma FeedbackCoefficient(e: nat)
    requires e < 32
    ensures Coefficient(FEEDBACK, e) <==> e in GENERATOR
  {
    FeedbackBit(31 - e);
  }

  /** One turn of the register multiplies by x and takes the generator off when exponent 31 drops out. */
  lemma ShiftBitTurns(c: Word32)
    ensures PolynomialOf(ShiftBit(c)) == Turn(PolynomialOf(c))
  {
    var p, q := PolynomialOf(c), TimesPower(PolynomialOf(c), 1);
    var half: Word32 := c / 2;
    InTimesPower(p, 1, 32);
    assert c % 2 == 1 <==> Coefficient(c, 31);
    forall e: nat ensures e in PolynomialOf(ShiftBit(c)) <==> e in Turn(p) {
      InTimesPower(p, 1, e);
      if e < 32 {
        HalfCoefficient(c, e);
        FeedbackCoefficient(e);
        XorCoefficient(half, FEEDBACK, e);
      }
    }
  }

  lemma {:induction false} ShiftBitsTurn(c: Word32, n: nat)
    ensures PolynomialOf(ShiftBits(c, n)) == Turns(PolynomialOf(c), n)
    decreases n
  {
    if n > 0 {
      ShiftBitTurns(c);
      ShiftBitsTurn(ShiftBit(c), n - 1);
    }
  }

  // ------------------------------------------------------------------
  // The register as a remainder
  // ------------------------------------------------------------------

  lemma BelowOf(c: Word32)
    ensures Below(PolynomialOf(c), 32)
  {
  }

  /** What is left of a division is below the generator's degree. */
  lemma {:induction false} RemainderBelow(p: Polynomial, top: nat)
    requires Below(p, top + 1) && top >= 31
    ensures Below(Remainder(p, top), 32)
    decreases top
  {
    if top >= 32 {
      Eliminated(p, top);
      RemainderBelow(if top in p then Add(p, TimesPower(GENERATOR, top - 32)) else p, top - 1);
    }
  }

  /** One step of the division removes the highest exponent. */
  lemma Eliminated(p: Polynomial, top: nat)
    requires Below(p, top + 1) && top >= 32
    ensures Below(if top in p then Add(p, TimesPower(GENERATOR, top - 32)) else p, top)
  {
    var g := TimesPower(GENERATOR, top - 32);
    InTimesPower(GENERATOR, top - 32, top);
    forall e: nat | e in g ensures e <= top {
      InTimesPower(GENERATOR, top - 32, e);
    }
  }

  /** What is below the generator's degree goes through a division unchanged. */
  lemma {:induction false} RemainderAdds(p: Polynomial, q: Polynomial, top: nat)
    requires Below(q, 32)
    ensures Remainder(Add(p, q), top) == Add(Remainder(p, top), q)
    decreases top
  {
    if top >= 32 {
      var g := TimesPower(GENERATOR, top - 32);
      assert Add(Add(p, q), g) == Add(Add(p, g), q);
      assert top in Add(p, q) <==> top in p;
      RemainderAdds(if top in p then Add(p, g) else p, q, top - 1);
    }
  }

  /** A turn of what is left is what is left of the product with x. */
  lemma {:induction false} RemainderTurns(p: Polynomial, top: nat)
    requires Below(p, top + 1) && top >= 31
    ensures Remainder(TimesPower(p, 1), top + 1) == Turn(Remainder(p, top))
    decreases top
  {
    InTimesPower(p, 1, top + 1);
    if top == 31 {
      TimesOne(GENERATOR);
    } else {
      var g := TimesPower(GENERATOR, top - 32);
      TimesPowerSum(GENERATOR, top - 32, 1);
      TimesPowerAdds(p, g, 1);
      Eliminated(p, top);
      RemainderTurns(if top in p then Add(p, g) else p, top - 1);
    }
  }

  lemma TimesPowerBelow(p: Polynomial, n: nat, k: nat)
    requires Below(p, k)
    ensures Below(TimesPower(p, n), k + n)
  {
    forall e: nat | e in TimesPower(p, n) ensures e < k + n {
      InTimesPower(p, n, e);
    }
  }

  lemma {:induction false} RemainderTurnsMore(p: Polynomial, top: nat, n: nat)
    requires Below(p, top + 1) && top >= 31
    ensures Remainder(TimesPower(p, n), top + n) == Turns(Remainder(p, top), n)
    decreases n
  {
    if n == 0 {
      TimesOne(p);
    } else {
      RemainderTurns(p, top);
      TimesPowerSum(p, 1, n - 1);
      TimesPowerBelow(p, 1, top + 1);
      RemainderTurnsMore(TimesPower(p, 1), top + 1, n - 1);
    }
  }

  /**
   The message as a polynomial: its octets in order, each with its low bit first,
   are the coefficients from the highest exponent down.
   */
  ghost function Message(data: Octets): Polynomial {
    set e: nat | e < 8 * |data| && MessageBit(data, e)
  }

  predicate MessageBit(data: Octets, e: nat) {
    e < 8 * |data| && Bit(data[|data| - 1 - e / 8], 7 - e % 8)
  }

  /** What is divided: the message times x^32, and all ones in front of it. */
  ghost function Dividend(data: Octets): Polynomial {
    Add(TimesPower(ONES, 8 * |data|), TimesPower(Message(data), 32))
  }

  lemma InDividend(data: Octets, e: nat)
    ensures e in Dividend(data)
            <==> (8 * |data| <= e < 8 * |data| + 32) != (e >= 32 && MessageBit(data, e - 32))
  {
    InTimesPower(ONES, 8 * |data|, e);
    InTimesPower(Message(data), 32, e);
  }

  lemma OctetBit(octet: Byte, i: nat)
    requires i >= 8
    ensures !Bit(octet, i)
  {
    assert Pow2(4) == 0x10 && Pow2(8) == 0x100;
    ZeroAbove(octet, 8, i);
  }

  lemma MessageNext(data: Octets, octet: Byte, e: nat)
    ensures MessageBit(data + [octet], e) <==> if e < 8 then Bit(octet, 7 - e) else MessageBit(data, e - 8)
  {
    var more := data + [octet];
    if e < 8 {
      assert more[|more| - 1] == octet;
    } else if e < 8 * |more| {
      assert e / 8 == (e - 8) / 8 + 1 && e % 8 == (e - 8) % 8;
      assert more[|more| - 1 - e / 8] == data[|data| - 1 - (e - 8) / 8];
    }
  }

  /** One more octet: it is added at the top of the register's exponents, and all is multiplied by x^8. */
  lemma DividendNext(data: Octets, octet: Byte)
    ensures Dividend(data + [octet]) == TimesPower(Add(Dividend(data), PolynomialOf(octet)), 8)
  {
    var sum := Add(Dividend(data), PolynomialOf(octet));
    forall e: nat ensures e in Dividend(data + [octet]) <==> e in TimesPower(sum, 8) {
      InDividend(data + [octet], e);
      InTimesPower(sum, 8, e);
      if e >= 32 {
        MessageNext(data, octet, e - 32);
      }
      if e >= 8 {
        InDividend(data, e - 8);
        if e < 32 {
          OctetBit(octet, 39 - e);
        }
      }
    }
  }

  lemma DividendBelow(data: Octets)
    ensures Below(Dividend(data), 8 * |data| + 32)
  {
    forall e: nat | e in Dividend(data) ensures e < 8 * |data| + 32 {
      InDividend(data, e);
    }
  }

  /** The register holds what the octets fed so far leave when divided. */
  ghost predicate Divides(c: Word32, data: Octets) {
    PolynomialOf(c) == Remainder(Dividend(data), 8 * |data| + 31)
  }

  lemma OctetDivides(c: Word32, data: Octets, octet: Byte)
    requires Divides(c, data)
    ensures Divides(ShiftOctet(c, octet), data + [octet])
  {
    var top := 8 * |data| + 31;
    XorAdds(c, octet);
    ShiftBitsTurn(Xor32(c, octet), 8);
    RemainderAdds(Dividend(data), PolynomialOf(octet), top);
    DividendBelow(data);
    RemainderTurnsMore(Add(Dividend(data), PolynomialOf(octet)), top, 8);
    DividendNext(data, octet);
  }

  /** What every step keeps, folding keeps. */
  lemma {:induction false} FoldKeeps<S(!new)>(step: (S, Byte) -> S, holds: (S, Octets) -> bool, state: S, data: Octets,
                                              rest: Octets)
    requires holds(state, data)
    requires forall s, d, octet :: holds(s, d) ==> holds(step(s, octet), d + [octet])
    ensures holds(Fold(step, state, rest), data + rest)
    decreases |rest|
  {
    if rest == [] {
      assert data + rest == data;
    } else {
      FoldKeeps(step, holds, step(state, rest[0]), data + [rest[0]], rest[1..]);
      assert data + [rest[0]] + rest[1..] == data + rest;
    }
  }

  lemma FoldDivides(c: Word32, data: Octets)
    requires Divides(c, [])
    ensures Divides(Fold(ShiftOctet, c, data), data)
  {
    forall s: Word32, d: Octets, octet: Byte | Divides(s, d) ensures Divides(ShiftOctet(s, octet), d + [octet]) {
      OctetDivides(s, d, octet);
    }
    FoldKeeps(ShiftOctet, Divides, c, [], data);
    assert [] + data == data;
  }

  lemma StartDivides()
    ensures Divides(Flip(0), [])
  {
    AllOnes();
    forall e: nat ensures e in Dividend([]) <==> e in ONES {
      InDividend([], e);
    }
  }

  lemma DividedBelow(data: Octets)
    ensures Below(Remainder(Dividend(data), 8 * |data| + 31), 32)
  {
    DividendBelow(data);
    RemainderBelow(Dividend(data), 8 * |data| + 31);
  }

  /**
   Which checksum it is: the ones complement of the remainder of the division by
   the generator, of the message times x^32 with all ones added in front.
   */
  lemma CrcIsRemainder(data: Octets)
    ensures PolynomialOf(Crc32(data, 0)) == Add(ONES, Remainder(Dividend(data), 8 * |data| + 31))
  {
    StartDivides();
    FoldDivides(Flip(0), data);
    FlipAdds(Fold(ShiftOctet, Flip(0), data));
  }
}
