/** Steps of MD5 on given words: the functions of section 3.4 of RFC 1321 digit by digit, sums with their carries. */
module Md5Digits {
  import opened Bits
  import opened Md5Spec
  import opened Md5Words

  // ---- the auxiliary functions, bit by bit and byte by byte ----

  /** One bit of the function of a round, as section 3.4 describes it. */
  predicate Pick(round: nat, x: bool, y: bool, z: bool)
  {
    if round == 0 then (if x then y else z)
    else if round == 1 then (if z then x else y)
    else if round == 2 then x != (y != z)
    else y != (x || !z)
  }

  function BitValue(b: bool): nat { if b then 1 else 0 }

  function Picked(round: nat, x: nat, y: nat, z: nat, n: nat): nat
    decreases n, x
  {
    if n == 0 then 0
    else BitValue(Pick(round, x % 2 == 1, y % 2 == 1, z % 2 == 1)) + 2 * Picked(round, x / 2, y / 2, z / 2, n - 1)
  }

  /** The complement of n bits. */
  function Flip(x: nat, n: nat): nat
    requires x < Pow2(n)
  {
    Pow2(n) - 1 - x
  }

  function FunOf(round: nat, x: nat, y: nat, z: nat, n: nat): nat
    requires x < Pow2(n) && z < Pow2(n)
  {
    if round == 0 then Or(And(x, y), And(Flip(x, n), z))
    else if round == 1 then Or(And(x, z), And(y, Flip(z, n)))
    else if round == 2 then Xor(Xor(x, y), z)
    else Xor(y, Or(x, Flip(z, n)))
  }

  lemma FunOfStep(round: nat, x: nat, y: nat, z: nat, n: nat)
    requires n > 0 && x < Pow2(n) && y < Pow2(n) && z < Pow2(n)
    ensures x / 2 < Pow2(n - 1) && y / 2 < Pow2(n - 1) && z / 2 < Pow2(n - 1)
    ensures FunOf(round, x, y, z, n)
      == BitValue(Pick(round, x % 2 == 1, y % 2 == 1, z % 2 == 1)) + 2 * FunOf(round, x / 2, y / 2, z / 2, n - 1)
  {
    hide And, Or, Xor;
    assert Pow2(n) == 2 * Pow2(n - 1);
    FlipStep(x, n);
    FlipStep(z, n);
    AndBit(x, y);
    AndBit(x, z);
    AndBit(Flip(x, n), z);
    AndBit(y, Flip(z, n));
    OrBit(And(x, y), And(Flip(x, n), z));
    OrBit(And(x, z), And(y, Flip(z, n)));
    OrBit(x, Flip(z, n));
    XorBit(x, y);
    XorBit(Xor(x, y), z);
    XorBit(y, Or(x, Flip(z, n)));
  }

  lemma FlipStep(x: nat, n: nat)
    requires n > 0 && x < Pow2(n)
    ensures x / 2 < Pow2(n - 1)
    ensures Flip(x, n) / 2 == Flip(x / 2, n - 1) && Flip(x, n) % 2 == 1 - x % 2
  {
    assert Pow2(n) == 2 * Pow2(n - 1);
  }

  lemma {:induction false} FunOfBits(round: nat, x: nat, y: nat, z: nat, n: nat)
    requires x < Pow2(n) && y < Pow2(n) && z < Pow2(n)
    ensures FunOf(round, x, y, z, n) == Picked(round, x, y, z, n)
    decreases n
  {
    hide FunOf;
    if n > 0 {
      FunOfStep(round, x, y, z, n);
      FunOfBits(round, x / 2, y / 2, z / 2, n - 1);
    } else {
      NoBits(round, x, y, z);
    }
  }

  lemma NoBits(round: nat, x: nat, y: nat, z: nat)
    requires x < Pow2(0) && y < Pow2(0) && z < Pow2(0)
    ensures FunOf(round, x, y, z, 0) == 0
  {
  }

  /** Four bits. */
  function Digit(round: nat, x: nat, y: nat, z: nat): nat
  {
    BitValue(Pick(round, x % 2 >= 1, y % 2 >= 1, z % 2 >= 1))
    + 2 * BitValue(Pick(round, x % 4 >= 2, y % 4 >= 2, z % 4 >= 2))
    + 4 * BitValue(Pick(round, x % 8 >= 4, y % 8 >= 4, z % 8 >= 4)) + 8 * BitValue(Pick(round, x >= 8, y >= 8, z >= 8))
  }

  lemma PickedStep(round: nat, x: nat, y: nat, z: nat, n: nat)
    ensures Picked(round, x, y, z, n + 1)
      == BitValue(Pick(round, x % 2 == 1, y % 2 == 1, z % 2 == 1)) + 2 * Picked(round, x / 2, y / 2, z / 2, n)
  {
  }

  lemma LowDigit(x: nat)
    ensures x / 2 / 2 == x / 4 && x / 4 / 2 == x / 8 && x / 8 / 2 == x / 16
    ensures var d := x % 16;
      && (d % 2 >= 1 <==> x % 2 == 1) && (d % 4 >= 2 <==> x / 2 % 2 == 1)
      && (d % 8 >= 4 <==> x / 4 % 2 == 1) && (d >= 8 <==> x / 8 % 2 == 1)
  {
  }

  lemma PickedDigit(round: nat, x: nat, y: nat, z: nat, n: nat)
    ensures Picked(round, x, y, z, n + 4)
      == Digit(round, x % 16, y % 16, z % 16) + 16 * Picked(round, x / 16, y / 16, z / 16, n)
  {
    hide Picked, Pick, BitValue;
    LowDigit(x);
    LowDigit(y);
    LowDigit(z);
    PickedStep(round, x, y, z, n + 3);
    PickedStep(round, x / 2, y / 2, z / 2, n + 2);
    PickedStep(round, x / 4, y / 4, z / 4, n + 1);
    PickedStep(round, x / 8, y / 8, z / 8, n);
  }

  lemma PickedAppend(round: nat, x: nat, y: nat, z: nat, i: nat, j: nat, k: nat, n: nat)
    requires i < 16 && j < 16 && k < 16
    ensures Picked(round, 16 * x + i, 16 * y + j, 16 * z + k, n + 4)
      == Digit(round, i, j, k) + 16 * Picked(round, x, y, z, n)
  {
    hide Picked, Digit;
    PickedDigit(round, 16 * x + i, 16 * y + j, 16 * z + k, n);
  }

  type nibble = x: nat | x < 16

  /** A hexadecimal digit with its bits, high one first. */
  datatype Bits4 = Bits4(value: nibble, b3: bool, b2: bool, b1: bool, b0: bool)
  {
    predicate Right() { value == 8 * BitValue(b3) + 4 * BitValue(b2) + 2 * BitValue(b1) + BitValue(b0) }
  }

  type digit = d: Bits4 | d.Right() witness Bits4(0, false, false, false, false)

  const x0: digit := Bits4(0, false, false, false, false)
  const x1: digit := Bits4(1, false, false, false, true)
  const x2: digit := Bits4(2, false, false, true, false)
  const x3: digit := Bits4(3, false, false, true, true)
  const x4: digit := Bits4(4, false, true, false, false)
  const x5: digit := Bits4(5, false, true, false, true)
  const x6: digit := Bits4(6, false, true, true, false)
  const x7: digit := Bits4(7, false, true, true, true)
  const x8: digit := Bits4(8, true, false, false, false)
  const x9: digit := Bits4(9, true, false, false, true)
  const xa: digit := Bits4(10, true, false, true, false)
  const xb: digit := Bits4(11, true, false, true, true)
  const xc: digit := Bits4(12, true, true, false, false)
  const xd: digit := Bits4(13, true, true, false, true)
  const xe: digit := Bits4(14, true, true, true, false)
  const xf: digit := Bits4(15, true, true, true, true)

  predicate PickDigit(round: nat, x: digit, y: digit, z: digit, r: digit)
  {
    && r.b3 == Pick(round, x.b3, y.b3, z.b3) && r.b2 == Pick(round, x.b2, y.b2, z.b2)
    && r.b1 == Pick(round, x.b1, y.b1, z.b1) && r.b0 == Pick(round, x.b0, y.b0, z.b0)
  }

  lemma DigitIs(round: nat, x: digit, y: digit, z: digit, r: digit)
    requires PickDigit(round, x, y, z, r)
    ensures Digit(round, x.value, y.value, z.value) == r.value
  {
    hide Pick, BitValue, Bits4.Right;
    DigitRight(r);
    DigitBits(x);
    DigitBits(y);
    DigitBits(z);
  }

  lemma DigitRight(x: digit)
    ensures x.value == 8 * BitValue(x.b3) + 4 * BitValue(x.b2) + 2 * BitValue(x.b1) + BitValue(x.b0)
  {
  }

  lemma DigitBits(x: digit)
    ensures (x.value % 2 >= 1 <==> x.b0) && (x.value % 4 >= 2 <==> x.b1)
    ensures (x.value % 8 >= 4 <==> x.b2) && (x.value >= 8 <==> x.b3)
  {
  }

  /** A word by its hexadecimal digits. */
  datatype Hex = Hex(d7: digit, d6: digit, d5: digit, d4: digit, d3: digit, d2: digit, d1: digit, d0: digit)
  {
    function Upper(): (u: nat)
      ensures u < 0x1_0000
    {
      hide Bits4.Right;
      16 * (16 * (16 * d7.value + d6.value) + d5.value) + d4.value
    }

    function Word(): word
    {
      hide Bits4.Right, Upper;
      16 * (16 * (16 * (16 * Upper() + d3.value) + d2.value) + d1.value) + d0.value
    }
  }

  predicate PickHex(round: nat, x: Hex, y: Hex, z: Hex, r: Hex)
  {
    && PickDigit(round, x.d7, y.d7, z.d7, r.d7) && PickDigit(round, x.d6, y.d6, z.d6, r.d6)
    && PickDigit(round, x.d5, y.d5, z.d5, r.d5) && PickDigit(round, x.d4, y.d4, z.d4, r.d4)
    && PickDigit(round, x.d3, y.d3, z.d3, r.d3) && PickDigit(round, x.d2, y.d2, z.d2, r.d2)
    && PickDigit(round, x.d1, y.d1, z.d1, r.d1) && PickDigit(round, x.d0, y.d0, z.d0, r.d0)
  }

  lemma PickedAppend'(round: nat, x: nat, y: nat, z: nat, i: digit, j: digit, k: digit, r: digit, n: nat)
    requires PickDigit(round, i, j, k, r)
    ensures Picked(round, 16 * x + i.value, 16 * y + j.value, 16 * z + k.value, n + 4)
      == r.value + 16 * Picked(round, x, y, z, n)
  {
    hide Picked, Digit, PickDigit, Bits4.Right;
    DigitIs(round, i, j, k, r);
    PickedAppend(round, x, y, z, i.value, j.value, k.value, n);
  }

  lemma PickedUpper(round: nat, x: Hex, y: Hex, z: Hex, r: Hex)
    requires PickHex(round, x, y, z, r)
    ensures Picked(round, x.Upper(), y.Upper(), z.Upper(), 16) == r.Upper()
  {
    hide Picked, PickDigit, Bits4.Right;
    PickedAppend'(round, 0, 0, 0, x.d7, y.d7, z.d7, r.d7, 0);
    PickedAppend'(round, x.d7.value, y.d7.value, z.d7.value, x.d6, y.d6, z.d6, r.d6, 4);
    PickedAppend'(round, 16 * x.d7.value + x.d6.value, 16 * y.d7.value + y.d6.value, 16 * z.d7.value + z.d6.value,
                  x.d5, y.d5, z.d5, r.d5, 8);
    PickedAppend'(round, 16 * (16 * x.d7.value + x.d6.value) + x.d5.value,
                  16 * (16 * y.d7.value + y.d6.value) + y.d5.value,
                  16 * (16 * z.d7.value + z.d6.value) + z.d5.value, x.d4, y.d4, z.d4, r.d4, 12);
    NoneLeft(round);
  }

  lemma FunIs(round: nat, x: Hex, y: Hex, z: Hex, r: Hex)
    requires round < 4 && PickHex(round, x, y, z, r)
    ensures Fun(round, x.Word(), y.Word(), z.Word()) == r.Word()
  {
    hide Picked, PickDigit, FunOf, Pow2, Hex.Upper, Bits4.Right;
    Pow2Of32();
    FunOfBits(round, x.Word(), y.Word(), z.Word(), 32);
    FunIsFunOf(round, x.Word(), y.Word(), z.Word());
    var u, v, w := x.Upper(), y.Upper(), z.Upper();
    PickedUpper(round, x, y, z, r);
    PickedAppend'(round, u, v, w, x.d3, y.d3, z.d3, r.d3, 16);
    PickedAppend'(round, 16 * u + x.d3.value, 16 * v + y.d3.value, 16 * w + z.d3.value, x.d2, y.d2, z.d2, r.d2, 20);
    PickedAppend'(round, 16 * (16 * u + x.d3.value) + x.d2.value, 16 * (16 * v + y.d3.value) + y.d2.value,
                  16 * (16 * w + z.d3.value) + z.d2.value, x.d1, y.d1, z.d1, r.d1, 24);
    PickedAppend'(round, 16 * (16 * (16 * u + x.d3.value) + x.d2.value) + x.d1.value,
                  16 * (16 * (16 * v + y.d3.value) + y.d2.value) + y.d1.value,
                  16 * (16 * (16 * w + z.d3.value) + z.d2.value) + z.d1.value, x.d0, y.d0, z.d0, r.d0, 28);
  }

  lemma NoneLeft(round: nat)
    ensures Picked(round, 0, 0, 0, 0) == 0
  {
  }

  lemma FunIsFunOf(round: nat, x: word, y: word, z: word)
    requires round < 4
    ensures Pow2(32) == 0x1_0000_0000 && Fun(round, x, y, z) == FunOf(round, x, y, z, 32)
  {
    hide And, Or, Xor, Pow2;
    Pow2Of32();
  }

  // ---- one step ----

  lemma {:induction false} ShlTimes(x: nat, n: nat)
    ensures Shl(x, n) == x * Pow2(n)
    decreases n
  {
    if n > 0 {
      ShlTimes(x, n - 1);
      Twice(x, Pow2(n - 1));
    }
  }

  lemma Twice(x: nat, y: nat)
    ensures 2 * (x * y) == x * (2 * y)
  {
  }

  /** The high n bits move behind the others. */
  lemma RotlIs(hi: nat, lo: nat, n: nat, p: nat, q: nat)
    requires n <= 32 && p == Pow2(n) && q == Pow2(32 - n) && hi < p && lo < q && hi * q + lo < 0x1_0000_0000
    ensures Rotl(hi * q + lo, n) == lo * p + hi
  {
    hide Shl, Shr, Low, Pow2;
    var x := hi * q + lo;
    Pow2Of32();
    ShlTimes(hi, 32 - n);
    LowShrUnique(lo, hi, 32 - n);
    HalfIsLow(Shl(x, n));
    HalfIs(Shl(x, n));
    LowShl(x, n, 32 - n);
    ShlTimes(lo, n);
  }

  /** z is x less a multiple of 2^32. */
  lemma PlusCarry(x: nat, y: nat, k: int, z: word)
    requires x + y == 0x1_0000_0000 * k + z
    ensures Plus(x, y) == z
  {
    assert (x + y) / 0x1_0000_0000 == k;
  }

  lemma PlusSplit(x: nat, y: nat)
    ensures x + y == 0x1_0000_0000 * ((x + y) / 0x1_0000_0000) + Plus(x, y)
  {
  }

  lemma PlusThree(a: word, f: nat, x: word, t: word, k: nat, z: word)
    requires a + f + x + t == 0x1_0000_0000 * k + z
    ensures Plus(Plus(Plus(a, f), x), t) == z
  {
    hide Plus;
    var i, j := (a + f) / 0x1_0000_0000, (Plus(a, f) + x) / 0x1_0000_0000;
    PlusSplit(a, f);
    PlusSplit(Plus(a, f), x);
    PlusCarry(Plus(Plus(a, f), x), t, k - i - j, z);
  }

  /** The sum's n high bits are hi and the others lo; k and m are the carries. */
  lemma Stepped(round: nat, st: State, f: nat, x: word, t: word, n: nat, p: nat, q: nat, k: nat, hi: nat, lo: nat,
                m: nat, e: word)
    requires round < 4 && n <= 32 && p == Pow2(n) && q == Pow2(32 - n) && Fun(round, st.b, st.c, st.d) == f
    requires hi < p && lo < q && st.a + f + x + t == 0x1_0000_0000 * k + (hi * q + lo) && hi * q + lo < 0x1_0000_0000
    requires st.b + (lo * p + hi) == 0x1_0000_0000 * m + e
    ensures Step(round, st, x, t, n) == State(st.d, e, st.b, st.c)
  {
    hide Fun, Rotl, Pow2, Plus, Step;
    PlusThree(st.a, f, x, t, k, hi * q + lo);
    RotlIs(hi, lo, n, p, q);
    StepIs(round, st, x, t, n);
    PlusCarry(st.b, lo * p + hi, m, e);
  }

  /** A word and its digits. */
  datatype Number = Number(value: word, digits: Hex)
  {
    predicate Ok() { value == digits.Word() }
  }

  /** One step on numbers: f is the function of the round, e the new register. */
  lemma Next(round: nat, a: word, b: Number, c: Number, d: Number, f: Number, x: word, t: word, n: nat, p: nat, q: nat,
             k: nat, hi: nat, lo: nat, m: nat, e: word)
    requires round < 4 && n <= 32 && p == Pow2(n) && q == Pow2(32 - n)
    requires b.Ok() && c.Ok() && d.Ok() && f.Ok() && PickHex(round, b.digits, c.digits, d.digits, f.digits)
    requires hi < p && lo < q && a + f.value + x + t == 0x1_0000_0000 * k + (hi * q + lo) && hi * q + lo < 0x1_0000_0000
    requires b.value + (lo * p + hi) == 0x1_0000_0000 * m + e
    ensures Step(round, State(a, b.value, c.value, d.value), x, t, n) == State(d.value, e, b.value, c.value)
  {
    hide Fun, PickHex, Hex.Word, Pow2, Step;
    FunIs(round, b.digits, c.digits, d.digits, f.digits);
    Stepped(round, State(a, b.value, c.value, d.value), f.value, x, t, n, p, q, k, hi, lo, m, e);
  }

  lemma StepIs(round: nat, st: State, x: word, t: word, n: nat)
    requires n <= 32
    ensures Step(round, st, x, t, n)
      == State(st.d, Plus(st.b, Rotl(Plus(Plus(Plus(st.a, Fun(round, st.b, st.c, st.d)), x), t), n)), st.b, st.c)
  {
    hide Fun, Rotl, Plus;
  }

  lemma Powers()
    ensures Pow2(4) == 0x10 && Pow2(5) == 0x20 && Pow2(6) == 0x40 && Pow2(7) == 0x80
    ensures Pow2(9) == 0x200 && Pow2(10) == 0x400 && Pow2(11) == 0x800 && Pow2(12) == 0x1000
    ensures Pow2(14) == 0x4000 && Pow2(15) == 0x8000 && Pow2(16) == 0x1_0000 && Pow2(17) == 0x2_0000
    ensures Pow2(18) == 0x4_0000 && Pow2(20) == 0x10_0000 && Pow2(21) == 0x20_0000 && Pow2(22) == 0x40_0000
    ensures Pow2(23) == 0x80_0000 && Pow2(25) == 0x200_0000 && Pow2(26) == 0x400_0000
    ensures Pow2(27) == 0x800_0000 && Pow2(28) == 0x1000_0000
  {
    hide Pow2;
    LowPowers();
    Pow2Plus8(1);
    Pow2Plus8(2);
    Pow2Plus8(3);
    Pow2Plus8(4);
    Pow2Plus8(5);
    Pow2Plus8(6);
    Pow2Plus8(7);
    Pow2Plus8(8);
    Pow2Plus8(9);
    Pow2Plus8(10);
    Pow2Plus8(11);
    Pow2Plus8(12);
    Pow2Plus8(13);
    Pow2Plus8(14);
    Pow2Plus8(15);
    Pow2Plus8(17);
    Pow2Plus8(18);
    Pow2Plus8(19);
    Pow2Plus8(20);
  }

  lemma LowPowers()
    ensures Pow2(1) == 2 && Pow2(2) == 4 && Pow2(3) == 8 && Pow2(4) == 16 && Pow2(5) == 32 && Pow2(6) == 64
    ensures Pow2(7) == 128 && Pow2(8) == 256
  {
    assert Pow2(4) == 16;
    Pow2Of8();
  }
}
