/**
  Machine words as naturals, and words as bit sequences.

  The C operators on unsigned words are given by their own recursive definitions
  (`Or`, `And`, `Xor`, `Shl`, `Shr`); the lemmas relate them to each other and to
  arithmetic.  A stream of bits is a `seq<bool>`; reading past its end yields zero bits.
*/
module Bits {

  type byte = x: int | 0 <= x < 256

  type Bit = b: nat | b < 2

  function Abs(x: int): nat { if x < 0 then -x else x }

  function Zeros(n: nat): (s: seq<byte>)
    ensures |s| == n && forall i :: 0 <= i < n ==> s[i] == 0
  {
    seq(n, _ => 0)
  }

  // ---- shifts ----

  function Pow2(n: nat): (p: nat)
    ensures p >= 1
  {
    if n == 0 then 1 else 2 * Pow2(n - 1)
  }

  function Shl(x: nat, n: nat): nat
  {
    if n == 0 then x else 2 * Shl(x, n - 1)
  }

  function Shr(x: nat, n: nat): nat
    decreases n, x
  {
    if n == 0 then x else Shr(x / 2, n - 1)
  }

  /** The low n bits of x. */
  function Low(x: nat, n: nat): nat
    decreases n, x
  {
    if n == 0 then 0 else x % 2 + 2 * Low(x / 2, n - 1)
  }

  lemma {:induction false} Pow2Mono(a: nat, b: nat)
    requires a <= b
    ensures Pow2(a) <= Pow2(b)
  {
    if a != b {
      Pow2Mono(a, b - 1);
    }
  }

  lemma Pow2Of8()
    ensures Pow2(8) == 256 && Pow2(9) == 512
  {
    assert Pow2(2) == 4;
    assert Pow2(4) == 16;
    assert Pow2(6) == 64;
  }

  lemma Pow2Of15()
    ensures Pow2(15) == 0x8000 && Pow2(16) == 0x10000
  {
    assert Pow2(5) == 32;
    assert Pow2(10) == 1024;
  }

  lemma {:induction false} ShlOne(n: nat)
    ensures Shl(1, n) == Pow2(n) && Shl(0, n) == 0
  {
    if n > 0 {
      ShlOne(n - 1);
    }
  }

  lemma {:induction false} ShlAdd(x: nat, y: nat, n: nat)
    ensures Shl(x + y, n) == Shl(x, n) + Shl(y, n)
  {
    if n > 0 {
      ShlAdd(x, y, n - 1);
    }
  }

  lemma {:induction false} ShlShl(x: nat, a: nat, b: nat)
    ensures Shl(Shl(x, a), b) == Shl(x, a + b)
  {
    if b > 0 {
      ShlShl(x, a, b - 1);
    }
  }

  lemma ShlOf8(x: nat)
    ensures Shl(x, 8) == 256 * x
  {
    hide Shl;
    ShlOf4(x);
    ShlOf4(Shl(x, 4));
    ShlShl(x, 4, 4);
  }

  lemma ShlOf4(x: nat)
    ensures Shl(x, 4) == 16 * x
  {
    assert Shl(x, 1) == 2 * x;
    assert Shl(x, 2) == 2 * Shl(x, 1);
    assert Shl(x, 3) == 2 * Shl(x, 2);
  }

  lemma {:induction false} ShrShr(x: nat, a: nat, b: nat)
    ensures Shr(Shr(x, a), b) == Shr(x, a + b)
    decreases a
  {
    if a > 0 {
      ShrShr(x / 2, a - 1, b);
    }
  }

  /** Shifting is strictly monotone with a gap of 2^n. */
  lemma ShlLess(x: nat, y: nat, n: nat)
    requires x < y
    ensures Shl(x, n) + Pow2(n) <= Shl(y, n)
  {
    ShlAdd(x, y - x, n);
    ShlAdd(1, y - x - 1, n);
    ShlOne(n);
  }

  lemma {:induction false} LowBound(x: nat, n: nat)
    ensures Low(x, n) < Pow2(n)
    decreases n
  {
    if n > 0 {
      LowBound(x / 2, n - 1);
    }
  }

  /** A word is its low n bits and the rest. */
  lemma {:induction false} LowShr(x: nat, n: nat)
    ensures x == Low(x, n) + Shl(Shr(x, n), n)
    decreases n
  {
    if n > 0 {
      LowShr(x / 2, n - 1);
    }
  }

  lemma {:induction false} LowShrUnique(r: nat, q: nat, n: nat)
    requires r < Pow2(n)
    ensures Low(r + Shl(q, n), n) == r && Shr(r + Shl(q, n), n) == q
    decreases n
  {
    if n > 0 {
      var x := r + Shl(q, n);
      assert x / 2 == r / 2 + Shl(q, n - 1) && x % 2 == r % 2;
      LowShrUnique(r / 2, q, n - 1);
    }
  }

  lemma {:induction false} LowSmall(x: nat, n: nat)
    requires x < Pow2(n)
    ensures Low(x, n) == x && Shr(x, n) == 0
    decreases n
  {
    if n > 0 {
      LowSmall(x / 2, n - 1);
    }
  }

  lemma ShrBound(x: nat, n: nat, m: nat)
    requires x < Shl(m, n)
    ensures Shr(x, n) < m
  {
    LowShr(x, n);
    if m <= Shr(x, n) {
      ShlAdd(m, Shr(x, n) - m, n);
      assert false;
    }
  }

  lemma {:induction false} ShrLower(x: nat, n: nat, m: nat)
    requires Shl(m, n) <= x
    ensures m <= Shr(x, n)
  {
    LowShr(x, n);
    LowBound(x, n);
    if Shr(x, n) < m {
      ShlLess(Shr(x, n), m, n);
      assert false;
    }
  }

  lemma {:induction false} LowLow(x: nat, a: nat, b: nat)
    requires a <= b
    ensures Low(Low(x, b), a) == Low(x, a)
    decreases a
  {
    if a > 0 {
      LowLow(x / 2, a - 1, b - 1);
    }
  }

  lemma Shr8(x: nat)
    ensures Shr(x, 8) == x / 256
  {
    hide Shr, Low, Shl, Pow2;
    Pow2Of8();
    LowShr(x, 8);
    LowBound(x, 8);
    ShlOf8(Shr(x, 8));
  }

  /** A left shift keeps the low bits that do not leave the word. */
  lemma {:induction false} LowShl(x: nat, n: nat, m: nat)
    ensures Low(Shl(x, n), n + m) == Shl(Low(x, m), n)
    decreases n
  {
    if n > 0 {
      LowShl(x, n - 1, m);
    }
  }

  // ---- bitwise operators ----

  function Or(x: nat, y: nat): nat
    decreases x + y
  {
    if x == 0 then y else if y == 0 then x
    else 2 * Or(x / 2, y / 2) + if x % 2 == 1 || y % 2 == 1 then 1 else 0
  }

  function And(x: nat, y: nat): nat
    decreases x + y
  {
    if x == 0 || y == 0 then 0
    else 2 * And(x / 2, y / 2) + if x % 2 == 1 && y % 2 == 1 then 1 else 0
  }

  function Xor(x: nat, y: nat): nat
    decreases x + y
  {
    if x == 0 then y else if y == 0 then x
    else 2 * Xor(x / 2, y / 2) + if x % 2 != y % 2 then 1 else 0
  }

  /** Or of a word and a field above its top bit is addition. */
  lemma {:induction false} OrDisjoint(x: nat, y: nat, n: nat)
    requires x < Pow2(n)
    ensures Or(x, Shl(y, n)) == x + Shl(y, n) == Or(Shl(y, n), x)
    decreases n
  {
    if n > 0 {
      assert Shl(y, n) / 2 == Shl(y, n - 1) && Shl(y, n) % 2 == 0;
      OrDisjoint(x / 2, y, n - 1);
    }
  }

  /** Or works separately on the low n bits and on the rest. */
  lemma {:induction false} OrConcat(x: nat, y: nat, c: nat, d: nat, n: nat)
    requires x < Pow2(n) && c < Pow2(n)
    ensures Or(x + Shl(y, n), c + Shl(d, n)) == Or(x, c) + Shl(Or(y, d), n)
    decreases n
  {
    if n > 0 {
      var u, v := x + Shl(y, n), c + Shl(d, n);
      assert u / 2 == x / 2 + Shl(y, n - 1) && u % 2 == x % 2;
      assert v / 2 == c / 2 + Shl(d, n - 1) && v % 2 == c % 2;
      OrConcat(x / 2, y, c / 2, d, n - 1);
      OrStep(u, v);
      OrStep(x, c);
    }
  }

  lemma OrStep(x: nat, y: nat)
    ensures Or(x, y) == 2 * Or(x / 2, y / 2) + if x % 2 == 1 || y % 2 == 1 then 1 else 0
  {
  }

  /** And works separately on the low n bits and on the rest. */
  lemma {:induction false} AndConcat(x: nat, y: nat, c: nat, d: nat, n: nat)
    requires x < Pow2(n) && c < Pow2(n)
    ensures And(x + Shl(y, n), c + Shl(d, n)) == And(x, c) + Shl(And(y, d), n)
    decreases n
  {
    if n > 0 {
      var u, v := x + Shl(y, n), c + Shl(d, n);
      assert u / 2 == x / 2 + Shl(y, n - 1) && u % 2 == x % 2;
      assert v / 2 == c / 2 + Shl(d, n - 1) && v % 2 == c % 2;
      AndConcat(x / 2, y, c / 2, d, n - 1);
      AndStep(u, v);
      AndStep(x, c);
    }
  }

  lemma AndStep(x: nat, y: nat)
    ensures And(x, y) == 2 * And(x / 2, y / 2) + if x % 2 == 1 && y % 2 == 1 then 1 else 0
  {
  }

  /** Masking with a shifted mask is masking the shifted word. */
  lemma {:induction false} AndShl(x: nat, m: nat, n: nat)
    ensures And(x, Shl(m, n)) == Shl(And(Shr(x, n), m), n)
    decreases n
  {
    if n > 0 {
      AndStep(x, Shl(m, n));
      AndShl(x / 2, m, n - 1);
    }
  }

  /** Masking with 2^n - 1 keeps the low n bits. */
  lemma {:induction false} AndMask(x: nat, n: nat)
    ensures And(x, Pow2(n) - 1) == Low(x, n)
    decreases n
  {
    if n > 0 {
      assert (Pow2(n) - 1) / 2 == Pow2(n - 1) - 1 && (Pow2(n) - 1) % 2 == 1;
      AndMask(x / 2, n - 1);
      if x == 0 {
        LowSmall(0, n);
      }
    }
  }

  lemma XorStep(x: nat, y: nat)
    ensures Xor(x, y) == 2 * Xor(x / 2, y / 2) + if x % 2 != y % 2 then 1 else 0
  {
  }

  lemma ZeroOps()
    ensures And(0, 0) == 0 && Or(0, 0) == 0 && Xor(0, 0) == 0
  {
  }

  lemma AndBit(x: nat, y: nat)
    ensures And(x, y) / 2 == And(x / 2, y / 2) && And(x, y) % 2 == (if x % 2 == 1 && y % 2 == 1 then 1 else 0)
  {
    AndStep(x, y);
  }

  lemma OrBit(x: nat, y: nat)
    ensures Or(x, y) / 2 == Or(x / 2, y / 2) && Or(x, y) % 2 == (if x % 2 == 1 || y % 2 == 1 then 1 else 0)
  {
    OrStep(x, y);
  }

  lemma XorBit(x: nat, y: nat)
    ensures Xor(x, y) / 2 == Xor(x / 2, y / 2) && Xor(x, y) % 2 == (if x % 2 != y % 2 then 1 else 0)
  {
    XorStep(x, y);
  }

  lemma {:induction false} LowAnd(x: nat, y: nat, n: nat)
    ensures Low(And(x, y), n) == And(Low(x, n), Low(y, n))
    decreases n
  {
    hide And, Or, Xor;
    if n > 0 {
      AndBit(x, y);
      LowAnd(x / 2, y / 2, n - 1);
      AndBit(Low(x, n), Low(y, n));
    } else {
      ZeroOps();
    }
  }

  lemma {:induction false} LowOr(x: nat, y: nat, n: nat)
    ensures Low(Or(x, y), n) == Or(Low(x, n), Low(y, n))
    decreases n
  {
    hide And, Or, Xor;
    if n > 0 {
      OrBit(x, y);
      LowOr(x / 2, y / 2, n - 1);
      OrBit(Low(x, n), Low(y, n));
    } else {
      ZeroOps();
    }
  }

  lemma {:induction false} LowXor(x: nat, y: nat, n: nat)
    ensures Low(Xor(x, y), n) == Xor(Low(x, n), Low(y, n))
    decreases n
  {
    hide And, Or, Xor;
    if n > 0 {
      XorBit(x, y);
      LowXor(x / 2, y / 2, n - 1);
      XorBit(Low(x, n), Low(y, n));
    } else {
      ZeroOps();
    }
  }

  // ---- words as bit sequences, least significant bit first ----

  function BitsOf(x: nat, n: nat): (s: seq<bool>)
    ensures |s| == n
    decreases n, x
  {
    if n == 0 then [] else [x % 2 == 1] + BitsOf(x / 2, n - 1)
  }

  lemma {:induction false} BitsOfSplit(x: nat, a: nat, b: nat)
    ensures BitsOf(x, a + b) == BitsOf(x, a) + BitsOf(Shr(x, a), b)
    decreases a
  {
    if a == 0 {
      assert BitsOf(x, 0) + BitsOf(x, b) == BitsOf(x, b);
    } else {
      BitsOfSplit(x / 2, a - 1, b);
      assert BitsOf(x, a) + BitsOf(Shr(x, a), b)
          == [x % 2 == 1] + (BitsOf(x / 2, a - 1) + BitsOf(Shr(x, a), b));
    }
  }

  lemma {:induction false} BitsOfLow(x: nat, n: nat)
    ensures BitsOf(Low(x, n), n) == BitsOf(x, n)
    decreases n
  {
    if n > 0 {
      BitsOfLow(x / 2, n - 1);
    }
  }

  /** Adding a field above the low a bits appends its bits. */
  lemma BitsOfAppend(x: nat, a: nat, y: nat, b: nat)
    requires x < Pow2(a)
    ensures BitsOf(x + Shl(y, a), a + b) == BitsOf(x, a) + BitsOf(y, b)
  {
    var z := x + Shl(y, a);
    LowShrUnique(x, y, a);
    BitsOfSplit(z, a, b);
    BitsOfLow(z, a);
  }

  /** The bits of a byte string, least significant bit of each byte first. */
  function Unpack(data: seq<byte>): (s: seq<bool>)
    ensures |s| == 8 * |data|
  {
    if data == [] then [] else BitsOf(data[0], 8) + Unpack(data[1..])
  }

  lemma {:induction false} UnpackAppend(a: seq<byte>, b: seq<byte>)
    ensures Unpack(a + b) == Unpack(a) + Unpack(b)
  {
    if a == [] {
      assert a + b == b;
    } else {
      assert (a + b)[1..] == a[1..] + b;
      UnpackAppend(a[1..], b);
      assert Unpack(a) + Unpack(b) == BitsOf(a[0], 8) + (Unpack(a[1..]) + Unpack(b));
    }
  }

  lemma UnpackOne(b: byte)
    ensures Unpack([b]) == BitsOf(b, 8)
  {
    assert Unpack([b]) == BitsOf(b, 8) + Unpack([]);
  }

  // ---- reading a stream ----

  function BitAt(bits: seq<bool>, pos: nat): Bit
  {
    if pos < |bits| && bits[pos] then 1 else 0
  }

  /** The n bits at pos as a number, first bit least significant. */
  function Take(bits: seq<bool>, pos: nat, n: nat): nat
    decreases n, |bits|
  {
    if n == 0 then 0 else BitAt(bits, pos) + 2 * Take(bits, pos + 1, n - 1)
  }

  /** The n bits at pos as a number, first bit most significant. */
  function TakeMSB(bits: seq<bool>, pos: nat, n: nat): nat
    decreases n, |bits|
  {
    if n == 0 then 0 else Shl(BitAt(bits, pos), n - 1) + TakeMSB(bits, pos + 1, n - 1)
  }

  lemma {:induction false} TakeBound(bits: seq<bool>, pos: nat, n: nat)
    ensures Take(bits, pos, n) < Pow2(n)
    decreases n
  {
    if n > 0 {
      TakeBound(bits, pos + 1, n - 1);
    }
  }

  lemma {:induction false} TakeMSBBound(bits: seq<bool>, pos: nat, n: nat)
    ensures TakeMSB(bits, pos, n) < Pow2(n)
    decreases n
  {
    if n > 0 {
      TakeMSBBound(bits, pos + 1, n - 1);
      ShlOne(n - 1);
    }
  }

  lemma {:induction false} TakeSplit(bits: seq<bool>, pos: nat, a: nat, b: nat)
    ensures Take(bits, pos, a + b) == Take(bits, pos, a) + Shl(Take(bits, pos + a, b), a)
    decreases a
  {
    if a > 0 {
      TakeSplit(bits, pos + 1, a - 1, b);
    }
  }

  /** Low and high part of a read. */
  lemma TakeLowShr(bits: seq<bool>, pos: nat, a: nat, n: nat)
    requires a <= n
    ensures Low(Take(bits, pos, n), a) == Take(bits, pos, a)
    ensures Shr(Take(bits, pos, n), a) == Take(bits, pos + a, n - a)
  {
    TakeSplit(bits, pos, a, n - a);
    TakeBound(bits, pos, a);
    LowShrUnique(Take(bits, pos, a), Take(bits, pos + a, n - a), a);
  }

  /** Appending the next m bits above the n bits already held. */
  lemma TakeAppend(bits: seq<bool>, pos: nat, n: nat, m: nat)
    ensures Or(Take(bits, pos, n), Shl(Take(bits, pos + n, m), n)) == Take(bits, pos, n + m)
  {
    TakeSplit(bits, pos, n, m);
    TakeBound(bits, pos, n);
    OrDisjoint(Take(bits, pos, n), Take(bits, pos + n, m), n);
  }

  lemma {:induction false} TakeMSBSplit(bits: seq<bool>, pos: nat, a: nat, b: nat)
    ensures TakeMSB(bits, pos, a + b) == Shl(TakeMSB(bits, pos, a), b) + TakeMSB(bits, pos + a, b)
    decreases a
  {
    if a == 0 {
      ShlOne(b);
    } else {
      TakeMSBSplit(bits, pos + 1, a - 1, b);
      ShlShl(BitAt(bits, pos), a - 1, b);
      ShlAdd(Shl(BitAt(bits, pos), a - 1), TakeMSB(bits, pos + 1, a - 1), b);
    }
  }

  lemma TakeMSBShr(bits: seq<bool>, pos: nat, a: nat, n: nat)
    requires a <= n
    ensures Shr(TakeMSB(bits, pos, n), n - a) == TakeMSB(bits, pos, a)
  {
    TakeMSBSplit(bits, pos, a, n - a);
    TakeMSBBound(bits, pos + a, n - a);
    LowShrUnique(TakeMSB(bits, pos + a, n - a), TakeMSB(bits, pos, a), n - a);
  }

  /** `w` is what the stream holds at pos. */
  predicate At<T(==)>(bits: seq<T>, pos: nat, w: seq<T>)
  {
    pos + |w| <= |bits| && bits[pos..pos + |w|] == w
  }

  lemma AtSplit<T>(bits: seq<T>, pos: nat, u: seq<T>, v: seq<T>)
    requires At(bits, pos, u + v)
    ensures At(bits, pos, u) && At(bits, pos + |u|, v)
  {
    var w := u + v;
    var s := bits[pos..pos + |w|];
    assert bits[pos..pos + |u|] == s[..|u|] == w[..|u|] == u;
    assert bits[pos + |u|..pos + |u| + |v|] == s[|u|..] == w[|u|..] == v;
  }

  lemma {:induction false} TakeAt(bits: seq<bool>, pos: nat, v: nat, n: nat)
    requires At(bits, pos, BitsOf(v, n)) && v < Pow2(n)
    ensures Take(bits, pos, n) == v
    decreases n
  {
    if n > 0 {
      AtSplit(bits, pos, [v % 2 == 1], BitsOf(v / 2, n - 1));
      assert bits[pos] == bits[pos..pos + 1][0];
      TakeAt(bits, pos + 1, v / 2, n - 1);
    }
  }

  /** Byte k of a string is the eight bits at 8k; past the end it reads as zero. */
  lemma TakeByte(data: seq<byte>, k: nat)
    ensures Take(Unpack(data), 8 * k, 8) == if k < |data| then data[k] else 0
  {
    var bits := Unpack(data);
    if k >= |data| {
      TakePastEnd(bits, 8 * k, 8);
    } else {
      UnpackAt(data, k);
      Pow2Of8();
      TakeAt(bits, 8 * k, data[k], 8);
    }
  }

  lemma AppendField(bits: seq<bool>, b: nat, pos: nat, n: nat, m: nat)
    requires b == Take(bits, pos + n, m)
    ensures Or(Take(bits, pos, n), Shl(b, n)) == Take(bits, pos, n + m)
  {
    TakeAppend(bits, pos, n, m);
  }

  /** A buffer of the n bits up to byte `fetched`, after that byte is put on top of it. */
  lemma AppendByte(data: seq<byte>, bits: seq<bool>, fetched: nat, n: nat, b: nat)
    requires n <= 8 * fetched && bits == Unpack(data)
    requires b == if fetched < |data| then data[fetched] else 0
    ensures Or(Take(bits, 8 * fetched - n, n), Shl(b, n)) == Take(bits, 8 * fetched - n, n + 8)
  {
    var pos: nat := 8 * fetched - n;
    assert b == Take(bits, pos + n, 8) by { TakeByte(data, fetched); }
    AppendField(bits, b, pos, n, 8);
  }

  lemma AtShift<T>(u: seq<T>, v: seq<T>, pos: nat, w: seq<T>)
    requires At(v, pos, w)
    ensures At(u + v, |u| + pos, w)
  {
    assert (u + v)[|u| + pos..|u| + pos + |w|] == v[pos..pos + |w|];
  }

  lemma {:induction false} UnpackAt(data: seq<byte>, k: nat)
    requires k < |data|
    ensures At(Unpack(data), 8 * k, BitsOf(data[k], 8))
  {
    if k == 0 {
      assert Unpack(data)[..8] == BitsOf(data[0], 8);
    } else {
      UnpackAt(data[1..], k - 1);
      AtShift(BitsOf(data[0], 8), Unpack(data[1..]), 8 * (k - 1), BitsOf(data[k], 8));
    }
  }

  lemma {:induction false} TakePastEnd(bits: seq<bool>, pos: nat, n: nat)
    requires pos >= |bits|
    ensures Take(bits, pos, n) == 0
    decreases n
  {
    if n > 0 {
      TakePastEnd(bits, pos + 1, n - 1);
    }
  }

  lemma {:induction false} TakePastEndMSB(bits: seq<bool>, pos: nat, n: nat)
    requires pos >= |bits|
    ensures TakeMSB(bits, pos, n) == 0
    decreases n
  {
    ShlOne(if n > 0 then n - 1 else 0);
    if n > 0 {
      TakePastEndMSB(bits, pos + 1, n - 1);
    }
  }

  // ---- bit reversal ----

  /** The low n bits of v in the opposite order. */
  function Reverse(v: nat, n: nat): nat
    decreases n, v
  {
    if n == 0 then 0 else Shl(v % 2, n - 1) + Reverse(v / 2, n - 1)
  }

  lemma {:induction false} ReverseBound(v: nat, n: nat)
    ensures Reverse(v, n) < Pow2(n)
    decreases n
  {
    if n > 0 {
      ReverseBound(v / 2, n - 1);
      ShlOne(n - 1);
    }
  }

  lemma {:induction false} ReverseTake(bits: seq<bool>, pos: nat, n: nat)
    ensures Reverse(Take(bits, pos, n), n) == TakeMSB(bits, pos, n)
    decreases n
  {
    if n > 0 {
      ReverseTake(bits, pos + 1, n - 1);
    }
  }

  lemma {:induction false} ReverseSplit(v: nat, a: nat, b: nat)
    ensures Reverse(v, a + b) == Shl(Reverse(v, a), b) + Reverse(Shr(v, a), b)
    decreases a
  {
    if a == 0 {
      ShlOne(b);
    } else {
      ReverseSplit(v / 2, a - 1, b);
      ShlShl(v % 2, a - 1, b);
      ShlAdd(Shl(v % 2, a - 1), Reverse(v / 2, a - 1), b);
    }
  }

  lemma {:induction false} ReverseLow(v: nat, n: nat)
    ensures Reverse(Low(v, n), n) == Reverse(v, n)
    decreases n
  {
    if n > 0 {
      ReverseLow(v / 2, n - 1);
    }
  }

  /** The next m bits of a buffer of n, read first bit first. */
  lemma ReverseBuffer(bits: seq<bool>, pos: nat, m: nat, n: nat)
    requires m <= n
    ensures Reverse(Take(bits, pos, n), m) == TakeMSB(bits, pos, m)
  {
    TakeLowShr(bits, pos, m, n);
    ReverseLow(Take(bits, pos, n), m);
    ReverseTake(bits, pos, m);
  }

  lemma {:induction false} ReverseTwice(v: nat, n: nat)
    requires v < Pow2(n)
    ensures Reverse(Reverse(v, n), n) == v
    decreases n
  {
    if n > 0 {
      var r := Reverse(v / 2, n - 1);
      ReverseBound(v / 2, n - 1);
      ReverseTwice(v / 2, n - 1);
      var w := Reverse(v, n);
      ReverseSplit(w, n - 1, 1);
      LowShrUnique(r, v % 2, n - 1);
      ReverseLow(w, n - 1);
      assert Reverse(v % 2, 1) == v % 2;
    }
  }
}
