/**
  64-bit registers that are masked to 32 bits only inside ROTATE agree with 32-bit words:
  the low halves of every operation of md5_block_data_order.
*/
module Md5Words {
  import opened Bits
  import opened Md5Spec

  type reg = x: nat | x < 0x1_0000_0000_0000_0000

  function Half(x: nat): word { x % 0x1_0000_0000 }

  /** The operations on `unsigned long`. */
  function Add(x: reg, y: reg): reg { (x + y) % 0x1_0000_0000_0000_0000 }

  function Not(x: reg): reg { 0xffff_ffff_ffff_ffff - x }

  /** The macro ROTATE; what is pushed out above bit 63 is lost. */
  function Rotate(a: reg, n: nat): reg
    requires n <= 32
  {
    RotateFits(a, n);
    Or(Shl(a, n) % 0x1_0000_0000_0000_0000, Shr(And(a, 0xffff_ffff), 32 - n))
  }

  function F64(b: reg, c: reg, d: reg): reg { OpsFit(c, d); OpsFit(Xor(c, d), b); OpsFit(And(Xor(c, d), b),
               d); Xor(And(Xor(c, d), b), d) }
  function G64(b: reg, c: reg, d: reg): reg { OpsFit(b, c); OpsFit(Xor(b, c), d); OpsFit(And(Xor(b, c), d),
               c); Xor(And(Xor(b, c), d), c) }
  function H64(b: reg, c: reg, d: reg): reg { OpsFit(b, c); OpsFit(Xor(b, c), d); Xor(Xor(b, c), d) }
  function I64(b: reg, c: reg, d: reg): reg { OpsFit(Not(d), b); OpsFit(Or(Not(d), b), c); Xor(Or(Not(d), b), c) }

  // ---- halves and bits ----

  lemma Pow2Plus8(n: nat)
    ensures Pow2(n + 8) == 256 * Pow2(n)
  {
    assert Pow2(n + 2) == 4 * Pow2(n);
    assert Pow2(n + 4) == 4 * Pow2(n + 2);
    assert Pow2(n + 6) == 4 * Pow2(n + 4);
  }

  lemma Pow2Of32()
    ensures Pow2(16) == 0x1_0000 && Pow2(24) == 0x100_0000
    ensures Pow2(32) == 0x1_0000_0000 && Pow2(64) == 0x1_0000_0000_0000_0000
  {
    hide Pow2;
    Pow2Of8();
    Pow2Plus8(8);
    Pow2Plus8(16);
    Pow2Plus8(24);
    Pow2Plus8(32);
    Pow2Plus8(40);
    Pow2Plus8(48);
    Pow2Plus8(56);
  }

  lemma ShlOf32(x: nat)
    ensures Shl(x, 32) == 0x1_0000_0000 * x && Shl(x, 64) == 0x1_0000_0000_0000_0000 * x
  {
    hide Shl;
    ShlOf16(x);
    ShlOf16(Shl(x, 16));
    ShlShl(x, 16, 16);
    ShlOf16(Shl(x, 32));
    ShlOf16(Shl(x, 48));
    ShlShl(x, 32, 16);
    ShlShl(x, 48, 16);
  }

  lemma ShlOf16(x: nat)
    ensures Shl(x, 16) == 0x1_0000 * x && Shl(x, 24) == 0x100_0000 * x
  {
    hide Shl;
    ShlOf8(x);
    ShlOf8(Shl(x, 8));
    ShlShl(x, 8, 8);
    ShlOf8(Shl(x, 16));
    ShlShl(x, 16, 8);
  }

  lemma HalfIs(x: nat)
    ensures Half(x) == x % 0x1_0000_0000
  {
  }

  lemma HalfOfSum(q: nat, r: nat)
    ensures Half(0x1_0000_0000 * q + r) == Half(r)
  {
    var h := r / 0x1_0000_0000;
    assert r == 0x1_0000_0000 * h + Half(r);
    assert 0x1_0000_0000 * q + r == 0x1_0000_0000 * (q + h) + Half(r);
    HalfUnique(q + h, Half(r));
  }

  lemma HalfUnique(q: nat, r: word)
    ensures Half(0x1_0000_0000 * q + r) == r
  {
  }

  /** The low 32 bits are the remainder. */
  lemma HalfIsLow(x: nat)
    ensures Half(x) == Low(x, 32)
  {
    hide Half, Shl, Shr, Low, Pow2;
    Pow2Of32();
    LowShr(x, 32);
    LowBound(x, 32);
    ShlOf32(Shr(x, 32));
    HalfUnique(Shr(x, 32), Low(x, 32));
  }

  lemma RegIsLow(x: nat)
    ensures x % 0x1_0000_0000_0000_0000 == Low(x, 64)
  {
    hide Shl, Shr, Low, Pow2;
    Pow2Of32();
    LowShr(x, 64);
    LowBound(x, 64);
    ShlOf32(Shr(x, 64));
    RegUnique(Shr(x, 64), Low(x, 64));
  }

  lemma RegUnique(q: nat, r: reg)
    ensures (0x1_0000_0000_0000_0000 * q + r) % 0x1_0000_0000_0000_0000 == r
  {
  }

  /** The operators stay within a register. */
  lemma OpsFit(x: reg, y: reg)
    ensures And(x, y) < 0x1_0000_0000_0000_0000
    ensures Or(x, y) < 0x1_0000_0000_0000_0000
    ensures Xor(x, y) < 0x1_0000_0000_0000_0000
  {
    hide And, Or, Xor, Low;
    Pow2Of32();
    LowSmall(x, 64);
    LowSmall(y, 64);
    LowAnd(x, y, 64);
    LowOr(x, y, 64);
    LowXor(x, y, 64);
    LowBound(And(x, y), 64);
    LowBound(Or(x, y), 64);
    LowBound(Xor(x, y), 64);
  }

  lemma RotateFits(a: reg, n: nat)
    requires n <= 32
    ensures Or(Shl(a, n) % 0x1_0000_0000_0000_0000, Shr(And(a, 0xffff_ffff), 32 - n)) < 0x1_0000_0000_0000_0000
  {
    hide And, Or, Low, Shl, Shr;
    Pow2Of32();
    AndMask(a, 32);
    LowBound(a, 32);
    DownIsSmall(Low(a, 32), n);
    OpsFit(Shl(a, n) % 0x1_0000_0000_0000_0000, Shr(And(a, 0xffff_ffff), 32 - n));
  }

  lemma HalfOps(x: nat, y: nat)
    ensures Half(And(x, y)) == And(Half(x), Half(y))
    ensures Half(Or(x, y)) == Or(Half(x), Half(y))
    ensures Half(Xor(x, y)) == Xor(Half(x), Half(y))
  {
    hide Half, And, Or, Xor, Low;
    HalfIsLow(x);
    HalfIsLow(y);
    HalfIsLow(And(x, y));
    HalfIsLow(Or(x, y));
    HalfIsLow(Xor(x, y));
    LowAnd(x, y, 32);
    LowOr(x, y, 32);
    LowXor(x, y, 32);
  }

  // ---- addition ----

  lemma HalfAdd(x: reg, y: reg)
    ensures Half(Add(x, y)) == Plus(Half(x), Half(y))
  {
    hide Half;
    var over := (x + y) / 0x1_0000_0000_0000_0000;
    assert x + y == 0x1_0000_0000 * (0x1_0000_0000 * over) + Add(x, y);
    HalfOfSum(0x1_0000_0000 * over, Add(x, y));
    PlusIs(x, y);
    PlusHalf(x, y);
    PlusHalf(Half(x), y);
  }

  lemma PlusIs(x: nat, y: nat)
    ensures Plus(x, y) == Half(x + y)
  {
  }

  lemma HalfNot(x: reg)
    ensures Half(Not(x)) == Complement(Half(x))
  {
  }

  lemma PlusHalf(x: nat, y: nat)
    ensures Plus(Half(x), y) == Plus(x, y) == Plus(x, Half(y))
  {
    hide Half, Plus;
    SplitAtHalf(x);
    SplitAtHalf(y);
    HalfOfSum(x / 0x1_0000_0000, Half(x) + y);
    HalfOfSum(y / 0x1_0000_0000, x + Half(y));
    PlusIs(x, y);
    PlusIs(Half(x), y);
    PlusIs(x, Half(y));
  }

  lemma SplitAtHalf(x: nat)
    ensures x == 0x1_0000_0000 * (x / 0x1_0000_0000) + Half(x)
  {
  }

  // ---- rotation ----

  lemma HalfRotate(a: reg, n: nat)
    requires n <= 32
    ensures Half(Rotate(a, n)) == Rotl(Half(a), n)
  {
    hide Half, And, Or, Low, Shl, Shr;
    var up, x := Shl(a, n), Half(a);
    Pow2Of32();
    AndMask(a, 32);
    HalfIsLow(a);
    var down := Shr(Low(a, 32), 32 - n);
    HalfOps(up % 0x1_0000_0000_0000_0000, down);
    RegIsLow(up);
    HalfIsLow(Low(up, 64));
    LowLow(up, 32, 64);
    LowShl(a, n, 32 - n);
    LowBound(a, 32);
    DownIsSmall(x, n);
    HalfSmall(down);
    OrDisjoint(down, Low(a, 32 - n), n);
    // the word side
    HalfIsLow(Shl(x, n));
    LowShl(x, n, 32 - n);
    LowLow(a, 32 - n, 32);
    HalfIs(Shl(x, n));
  }

  lemma HalfSmall(x: nat)
    ensures x < 0x1_0000_0000 ==> Half(x) == x
  {
  }

  lemma DownIsSmall(x: word, n: nat)
    requires n <= 32
    ensures Shr(x, 32 - n) < Pow2(n) && Shr(x, 32 - n) < 0x1_0000_0000
  {
    Pow2Of32();
    ShlOne(n);
    ShlShl(1, n, 32 - n);
    ShlOne(32);
    ShrBound(x, 32 - n, Pow2(n));
    Pow2Mono(n, 32);
  }

  // ---- the auxiliary functions ----

  function Fun64(round: nat, b: reg, c: reg, d: reg): reg
  {
    if round == 0 then F64(b, c, d) else if round == 1 then G64(b, c, d) else if round == 2 then H64(b, c, d)
      else I64(b, c, d)
  }

  lemma {:induction false} AndComm(x: nat, y: nat)
    ensures And(x, y) == And(y, x)
    decreases x + y
  {
    if x > 0 && y > 0 {
      AndComm(x / 2, y / 2);
    }
  }

  lemma {:induction false} OrComm(x: nat, y: nat)
    ensures Or(x, y) == Or(y, x)
    decreases x + y
  {
    if x > 0 && y > 0 {
      OrComm(x / 2, y / 2);
    }
  }

  lemma {:induction false} XorComm(x: nat, y: nat)
    ensures Xor(x, y) == Xor(y, x)
    decreases x + y
  {
    if x > 0 && y > 0 {
      XorComm(x / 2, y / 2);
    }
  }

  /** Choosing c where b has ones and d where it has zeros, without a complement. */
  lemma {:induction false} Choose(b: nat, c: nat, d: nat, n: nat)
    requires b < Pow2(n) && c < Pow2(n) && d < Pow2(n)
    ensures Xor(And(Xor(c, d), b), d) == Or(And(b, c), And(Pow2(n) - 1 - b, d))
    decreases n
  {
    hide And, Or, Xor;
    if n == 0 {
      ZeroOps();
    } else {
      var nb := Pow2(n) - 1 - b;
      assert nb / 2 == Pow2(n - 1) - 1 - b / 2 && nb % 2 == 1 - b % 2;
      Choose(b / 2, c / 2, d / 2, n - 1);
      XorBit(c, d);
      AndBit(Xor(c, d), b);
      XorBit(And(Xor(c, d), b), d);
      AndBit(b, c);
      AndBit(nb, d);
      OrBit(And(b, c), And(nb, d));
    }
  }

  lemma HalfF(b: reg, c: reg, d: reg)
    ensures Half(F64(b, c, d)) == F(Half(b), Half(c), Half(d))
  {
    hide Half, And, Or, Xor;
    HalfOps(c, d);
    HalfOps(Xor(c, d), b);
    HalfOps(And(Xor(c, d), b), d);
    Pow2Of32();
    Choose(Half(b), Half(c), Half(d), 32);
  }

  lemma HalfG(b: reg, c: reg, d: reg)
    ensures Half(G64(b, c, d)) == G(Half(b), Half(c), Half(d))
  {
    hide Half, And, Or, Xor;
    HalfOps(b, c);
    HalfOps(Xor(b, c), d);
    HalfOps(And(Xor(b, c), d), c);
    Pow2Of32();
    Choose(Half(d), Half(b), Half(c), 32);
    AndComm(Half(d), Half(b));
    AndComm(Complement(Half(d)), Half(c));
  }

  lemma HalfH(b: reg, c: reg, d: reg)
    ensures Half(H64(b, c, d)) == H(Half(b), Half(c), Half(d))
  {
    hide Half, And, Or, Xor;
    HalfOps(b, c);
    HalfOps(Xor(b, c), d);
  }

  lemma HalfI(b: reg, c: reg, d: reg)
    ensures Half(I64(b, c, d)) == I(Half(b), Half(c), Half(d))
  {
    hide Half, And, Or, Xor, Complement;
    HalfNot(d);
    HalfOps(Not(d), b);
    HalfOps(Or(Not(d), b), c);
    OrComm(Half(b), Complement(Half(d)));
    XorComm(Half(c), Or(Half(b), Complement(Half(d))));
  }

  lemma HalfFun(round: nat, b: reg, c: reg, d: reg)
    ensures Half(Fun64(round, b, c, d)) == Fun(round, Half(b), Half(c), Half(d))
  {
    hide Half, F64, G64, H64, I64, F, G, H, I;
    HalfF(b, c, d);
    HalfG(b, c, d);
    HalfH(b, c, d);
    HalfI(b, c, d);
  }

  // ---- a step ----

  /** The macros R0 to R3, which differ in their function only. */
  function R(round: nat, a: reg, b: reg, c: reg, d: reg, k: reg, s: nat, t: reg): reg
    requires s <= 32
  {
    var a1 := Add(a, Add(Add(k, t), Fun64(round, b, c, d)));
    Add(Rotate(a1, s), b)
  }

  lemma PlusAssoc(a: nat, b: nat, c: nat)
    ensures Plus(Plus(a, b), c) == Plus(a, Plus(b, c))
  {
  }

  lemma Reorder(a: nat, f: nat, k: nat, t: nat)
    ensures Plus(a, Plus(Plus(k, t), f)) == Plus(Plus(Plus(a, f), k), t)
  {
    hide *;
    PlusComm(Plus(k, t), f);
    PlusAssoc(a, f, Plus(k, t));
    PlusAssoc(Plus(a, f), k, t);
  }

  lemma PlusComm(a: nat, b: nat)
    ensures Plus(a, b) == Plus(b, a)
  {
  }

  /** One macro is one step, on the low halves, whatever is above them. */
  lemma HalfR(round: nat, a: reg, b: reg, c: reg, d: reg, k: reg, s: nat, t: reg)
    requires s <= 32
    ensures var st := State(Half(a), Half(b), Half(c), Half(d));
      Step(round, st, Half(k), Half(t), s) == State(st.d, Half(R(round, a, b, c, d, k, s, t)), st.b, st.c)
  {
    hide Half, Add, Plus, Rotate, Rotl, Fun, Fun64;
    var f := Fun64(round, b, c, d);
    HalfFun(round, b, c, d);
    HalfAdd(k, t);
    HalfAdd(Add(k, t), f);
    HalfAdd(a, Add(Add(k, t), f));
    Reorder(Half(a), Half(f), Half(k), Half(t));
    var a1 := Add(a, Add(Add(k, t), f));
    HalfRotate(a1, s);
    HalfAdd(Rotate(a1, s), b);
    PlusComm(Half(b), Half(Rotate(a1, s)));
  }
}
