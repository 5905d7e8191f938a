/** Bit reversal as the inflater and the deflater compute it. */
module BitReversal {
  import opened Bits

  // c groups of 2w bits, each with its halves exchanged
  function Swap(n: nat, w: nat, c: nat): nat
    decreases c
  {
    if c == 0 then 0
    else SwapGroup(n, w) + Shl(Swap(Shr(n, 2 * w), w, c - 1), 2 * w)
  }

  function SwapGroup(n: nat, w: nat): nat { Low(Shr(n, w), w) + Shl(Low(n, w), w) }

  // the low half of each of c groups of 2w bits
  function LowHalves(n: nat, w: nat, c: nat): nat
    decreases c
  {
    if c == 0 then 0 else Low(n, w) + Shl(LowHalves(Shr(n, 2 * w), w, c - 1), 2 * w)
  }

  function HalfMask(w: nat, c: nat): nat
  {
    if c == 0 then 0 else Pow2(w) - 1 + Shl(HalfMask(w, c - 1), 2 * w)
  }

  // c groups of w bits, each reversed
  function ReverseGroups(n: nat, w: nat, c: nat): nat
    decreases c
  {
    if c == 0 then 0 else Reverse(n, w) + Shl(ReverseGroups(Shr(n, w), w, c - 1), w)
  }

  lemma {:induction false} MaskHalves(n: nat, w: nat, c: nat)
    ensures And(n, HalfMask(w, c)) == LowHalves(n, w, c)
    decreases c
  {
    if c > 0 {
      LowShr(n, 2 * w);
      LowBound(n, 2 * w);
      Pow2Mono(w, 2 * w);
      AndConcat(Low(n, 2 * w), Shr(n, 2 * w), Pow2(w) - 1, HalfMask(w, c - 1), 2 * w);
      AndMask(Low(n, 2 * w), w);
      LowLow(n, w, 2 * w);
      MaskHalves(Shr(n, 2 * w), w, c - 1);
    }
  }

  lemma {:induction false} ShlLowHalves(n: nat, w: nat, c: nat)
    requires c > 0
    ensures Shl(LowHalves(n, w, c), w)
         == Shl(Low(n, w), w) + Shl(Shl(LowHalves(Shr(n, 2 * w), w, c - 1), w), 2 * w)
  {
    var r := LowHalves(Shr(n, 2 * w), w, c - 1);
    ShlAdd(Low(n, w), Shl(r, 2 * w), w);
    ShlShl(r, 2 * w, w);
    ShlShl(r, w, 2 * w);
  }

  lemma LowShlBound(x: nat, w: nat)
    ensures Shl(Low(x, w), w) < Pow2(2 * w) && Low(x, w) < Pow2(2 * w)
  {
    LowBound(x, w);
    ShlLess(Low(x, w), Pow2(w), w);
    ShlOne(w);
    ShlShl(1, w, w);
    ShlOne(2 * w);
    Pow2Mono(w, 2 * w);
  }

  /** The two masked and shifted halves of one stage are the swapped word. */
  lemma {:induction false} OrHalves(n: nat, w: nat, c: nat)
    ensures Or(LowHalves(Shr(n, w), w, c), Shl(LowHalves(n, w, c), w)) == Swap(n, w, c)
    decreases c
  {
    if c == 0 {
      ShlOne(w);
    } else {
      var n' := Shr(n, 2 * w);
      ShlLowHalves(n, w, c);
      ShrShr(n, w, 2 * w);
      ShrShr(n, 2 * w, w);
      LowShlBound(n, w);
      LowShlBound(Shr(n, w), w);
      OrConcat(Low(Shr(n, w), w), LowHalves(Shr(n', w), w, c - 1),
               Shl(Low(n, w), w), Shl(LowHalves(n', w, c - 1), w), 2 * w);
      LowBound(Shr(n, w), w);
      OrDisjoint(Low(Shr(n, w), w), Low(n, w), w);
      OrHalves(n', w, c - 1);
    }
  }

  lemma Stage(n: nat, w: nat, c: nat, hi: nat, lo: nat)
    requires lo == HalfMask(w, c) && hi == Shl(lo, w)
    ensures Or(Shr(And(n, hi), w), Shl(And(n, lo), w)) == Swap(n, w, c)
  {
    MaskHalves(n, w, c);
    MaskHalves(Shr(n, w), w, c);
    AndShl(n, lo, w);
    LowShrUnique(0, And(Shr(n, w), lo), w);
    OrHalves(n, w, c);
  }

  lemma {:induction false} SwapBits(n: nat, c: nat)
    ensures Swap(n, 1, c) == ReverseGroups(n, 2, c)
    decreases c
  {
    if c > 0 {
      assert Shr(n, 1) == n / 2 && Low(n, 1) == n % 2 && Low(n / 2, 1) == (n / 2) % 2;
      assert Reverse(n, 2) == Shl(n % 2, 1) + Reverse(n / 2, 1);
      assert Reverse(n / 2, 1) == (n / 2) % 2;
      SwapBits(Shr(n, 2), c - 1);
    }
  }

  /** Exchanging the halves of reversed groups reverses groups twice as wide. */
  lemma {:induction false} SwapReversed(n: nat, w: nat, c: nat)
    ensures Swap(ReverseGroups(n, w, 2 * c), w, c) == ReverseGroups(n, 2 * w, c)
    decreases c
  {
    if c > 0 {
      var m := ReverseGroups(n, w, 2 * c);
      var r1 := ReverseGroups(Shr(n, w), w, 2 * c - 1);
      var r2 := ReverseGroups(Shr(Shr(n, w), w), w, 2 * c - 2);
      ReverseBound(n, w);
      ReverseBound(Shr(n, w), w);
      LowShrUnique(Reverse(n, w), r1, w);
      LowShrUnique(Reverse(Shr(n, w), w), r2, w);
      ShrShr(m, w, w);
      ShrShr(n, w, w);
      ReverseSplit(n, w, w);
      SwapReversed(Shr(n, 2 * w), w, c - 1);
    }
  }

  lemma HalfMasks()
    ensures HalfMask(1, 8) == 0x5555 && HalfMask(2, 4) == 0x3333
    ensures HalfMask(4, 2) == 0x0F0F && HalfMask(8, 1) == 0x00FF
  {
    assert HalfMask(1, 4) == 0x55;
    assert HalfMask(1, 6) == 0x555;
    assert HalfMask(2, 2) == 0x33;
    assert Pow2(4) == 16;
    assert Shl(0x0F, 8) == 2 * 2 * 2 * 2 * Shl(0x0F, 4);
    assert HalfMask(4, 1) == 0x0F + Shl(0, 8);
    ShlOne(8);
    assert Pow2(8) == 2 * 2 * 2 * 2 * Pow2(4);
    ShlOne(16);
  }

  /** stbi__bitreverse16: swap ever larger halves; this reverses the low sixteen bits. */
  method BitReverse16(v: nat) returns (n: nat)
    ensures n == Reverse(v, 16)
  {
    HalfMasks();
    n := Or(Shr(And(v, 0xAAAA), 1), Shl(And(v, 0x5555), 1));
    assert n == ReverseGroups(v, 2, 8) by {
      Stage(v, 1, 8, 0xAAAA, 0x5555);
      SwapBits(v, 8);
    }
    n := Or(Shr(And(n, 0xCCCC), 2), Shl(And(n, 0x3333), 2));
    assert n == ReverseGroups(v, 4, 4) by {
      Stage(ReverseGroups(v, 2, 8), 2, 4, 0xCCCC, 0x3333);
      SwapReversed(v, 2, 4);
    }
    n := Or(Shr(And(n, 0xF0F0), 4), Shl(And(n, 0x0F0F), 4));
    assert n == ReverseGroups(v, 8, 2) by {
      assert Shl(0x0F0F, 4) == 2 * 2 * Shl(0x0F0F, 2);
      Stage(ReverseGroups(v, 4, 4), 4, 2, 0xF0F0, 0x0F0F);
      SwapReversed(v, 4, 2);
    }
    n := Or(Shr(And(n, 0xFF00), 8), Shl(And(n, 0x00FF), 8));
    assert n == ReverseGroups(v, 16, 1) by {
      assert Shl(0xFF, 8) == 16 * Shl(0xFF, 4) && Shl(0xFF, 4) == 4 * Shl(0xFF, 2);
      Stage(ReverseGroups(v, 8, 2), 8, 1, 0xFF00, 0x00FF);
      SwapReversed(v, 8, 1);
    }
    ShlOne(16);
  }

  lemma ReversePrefix(v: nat, bits: nat, n: nat)
    requires bits <= n
    ensures Shr(Reverse(v, n), n - bits) == Reverse(v, bits)
  {
    ReverseSplit(v, bits, n - bits);
    ReverseBound(Shr(v, bits), n - bits);
    LowShrUnique(Reverse(Shr(v, bits), n - bits), Reverse(v, bits), n - bits);
  }

  /** stbi__bit_reverse: reverse sixteen bits, then shift the unwanted ones away. */
  method BitReverse(v: nat, bits: nat) returns (r: nat)
    requires bits <= 16
    ensures r == Reverse(v, bits)
  {
    r := BitReverse16(v);
    r := Shr(r, 16 - bits);
    ReversePrefix(v, bits, 16);
  }
}
