/** Reading undoes writing: one block, and a scan of blocks with its DC predictors. */
module JpegRoundTrip {
  import opened Bits
  import opened Wrappers
  import opened JpegHuffman
  import opened JpegTables
  import opened JpegBits
  import opened JpegStream
  import opened JpegDecode
  import opened JpegBlocks
  import opened JpegEncode

  /** A code word is read as a symbol of its value. */
  lemma CodeRead(ht: seq<Code>, h: Huff, v: nat, bits: seq<bool>, pos: nat) returns (i: nat)
    requires h.Valid() && Fitting(h.sizes) && Agrees(ht, h, v) && At(bits, pos, CodeBits(ht, v))
    ensures Symbol(h.sizes, bits, pos) == Some(i) && i < |h.sizes| <= 255 && |h.values| == 256
    ensures h.values[i] as int == v && h.sizes[i] == |CodeBits(ht, v)|
  {
    hide SizesOk, Fitting, CodeWord, At, TakeMSB, Field, Symbol;
    AtMost255(h.sizes);
    i :| IsSymbol(ht, h, v, i);
    CodeWordFits(h.sizes, i);
    TakeField(bits, pos, ht[v].word, ht[v].len);
    SymbolIs(h.sizes, bits, pos, i);
  }

  lemma ValueRead(bits: seq<bool>, pos: nat, v: int)
    requires v != 0 && At(bits, pos, ValueBits(v))
    ensures SizeOf(Abs(v)) > 0 && |ValueBits(v)| == SizeOf(Abs(v))
    ensures Extend(TakeMSB(bits, pos, SizeOf(Abs(v))), SizeOf(Abs(v))) == v
  {
    hide At, TakeMSB, Field, Extend, Magnitude;
    MagnitudeExtends(v);
    TakeField(bits, pos, Magnitude(v), SizeOf(Abs(v)));
  }

  /** The coefficients from zigzag position k on, put in their places. */
  function Placed(data: seq<int>, du: seq<int>, k: nat, dq: seq<nat>): (r: seq<int>)
    requires |data| == |du| == |dq| == 64
    ensures |r| == 64
    decreases 64 - k
  {
    if k >= 64 then data
    else Placed(if du[k] == 0 then data else SetCoef(data, k, du[k], dq), du, k + 1, dq)
  }

  lemma {:induction false} PlacedSkip(data: seq<int>, du: seq<int>, k: nat, z: nat, dq: seq<nat>)
    requires |data| == |du| == |dq| == 64 && k <= z <= 64 && forall i :: k <= i < z ==> du[i] == 0
    ensures Placed(data, du, k, dq) == Placed(data, du, z, dq)
    decreases z - k
  {
    hide SetCoef;
    if k < z {
      PlacedSkip(data, du, k + 1, z, dq);
    }
  }

  /** One code for sixteen zeros. */
  lemma ZeroRead(ht: seq<Code>, h: Huff, bits: seq<bool>, pos: nat, k: nat, data: seq<int>, dq: seq<nat>)
    requires AcTable(ht, h) && |data| == |dq| == 64 && k < 64 && At(bits, pos, CodeBits(ht, 0xf0))
    ensures ReadAC(h, bits, pos, k, data, dq) == ReadAC(h, bits, pos + |CodeBits(ht, 0xf0)|, k + 16, data, dq)
  {
    hide At, Symbol, CodeBits, Extend, TakeMSB, SizesOk, Agrees, Fitting, SetCoef;
    assert AcValue(0xf0);
    var i := CodeRead(ht, h, 0xf0, bits, pos);
  }

  /** Codes for sixteen zeros. */
  lemma {:induction false} ZerosRead(ht: seq<Code>, h: Huff, n: nat, bits: seq<bool>, pos: nat, k: nat,
                                     data: seq<int>, dq: seq<nat>)
    requires AcTable(ht, h) && |data| == |dq| == 64 && (n > 0 ==> k + 16 * (n - 1) < 64)
    requires At(bits, pos, Repeat(CodeBits(ht, 0xf0), n))
    ensures ReadAC(h, bits, pos, k, data, dq)
         == ReadAC(h, bits, pos + |Repeat(CodeBits(ht, 0xf0), n)|, k + 16 * n, data, dq)
    decreases n
  {
    hide At, CodeBits, AcTable, ReadAC;
    AcTableIs(ht, h);
    if n > 0 {
      var front := Repeat(CodeBits(ht, 0xf0), n - 1);
      AtSplit(bits, pos, front, CodeBits(ht, 0xf0));
      ZerosRead(ht, h, n - 1, bits, pos, k, data, dq);
      ZeroRead(ht, h, bits, pos + |front|, k + 16 * (n - 1), data, dq);
    }
  }

  /** A coefficient behind fewer than sixteen zeros. */
  lemma CoefRead(ht: seq<Code>, h: Huff, bits: seq<bool>, pos: nat, run: nat, v: int, k: nat, data: seq<int>,
                 dq: seq<nat>)
    requires AcTable(ht, h) && |data| == |dq| == 64 && v != 0 && 1 <= SizeOf(Abs(v)) <= 10 && run < 16 && k + run < 64
    requires RunSize(run, v) < 256 && At(bits, pos, CodeBits(ht, RunSize(run, v)) + ValueBits(v))
    ensures ReadAC(h, bits, pos, k, data, dq)
         == ReadAC(h, bits, pos + |CodeBits(ht, RunSize(run, v))| + |ValueBits(v)|, k + run + 1,
           SetCoef(data, k + run, v, dq), dq)
  {
    hide At, Symbol, CodeBits, ValueBits, Extend, TakeMSB, SizesOk, Agrees, Fitting, SetCoef, SizeOf;
    var rs := RunSize(run, v);
    assert AcValue(rs);
    AtSplit(bits, pos, CodeBits(ht, rs), ValueBits(v));
    var i := CodeRead(ht, h, rs, bits, pos);
    ValueRead(bits, pos + |CodeBits(ht, rs)|, v);
    assert rs % 16 == SizeOf(Abs(v)) && rs / 16 == run;
  }

  lemma EndRead(ht: seq<Code>, h: Huff, bits: seq<bool>, pos: nat, k: nat, data: seq<int>, dq: seq<nat>)
    requires AcTable(ht, h) && |data| == |dq| == 64 && k < 64 && At(bits, pos, CodeBits(ht, 0))
    ensures ReadAC(h, bits, pos, k, data, dq) == Ends(data, pos + |CodeBits(ht, 0)|, 0)
  {
    hide At, Symbol, CodeBits, Extend, TakeMSB, SizesOk, Agrees, Fitting;
    assert AcValue(0);
    var i := CodeRead(ht, h, 0, bits, pos);
  }

  /** Runs of sixteen zeros, the rest of the run, and the coefficient. */
  lemma RunRead(ht: seq<Code>, h: Huff, bits: seq<bool>, pos: nat, run: nat, v: int, k: nat, data: seq<int>,
                dq: seq<nat>)
    requires AcTable(ht, h) && |data| == |dq| == 64 && v != 0 && 1 <= SizeOf(Abs(v)) <= 10 && k + run < 64
    requires RunSize(run, v) < 256
    requires At(bits, pos, Repeat(CodeBits(ht, 0xf0), run / 16) + (CodeBits(ht, RunSize(run, v)) + ValueBits(v)))
    ensures ReadAC(h, bits, pos, k, data, dq)
         == ReadAC(h, bits, pos + |Repeat(CodeBits(ht, 0xf0), run / 16)| + |CodeBits(ht, RunSize(run, v))|
           + |ValueBits(v)|,
                   k + run + 1, SetCoef(data, k + run, v, dq), dq)
  {
    hide At, ReadAC, CodeBits, ValueBits, Repeat, SetCoef, SizeOf, AcTable;
    AcTableIs(ht, h);
    var n := run / 16;
    AtSplit(bits, pos, Repeat(CodeBits(ht, 0xf0), n), CodeBits(ht, RunSize(run, v)) + ValueBits(v));
    ZerosRead(ht, h, n, bits, pos, k, data, dq);
    assert RunSize(run % 16, v) == RunSize(run, v) && k + 16 * n + run % 16 == k + run;
    CoefRead(ht, h, bits, pos + |Repeat(CodeBits(ht, 0xf0), n)|, run % 16, v, k + 16 * n, data, dq);
  }

  /** The AC part of a block is read back. */
  lemma {:induction false} AcRead(ht: seq<Code>, h: Huff, du: seq<int>, k: nat, bits: seq<bool>, pos: nat,
                                  data: seq<int>, dq: seq<nat>)
    requires AcTable(ht, h) && AcSmall(du) && 1 <= k <= 64 && |data| == |dq| == 64
    requires At(bits, pos, AcBits(ht, du, k))
    ensures ReadAC(h, bits, pos, k, data, dq) == Ends(Placed(data, du, k, dq), pos + |AcBits(ht, du, k)|, 0)
    decreases 64 - k
  {
    hide At, AcBits, CodeBits, ValueBits, Repeat, SetCoef, SizeOf, AcTable, RunSize, ReadAC;
    AcTableIs(ht, h);
    var z := NextNonzero(du, k);
    AcBitsIs(ht, du, k, z);
    PlacedSkip(data, du, k, z, dq);
    if k == 64 {
      StepAt64(h, bits, pos, data, dq);
    } else if z == 64 {
      EndRead(ht, h, bits, pos, k, data, dq);
    } else {
      var v := du[z];
      var a, b, c, d := Repeat(CodeBits(ht, 0xf0), (z - k) / 16), CodeBits(ht, RunSize(z - k, v)), ValueBits(v),
        AcBits(ht, du, z + 1);
      assert ((a + b) + c) + d == (a + (b + c)) + d;
      AtSplit(bits, pos, a + (b + c), d);
      RunRead(ht, h, bits, pos, z - k, v, k, data, dq);
      AcRead(ht, h, du, z + 1, bits, pos + |a + (b + c)|, SetCoef(data, z, v, dq), dq);
    }
  }

  lemma AcTableIs(ht: seq<Code>, h: Huff)
    requires AcTable(ht, h)
    ensures |ht| == 256 && h.Valid()
  {
  }

  lemma DcTableIs(ht: seq<Code>, h: Huff)
    requires DcTable(ht, h)
    ensures |ht| == 256 && h.Valid()
  {
  }

  /** The DC code and difference are read back. */
  lemma DcRead(ht: seq<Code>, h: Huff, bits: seq<bool>, pos: nat, diff: int) returns (i: nat)
    requires DcTable(ht, h) && SizeOf(Abs(diff)) <= 11 && At(bits, pos, DcBits(ht, diff))
    ensures Symbol(h.sizes, bits, pos) == Some(i) && i < |h.sizes| <= 255 && |h.values| == 256
    ensures h.values[i] as int == SizeOf(Abs(diff)) && h.sizes[i] + SizeOf(Abs(diff)) == |DcBits(ht, diff)|
    ensures diff != 0 ==>
      SizeOf(Abs(diff)) > 0 && Extend(TakeMSB(bits, pos + h.sizes[i], SizeOf(Abs(diff))), SizeOf(Abs(diff))) == diff
  {
    hide At, CodeBits, ValueBits, Agrees, Symbol, SizesOk, Fitting, Extend, TakeMSB;
    if diff == 0 {
      assert DcValue(0);
      i := CodeRead(ht, h, 0, bits, pos);
    } else {
      var n := SizeOf(Abs(diff));
      assert DcValue(n);
      AtSplit(bits, pos, CodeBits(ht, n), ValueBits(diff));
      i := CodeRead(ht, h, n, bits, pos);
      ValueRead(bits, pos + |CodeBits(ht, n)|, diff);
    }
  }

  /** A block is read back from its bits. */
  lemma BlockRead(htdc: seq<Code>, htac: seq<Code>, dc: Huff, ac: Huff, du: seq<int>, pred: int, bits: seq<bool>,
                  pos: nat, dq: seq<nat>)
    requires DcTable(htdc, dc) && AcTable(htac, ac) && Encodable(du, pred) && |dq| == 64
    requires At(bits, pos, BlockBits(htdc, htac, du, pred))
    ensures ReadBlock(dc, ac, bits, pos, pred, dq)
         == Ends(Placed(SetCoef(seq(64, _ => 0), 0, du[0], dq), du, 1, dq), pos + |BlockBits(htdc, htac, du, pred)|,
           du[0])
  {
    hide At, AcBits, DcBits, SizeOf, DcTable, AcTable, Symbol, ReadAC, Placed, SetCoef, Extend, TakeMSB;
    DcTableIs(htdc, dc);
    AcTableIs(htac, ac);
    var diff := du[0] - pred;
    DcSmall(diff);
    NoSize();
    AtSplit(bits, pos, DcBits(htdc, diff), AcBits(htac, du, 1));
    AcRead(htac, ac, du, 1, bits, pos + |DcBits(htdc, diff)|, SetCoef(seq(64, _ => 0), 0, du[0], dq), dq);
    var i := DcRead(htdc, dc, bits, pos, diff);
  }

  lemma NoSize()
    ensures SizeOf(0) == 0
  {
  }

  // ---- the coefficients in place ----

  /** Every place of the block is one zigzag position. */
  lemma DezigzagUndone(k: nat)
    requires k < 64
    ensures ZigZag(Dezigzag(k)) == k
  {
    hide ZigZag, DezigzagLower, DezigzagUpper;
    if k < 32 {
      DezigzagUndoneLower(k);
    } else {
      DezigzagUndoneUpper(k);
    }
  }

  lemma DezigzagUndoneLower(k: nat)
    requires k < 32
    ensures ZigZag(DezigzagLower(k)) == k
  {
  }

  lemma DezigzagUndoneUpper(k: nat)
    requires 32 <= k < 64
    ensures ZigZag(DezigzagUpper(k)) == k
  {
  }

  lemma {:induction false} PlacedAt(data: seq<int>, du: seq<int>, k: nat, dq: seq<nat>, m: nat)
    requires |data| == |du| == |dq| == 64 && m < 64
    ensures Placed(data, du, k, dq)[Dezigzag(m)]
         == if k <= m && du[m] != 0 then Short(du[m] * dq[Dezigzag(m)]) else data[Dezigzag(m)]
    decreases 64 - k
  {
    hide Short, Dezigzag;
    if k < 64 {
      PlacedAt(if du[k] == 0 then data else SetCoef(data, k, du[k], dq), du, k + 1, dq, m);
      DezigzagUndone(m);
      DezigzagUndone(k);
    }
  }

  /** The coefficients of a block in natural order, as the writer puts them in zigzag order. */
  predicate InZigZag(coefs: seq<int>, du: seq<int>)
  {
    |coefs| == |du| == 64 && forall j :: 0 <= j < 64 ==> du[ZigZag(j)] == coefs[j]
  }

  /** x is v as a 16-bit value stores it. */
  predicate Stored(x: int, v: int)
  {
    && (-0x8000 <= v < 0x8000 ==> x == v)
    && -0x8000 <= x < 0x8000 && (v - x) % 0x1_0000 == 0
  }

  /**
    Coefficient for coefficient, each in its own place and scaled by its quantiser; a product of
    more than sixteen bits keeps the low sixteen.
  */
  lemma CoefficientsRestored(coefs: seq<int>, du: seq<int>, dq: seq<nat>, j: nat)
    requires InZigZag(coefs, du) && |dq| == 64 && j < 64
    ensures Stored(Placed(SetCoef(seq(64, _ => 0), 0, du[0], dq), du, 1, dq)[j], coefs[j] * dq[j])
  {
    hide Short, Dezigzag, ZigZag;
    ZigZagUndone(j);
    DezigzagUndone(0);
    var m := ZigZag(j);
    PlacedAt(SetCoef(seq(64, _ => 0), 0, du[0], dq), du, 1, dq, m);
    ShortIs(coefs[j] * dq[j]);
    ShortIs(coefs[Dezigzag(0)] * dq[Dezigzag(0)]);
    ShortZero(dq[j]);
    ShortZero(dq[Dezigzag(0)]);
  }

  lemma ShortZero(q: nat)
    ensures Short(0 * q) == 0
  {
  }
}
