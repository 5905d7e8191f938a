/**
  Writing an 8x8 block of quantised coefficients: the entropy part of
  stbiw__jpg_processDU, and the bits it writes.
*/
module JpegEncode {
  import opened Bits
  import opened JpegHuffman
  import opened JpegTables
  import opened JpegBits
  import opened JpegStream
  import opened JpegDecode
  import opened JpegBlocks

  /** One entry of the writer's tables: a code word and its length. */
  datatype Code = Code(word: nat, len: nat)

  /** The writer's entry for value v is the code word of a symbol of that value. */
  ghost predicate Agrees(ht: seq<Code>, h: Huff, v: nat)
    requires h.Valid()
  {
    v < |ht| && exists i: nat :: IsSymbol(ht, h, v, i)
  }

  predicate IsSymbol(ht: seq<Code>, h: Huff, v: nat, i: nat)
    requires h.Valid() && v < |ht|
  {
    i < |h.sizes| && h.values[i] as int == v && ht[v] == Code(CodeWord(h.sizes, i), h.sizes[i])
  }

  /** The values AC codes stand for: end of block, sixteen zeros, and run and size up to ten. */
  predicate AcValue(v: nat) { v == 0 || v == 0xf0 || (v < 256 && 1 <= v % 16 <= 10) }

  predicate DcValue(v: nat) { v <= 11 }

  ghost predicate AcTable(ht: seq<Code>, h: Huff)
  {
    h.Valid() && Fitting(h.sizes) && |ht| == 256 && forall v: nat :: AcValue(v) ==> Agrees(ht, h, v)
  }

  ghost predicate DcTable(ht: seq<Code>, h: Huff)
  {
    h.Valid() && Fitting(h.sizes) && |ht| == 256 && forall v: nat :: DcValue(v) ==> Agrees(ht, h, v)
  }

  lemma CodeWordFits(sizes: seq<nat>, i: nat)
    requires SizesOk(sizes) && Fitting(sizes) && i < |sizes|
    ensures CodeWord(sizes, i) < Pow2(sizes[i])
  {
    hide Pow2, Shl, Edge;
    var s, c := sizes[i], CodeWord(sizes, i);
    EdgeIsCode(sizes, i);
    EdgeMono(sizes, i + 1, |sizes|);
    Pow2Of15();
    ShlOne(s);
    ShlShl(1, s, 16 - s);
    ShlOne(16);
    if Pow2(s) < c + 1 {
      ShlLess(Pow2(s), c + 1, 16 - s);
      assert false;
    }
  }

  // ---- a signed value ----

  /** The number of bits of v. */
  function SizeOf(v: nat): nat { if v == 0 then 0 else 1 + SizeOf(v / 2) }

  lemma {:induction false} SizeBounds(v: nat)
    requires v > 0
    ensures SizeOf(v) > 0 && Pow2(SizeOf(v) - 1) <= v < Pow2(SizeOf(v))
  {
    if v > 1 {
      SizeBounds(v / 2);
    } else {
      assert SizeOf(1) == 1;
      assert Pow2(1) == 2 * Pow2(0);
    }
  }

  lemma SizeAtMost(v: nat, n: nat)
    requires 0 < v < Pow2(n)
    ensures SizeOf(v) <= n
  {
    SizeBounds(v);
    if SizeOf(v) > n {
      Pow2Mono(n, SizeOf(v) - 1);
      assert false;
    }
  }

  /** Section F.1.2.1: the low bits of v, or of v - 1 when v is negative. */
  function Magnitude(v: int): nat
    requires v != 0
  {
    SizeBounds(Abs(v));
    if v < 0 then Pow2(SizeOf(-v)) - 1 + v else v
  }

  /** Receive-and-extend undoes it. */
  lemma MagnitudeExtends(v: int)
    requires v != 0
    ensures Magnitude(v) < Pow2(SizeOf(Abs(v))) && SizeOf(Abs(v)) > 0
    ensures Extend(Magnitude(v), SizeOf(Abs(v))) == v
  {
    SizeBounds(Abs(v));
  }

  /** Masking a negative number in two's complement: the mask without the bits of its complement. */
  function MaskLow(v: int, n: nat): int
  {
    var mask: nat := Pow2(n) - 1;
    if v >= 0 then And(v, mask) else mask - And(-v - 1, mask)
  }

  /** stbiw__jpg_calcBits */
  method CalcBits(val: int) returns (bits: nat, n: nat)
    requires val != 0
    ensures n == SizeOf(Abs(val)) && bits == Magnitude(val)
  {
    var tmp1: nat := if val < 0 then -val else val;
    var v := if val < 0 then val - 1 else val;
    n := 1;
    while tmp1 / 2 != 0
      invariant tmp1 > 0 && n + SizeOf(tmp1) == SizeOf(Abs(val)) + 1
      decreases tmp1
    {
      tmp1 := tmp1 / 2;
      n := n + 1;
    }
    assert SizeOf(1) == 1 + SizeOf(0);
    SizeBounds(Abs(val));
    AndMask(Abs(val), n);
    LowSmall(Abs(val), n);
    bits := MaskLow(v, n);
  }

  // ---- the bits of a block ----

  function CodeBits(ht: seq<Code>, v: nat): seq<bool>
    requires v < |ht|
  {
    Field(ht[v].word, ht[v].len)
  }

  function ValueBits(v: int): seq<bool>
    requires v != 0
  {
    Field(Magnitude(v), SizeOf(Abs(v)))
  }

  function DcBits(ht: seq<Code>, diff: int): seq<bool>
    requires |ht| == 256 && SizeOf(Abs(diff)) < 256
  {
    if diff == 0 then CodeBits(ht, 0) else CodeBits(ht, SizeOf(Abs(diff))) + ValueBits(diff)
  }

  /** The first nonzero coefficient from k on, or 64. */
  function NextNonzero(du: seq<int>, k: nat): (z: nat)
    requires |du| == 64 && k <= 64
    ensures k <= z <= 64 && (forall i :: k <= i < z ==> du[i] == 0) && (z < 64 ==> du[z] != 0)
    decreases 64 - k
  {
    if k == 64 || du[k] != 0 then k else NextNonzero(du, k + 1)
  }

  /** Coefficients the tables have codes for. */
  predicate AcSmall(du: seq<int>)
  {
    |du| == 64 && forall i :: 1 <= i < 64 ==> Abs(du[i]) < 1024
  }

  function Repeat(s: seq<bool>, n: nat): seq<bool>
  {
    if n == 0 then [] else Repeat(s, n - 1) + s
  }

  lemma SmallSize(du: seq<int>, z: nat)
    requires AcSmall(du) && 1 <= z < 64 && du[z] != 0
    ensures 1 <= SizeOf(Abs(du[z])) <= 10
  {
    assert Pow2(10) == 1024 by { assert Pow2(5) == 32; }
    SizeAtMost(Abs(du[z]), 10);
    SizeBounds(Abs(du[z]));
  }

  function RunSize(run: nat, v: int): nat { run % 16 * 16 + SizeOf(Abs(v)) }

  /** The AC coefficients from k on: runs of zeros and values, and an end code unless the last is nonzero. */
  function AcBits(ht: seq<Code>, du: seq<int>, k: nat): seq<bool>
    requires |ht| == 256 && AcSmall(du) && 1 <= k <= 64
    decreases 64 - k
  {
    var z := NextNonzero(du, k);
    if k == 64 then []
    else if z == 64 then CodeBits(ht, 0)
    else
      SmallSize(du, z);
      Repeat(CodeBits(ht, 0xf0), (z - k) / 16) + CodeBits(ht, RunSize(z - k, du[z])) + ValueBits(du[z])
        + AcBits(ht, du, z + 1)
  }

  /** A block whose DC value differs by less than 2^11 from the one before. */
  predicate Encodable(du: seq<int>, pred: int) { AcSmall(du) && Abs(du[0] - pred) < 2048 }

  lemma DcSmall(v: int)
    requires Abs(v) < 2048
    ensures SizeOf(Abs(v)) <= 11
  {
    assert Pow2(11) == 2048 by { assert Pow2(5) == 32; }
    if v != 0 {
      SizeAtMost(Abs(v), 11);
    }
  }

  function BlockBits(dc: seq<Code>, ac: seq<Code>, du: seq<int>, pred: int): seq<bool>
    requires |dc| == |ac| == 256 && Encodable(du, pred)
  {
    DcSmall(du[0] - pred);
    DcBits(dc, du[0] - pred) + AcBits(ac, du, 1)
  }

  // ---- the writer ----

  predicate Writable(c: Code) { c.len <= 16 && c.word < Pow2(c.len) }

  lemma EntryWritable(ht: seq<Code>, h: Huff, v: nat)
    requires h.Valid() && Fitting(h.sizes) && Agrees(ht, h, v)
    ensures Writable(ht[v])
  {
    hide SizesOk, Fitting, CodeWord;
    AtMost255(h.sizes);
    var i: nat :| IsSymbol(ht, h, v, i);
    CodeWordFits(h.sizes, i);
    SizesAtMost16(h.sizes);
  }

  /** The entries the writer may need. */
  ghost predicate AcWritable(ht: seq<Code>)
  {
    |ht| == 256 && forall v: nat :: AcValue(v) ==> Writable(ht[v])
  }

  ghost predicate DcWritable(ht: seq<Code>)
  {
    |ht| == 256 && forall v: nat :: DcValue(v) ==> Writable(ht[v])
  }

  lemma TablesWritable(ht: seq<Code>, h: Huff)
    ensures AcTable(ht, h) ==> AcWritable(ht)
    ensures DcTable(ht, h) ==> DcWritable(ht)
  {
    hide Agrees, Writable, Fitting;
    if AcTable(ht, h) {
      forall v: nat | AcValue(v) ensures Writable(ht[v]) {
        EntryWritable(ht, h, v);
      }
    }
    if DcTable(ht, h) {
      forall v: nat | DcValue(v) ensures Writable(ht[v]) {
        EntryWritable(ht, h, v);
      }
    }
  }

  method WriteCode(w: JpegWriter, ht: seq<Code>, v: nat)
    requires w.Valid() && v < |ht| && Writable(ht[v])
    modifies w
    ensures w.Valid() && w.Bits() == old(w.Bits()) + CodeBits(ht, v)
  {
    w.WriteBits(ht[v].word, ht[v].len);
  }

  method WriteValue(w: JpegWriter, bits: nat, n: nat, ghost v: int)
    requires w.Valid() && v != 0 && bits == Magnitude(v) && n == SizeOf(Abs(v)) <= 11
    modifies w
    ensures w.Valid() && w.Bits() == old(w.Bits()) + ValueBits(v)
  {
    MagnitudeExtends(v);
    w.WriteBits(bits, n);
  }

  method WriteDC(w: JpegWriter, htdc: seq<Code>, diff: int)
    requires w.Valid() && DcWritable(htdc) && Abs(diff) < 2048 && SizeOf(Abs(diff)) <= 11
    modifies w
    ensures w.Valid() && w.Bits() == old(w.Bits()) + DcBits(htdc, diff)
  {
    hide Field, Writable, JpegWriter.Valid, JpegWriter.Bits, CodeBits, ValueBits, Magnitude;
    if diff == 0 {
      assert DcValue(0);
      WriteCode(w, htdc, 0);
    } else {
      var bits, n := CalcBits(diff);
      ghost var before := w.Bits();
      assert DcValue(n);
      WriteCode(w, htdc, n);
      WriteValue(w, bits, n, diff);
      assert (before + CodeBits(htdc, n)) + ValueBits(diff) == before + (CodeBits(htdc, n) + ValueBits(diff));
    }
  }

  /** The codes for sixteen zeros each. */
  method WriteLongRuns(w: JpegWriter, htac: seq<Code>, lng: nat)
    requires w.Valid() && AcWritable(htac)
    modifies w
    ensures w.Valid() && w.Bits() == old(w.Bits()) + Repeat(CodeBits(htac, 0xf0), lng)
  {
    hide Field, Writable, JpegWriter.Valid, JpegWriter.Bits, CodeBits;
    ghost var before := w.Bits();
    assert before + Repeat(CodeBits(htac, 0xf0), 0) == before;
    assert AcValue(0xf0);
    for nrmarker := 0 to lng
      invariant w.Valid() && w.Bits() == before + Repeat(CodeBits(htac, 0xf0), nrmarker)
    {
      WriteCode(w, htac, 0xf0);
      assert (before + Repeat(CodeBits(htac, 0xf0), nrmarker)) + CodeBits(htac, 0xf0)
          == before + Repeat(CodeBits(htac, 0xf0), nrmarker + 1);
    }
  }

  /** A run of zeros and the coefficient behind it. */
  method WriteCoef(w: JpegWriter, htac: seq<Code>, run: nat, v: int)
    requires w.Valid() && AcWritable(htac) && v != 0 && 1 <= SizeOf(Abs(v)) <= 10
    modifies w
    ensures w.Valid()
    ensures w.Bits() == old(w.Bits()) + Repeat(CodeBits(htac, 0xf0), run / 16) + CodeBits(htac, RunSize(run, v))
      + ValueBits(v)
  {
    hide Field, Writable, JpegWriter.Valid, JpegWriter.Bits, CodeBits, ValueBits, Magnitude;
    var nrzeroes := run;
    ghost var before := w.Bits();
    assert before + Repeat(CodeBits(htac, 0xf0), 0) == before;
    if nrzeroes >= 16 {
      WriteLongRuns(w, htac, nrzeroes / 16);
      nrzeroes := nrzeroes % 16;
    }
    var bits, n := CalcBits(v);
    assert AcValue(nrzeroes * 16 + n);
    WriteCode(w, htac, nrzeroes * 16 + n);
    WriteValue(w, bits, n, v);
  }

  /** The position of the last nonzero AC coefficient, or 0. */
  method LastNonzero(du: seq<int>) returns (end0pos: nat)
    requires |du| == 64
    ensures end0pos < 64 && (forall i :: end0pos < i < 64 ==> du[i] == 0) && (end0pos > 0 ==> du[end0pos] != 0)
  {
    end0pos := 63;
    while end0pos > 0 && du[end0pos] == 0
      invariant end0pos < 64 && forall i :: end0pos < i < 64 ==> du[i] == 0
    {
      end0pos := end0pos - 1;
    }
  }

  /** From k on there is a coefficient at z, or none. */
  lemma AcBitsIs(ht: seq<Code>, du: seq<int>, k: nat, z: nat)
    requires |ht| == 256 && AcSmall(du) && 1 <= k <= z <= 64
    requires (forall i :: k <= i < z ==> du[i] == 0) && (z < 64 ==> du[z] != 0)
    ensures NextNonzero(du, k) == z
    ensures k < 64 && z == 64 ==> AcBits(ht, du, k) == CodeBits(ht, 0)
    ensures k == 64 ==> AcBits(ht, du, k) == []
    ensures z < 64 ==> 1 <= SizeOf(Abs(du[z])) <= 10 && RunSize(z - k, du[z]) < 256
    ensures z < 64 ==>
      AcBits(ht, du, k) == Repeat(CodeBits(ht, 0xf0), (z - k) / 16)
        + CodeBits(ht, RunSize(z - k, du[z])) + ValueBits(du[z]) + AcBits(ht, du, z + 1)
  {
    hide NextNonzero, CodeBits, ValueBits, Repeat, SizeOf, RunSize, AcBits, Abs;
    NextIs(du, k, z);
    if z < 64 {
      SmallSize(du, z);
      RunSizeFits(z - k, du[z]);
      AcBitsValue(ht, du, k, z);
    } else {
      AcBitsEnd(ht, du, k);
    }
  }

  lemma AcBitsEnd(ht: seq<Code>, du: seq<int>, k: nat)
    requires |ht| == 256 && AcSmall(du) && 1 <= k <= 64 && NextNonzero(du, k) == 64
    ensures AcBits(ht, du, k) == if k < 64 then CodeBits(ht, 0) else []
  {
    hide NextNonzero, CodeBits, ValueBits, Repeat, SizeOf, RunSize, Abs;
  }

  lemma AcBitsValue(ht: seq<Code>, du: seq<int>, k: nat, z: nat)
    requires |ht| == 256 && AcSmall(du) && 1 <= k <= z < 64 && NextNonzero(du, k) == z
    requires RunSize(z - k, du[z]) < 256
    ensures AcBits(ht, du, k) == Repeat(CodeBits(ht, 0xf0), (z - k) / 16)
      + CodeBits(ht, RunSize(z - k, du[z])) + ValueBits(du[z]) + AcBits(ht, du, z + 1)
  {
    hide NextNonzero, CodeBits, ValueBits, Repeat, SizeOf, RunSize, Abs;
  }

  lemma RunSizeFits(run: nat, v: int)
    requires 1 <= SizeOf(Abs(v)) <= 10
    ensures RunSize(run, v) < 256
  {
    hide SizeOf, Abs;
  }

  lemma {:induction false} NextIs(du: seq<int>, k: nat, z: nat)
    requires |du| == 64 && k <= z <= 64 && (forall i :: k <= i < z ==> du[i] == 0) && (z < 64 ==> du[z] != 0)
    ensures NextNonzero(du, k) == z
    decreases z - k
  {
    if k < z {
      NextIs(du, k + 1, z);
    }
  }

  method WriteAC(w: JpegWriter, htac: seq<Code>, du: seq<int>)
    requires w.Valid() && AcWritable(htac) && AcSmall(du)
    modifies w
    ensures w.Valid() && w.Bits() == old(w.Bits()) + AcBits(htac, du, 1)
  {
    hide Field, Writable, JpegWriter.Valid, JpegWriter.Bits, CodeBits, ValueBits, Repeat, AcBits, SizeOf, RunSize,
      NextNonzero;
    assert AcValue(0);
    var end0pos := LastNonzero(du);
    if end0pos == 0 {
      AcBitsIs(htac, du, 1, 64);
      WriteCode(w, htac, 0);
      return;
    }
    ghost var before := w.Bits();
    var i := 1;
    while i <= end0pos
      invariant 1 <= i <= end0pos + 1 && w.Valid()
      invariant w.Bits() + AcBits(htac, du, i) == before + AcBits(htac, du, 1)
    {
      var startpos := i;
      while du[i] == 0 && i <= end0pos
        invariant startpos <= i <= end0pos && forall k :: startpos <= k < i ==> du[k] == 0
        decreases end0pos - i
      {
        i := i + 1;
      }
      AcBitsIs(htac, du, startpos, i);
      ghost var now := w.Bits();
      WriteCoef(w, htac, i - startpos, du[i]);
      ghost var a, b, c, d := Repeat(CodeBits(htac, 0xf0), (i - startpos) / 16),
        CodeBits(htac, RunSize(i - startpos, du[i])), ValueBits(du[i]), AcBits(htac, du, i + 1);
      assert (((now + a) + b) + c) + d == now + (((a + b) + c) + d);
      i := i + 1;
    }
    AcBitsIs(htac, du, i, 64);
    if end0pos != 63 {
      WriteCode(w, htac, 0);
    } else {
      assert w.Bits() + [] == w.Bits();
    }
  }

  /** The entropy part of stbiw__jpg_processDU; the result is the DC value for the next block. */
  method ProcessDU(w: JpegWriter, htdc: seq<Code>, htac: seq<Code>, du: seq<int>, pred: int) returns (dc: int)
    requires w.Valid() && DcWritable(htdc) && AcWritable(htac) && Encodable(du, pred)
    modifies w
    ensures w.Valid() && w.Bits() == old(w.Bits()) + BlockBits(htdc, htac, du, pred) && dc == du[0]
  {
    hide JpegWriter.Valid, JpegWriter.Bits, DcBits, AcBits, SizeOf;
    DcSmall(du[0] - pred);
    ghost var before := w.Bits();
    WriteDC(w, htdc, du[0] - pred);
    WriteAC(w, htac, du);
    assert (before + DcBits(htdc, du[0] - pred)) + AcBits(htac, du, 1)
        == before + (DcBits(htdc, du[0] - pred) + AcBits(htac, du, 1));
    dc := du[0];
  }
}
