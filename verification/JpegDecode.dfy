/**
  The reader of JPEG blocks: Huffman decoding by table and by search, receive-and-extend,
  and the combined table for small AC coefficients, each against plain decoding.
*/
module JpegDecode {
  import opened Bits
  import opened Wrappers
  import opened JpegHuffman
  import opened JpegTables
  import opened JpegBits
  import opened JpegStream

  // ---- one code ----

  /** The search through maxcode, from ten bits up. */
  method SearchLength(h: JpegTable, temp: nat, ghost n9: nat) returns (k: nat, ghost m: nat, ghost n: nat)
    requires h.Built() && UpTo(h.sizes, 9, n9) && Edge(h.sizes, n9) <= temp < 0x1_0000
    ensures 10 <= k <= 17 && UpTo(h.sizes, k - 1, m) && Edge(h.sizes, m) <= temp
    ensures k <= 16 ==> UpTo(h.sizes, k, n) && temp < Edge(h.sizes, n)
  {
    hide Edge, SizesOk, JpegTable.FastBuilt, JpegTable.SizesListed;
    h.OkSizes();
    k, m, n := 10, n9, 0;
    while temp >= h.maxcode[k]
      invariant 10 <= k <= 17 && UpTo(h.sizes, k - 1, m) && Edge(h.sizes, m) <= temp
      decreases 17 - k
    {
      assert LengthRow(h.sizes, k, h.maxcode[k], h.delta[k]);
      m :| UpTo(h.sizes, k, m) && h.maxcode[k] == Edge(h.sizes, m);
      k := k + 1;
    }
    if k <= 16 {
      assert LengthRow(h.sizes, k, h.maxcode[k], h.delta[k]);
      n :| UpTo(h.sizes, k, n) && h.maxcode[k] == Edge(h.sizes, n);
    }
  }

  /**
    stbi__jpeg_huff_decode: whichever way answers, a code that ends within the segment is
    decoded as the plain decoder does.
  */
  method HuffDecode(j: JpegReader, h: JpegTable) returns (r: int)
    requires j.Valid() && h.Built()
    modifies j
    ensures match Symbol(h.sizes, j.Bits(), old(j.Pos()))
            case None => r == -1
            case Some(i) => old(j.Pos()) + h.sizes[i] <= |j.Bits()| ==>
              r == h.values[i] as int && j.Valid() && j.Pos() == old(j.Pos()) + h.sizes[i]
  {
    hide JpegReader.Valid, SizesOk, Edge, FastFilled, TakeMSB, AllBits, Unstuffed;
    ghost var bits, pos := j.Bits(), j.Pos();
    j.Prepare(16);
    var temp := j.Peek(16);
    WordFits(bits, pos);
    ghost var n9 :| UpTo(h.sizes, 9, n9) && FastFilled(h.sizes, h.fast[..], n9);
    FastLookup(h.sizes, h.fast[..], n9, bits, pos);
    var c := temp / 128;
    var k := h.fast[c];
    if k < 255 {
      h.SizeIs(k);
      var s := h.size[k];
      if s > j.code_bits {
        PastSegment(j, s);
        return -1;
      }
      j.Drop(s);
      return h.values[k] as int;
    }
    r := SlowDecode(j, h, temp, n9);
  }

  /** The half of stbi__jpeg_huff_decode behind the lookup. */
  method SlowDecode(j: JpegReader, h: JpegTable, temp: nat, ghost n9: nat) returns (r: int)
    requires j.Valid() && h.Built() && j.Ready(16) && temp == TakeMSB(j.Bits(), j.Pos(), 16) < 0x1_0000
    requires UpTo(h.sizes, 9, n9) && Edge(h.sizes, n9) <= temp
    modifies j
    ensures match Symbol(h.sizes, j.Bits(), old(j.Pos()))
            case None => r == -1
            case Some(i) => old(j.Pos()) + h.sizes[i] <= |j.Bits()| ==>
              r == h.values[i] as int && j.Valid() && j.Pos() == old(j.Pos()) + h.sizes[i]
  {
    hide JpegReader.Valid, SizesOk, Edge, FastFilled, TakeMSB, AllBits, Unstuffed, JpegTable.FastBuilt, LengthRow;
    ghost var bits, pos := j.Bits(), j.Pos();
    var k;
    ghost var m, n;
    k, m, n := SearchLength(h, temp, n9);
    if k == 17 {
      AllUpTo16(h.sizes, m);
      NoSymbol(h.sizes, bits, pos);
      return -1;
    }
    SlowLookup(h.sizes, bits, pos, k, m, n, h.maxcode[k], h.delta[k]);
    if k > j.code_bits {
      PastSegment(j, k);
      return -1;
    }
    var top := j.Peek(k);
    TakeMSBBound(bits, pos, k);
    AndMask(top, k);
    LowSmall(top, k);
    var c := And(top, Pow2(k) - 1) + h.delta[k];
    h.SizeIs(c);
    j.Drop(k);
    r := h.values[c] as int;
  }

  lemma AllUpTo16(sizes: seq<nat>, m: nat)
    requires SizesOk(sizes) && UpTo(sizes, 16, m)
    ensures m == |sizes|
  {
    SizesAtMost16(sizes);
  }

  lemma PastSegment(j: JpegReader, s: nat)
    requires j.Valid() && j.Ready(16) && s > j.code_bits && s <= 16
    ensures j.Pos() + s > |j.Bits()|
  {
  }

  lemma WordFits(bits: seq<bool>, pos: nat)
    ensures TakeMSB(bits, pos, 16) < 0x1_0000 && TakeMSB(bits, pos, 16) / 128 < 512
  {
    TakeMSBBound(bits, pos, 16);
    Pow2Of15();
  }

  // ---- a signed value ----

  /** Section F.2.2.1: values of n bits below half stand for negative numbers. */
  function Extend(v: nat, n: nat): int
    requires n > 0
  {
    if v < Pow2(n - 1) then v - Pow2(n) + 1 else v
  }

  lemma TopBit(bits: seq<bool>, pos: nat, n: nat)
    requires 0 < n
    ensures TakeMSB(bits, pos, 1) == 1 <==> TakeMSB(bits, pos, n) >= Pow2(n - 1)
    ensures TakeMSB(bits, pos, 1) <= 1
  {
    TakeMSBSplit(bits, pos, 1, n - 1);
    TakeMSBBound(bits, pos + 1, n - 1);
    TakeMSBBound(bits, pos, 1);
    assert Pow2(1) == 2 * Pow2(0);
    ShlOne(n - 1);
  }

  /** The top n bits of a 32-bit word, and the others moved up. */
  lemma TopFits(x: nat, n: nat)
    requires x < Pow2(32) && 0 < n < 32
    ensures Shr(x, 32 - n) < Pow2(n) && Low(Shl(x, n), 32) == Shl(Low(x, 32 - n), n)
  {
    hide Low, Shl, Shr, Pow2;
    LowShl(x, n, 32 - n);
    ShlOne(n);
    ShlShl(1, n, 32 - n);
    ShlOne(32);
    ShrBound(x, 32 - n, Pow2(n));
  }

  /** The mask of the upper bits of a word takes the lower ones off. */
  lemma MaskUpper(top: nat, rest: nat, n: nat)
    requires 0 < n < 32 && top < Pow2(n) && rest < Pow2(32 - n)
    ensures Pow2(n) <= Pow2(32)
    ensures And(top + Shl(rest, n), Pow2(32) - Pow2(n)) == Shl(rest, n)
  {
    hide And, Low, Shl, Shr, Pow2;
    Pow2Mono(n, 32);
    var mask: nat := Pow2(32 - n) - 1;
    ShlOne(32 - n);
    ShlShl(1, 32 - n, n);
    ShlOne(32);
    ShlOne(n);
    ShlAdd(mask, 1, n);
    AndShl(top + Shl(rest, n), mask, n);
    LowShrUnique(top, rest, n);
    AndMask(rest, 32 - n);
    LowSmall(rest, 32 - n);
  }

  /** Rotating left by n puts the top n bits below the others. */
  lemma Rotated(x: nat, n: nat)
    requires x < Pow2(32) && 0 < n < 32
    ensures Pow2(n) <= Pow2(32)
    ensures var k := Or(Low(Shl(x, n), 32), Shr(x, 32 - n));
      And(k, Pow2(n) - 1) == Shr(x, 32 - n) && And(k, Pow2(32) - Pow2(n)) == Low(Shl(x, n), 32)
  {
    hide And, Or, Low, Shl, Shr, Pow2;
    var top, rest := Shr(x, 32 - n), Low(x, 32 - n);
    TopFits(x, n);
    OrDisjoint(top, rest, n);
    AndMask(top + Shl(rest, n), n);
    LowShrUnique(top, rest, n);
    LowBound(x, 32 - n);
    MaskUpper(top, rest, n);
  }

  lemma BufferBound(buffer: nat, bits: seq<bool>, pos: nat, n: nat)
    requires Buffers(buffer, bits, pos, n)
    ensures buffer < Pow2(32)
  {
    TakeMSBBound(bits, pos, n);
    ShiftBound(TakeMSB(bits, pos, n), n, 32 - n);
  }

  lemma SignedValue(v: nat, top: nat, n: nat)
    requires 0 < n && top <= 1 && (top == 1 <==> v >= Pow2(n - 1))
    ensures Extend(v, n) == v + if 1 - top == 1 then 1 - Pow2(n) else 0
  {
  }

  /** Both halves of the rotated buffer: the field, and the buffer behind it. */
  lemma FieldTaken(buffer: nat, bits: seq<bool>, pos: nat, have: nat, n: nat)
    requires Buffers(buffer, bits, pos, have) && 1 <= n <= 15 && n <= have
    ensures Pow2(n) <= Pow2(32)
    ensures var k := Or(Low(Shl(buffer, n), 32), Shr(buffer, 32 - n));
      And(k, Pow2(n) - 1) == TakeMSB(bits, pos, n) && Buffers(And(k, Pow2(32) - Pow2(n)), bits, pos + n, have - n)
    ensures Extend(TakeMSB(bits, pos, n), n)
         == TakeMSB(bits, pos, n) + if 1 - Shr(buffer, 31) == 1 then 1 - Pow2(n) else 0
  {
    hide TakeMSB, And, Or, Low, Shl, Shr, Pow2, Extend;
    BufferBound(buffer, bits, pos, have);
    BuffersTop(buffer, bits, pos, have, n);
    BuffersTop(buffer, bits, pos, have, 1);
    TopBit(bits, pos, n);
    Rotated(buffer, n);
    BuffersLess(buffer, bits, pos, have, n);
    SignedValue(TakeMSB(bits, pos, n), Shr(buffer, 31), n);
  }

  /** stbi__extend_receive */
  method ExtendReceive(j: JpegReader, n: nat) returns (r: int)
    requires j.Valid() && 1 <= n <= 15
    modifies j
    ensures old(j.Pos()) + n <= |j.Bits()| ==>
      j.Valid() && j.Pos() == old(j.Pos()) + n && r == Extend(TakeMSB(j.Bits(), old(j.Pos()), n), n)
  {
    hide TakeMSB, AllBits, Unstuffed, Buffers, Tail, And, Or, Low, Shl, Shr, Pow2, Extend;
    ghost var bits, pos := j.Bits(), j.Pos();
    j.Prepare(n);
    var negative := 1 - Shr(j.code_buffer, 31);
    var k := Or(Low(Shl(j.code_buffer, n), 32), Shr(j.code_buffer, 32 - n));
    if n > j.code_bits {
      return 0;
    }
    FieldTaken(j.code_buffer, bits, pos, j.code_bits, n);
    j.code_buffer := And(k, Pow2(32) - Pow2(n));
    k := And(k, Pow2(n) - 1);
    j.code_bits := j.code_bits - n;
    r := k + if negative == 1 then 1 - Pow2(n) else 0;
  }
}
