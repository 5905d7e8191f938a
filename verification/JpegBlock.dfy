/**
  Reading an 8x8 block of coefficients: plain decoding (ITU-T T.81 section F.2.2), and
  stbi__jpeg_decode_block with its combined table for small AC coefficients.
*/
module JpegBlocks {
  import opened Bits
  import opened Wrappers
  import opened JpegHuffman
  import opened JpegTables
  import opened JpegBits
  import opened JpegStream
  import opened JpegDecode

  function DezigzagLower(k: nat): (r: nat)
    ensures r < 64
  {
    match k
    case 0 => 0 case 1 => 1 case 2 => 8 case 3 => 16 case 4 => 9 case 5 => 2 case 6 => 3 case 7 => 10
    case 8 => 17 case 9 => 24 case 10 => 32 case 11 => 25 case 12 => 18 case 13 => 11 case 14 => 4 case 15 => 5
    case 16 => 12 case 17 => 19 case 18 => 26 case 19 => 33 case 20 => 40 case 21 => 48 case 22 => 41 case 23 => 34
    case 24 => 27 case 25 => 20 case 26 => 13 case 27 => 6 case 28 => 7 case 29 => 14 case 30 => 21 case 31 => 28
    case _ => 63
  }

  function DezigzagUpper(k: nat): (r: nat)
    ensures r < 64
  {
    match k
    case 32 => 35 case 33 => 42 case 34 => 49 case 35 => 56 case 36 => 57 case 37 => 50 case 38 => 43 case 39 => 36
    case 40 => 29 case 41 => 22 case 42 => 15 case 43 => 23 case 44 => 30 case 45 => 37 case 46 => 44 case 47 => 51
    case 48 => 58 case 49 => 59 case 50 => 52 case 51 => 45 case 52 => 38 case 53 => 31 case 54 => 39 case 55 => 46
    case 56 => 53 case 57 => 60 case 58 => 61 case 59 => 54 case 60 => 47 case 61 => 55 case 62 => 62 case 63 => 63
    case _ => 63
  }

  /** stbi__jpeg_dezigzag: the place of zigzag position k in the block; past the end it stays at 63. */
  function Dezigzag(k: nat): (r: nat)
    ensures r < 64
  {
    if k < 32 then DezigzagLower(k) else DezigzagUpper(k)
  }

  function ZigZagLower(k: nat): (r: nat)
    ensures r < 64
  {
    match k
    case 0 => 0 case 1 => 1 case 2 => 5 case 3 => 6 case 4 => 14 case 5 => 15 case 6 => 27 case 7 => 28
    case 8 => 2 case 9 => 4 case 10 => 7 case 11 => 13 case 12 => 16 case 13 => 26 case 14 => 29 case 15 => 42
    case 16 => 3 case 17 => 8 case 18 => 12 case 19 => 17 case 20 => 25 case 21 => 30 case 22 => 41 case 23 => 43
    case 24 => 9 case 25 => 11 case 26 => 18 case 27 => 24 case 28 => 31 case 29 => 40 case 30 => 44 case 31 => 53
    case _ => 63
  }

  function ZigZagUpper(k: nat): (r: nat)
    ensures r < 64
  {
    match k
    case 32 => 10 case 33 => 19 case 34 => 23 case 35 => 32 case 36 => 39 case 37 => 45 case 38 => 52 case 39 => 54
    case 40 => 20 case 41 => 22 case 42 => 33 case 43 => 38 case 44 => 46 case 45 => 51 case 46 => 55 case 47 => 60
    case 48 => 21 case 49 => 34 case 50 => 37 case 51 => 47 case 52 => 50 case 53 => 56 case 54 => 59 case 55 => 61
    case 56 => 35 case 57 => 36 case 58 => 48 case 59 => 49 case 60 => 57 case 61 => 58 case 62 => 62 case 63 => 63
    case _ => 63
  }

  /** stbiw__jpg_ZigZag: the zigzag position of place j. */
  function ZigZag(k: nat): (r: nat)
    ensures r < 64
  {
    if k < 32 then ZigZagLower(k) else ZigZagUpper(k)
  }

  /** The reader's order undoes the writer's. */
  lemma ZigZagUndone(j: nat)
    requires j < 64
    ensures Dezigzag(ZigZag(j)) == j
  {
    hide Dezigzag, ZigZagLower, ZigZagUpper;
    if j < 32 {
      ZigZagUndoneLower(j);
    } else {
      ZigZagUndoneUpper(j);
    }
  }

  lemma ZigZagUndoneLower(j: nat)
    requires j < 32
    ensures Dezigzag(ZigZagLower(j)) == j
  {
  }

  lemma ZigZagUndoneUpper(j: nat)
    requires 32 <= j < 64
    ensures Dezigzag(ZigZagUpper(j)) == j
  {
  }

  /** The value of a C cast to short. */
  function Short(v: int): int { (v + 0x8000) % 0x1_0000 - 0x8000 }

  /** The 16-bit value congruent to v; v itself when it has sixteen bits. */
  lemma ShortIs(v: int)
    ensures -0x8000 <= Short(v) < 0x8000 && (v - Short(v)) % 0x1_0000 == 0
    ensures -0x8000 <= v < 0x8000 ==> Short(v) == v
  {
  }

  /** Code lengths and the values of the symbols. */
  datatype Huff = Huff(sizes: seq<nat>, values: seq<byte>)
  {
    predicate Valid() { SizesOk(sizes) && |values| == 256 }
  }

  /** `Undefined`: a DC size above fifteen, which the reader has no bias for. */
  datatype Read = Undefined | Bad | Ends(data: seq<int>, pos: nat, pred: int)

  function SetCoef(data: seq<int>, k: nat, v: int, dq: seq<nat>): (r: seq<int>)
    requires |data| == |dq| == 64
    ensures |r| == 64
  {
    data[Dezigzag(k) := Short(v * dq[Dezigzag(k)])]
  }

  /** The AC coefficients from zigzag position k on. */
  function ReadAC(h: Huff, bits: seq<bool>, pos: nat, k: nat, data: seq<int>, dq: seq<nat>): (r: Read)
    requires h.Valid() && |data| == |dq| == 64
    ensures r.Ends? ==> |r.data| == 64
    decreases 100 - k
  {
    if k >= 64 then Ends(data, pos, 0)
    else match Symbol(h.sizes, bits, pos)
      case None => Bad
      case Some(i) =>
        var rs, p := h.values[i], pos + h.sizes[i];
        var s, run := rs as nat % 16, rs as nat / 16;
        if s == 0 then
          if rs != 0xf0 then Ends(data, p, 0) else ReadAC(h, bits, p, k + 16, data, dq)
        else ReadAC(h, bits, p + s, k + run + 1, SetCoef(data, k + run, Extend(TakeMSB(bits, p, s), s), dq), dq)
  }

  /** A whole block, given the DC value of the block before. */
  function ReadBlock(dc: Huff, ac: Huff, bits: seq<bool>, pos: nat, pred: int, dq: seq<nat>): (r: Read)
    requires dc.Valid() && ac.Valid() && |dq| == 64
    ensures r.Ends? ==> |r.data| == 64
  {
    match Symbol(dc.sizes, bits, pos)
    case None => Bad
    case Some(i) =>
      var t, p := dc.values[i] as nat, pos + dc.sizes[i];
      if t > 15 then Undefined
      else
        var value := pred + if t == 0 then 0 else Extend(TakeMSB(bits, p, t), t);
        match ReadAC(ac, bits, p + t, 1, SetCoef(seq(64, _ => 0), 0, value, dq), dq)
        case Ends(data, end, _) => Ends(data, end, value)
        case r => r
  }

  /** Reading never goes back. */
  lemma {:induction false} ReadACForward(h: Huff, bits: seq<bool>, pos: nat, k: nat, data: seq<int>, dq: seq<nat>)
    requires h.Valid() && |data| == |dq| == 64 && ReadAC(h, bits, pos, k, data, dq).Ends?
    ensures pos <= ReadAC(h, bits, pos, k, data, dq).pos
    decreases 100 - k
  {
    hide SetCoef, Extend, Symbol, TakeMSB, CodeWord, SizesOk;
    AtMost255(h.sizes);
    if k < 64 {
      var i := Symbol(h.sizes, bits, pos).value;
      var rs, p := h.values[i], pos + h.sizes[i];
      var s, run := rs as nat % 16, rs as nat / 16;
      if s != 0 {
        ReadACForward(h, bits, p + s, k + run + 1, SetCoef(data, k + run, Extend(TakeMSB(bits, p, s), s), dq), dq);
      } else if rs == 0xf0 {
        ReadACForward(h, bits, p, k + 16, data, dq);
      }
    }
  }

  // ---- the combined table ----

  /** What stbi__build_fast_ac makes of the bits behind a code: the signed value. */
  function FastValue(x: nat, len: nat, s: nat): int
    requires 0 < s && len + s <= 9
  {
    var k := Shr(And(Shl(x, len), 511), 9 - s);
    if k < Shl(1, s - 1) then k - Pow2(s) + 1 else k
  }

  /** An entry other than zero: value, run and length of a symbol and its bits. */
  ghost predicate FastAcRight(h: Huff, e: int, x: nat)
    requires h.Valid()
  {
    e == 0 || exists i: nat :: FastAcSymbol(h, e, x, i)
  }

  predicate FastAcSymbol(h: Huff, e: int, x: nat, i: nat)
    requires h.Valid()
  {
    && i < |h.sizes| && h.sizes[i] <= 9 && Edge(h.sizes, i) <= 128 * x < Edge(h.sizes, i + 1)
    && var rs, len := h.values[i] as nat, h.sizes[i];
       var s := rs % 16;
       && 0 < s && len + s <= 9
       && e == FastValue(x, len, s) * 256 + rs / 16 * 16 + (len + s)
  }

  ghost predicate FastAcBuilt(h: Huff, t: seq<int>)
    requires h.Valid()
  {
    |t| == 512 && forall x :: 0 <= x < 512 ==> FastAcRight(h, t[x], x)
  }

  ghost function HuffOf(h: JpegTable): Huff
    reads h, h.values
  {
    Huff(h.sizes, h.values[..])
  }

  lemma HuffIsValid(h: JpegTable)
    requires h.Built()
    ensures HuffOf(h).Valid()
  {
    h.OkSizes();
  }

  /** stbi__build_fast_ac */
  method BuildFastAc(h: JpegTable) returns (fac: array<int>)
    requires h.Built()
    ensures fresh(fac) && fac.Length == 512 && HuffOf(h).Valid() && FastAcBuilt(HuffOf(h), fac[..])
  {
    hide SizesOk, Edge, CodeWord, Shl, Shr, And;
    HuffIsValid(h);
    fac := new int[512](_ => 0);
    for i := 0 to 512
      invariant forall x :: 0 <= x < i ==> FastAcRight(HuffOf(h), fac[x], x)
    {
      var e := FastAcEntry(h, i);
      fac[i] := e;
    }
  }

  method FastAcEntry(h: JpegTable, i: nat) returns (e: int)
    requires h.Built() && i < 512 && HuffOf(h).Valid()
    ensures FastAcRight(HuffOf(h), e, i)
  {
    hide SizesOk, Edge, CodeWord, Shl, Shr, And;
    var fast := h.fast[i];
    e := 0;
    ghost var n :| UpTo(h.sizes, 9, n) && FastFilled(h.sizes, h.fast[..], n);
    assert FastRight(h.sizes, h.fast[..][i], n, i);
    if fast < 255 {
      var rs := h.values[fast];
      var run, magbits := rs as nat / 16, rs as nat % 16;
      h.SizeIs(fast);
      var len := h.size[fast];
      if magbits != 0 && len + magbits <= 9 {
        var k: int := Shr(And(Shl(i, len), 511), 9 - magbits);
        var m := Shl(1, magbits - 1);
        if k < m {
          k := k - Pow2(magbits) + 1;
        }
        if -128 <= k <= 127 {
          e := k * 256 + run * 16 + (len + magbits);
          assert FastAcSymbol(HuffOf(h), e, i, fast as nat);
        }
      }
    }
  }

  /** The bits of the table index behind a code, as the stream has them. */
  lemma FastValueIs(bits: seq<bool>, pos: nat, len: nat, s: nat)
    requires 0 < s && len + s <= 9
    ensures FastValue(TakeMSB(bits, pos, 9), len, s) == Extend(TakeMSB(bits, pos + len, s), s)
  {
    hide And, Shl, Shr, Low, TakeMSB, Pow2;
    var x := TakeMSB(bits, pos, 9);
    Pow2Of8();
    AndMask(Shl(x, len), 9);
    LowShl(x, len, 9 - len);
    TakeMSBSplit(bits, pos, len, 9 - len);
    TakeMSBBound(bits, pos + len, 9 - len);
    LowShrUnique(TakeMSB(bits, pos + len, 9 - len), TakeMSB(bits, pos, len), 9 - len);
    var y := TakeMSB(bits, pos + len, 9 - len);
    ShrShl(y, len);
    ShrShr(Shl(y, len), len, 9 - len - s);
    TakeMSBShr(bits, pos + len, s, 9 - len);
    ShlOne(s - 1);
  }

  /** A hit is one step of plain decoding. */
  lemma FastAcStep(h: Huff, t: seq<int>, bits: seq<bool>, pos: nat, k: nat, data: seq<int>, dq: seq<nat>)
    requires h.Valid() && FastAcBuilt(h, t) && |data| == |dq| == 64 && k < 64
    requires TakeMSB(bits, pos, 16) / 128 == TakeMSB(bits, pos, 9) < 512 && t[TakeMSB(bits, pos, 9)] != 0
    ensures var e := t[TakeMSB(bits, pos, 9)];
      && e % 16 <= 9
      && ReadAC(h, bits, pos, k, data, dq)
      == ReadAC(h, bits, pos + e % 16, k + e / 16 % 16 + 1, SetCoef(data, k + e / 16 % 16, e / 256, dq), dq)
  {
    hide SetCoef, Extend, SizesOk, TakeMSB, Edge, FastValue;
    var x := TakeMSB(bits, pos, 9);
    var e := t[x];
    assert FastAcRight(h, e, x);
    AtMost255(h.sizes);
    var i: nat :| FastAcSymbol(h, e, x, i);
    var rs, len := h.values[i] as nat, h.sizes[i];
    var s, run := rs % 16, rs / 16;
    FastValueIs(bits, pos, len, s);
    EntryParts(FastValue(x, len, s), run, len + s);
    ShortMatch(h.sizes, bits, pos, i, x);
  }

  lemma EntryParts(v: int, run: nat, s: nat)
    requires run < 16 && s < 16
    ensures var e := v * 256 + run * 16 + s; e / 256 == v && e / 16 % 16 == run && e % 16 == s
  {
    var e := v * 256 + run * 16 + s;
    assert 0 <= e - 256 * v < 256;
    assert 0 <= e - 16 * (16 * v + run) < 16;
    Quotient(e, 16 * v + run, 16);
    Quotient(e, v, 256);
    Quotient(16 * v + run, v, 16);
  }

  lemma Quotient(e: int, q: int, d: nat)
    requires d == 16 || d == 256
    requires 0 <= e - d * q < d
    ensures e / d == q && e % d == e - d * q
  {
  }

  lemma ShortMatch(sizes: seq<nat>, bits: seq<bool>, pos: nat, i: nat, x: nat)
    requires SizesOk(sizes) && i < |sizes| && sizes[i] <= 9 && Edge(sizes, i) <= 128 * x < Edge(sizes, i + 1)
    requires TakeMSB(bits, pos, 16) / 128 == x
    ensures Symbol(sizes, bits, pos) == Some(i)
  {
    SortedMono(sizes);
    ShortEdge(sizes, i + 1);
    SameOf128(TakeMSB(bits, pos, 16), Edge(sizes, i + 1));
    BeginsIff(sizes, bits, pos, i);
    SymbolIs(sizes, bits, pos, i);
  }

  // ---- the reader ----

  /** The AC part goes on from here to the given end, within the segment. */
  ghost predicate AcLeft(j: JpegReader, ac: Huff, k: nat, data: seq<int>, dq: seq<nat>, end: Read)
    requires ac.Valid() && |data| == |dq| == 64
    reads j
  {
    j.Valid() && end.Ends? && end.pos <= |j.Bits()| && ReadAC(ac, j.Bits(), j.Pos(), k, data, dq) == end
  }

  lemma NineOfSixteen(bits: seq<bool>, pos: nat)
    ensures TakeMSB(bits, pos, 16) / 128 == TakeMSB(bits, pos, 9) < 512
  {
    hide TakeMSB;
    TakeMSBSplit(bits, pos, 9, 7);
    TakeMSBBound(bits, pos + 9, 7);
    ShlSeven(TakeMSB(bits, pos, 9));
    TakeMSBBound(bits, pos, 9);
    Pow2Of8();
    assert Pow2(7) == 128 by { assert Pow2(3) == 8; assert Pow2(5) == 32; }
  }

  lemma Held(j: JpegReader, s: nat)
    requires j.Valid() && j.Ready(16) && s <= 16 && j.Pos() + s <= |j.Bits()|
    ensures s <= j.code_bits
  {
  }

  /** The combined table has an entry for the next bits. */
  method FastCoef(j: JpegReader, data: array<int>, r: int, ghost ac: Huff, ghost fac: seq<int>, k: nat, dq: seq<nat>,
                  ghost end: Read)
    returns (k': nat)
    requires ac.Valid() && FastAcBuilt(ac, fac) && data.Length == |dq| == 64 && k < 64
    requires AcLeft(j, ac, k, data[..], dq, end) && j.Ready(16)
    requires TakeMSB(j.Bits(), j.Pos(), 9) < 512 && r == fac[TakeMSB(j.Bits(), j.Pos(), 9)] != 0
    modifies j, data
    ensures k < k' && AcLeft(j, ac, k', data[..], dq, end)
  {
    hide JpegReader.Valid, ReadAC, FastAcBuilt, Huff.Valid, TakeMSB, Short, Dezigzag;
    NineOfSixteen(j.Bits(), j.Pos());
    FastAcStep(ac, fac, j.Bits(), j.Pos(), k, data[..], dq);
    k' := k + r / 16 % 16;
    var s := r % 16;
    ReadACForward(ac, j.Bits(), j.Pos() + s, k' + 1, SetCoef(data[..], k', r / 256, dq), dq);
    Held(j, s);
    j.Drop(s);
    var zig := Dezigzag(k');
    k' := k' + 1;
    data[zig] := Short(r / 256 * dq[zig]);
  }

  /** Otherwise: a Huffman code, and bits of its own. */
  method SlowCoef(j: JpegReader, data: array<int>, hac: JpegTable, k: nat, dq: seq<nat>, ghost end: Read)
    returns (k': nat, more: bool)
    requires hac.Built() && HuffOf(hac).Valid() && data.Length == |dq| == 64 && k < 64
    requires Apart(hac.Repr(), data) && AcLeft(j, HuffOf(hac), k, data[..], dq, end)
    modifies j, data
    ensures AcLeft(j, HuffOf(hac), k', data[..], dq, end) && (if more then k < k' else k' == 64)
  {
    hide JpegReader.Valid, ReadAC, Huff.Valid, TakeMSB, Short, Dezigzag, Extend, Symbol, JpegTable.Built;
    ghost var ac, bits := HuffOf(hac), j.Bits();
    OneStep(ac, bits, j.Pos(), k, data[..], dq);
    var rs := HuffDecode(j, hac);
    if rs < 0 {
      assert false;
    }
    var s, r := rs % 16, rs / 16;
    more := true;
    if s == 0 {
      k' := k + 16;
      if rs != 0xf0 {
        more := false;
        k' := 64;
        StepAt64(ac, bits, j.Pos(), data[..], dq);
      }
    } else {
      k' := k + r;
      var zig := Dezigzag(k');
      k' := k' + 1;
      var v := ExtendReceive(j, s);
      data[zig] := Short(v * dq[zig]);
    }
  }

  /** One step of plain decoding, and that it stays within what it ends with. */
  lemma OneStep(h: Huff, bits: seq<bool>, pos: nat, k: nat, data: seq<int>, dq: seq<nat>)
    requires h.Valid() && |data| == |dq| == 64 && k < 64 && ReadAC(h, bits, pos, k, data, dq).Ends?
    ensures Symbol(h.sizes, bits, pos).Some?
    ensures var i := Symbol(h.sizes, bits, pos).value;
      && i < |h.sizes| <= 255 && |h.values| == 256
      && var rs, p := h.values[i], pos + h.sizes[i];
         var s, run := rs as nat % 16, rs as nat / 16;
         var end := ReadAC(h, bits, pos, k, data, dq);
         && p + s <= end.pos
         && end == if s != 0 then
           ReadAC(h, bits, p + s, k + run + 1, SetCoef(data, k + run, Extend(TakeMSB(bits, p, s), s), dq), dq)
                   else if rs == 0xf0 then ReadAC(h, bits, p, k + 16, data, dq) else Ends(data, p, 0)
  {
    hide SetCoef, Extend, TakeMSB, CodeWord;
    AtMost255(h.sizes);
    var i := Symbol(h.sizes, bits, pos).value;
    var rs, p := h.values[i], pos + h.sizes[i];
    var s, run := rs as nat % 16, rs as nat / 16;
    if s != 0 {
      ReadACForward(h, bits, p + s, k + run + 1, SetCoef(data, k + run, Extend(TakeMSB(bits, p, s), s), dq), dq);
    } else if rs == 0xf0 {
      ReadACForward(h, bits, p, k + 16, data, dq);
    }
  }

  lemma StepAt64(h: Huff, bits: seq<bool>, pos: nat, data: seq<int>, dq: seq<nat>)
    requires h.Valid() && |data| == |dq| == 64
    ensures ReadAC(h, bits, pos, 64, data, dq) == Ends(data, pos, 0)
  {
  }

  /** The loop over the AC coefficients. */
  method DecodeAC(j: JpegReader, data: array<int>, hac: JpegTable, fac: array<int>, dq: seq<nat>, ghost end: Read)
    requires hac.Built() && HuffOf(hac).Valid() && FastAcBuilt(HuffOf(hac), fac[..])
    requires fac.Length == 512 && data.Length == |dq| == 64 && Apart(hac.Repr() + {fac}, data)
    requires AcLeft(j, HuffOf(hac), 1, data[..], dq, end)
    modifies j, data
    ensures j.Valid() && end == Ends(data[..], j.Pos(), 0)
  {
    hide JpegReader.Valid, ReadAC, FastAcBuilt, Huff.Valid, TakeMSB, JpegTable.Built;
    ghost var ac, table := HuffOf(hac), fac[..];
    var k := 1;
    var more := true;
    while more && k < 64
      invariant hac.Built() && HuffOf(hac) == ac && fac[..] == table
      invariant 0 < k && (!more ==> k == 64) && AcLeft(j, ac, k, data[..], dq, end)
      decreases if k < 64 then 64 - k else 0, more
    {
      j.Prepare(16);
      var c := j.Peek(9);
      NineOfSixteen(j.Bits(), j.Pos());
      var r := fac[c];
      if r != 0 {
        k := FastCoef(j, data, r, ac, table, k, dq, end);
      } else {
        k, more := SlowCoef(j, data, hac, k, dq, end);
      }
    }
    Ended(ac, j.Bits(), j.Pos(), k, data[..], dq);
  }

  lemma Ended(h: Huff, bits: seq<bool>, pos: nat, k: nat, data: seq<int>, dq: seq<nat>)
    requires h.Valid() && |data| == |dq| == 64 && k >= 64
    ensures ReadAC(h, bits, pos, k, data, dq) == Ends(data, pos, 0)
  {
  }

  /** The DC code and difference. */
  method DecodeDC(j: JpegReader, hdc: JpegTable, pred: int, ghost ac: Huff, dq: seq<nat>) returns (dc: int)
    requires j.Valid() && hdc.Built() && HuffOf(hdc).Valid() && ac.Valid() && |dq| == 64
    requires var end := ReadBlock(HuffOf(hdc), ac, j.Bits(), j.Pos(), pred, dq); end.Ends? && end.pos <= |j.Bits()|
    modifies j
    ensures j.Valid()
    ensures var end := ReadBlock(HuffOf(hdc), ac, j.Bits(), old(j.Pos()), pred, dq);
      && end.pred == dc
      && ReadAC(ac, j.Bits(), j.Pos(), 1, SetCoef(seq(64, _ => 0), 0, dc, dq), dq) == Ends(end.data, end.pos, 0)
  {
    hide JpegReader.Valid, ReadAC, TakeMSB, Extend, SetCoef, JpegTable.Built;
    ghost var bits, dcs := j.Bits(), HuffOf(hdc);
    DcParts(dcs, ac, bits, j.Pos(), pred, dq);
    var t := HuffDecode(j, hdc);
    if t < 0 {
      assert false;
    }
    var diff := 0;
    if t != 0 {
      diff := ExtendReceive(j, t);
    }
    dc := pred + diff;
  }

  lemma DcParts(dc: Huff, ac: Huff, bits: seq<bool>, pos: nat, pred: int, dq: seq<nat>)
    requires dc.Valid() && ac.Valid() && |dq| == 64 && ReadBlock(dc, ac, bits, pos, pred, dq).Ends?
    ensures Symbol(dc.sizes, bits, pos).Some?
    ensures var i := Symbol(dc.sizes, bits, pos).value;
      && i < |dc.sizes| <= 255 && |dc.values| == 256 && dc.values[i] <= 15
      && var t, p, end := dc.values[i] as nat, pos + dc.sizes[i], ReadBlock(dc, ac, bits, pos, pred, dq);
         && p + t <= end.pos
         && end.pred == (pred + if t == 0 then 0 else Extend(TakeMSB(bits, p, t), t))
         && ReadAC(ac, bits, p + t, 1, SetCoef(seq(64, _ => 0), 0, end.pred, dq), dq) == Ends(end.data, end.pos, 0)
  {
    hide SetCoef, Extend, TakeMSB, CodeWord, ReadAC;
    AtMost255(dc.sizes);
    var i := Symbol(dc.sizes, bits, pos).value;
    var t, p, end := dc.values[i] as nat, pos + dc.sizes[i], ReadBlock(dc, ac, bits, pos, pred, dq);
    ReadACForward(ac, bits, p + t, 1, SetCoef(seq(64, _ => 0), 0, end.pred, dq), dq);
    ReadACPred(ac, bits, p + t, 1, SetCoef(seq(64, _ => 0), 0, end.pred, dq), dq);
  }

  lemma {:induction false} ReadACPred(h: Huff, bits: seq<bool>, pos: nat, k: nat, data: seq<int>, dq: seq<nat>)
    requires h.Valid() && |data| == |dq| == 64 && ReadAC(h, bits, pos, k, data, dq).Ends?
    ensures ReadAC(h, bits, pos, k, data, dq).pred == 0
    decreases 100 - k
  {
    hide SetCoef, Extend, TakeMSB, CodeWord;
    if k < 64 {
      OneStep(h, bits, pos, k, data, dq);
      var i := Symbol(h.sizes, bits, pos).value;
      var rs, p := h.values[i], pos + h.sizes[i];
      var s, run := rs as nat % 16, rs as nat / 16;
      if s != 0 {
        ReadACPred(h, bits, p + s, k + run + 1, SetCoef(data, k + run, Extend(TakeMSB(bits, p, s), s), dq), dq);
      } else if rs == 0xf0 {
        ReadACPred(h, bits, p, k + 16, data, dq);
      }
    }
  }

  /**
    stbi__jpeg_decode_block: on a block that plain decoding reads within the segment, the
    tables give the same coefficients, DC value and position.
  */
  method DecodeBlock(j: JpegReader, data: array<int>, hdc: JpegTable, hac: JpegTable, fac: array<int>, pred: int,
                     dq: seq<nat>)
    returns (dc: int)
    requires j.Valid() && hdc.Built() && HuffOf(hdc).Valid() && hac.Built() && HuffOf(hac).Valid()
    requires FastAcBuilt(HuffOf(hac), fac[..]) && fac.Length == 512 && data.Length == |dq| == 64
    requires Apart(hac.Repr() + {fac}, data)
    requires var end := ReadBlock(HuffOf(hdc), HuffOf(hac), j.Bits(), j.Pos(), pred, dq);
      end.Ends? && end.pos <= |j.Bits()|
    modifies j, data
    ensures j.Valid()
    ensures ReadBlock(HuffOf(hdc), HuffOf(hac), j.Bits(), old(j.Pos()), pred, dq) == Ends(data[..], j.Pos(), dc)
  {
    hide JpegReader.Valid, ReadAC, FastAcBuilt, Huff.Valid, JpegTable.Built, ReadBlock, SetCoef;
    ghost var bits, dcs, acs := j.Bits(), HuffOf(hdc), HuffOf(hac);
    ghost var end := ReadBlock(dcs, acs, bits, j.Pos(), pred, dq);
    assert j !in hdc.Repr();
    j.Prepare(16);
    dc := DecodeDC(j, hdc, pred, acs, dq);
    ClearBlock(data, dc, dq);
    DecodeAC(j, data, hac, fac, dq, Ends(end.data, end.pos, 0));
  }

  method ClearBlock(data: array<int>, dc: int, dq: seq<nat>)
    requires data.Length == |dq| == 64
    modifies data
    ensures data[..] == SetCoef(seq(64, _ => 0), 0, dc, dq)
  {
    forall i | 0 <= i < 64 { data[i] := 0; }
    data[0] := Short(dc * dq[0]);
    assert data[..] == SetCoef(seq(64, _ => 0), 0, dc, dq);
  }
}
