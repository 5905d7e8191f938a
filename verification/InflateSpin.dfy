/** A zlib stream of thirteen bytes on which the inflater goes on for ever. */
module InflateSpin {
  import opened Bits
  import opened Wrappers
  import opened Canonical
  import opened InflateSpec
  import opened InflateEnd

  /** A zlib header, then one dynamic block that ends with its code lengths. */
  function Spin(): seq<byte> { [0x78, 0x5E, 0x05, 0xC0, 0x81, 0, 0, 0, 0, 0, 0x10, 0xFF, 0xD9] }

  // ---- its fields ----

  /** A field inside one byte. */
  lemma ByteField(data: seq<byte>, k: nat, j: nat, n: nat)
    requires k < |data| && j + n <= 8
    ensures Take(Unpack(data), 8 * k + j, n) == Low(Shr(data[k], j), n)
  {
    hide Take, Low, Shr, Unpack;
    TakeByte(data, k);
    TakeLowShr(Unpack(data), 8 * k, j, 8);
    TakeLowShr(Unpack(data), 8 * k + j, n, 8 - j);
  }

  lemma {:induction false} ZeroBytes(data: seq<byte>, k: nat, m: nat)
    requires k + m <= |data| && forall i :: k <= i < k + m ==> data[i] == 0
    ensures Take(Unpack(data), 8 * k, 8 * m) == 0
    decreases m
  {
    hide Take, Unpack;
    if m == 0 {
      NoBits(Unpack(data), 8 * k);
    } else {
      TakeByte(data, k);
      ZeroBytes(data, k + 1, m - 1);
      TakeSplit(Unpack(data), 8 * k, 8, 8 * (m - 1));
      ShlOne(8);
    }
  }

  lemma NoBits(bits: seq<bool>, pos: nat)
    ensures Take(bits, pos, 0) == 0
  {
  }

  /** A part of a field of zeros. */
  lemma ZeroPart(bits: seq<bool>, pos: nat, n: nat, a: nat, m: nat)
    requires Take(bits, pos, n) == 0 && a + m <= n
    ensures Take(bits, pos + a, m) == 0
  {
    hide Take, Low, Shr;
    TakeLowShr(bits, pos, a, n);
    TakeLowShr(bits, pos + a, m, n - a);
    NoLow(a);
    NoLow(m);
  }

  lemma {:induction false} NoLow(n: nat)
    ensures Low(0, n) == 0 && Shr(0, n) == 0
    decreases n
  {
    if n > 0 {
      NoLow(n - 1);
    }
  }

  /** Block header and counts: final, dynamic, 257 lengths, 1 distance, 18 code lengths. */
  lemma Counts()
    ensures var bits := Unpack(Spin());
      && Take(bits, 16, 1) == 1 && Take(bits, 17, 2) == 2
      && Take(bits, 19, 5) == 0 && Take(bits, 24, 5) == 0 && Take(bits, 29, 4) == 14
  {
    hide Take, Unpack;
    var s := Spin();
    ByteField(s, 2, 0, 1);
    ByteField(s, 2, 1, 2);
    ByteField(s, 2, 3, 5);
    ByteField(s, 3, 0, 5);
    ByteField(s, 3, 5, 3);
    ByteField(s, 4, 0, 1);
    TakeSplit(Unpack(s), 29, 3, 1);
    LowFields();
  }

  lemma LowFields()
    ensures Low(Shr(0x05, 0), 1) == 1 && Low(Shr(0x05, 1), 2) == 2 && Low(Shr(0x05, 3), 5) == 0
    ensures Low(Shr(0xC0, 0), 5) == 0 && Low(Shr(0xC0, 5), 3) == 6 && Low(Shr(0x81, 0), 1) == 1
    ensures Shl(1, 3) == 8
  {
    assert Shr(0x05, 1) == 2 && Shr(0x05, 2) == 1 && Shr(0x05, 3) == 0;
    assert Shr(0xC0, 2) == 0x30 && Shr(0xC0, 4) == Shr(0x30, 2) == 0x0C && Shr(0xC0, 5) == 6;
    assert Low(0xC0, 5) == 2 * Low(0x60, 4) == 4 * Low(0x30, 3) == 8 * Low(0x18, 2);
    assert Low(6, 3) == 2 * Low(3, 2);
    ShlOne(3);
    assert Pow2(2) == 4;
  }

  // ---- the code length code ----

  /** Eighteen fields of three bits: the third and the last are 1. */
  predicate CodeLengthFields(bits: seq<bool>)
  {
    forall i :: 0 <= i < 18 ==> CodeLengthField(bits, i) == if i == 2 || i == 17 then 1 else 0
  }

  function CodeLengthField(bits: seq<bool>, i: nat): nat { Take(bits, 33 + 3 * i, 3) }

  lemma Fields()
    ensures CodeLengthFields(Unpack(Spin()))
  {
    hide Take, Unpack, Spin;
    EndFields();
    forall i | 3 <= i < 17 ensures CodeLengthField(Unpack(Spin()), i) == 0 {
      ZeroPart(Unpack(Spin()), 40, 44, 3 * i - 7, 3);
    }
  }

  lemma EndFields()
    ensures var bits := Unpack(Spin());
      && Take(bits, 33, 3) == 0 && Take(bits, 36, 3) == 0 && Take(bits, 39, 3) == 1
      && Take(bits, 40, 44) == 0 && Take(bits, 84, 3) == 1
  {
    hide Take, Unpack;
    var s, bits := Spin(), Unpack(Spin());
    ByteField(s, 4, 1, 3);
    ByteField(s, 4, 4, 3);
    ByteField(s, 4, 7, 1);
    ByteField(s, 5, 0, 2);
    TakeSplit(bits, 39, 1, 2);
    ZeroBytes(s, 5, 5);
    ByteField(s, 10, 0, 4);
    TakeSplit(bits, 40, 40, 4);
    ByteField(s, 10, 4, 3);
    MiddleFields();
    LaterFields();
  }

  lemma MiddleFields()
    ensures Low(Shr(0x81, 1), 3) == 0 && Low(Shr(0x81, 4), 3) == 0 && Low(Shr(0x81, 7), 1) == 1
    ensures Shl(0, 1) == 0 && Shl(0, 40) == 0
  {
    assert Shr(0x81, 1) == 0x40 && Shr(0x81, 3) == 0x10 && Shr(0x81, 4) == 8 && Shr(0x81, 6) == 2 && Shr(0x81, 7) == 1;
    assert Low(0x40, 3) == 2 * Low(0x20, 2) == 4 * Low(0x10, 1);
    assert Low(8, 3) == 2 * Low(4, 2) == 4 * Low(2, 1);
    ShlOne(1);
    ShlOne(40);
  }

  lemma LaterFields()
    ensures Low(Shr(0, 0), 2) == 0 && Low(Shr(0x10, 0), 4) == 0 && Low(Shr(0x10, 4), 3) == 1
  {
    assert Low(8, 3) == 2 * Low(4, 2) == 4 * Low(2, 1);
    assert Low(0x10, 4) == 2 * Low(8, 3);
    assert Shr(0x10, 2) == 4 && Shr(0x10, 4) == Shr(4, 2) == 1;
    assert Low(1, 3) == 1 + 2 * Low(0, 2);
  }

  /** Symbols 1 and 18 have the codes 0 and 1. */
  lemma CodeLengths(bits: seq<bool>)
    requires CodeLengthFields(bits)
    ensures Sparse(CodeLengthLens(bits, 33, 18), 1, 18)
  {
    hide CodeLengthFields;
    CodeLengthsTo(bits, 18);
  }

  lemma {:induction false} CodeLengthsTo(bits: seq<bool>, n: nat)
    requires CodeLengthFields(bits) && n <= 18
    ensures forall c :: 0 <= c < 19 ==>
      CodeLengthLens(bits, 33, n)[c] == if (c == 18 && n > 2) || (c == 1 && n > 17) then 1 else 0
    decreases n
  {
    hide Dezigzag, Take;
    if n > 0 {
      CodeLengthsTo(bits, n - 1);
      assert CodeLengthField(bits, n - 1) == Take(bits, 33 + 3 * (n - 1), 3);
      WhereOneAndEighteen(n - 1);
    }
  }

  lemma WhereOneAndEighteen(i: nat)
    requires i < 18
    ensures (Dezigzag(i) == 18 <==> i == 2) && (Dezigzag(i) == 1 <==> i == 17)
  {
  }

  // ---- the code lengths ----

  /** One bit as both decoders see it. */
  lemma OneBit(bits: seq<bool>, pos: nat)
    ensures TakeMSB(bits, pos, 1) == Take(bits, pos, 1)
  {
    assert TakeMSB(bits, pos, 1) == Shl(BitAt(bits, pos), 0) + TakeMSB(bits, pos + 1, 0);
    assert Take(bits, pos, 1) == BitAt(bits, pos) + 2 * Take(bits, pos + 1, 0);
  }

  /** A length 1, then 138 and 119 zeros. */
  lemma LengthFields()
    ensures var bits := Unpack(Spin());
      && TakeMSB(bits, 87, 1) == 0 && TakeMSB(bits, 88, 1) == 1 && Take(bits, 89, 7) == 127
      && TakeMSB(bits, 96, 1) == 1 && Take(bits, 97, 7) == 108
  {
    hide Take, TakeMSB, Unpack;
    var s, bits := Spin(), Unpack(Spin());
    OneBit(bits, 87);
    OneBit(bits, 88);
    OneBit(bits, 96);
    ByteField(s, 10, 7, 1);
    ByteField(s, 11, 0, 1);
    ByteField(s, 11, 1, 7);
    ByteField(s, 12, 0, 1);
    ByteField(s, 12, 1, 7);
    LastFields();
  }

  lemma LastFields()
    ensures Low(Shr(0x10, 7), 1) == 0 && Low(Shr(0xFF, 0), 1) == 1 && Low(Shr(0xFF, 1), 7) == 127
    ensures Low(Shr(0xD9, 0), 1) == 1 && Low(Shr(0xD9, 1), 7) == 108
  {
    assert Shr(0x10, 2) == 4 && Shr(0x10, 4) == Shr(4, 2) == 1 && Shr(0x10, 7) == Shr(1, 3) == Shr(0, 2) == 0;
    assert Shr(0xFF, 1) == 127 && Shr(0xD9, 1) == 108;
    SevenBits(127);
    SevenBits(108);
  }

  lemma SevenBits(v: nat)
    requires v < 128
    ensures Low(v, 7) == v
  {
    assert Pow2(7) == 2 * Pow2(6) == 4 * Pow2(5) == 8 * Pow2(4);
    assert Pow2(4) == 16;
    LowSmall(v, 7);
  }

  function Lit(): seq<nat> { [1] + seq(256, _ => 0) }

  /** Symbol 18: eleven zeros or more. */
  lemma ZerosRepeat(bits: seq<bool>, pos: nat, cl: seq<nat>, acc: seq<nat>, n: nat)
    requires |cl| == 19 && Sparse(cl, 1, 18) && TakeMSB(bits, pos, 1) == 1 && Take(bits, pos + 1, 7) == n
    requires |acc| + 11 + n <= 258
    ensures LensStep(bits, pos, cl, 258, acc) == Some(Lens(acc + seq(11 + n, _ => 0), pos + 8))
  {
    hide Take, TakeMSB, Decode;
    SparseDecodes(cl, 1, 18, bits, pos);
    assert seq(11 + n, i => 0) == seq(11 + n, _ => 0);
  }

  lemma LengthOne(bits: seq<bool>, pos: nat, cl: seq<nat>)
    requires |cl| == 19 && Sparse(cl, 1, 18) && TakeMSB(bits, pos, 1) == 0
    ensures LensStep(bits, pos, cl, 258, []) == Some(Lens([1], pos + 1))
  {
    hide Take, TakeMSB, Decode;
    SparseDecodes(cl, 1, 18, bits, pos);
    var none: seq<nat> := [];
    assert none + [1] == [1];
  }

  lemma ListsRead(bits: seq<bool>, cl: seq<nat>)
    requires |cl| == 19 && Sparse(cl, 1, 18)
    requires TakeMSB(bits, 87, 1) == 0 && TakeMSB(bits, 88, 1) == 1 && Take(bits, 89, 7) == 127
    requires TakeMSB(bits, 96, 1) == 1 && Take(bits, 97, 7) == 108
    ensures ReadLens(bits, 87, cl, 258, []) == Some(Lens(Lit() + [0], 104))
  {
    hide LensStep, ReadLens, Take, TakeMSB, Sparse;
    var one := [1];
    var more := one + seq(138, _ => 0);
    var all := more + seq(119, _ => 0);
    LengthOne(bits, 87, cl);
    ZerosRepeat(bits, 88, cl, one, 127);
    ZerosRepeat(bits, 96, cl, more, 108);
    assert all == Lit() + [0];
    ReadStep(bits, 87, cl, [], Lens(one, 88));
    ReadStep(bits, 88, cl, one, Lens(more, 96));
    ReadStep(bits, 96, cl, more, Lens(all, 104));
    ReadEnds(bits, 104, cl, all);
  }

  lemma ReadStep(bits: seq<bool>, pos: nat, cl: seq<nat>, acc: seq<nat>, next: Lens)
    requires |cl| == 19 && |acc| < 258 && forall i :: 0 <= i < |acc| ==> acc[i] <= 15
    requires LensStep(bits, pos, cl, 258, acc) == Some(next)
    ensures |next.lens| <= 258 && forall i :: 0 <= i < |next.lens| ==> next.lens[i] <= 15
    ensures ReadLens(bits, pos, cl, 258, acc) == ReadLens(bits, next.pos, cl, 258, next.lens)
  {
    hide LensStep;
  }

  lemma ReadEnds(bits: seq<bool>, pos: nat, cl: seq<nat>, acc: seq<nat>)
    requires |cl| == 19 && |acc| == 258 && forall i :: 0 <= i < |acc| ==> acc[i] <= 15
    ensures ReadLens(bits, pos, cl, 258, acc) == Some(Lens(acc, pos))
  {
  }

  // ---- the stream ----

  lemma CodesRead()
    ensures DynamicCodes(Unpack(Spin()), 19) == Some(Codes(Lit(), [0], 104))
  {
    hide Take, TakeMSB, Unpack, Sparse, KraftHolds, ReadLens, CodeLengthLens, CodeLengthFields;
    var bits := Unpack(Spin());
    Counts();
    Fields();
    CodeLengths(bits);
    SparseFits(CodeLengthLens(bits, 33, 18), 1, 18);
    LengthFields();
    ListsRead(bits, CodeLengthLens(bits, 33, 18));
    ListsSparse();
    SparseFits(Lit(), 0, 0);
    SparseFits([0], 1, 1);
    assert (Lit() + [0])[..257] == Lit() && (Lit() + [0])[257..] == [0];
  }

  lemma ListsSparse()
    ensures Sparse(Lit(), 0, 0) && Sparse([0], 1, 1)
    ensures BlockLists(Lit(), [0])
  {
  }

  lemma Header()
    ensures ZlibHeader(ByteAt(Unpack(Spin()), 0), ByteAt(Unpack(Spin()), 1))
  {
    hide And, Unpack, Take;
    TakeByte(Spin(), 0);
    TakeByte(Spin(), 1);
    HeaderBits();
  }

  lemma HeaderBits()
    ensures And(0x5E, 32) == 0 && And(0x78, 15) == 8
  {
    AndStep(0x5E, 32);
    AndStep(0x2F, 16);
    AndStep(0x17, 8);
    AndStep(0x0B, 4);
    AndStep(5, 2);
    AndStep(2, 1);
    AndStep(0x78, 15);
    AndStep(0x3C, 7);
    AndStep(0x1E, 3);
    AndStep(0x0F, 1);
    assert And(1, 0) == 0 && And(7, 0) == 0;
  }

  /** No inflater ends on this stream with a growing buffer: after its header the block spins. */
  lemma SpinIsEndless()
    ensures var bits := Unpack(Spin());
      && DynamicCodes(bits, 19) == Some(Codes(Lit(), [0], 104)) && |bits| == 104
      && Spinning(bits, 104, [], Lit(), [0], None)
    ensures Inflate(Spin(), true, None) == Undefined
  {
    hide Take, Unpack, DynamicCodes, Block, Spinning, Lit, ZlibHeader;
    var bits := Unpack(Spin());
    Header();
    Counts();
    CodesRead();
    ListsSparse();
    OneLiteral(bits, 104, [], Lit(), [0]);
  }
}
