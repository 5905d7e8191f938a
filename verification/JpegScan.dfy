/** A scan: blocks of three components, each with its own DC predictor and tables. */
module JpegScan {
  import opened Bits
  import opened JpegHuffman
  import opened JpegTables
  import opened JpegBits
  import opened JpegStream
  import opened JpegDecode
  import opened JpegBlocks
  import opened JpegEncode
  import opened JpegRoundTrip

  /** A block in zigzag order and its component: 0 for Y, 1 and 2 for the chroma components. */
  datatype Unit = Unit(comp: nat, du: seq<int>)

  /** The writer's tables: one pair for Y, one for both chroma components. */
  datatype Codes = Codes(ydc: seq<Code>, yac: seq<Code>, uvdc: seq<Code>, uvac: seq<Code>)
  {
    predicate Sized() { |ydc| == |yac| == |uvdc| == |uvac| == 256 }

    ghost predicate Writable() { DcWritable(ydc) && AcWritable(yac) && DcWritable(uvdc) && AcWritable(uvac) }

    function Dc(comp: nat): seq<Code> { if comp == 0 then ydc else uvdc }

    function Ac(comp: nat): seq<Code> { if comp == 0 then yac else uvac }
  }

  /** The tables of the file header. */
  datatype Huffs = Huffs(ydc: Huff, yac: Huff, uvdc: Huff, uvac: Huff)
  {
    function Dc(comp: nat): Huff { if comp == 0 then ydc else uvdc }

    function Ac(comp: nat): Huff { if comp == 0 then yac else uvac }
  }

  ghost predicate TablesAgree(t: Codes, h: Huffs)
  {
    DcTable(t.ydc, h.ydc) && AcTable(t.yac, h.yac) && DcTable(t.uvdc, h.uvdc) && AcTable(t.uvac, h.uvac)
  }

  /** Every block is small enough for the tables, given the predictors. */
  predicate ScanOk(units: seq<Unit>, preds: seq<int>)
  {
    |preds| == 3 && (units == [] ||
      (var u := units[0]; u.comp < 3 && Encodable(u.du, preds[u.comp]) && ScanOk(units[1..], preds[u.comp := u.du[0]])))
  }

  function ScanBits(t: Codes, units: seq<Unit>, preds: seq<int>): seq<bool>
    requires t.Sized() && ScanOk(units, preds)
  {
    if units == [] then []
    else
      var u := units[0];
      BlockBits(t.Dc(u.comp), t.Ac(u.comp), u.du, preds[u.comp]) + ScanBits(t, units[1..], preds[u.comp := u.du[0]])
  }

  // ---- the writer ----

  /** The bits written, and those of the blocks still to come. */
  ghost predicate Writing(w: JpegWriter, t: Codes, units: seq<Unit>, preds: seq<int>, whole: seq<bool>)
    reads w
  {
    w.Valid() && t.Sized() && ScanOk(units, preds) && w.Bits() + ScanBits(t, units, preds) == whole
  }

  /** The next block. */
  method WriteUnit(w: JpegWriter, t: Codes, u: Unit, preds0: seq<int>, ghost units: seq<Unit>, ghost whole: seq<bool>)
    returns (preds: seq<int>)
    requires t.Writable() && units != [] && u == units[0] && Writing(w, t, units, preds0, whole)
    modifies w
    ensures Writing(w, t, units[1..], preds, whole)
  {
    hide BlockBits, JpegWriter.Bits, JpegWriter.Valid, AcWritable, DcWritable, Encodable;
    ghost var before := w.Bits();
    ghost var block := BlockBits(t.Dc(u.comp), t.Ac(u.comp), u.du, preds0[u.comp]);
    var dc := ProcessDU(w, if u.comp == 0 then t.ydc else t.uvdc, if u.comp == 0 then t.yac else t.uvac,
      u.du, preds0[u.comp]);
    UnitDC(u, preds0);
    preds := preds0[u.comp := dc];
    ghost var rest := ScanBits(t, units[1..], preds);
    assert before + (block + rest) == (before + block) + rest;
  }

  lemma UnitDC(u: Unit, preds: seq<int>)
    requires |preds| == 3 && u.comp < 3 && Encodable(u.du, preds[u.comp])
    ensures |u.du| == 64
  {
  }

  /** The data blocks, the fill bits and the end-of-image marker of stbi_write_jpg_core. */
  method WriteScan(t: Codes, units: seq<Unit>) returns (out: seq<byte>)
    requires t.Writable() && ScanOk(units, [0, 0, 0])
    ensures t.Sized()
    ensures out == Stuff(Unstuffed(out, 0)) + [255, 217]
    ensures var bits, whole := AllBits(Unstuffed(out, 0)), ScanBits(t, units, [0, 0, 0]);
      At(bits, 0, whole) && |bits| < |whole| + 8 && forall i :: |whole| <= i < |bits| ==> bits[i]
  {
    hide JpegWriter.Bits, JpegWriter.Valid, AllBits, Stuff, AcWritable, DcWritable, ScanOk, ScanBits, Writing,
      Unstuffed;
    TablesSized(t);
    var w := new JpegWriter();
    var preds := [0, 0, 0];
    ghost var whole := ScanBits(t, units, preds);
    WritingStarts(w, t, units);
    for i := 0 to |units|
      invariant fresh(w) && Writing(w, t, units[i..], preds, whole)
    {
      assert units[i..][0] == units[i] && units[i..][1..] == units[i + 1..];
      preds := WriteUnit(w, t, units[i], preds, units[i..], whole);
    }
    WritingEnds(w, t, preds, whole);
    out := EndScan(w);
  }

  lemma WritingStarts(w: JpegWriter, t: Codes, units: seq<Unit>)
    requires w.Valid() && w.Bits() == [] && t.Sized() && ScanOk(units, [0, 0, 0])
    ensures Writing(w, t, units[0..], [0, 0, 0], ScanBits(t, units, [0, 0, 0]))
  {
    hide JpegWriter.Bits, JpegWriter.Valid, ScanOk, ScanBits;
    assert units[0..] == units;
    var whole := ScanBits(t, units, [0, 0, 0]);
    assert [] + whole == whole;
  }

  lemma WritingEnds(w: JpegWriter, t: Codes, preds: seq<int>, whole: seq<bool>)
    requires Writing(w, t, [], preds, whole)
    ensures w.Valid() && w.Bits() == whole
  {
    hide JpegWriter.Bits, JpegWriter.Valid;
    assert w.Bits() + [] == w.Bits();
  }

  lemma TablesSized(t: Codes)
    requires t.Writable()
    ensures t.Sized()
  {
  }

  /** fillBits and the marker: at most seven bits stay behind, all of them fill. */
  method EndScan(w: JpegWriter) returns (out: seq<byte>)
    requires w.Valid()
    modifies w
    ensures out == Stuff(Unstuffed(out, 0)) + [255, 217]
    ensures var bits, whole := AllBits(Unstuffed(out, 0)), old(w.Bits());
      At(bits, 0, whole) && |bits| < |whole| + 8 && forall i :: |whole| <= i < |bits| ==> bits[i]
  {
    hide AllBits, Stuff, Field, Unstuffed;
    ghost var before := w.Bits();
    assert 0x7f < Pow2(7) by { assert Pow2(3) == 8; assert Pow2(5) == 32; }
    w.WriteBits(0x7f, 7);
    ghost var bytes := w.bytes;
    assert AllBits(bytes)[0..|before|] == (AllBits(bytes) + Field(w.pend, w.bitCnt))[0..|before|]
        == (before + Field(0x7f, 7))[0..|before|] == before;
    out := w.out + [255, 217];
    MarkerBehind(out, bytes);
    SevenOnes();
    ghost var bits := AllBits(bytes);
    assert bits == (bits + Field(w.pend, w.bitCnt))[..|bits|] == (before + Field(0x7f, 7))[..|bits|];
  }

  lemma SevenOnes()
    ensures Field(0x7f, 7) == [true, true, true, true, true, true, true]
  {
    hide Field;
    FieldNext(0, 1, 0);
    FieldNext(1, 1, 1);
    FieldNext(3, 1, 2);
    FieldNext(7, 1, 3);
    FieldNext(15, 1, 4);
    FieldNext(31, 1, 5);
    FieldNext(63, 1, 6);
  }

  lemma MarkerBehind(out: seq<byte>, bytes: seq<byte>)
    requires out == Stuff(bytes) + [255, 217]
    ensures Unstuffed(out, 0) == bytes
  {
    hide Stuff, Unstuffed;
    var q := |Stuff(bytes)|;
    assert out[0..q] == Stuff(bytes) && out[q] == 255 && out[q + 1] == 217;
    UnstuffStuff(out, 0, bytes);
  }

  // ---- the reader ----

  /** The reader's tables. */
  class Decoder {
    const ydc: JpegTable
    const yac: JpegTable
    const uvdc: JpegTable
    const uvac: JpegTable
    const yfac: array<int>
    const uvfac: array<int>

    ghost function Repr(): set<object> { ydc.Repr() + yac.Repr() + uvdc.Repr() + uvac.Repr() + {yfac, uvfac} }

    ghost function Tables(): Huffs
      reads Repr()
    {
      Huffs(HuffOf(ydc), HuffOf(yac), HuffOf(uvdc), HuffOf(uvac))
    }

    ghost predicate Built()
      reads Repr()
    {
      && ydc.Built() && yac.Built() && uvdc.Built() && uvac.Built()
      && HuffOf(ydc).Valid() && HuffOf(yac).Valid() && HuffOf(uvdc).Valid() && HuffOf(uvac).Valid()
      && yfac.Length == uvfac.Length == 512
      && FastAcBuilt(HuffOf(yac), yfac[..]) && FastAcBuilt(HuffOf(uvac), uvfac[..])
    }

    constructor (ydc: JpegTable, yac: JpegTable, uvdc: JpegTable, uvac: JpegTable)
      requires ydc.Built() && yac.Built() && uvdc.Built() && uvac.Built()
      ensures Built() && this.ydc == ydc && this.yac == yac && this.uvdc == uvdc && this.uvac == uvac
    {
      HuffIsValid(ydc);
      HuffIsValid(uvdc);
      var small := BuildFastAc(yac);
      var smallC := BuildFastAc(uvac);
      this.ydc, this.yac, this.uvdc, this.uvac := ydc, yac, uvdc, uvac;
      yfac, uvfac := small, smallC;
    }

    /** One block of component b. */
    method Decode(j: JpegReader, data: array<int>, b: nat, pred: int, dq: seq<nat>) returns (dc: int)
      requires j.Valid() && Built() && data.Length == |dq| == 64 && Apart(Repr(), data)
      requires var end := ReadBlock(Tables().Dc(b), Tables().Ac(b), j.Bits(), j.Pos(), pred, dq);
        end.Ends? && end.pos <= |j.Bits()|
      modifies j, data
      ensures j.Valid()
      ensures ReadBlock(old(Tables()).Dc(b), old(Tables()).Ac(b), j.Bits(), old(j.Pos()), pred, dq)
        == Ends(data[..], j.Pos(), dc)
    {
      if b == 0 {
        dc := DecodeBlock(j, data, ydc, yac, yfac, pred, dq);
      } else {
        dc := DecodeBlock(j, data, uvdc, uvac, uvfac, pred, dq);
      }
    }
  }

  /** A block as it should come out: each coefficient in its place, times its quantiser. */
  function Restored(du: seq<int>, dq: seq<nat>): (r: seq<int>)
    requires |du| == |dq| == 64
    ensures |r| == 64
  {
    Placed(SetCoef(seq(64, _ => 0), 0, du[0], dq), du, 1, dq)
  }

  /** The next block of a scan is read back, and the rest of the scan follows. */
  lemma UnitRead(t: Codes, h: Huffs, units: seq<Unit>, preds: seq<int>, bits: seq<bool>, pos: nat, dq: seq<nat>)
    requires TablesAgree(t, h) && t.Sized() && ScanOk(units, preds) && units != [] && |dq| == 64
    requires At(bits, pos, ScanBits(t, units, preds)) && h.Dc(units[0].comp).Valid() && h.Ac(units[0].comp).Valid()
    ensures units[0].comp < 3 && |units[0].du| == 64
    ensures var u := units[0];
      var end := ReadBlock(h.Dc(u.comp), h.Ac(u.comp), bits, pos, preds[u.comp], dq);
      && end.Ends? && end.data == Restored(u.du, dq) && end.pred == u.du[0] && end.pos <= |bits|
      && At(bits, end.pos, ScanBits(t, units[1..], preds[u.comp := u.du[0]]))
  {
    hide At, BlockBits, DcTable, AcTable, Placed, SetCoef, ReadBlock;
    var u := units[0];
    var block := BlockBits(t.Dc(u.comp), t.Ac(u.comp), u.du, preds[u.comp]);
    var rest := ScanBits(t, units[1..], preds[u.comp := u.du[0]]);
    AtSplit(bits, pos, block, rest);
    BlockRead(t.Dc(u.comp), t.Ac(u.comp), h.Dc(u.comp), h.Ac(u.comp), u.du, preds[u.comp], bits, pos, dq);
    AtInside(bits, pos + |block|, rest);
  }

  lemma AtInside(bits: seq<bool>, pos: nat, w: seq<bool>)
    requires At(bits, pos, w)
    ensures pos <= |bits|
  {
  }

  /** Units of a known component with 64 coefficients each. */
  predicate Shaped(units: seq<Unit>) { forall i :: 0 <= i < |units| ==> units[i].comp < 3 && |units[i].du| == 64 }

  /** Every block is restored, in order. */
  predicate AllRestored(units: seq<Unit>, dq: seq<seq<nat>>, blocks: seq<seq<int>>)
    requires Shaped(units) && Quantisers(dq)
  {
    |blocks| == |units| && forall i :: 0 <= i < |units| ==> blocks[i] == Restored(units[i].du, dq[units[i].comp])
  }

  lemma RestoredMore(units: seq<Unit>, i: nat, dq: seq<seq<nat>>, blocks: seq<seq<int>>, block: seq<int>)
    requires i < |units| && Shaped(units) && Quantisers(dq) && AllRestored(units[..i], dq, blocks)
    requires block == Restored(units[i].du, dq[units[i].comp])
    ensures AllRestored(units[..i + 1], dq, blocks + [block])
  {
    hide Restored;
  }

  predicate Quantisers(dq: seq<seq<nat>>) { |dq| == 3 && |dq[0]| == |dq[1]| == |dq[2]| == 64 }

  /** The rest of a scan is ahead of the reader. */
  ghost predicate Ahead(j: JpegReader, t: Codes, units: seq<Unit>, preds: seq<int>)
    reads j
  {
    j.Valid() && t.Sized() && ScanOk(units, preds) && At(j.Bits(), j.Pos(), ScanBits(t, units, preds))
  }

  /** The next block. */
  method ReadUnit(d: Decoder, j: JpegReader, data: array<int>, b: nat, preds0: seq<int>, dq: seq<nat>, ghost t: Codes,
                  ghost units: seq<Unit>)
    returns (preds: seq<int>)
    requires d.Built() && TablesAgree(t, d.Tables()) && data.Length == |dq| == 64 && Apart(d.Repr(), data)
    requires Ahead(j, t, units, preds0) && units != [] && b == units[0].comp
    modifies j, data
    ensures d.Built() && TablesAgree(t, d.Tables())
    ensures Ahead(j, t, units[1..], preds) && |units[0].du| == 64 && data[..] == Restored(units[0].du, dq)
  {
    hide JpegReader.Valid, ScanBits, AllBits, Unstuffed, Decoder.Built, TablesAgree, ReadBlock, Restored, Encodable, At;
    BuiltValid(d, b);
    UnitRead(t, d.Tables(), units, preds0, j.Bits(), j.Pos(), dq);
    var dc := d.Decode(j, data, b, preds0[b], dq);
    preds := preds0[b := dc];
  }

  lemma Begins(j: JpegReader, t: Codes, units: seq<Unit>)
    requires j.Valid() && j.Pos() == 0 && t.Sized() && ScanOk(units, [0, 0, 0])
    requires At(AllBits(Unstuffed(j.data, j.start)), 0, ScanBits(t, units, [0, 0, 0]))
    ensures Ahead(j, t, units[0..], [0, 0, 0])
  {
    hide At, ScanBits, AllBits, Unstuffed, ScanOk, JpegReader.Valid;
    assert units[0..] == units;
  }

  /** The loop over the blocks of a scan. */
  method ReadUnits(d: Decoder, j: JpegReader, data: array<int>, order: seq<nat>, dq: seq<seq<nat>>,
                   ghost t: Codes, ghost units: seq<Unit>)
    returns (blocks: seq<seq<int>>)
    requires d.Built() && TablesAgree(t, d.Tables()) && data.Length == 64 && Apart(d.Repr(), data)
    requires Quantisers(dq) && Shaped(units) && order == Order(units) && Ahead(j, t, units[0..], [0, 0, 0])
    modifies j, data
    ensures AllRestored(units, dq, blocks)
  {
    hide Decoder.Built, TablesAgree, Restored, Ahead, AllRestored, Decoder.Tables;
    var preds := [0, 0, 0];
    blocks := [];
    NoneRestored(units, dq);
    for i := 0 to |order|
      invariant d.Built() && TablesAgree(t, d.Tables()) && Apart(d.Repr(), data)
      invariant Ahead(j, t, units[i..], preds)
      invariant AllRestored(units[..i], dq, blocks)
    {
      var b := order[i];
      assert units[i..][0] == units[i] && units[i..][1..] == units[i + 1..];
      preds := ReadUnit(d, j, data, b, preds, dq[b], t, units[i..]);
      RestoredMore(units, i, dq, blocks, data[..]);
      blocks := blocks + [data[..]];
    }
    assert units[..|units|] == units;
  }

  /** The blocks of a scan, in the order the frame header gives, from a stream the writer made. */
  method ReadScan(d: Decoder, s: seq<byte>, start: nat, order: seq<nat>, dq: seq<seq<nat>>, ghost t: Codes,
                  ghost units: seq<Unit>)
    returns (blocks: seq<seq<int>>)
    requires d.Built() && TablesAgree(t, d.Tables()) && t.Sized() && ScanOk(units, [0, 0, 0])
    requires Quantisers(dq) && Shaped(units) && order == Order(units)
    requires At(AllBits(Unstuffed(s, start)), 0, ScanBits(t, units, [0, 0, 0]))
    ensures AllRestored(units, dq, blocks)
  {
    hide JpegReader.Valid, ScanBits, AllBits, Unstuffed, Decoder.Built, TablesAgree, At, ScanOk, Ahead, AllRestored,
      Shaped, Decoder.Tables, Order, Quantisers;
    ghost var objects := d.Repr();
    var j := new JpegReader(s, start);
    var data := new int[64](_ => 0);
    assert j !in objects && data !in objects;
    Begins(j, t, units);
    blocks := ReadUnits(d, j, data, order, dq, t, units);
  }

  function Order(units: seq<Unit>): (r: seq<nat>)
    ensures |r| == |units| && forall i :: 0 <= i < |r| ==> r[i] == units[i].comp
  {
    seq(|units|, i requires 0 <= i < |units| => units[i].comp)
  }

  lemma NoneRestored(units: seq<Unit>, dq: seq<seq<nat>>)
    requires Shaped(units) && Quantisers(dq)
    ensures AllRestored(units[..0], dq, [])
  {
  }

  lemma BuiltValid(d: Decoder, b: nat)
    requires d.Built()
    ensures d.Tables().Dc(b).Valid() && d.Tables().Ac(b).Valid()
  {
  }

  /**
    What the writer's entropy coder makes of any blocks its tables have codes for, the
    reader's gives back, byte stuffing, fill bits and predictors included.
  */
  method WriteAndRead(t: Codes, d: Decoder, units: seq<Unit>, dq: seq<seq<nat>>) returns (blocks: seq<seq<int>>)
    requires d.Built() && TablesAgree(t, d.Tables()) && ScanOk(units, [0, 0, 0]) && Quantisers(dq) && Shaped(units)
    ensures AllRestored(units, dq, blocks)
  {
    hide ScanBits, AllBits, Unstuffed, Decoder.Built, AllRestored, ScanOk, Stuff, DcTable, AcTable, Shaped;
    AgreeWritable(t, d.Tables());
    ghost var objects := d.Repr();
    assert d !in objects;
    var out := WriteScan(t, units);
    blocks := ReadScan(d, out, 0, Order(units), dq, t, units);
  }

  lemma AgreeWritable(t: Codes, h: Huffs)
    requires TablesAgree(t, h)
    ensures t.Writable()
  {
    hide DcTable, AcTable, DcWritable, AcWritable;
    TablesWritable(t.ydc, h.ydc);
    TablesWritable(t.yac, h.yac);
    TablesWritable(t.uvdc, h.uvdc);
    TablesWritable(t.uvac, h.uvac);
  }
}
