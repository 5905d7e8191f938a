/**
  What a zlib stream means (RFC 1950 and 1951), as a decoder over a plain bit sequence:
  no prefetch buffer, no tables, no output buffer.  Reading past the end yields zero bits,
  as the inflater does.
*/
module InflateSpec {
  import opened Bits
  import opened Canonical
  import opened Wrappers

  /**
    Done: the bytes decoded and the bit position after the last block.  Corrupt: an error.
    Undefined: a distance symbol 30 or 31, which RFC 1951 says never occurs and for which
    the inflater copies uninitialised memory, or decoding that runs on beyond the end of
    the input, where all further bits are zero and it never ends.  `InflateEnd` shows that
    these are the only ones.
  */
  datatype Outcome = Done(out: seq<byte>, pos: nat) | Corrupt | Undefined

  // The tables of section 3.2.5, by formula; the lemmas below compare them with the source's.

  function LengthBase(z: nat): nat
  {
    if z < 8 then 3 + z
    else if z < 28 then 3 + Shl(4 + z % 4, z / 4 - 1)
    else if z == 28 then 258 else 0
  }

  function LengthExtra(z: nat): (n: nat)
    ensures n <= 5
  {
    if z < 8 || 28 <= z then 0 else z / 4 - 1
  }

  function DistBase(d: nat): (n: nat)
    ensures d < 30 ==> n >= 1
  {
    if d < 4 then 1 + d else if d < 30 then 1 + Shl(2 + d % 2, d / 2 - 1) else 0
  }

  function DistExtra(d: nat): (n: nat)
    ensures n <= 13
  {
    if d < 4 || 30 <= d then 0 else d / 2 - 1
  }

  lemma LengthBaseTable(z: nat)
    requires z < 31
    ensures LengthBase(z) == [
      3, 4, 5, 6, 7, 8, 9, 10, 11, 13, 15, 17, 19, 23, 27, 31, 35, 43, 51, 59,
      67, 83, 99, 115, 131, 163, 195, 227, 258, 0, 0][z]
  {
    if 8 <= z < 28 {
      ShiftedQuarter(z);
    }
  }

  lemma ShiftedQuarter(z: nat)
    requires 8 <= z < 28
    ensures Shl(4 + z % 4, z / 4 - 1) == [2, 4, 8, 16, 32][z / 4 - 2] * (4 + z % 4)
  {
    var y := 4 + z % 4;
    assert Shl(y, 1) == 2 * y && Shl(y, 2) == 4 * y && Shl(y, 3) == 8 * y;
    assert Shl(y, 4) == 16 * y && Shl(y, 5) == 32 * y;
  }

  lemma LengthExtraTable(z: nat)
    requires z < 31
    ensures LengthExtra(z) == [
      0, 0, 0, 0, 0, 0, 0, 0, 1, 1, 1, 1, 2, 2, 2, 2, 3, 3, 3, 3, 4, 4, 4, 4, 5, 5, 5, 5, 0, 0, 0][z]
  {
  }

  lemma DistBaseTable(d: nat)
    requires d < 32
    ensures DistBase(d) == [
      1, 2, 3, 4, 5, 7, 9, 13, 17, 25, 33, 49, 65, 97, 129, 193, 257, 385, 513, 769, 1025, 1537,
      2049, 3073, 4097, 6145, 8193, 12289, 16385, 24577, 0, 0][d]
  {
    if 4 <= d < 30 {
      ShiftedHalf(d);
    }
  }

  lemma ShiftedHalf(d: nat)
    requires 4 <= d < 30
    ensures Shl(2 + d % 2, d / 2 - 1)
      == [2, 4, 8, 16, 32, 64, 128, 256, 512, 1024, 2048, 4096, 8192][d / 2 - 2] * (2 + d % 2)
  {
    var y := 2 + d % 2;
    assert Shl(y, 1) == 2 * y && Shl(y, 2) == 4 * y && Shl(y, 3) == 8 * y && Shl(y, 4) == 16 * y;
    assert Shl(y, 5) == 32 * y && Shl(y, 6) == 64 * y && Shl(y, 7) == 128 * y && Shl(y, 8) == 256 * y;
    assert Shl(y, 9) == 512 * y && Shl(y, 10) == 1024 * y && Shl(y, 11) == 2048 * y;
    assert Shl(y, 12) == 4096 * y && Shl(y, 13) == 8192 * y;
  }

  lemma DistExtraTable(d: nat)
    requires d < 32
    ensures DistExtra(d) == [
      0, 0, 0, 0, 1, 1, 2, 2, 3, 3, 4, 4, 5, 5, 6, 6, 7, 7, 8, 8, 9, 9, 10, 10, 11, 11, 12, 12, 13, 13, 0, 0][d]
  {
  }

  function Dezigzag(i: nat): (n: nat)
    requires i < 19
    ensures n < 19
  {
    [16, 17, 18, 0, 8, 7, 9, 6, 10, 5, 11, 4, 12, 3, 13, 2, 14, 1, 15][i]
  }

  /** Room is the size of an output buffer that may not grow. */
  predicate Overflows(room: Option<nat>, n: nat) { room.Some? && n > room.value }

  /** len bytes copied one by one from dist back; the copy may overlap itself. */
  function CopyMatch(out: seq<byte>, dist: nat, len: nat): (r: seq<byte>)
    requires 1 <= dist <= |out|
    ensures |r| == |out| + len && r[..|out|] == out
    decreases len
  {
    if len == 0 then out else CopyMatch(out + [out[|out| - dist]], dist, len - 1)
  }

  datatype StepResult = Next(out: seq<byte>, pos: nat) | Stop(result: Outcome)

  /** One literal, match or end-of-block symbol. */
  ghost function Step(bits: seq<bool>, pos: nat, out: seq<byte>, lit: seq<nat>, dist: seq<nat>, room: Option<nat>)
    : (r: StepResult)
    requires |lit| <= 288 && |dist| <= 32
    ensures r.Next? ==> r.pos > pos && |out| <= |r.out| && !Overflows(room, |r.out|)
    ensures r.Stop? && r.result.Done? ==> r.result.pos > pos
  {
    match Decode(lit, bits, pos)
    case None => Stop(Corrupt)
    case Some(z) =>
      var p := pos + lit[z];
      if z < 256 then
        if Overflows(room, |out| + 1) then Stop(Corrupt) else Next(out + [z], p)
      else if z == 256 then Stop(Done(out, p))
      else MatchStep(bits, p, out, z - 257, dist, room)
  }

  /** A base value plus n extra bits. */
  function Extra(bits: seq<bool>, pos: nat, base: nat, n: nat): nat { base + Take(bits, pos, n) }

  datatype Distance = Distance(symbol: nat, back: nat, pos: nat)

  /** The distance symbol at pos and its extra bits. */
  ghost function DistanceAt(bits: seq<bool>, pos: nat, dist: seq<nat>): (r: Option<Distance>)
    requires |dist| <= 32
    ensures r.Some? ==> r.value.pos >= pos && (r.value.symbol < 30 ==> r.value.back >= 1)
  {
    match Decode(dist, bits, pos)
    case None => None
    case Some(d) =>
      var q := pos + dist[d];
      Some(Distance(d, Extra(bits, q, DistBase(d), DistExtra(d)), q + DistExtra(d)))
  }

  function EmitMatch(out: seq<byte>, len: nat, d: Distance, room: Option<nat>): (r: StepResult)
    requires d.symbol < 30 ==> d.back >= 1
    ensures r.Next? ==> r.pos == d.pos && |out| <= |r.out| && !Overflows(room, |r.out|)
    ensures r.Stop? ==> !r.result.Done?
  {
    if d.symbol >= 30 then Stop(Undefined)
    else if d.back > |out| then Stop(Corrupt)
    else if Overflows(room, |out| + len) then Stop(Corrupt)
    else Next(CopyMatch(out, d.back, len), d.pos)
  }

  ghost function MatchStep(bits: seq<bool>, pos: nat, out: seq<byte>, z: nat, dist: seq<nat>, room: Option<nat>)
    : (r: StepResult)
    requires z < 31 && |dist| <= 32
    ensures r.Next? ==> r.pos >= pos && |out| <= |r.out| && !Overflows(room, |r.out|)
    ensures r.Stop? ==> !r.result.Done?
  {
    match DistanceAt(bits, pos + LengthExtra(z), dist)
    case None => Stop(Corrupt)
    case Some(d) => EmitMatch(out, Extra(bits, pos, LengthBase(z), LengthExtra(z)), d, room)
  }

  /** Output still missing from a buffer of fixed size. */
  function Missing(room: Option<nat>, n: nat): nat
  {
    if room.Some? && n <= room.value then room.value - n + 1 else 0
  }

  /** Bits still to be read, at most a symbol's worth of zeros beyond the end included. */
  function Unread(bits: seq<bool>, pos: nat): nat
  {
    if pos < |bits| + 48 then |bits| + 48 - pos else 0
  }

  /** From a symbol that ends at pos with output o decoding goes on: in the input, or filling a fixed buffer. */
  predicate GoesOn(bits: seq<bool>, pos: nat, room: Option<nat>, out: seq<byte>, o: seq<byte>)
  {
    pos < |bits| + 48 || (room.Some? && |out| < |o|)
  }

  /**
    A block of compressed data, up to its end-of-block symbol.  Zero bits beyond the end
    that neither end it nor fill a fixed buffer are decoded for ever.
  */
  ghost function Block(bits: seq<bool>, pos: nat, out: seq<byte>, lit: seq<nat>, dist: seq<nat>, room: Option<nat>)
    : (r: Outcome)
    requires |lit| <= 288 && |dist| <= 32
    ensures r.Done? ==> r.pos > pos
    decreases Unread(bits, pos), Missing(room, |out|)
  {
    match Step(bits, pos, out, lit, dist, room)
    case Next(o, p) => if GoesOn(bits, p, room, out, o) then Block(bits, p, o, lit, dist, room) else Undefined
    case Stop(r) => r
  }

  /** Byte k of the input. */
  function ByteAt(bits: seq<bool>, k: nat): (b: byte)
  {
    TakeBound(bits, 8 * k, 8);
    Pow2Of8();
    Take(bits, 8 * k, 8)
  }

  function StoredLength(bits: seq<bool>, q: nat): nat { ByteAt(bits, q + 1) * 256 + ByteAt(bits, q) }

  /** A stored block: the rest of the current byte is skipped. */
  function Stored(bits: seq<bool>, pos: nat, out: seq<byte>, room: Option<nat>): (r: Outcome)
    ensures r.Done? ==> r.pos > pos && r.pos <= |bits|
  {
    var q := (pos + 7) / 8;
    var len := StoredLength(bits, q);
    var nlen := StoredLength(bits, q + 2);
    if nlen != 0xFFFF - len then Corrupt
    else if 8 * (q + 4 + len) > |bits| then Corrupt
    else if Overflows(room, |out| + len) then Corrupt
    else Done(out + BytesAt(bits, q + 4, len), 8 * (q + 4 + len))
  }

  function BytesAt(bits: seq<bool>, k: nat, n: nat): (s: seq<byte>)
    ensures |s| == n
    decreases n
  {
    if n == 0 then [] else [ByteAt(bits, k)] + BytesAt(bits, k + 1, n - 1)
  }

  // ---- dynamic codes (RFC 1951, section 3.2.7) ----

  /** The lengths of the first n code length codes, in the order of the alphabet. */
  function CodeLengthLens(bits: seq<bool>, pos: nat, n: nat): (s: seq<nat>)
    requires n <= 19
    ensures |s| == 19 && forall i :: 0 <= i < 19 ==> s[i] <= 7
  {
    if n == 0 then seq(19, i => 0)
    else
      Take3Bound(bits, pos + 3 * (n - 1));
      CodeLengthLens(bits, pos, n - 1)[Dezigzag(n - 1) := Take(bits, pos + 3 * (n - 1), 3)]
  }

  lemma Take3Bound(bits: seq<bool>, pos: nat)
    ensures Take(bits, pos, 3) < 8
  {
    TakeBound(bits, pos, 3);
    assert Pow2(3) == 8;
  }

  datatype Lens = Lens(lens: seq<nat>, pos: nat)

  /** One symbol of the code length alphabet: a length, or a repetition. */
  ghost function LensStep(bits: seq<bool>, pos: nat, cl: seq<nat>, total: nat, acc: seq<nat>): (r: Option<Lens>)
    requires |cl| == 19 && |acc| < total
    ensures r.Some? ==> |acc| < |r.value.lens| <= total && r.value.pos >= pos
    ensures r.Some? && (forall i :: 0 <= i < |acc| ==> acc[i] <= 15)
      ==> forall i :: 0 <= i < |r.value.lens| ==> r.value.lens[i] <= 15
  {
    match Decode(cl, bits, pos)
    case None => None
    case Some(c) =>
      var p := pos + cl[c];
      if c < 16 then Some(Lens(acc + [c], p))
      else if c == 16 then
        if |acc| == 0 then None
        else Repeat(acc, acc[|acc| - 1], 3 + Take(bits, p, 2), total, p + 2)
      else if c == 17 then Repeat(acc, 0, 3 + Take(bits, p, 3), total, p + 3)
      else Repeat(acc, 0, 11 + Take(bits, p, 7), total, p + 7)
  }

  function Repeat(acc: seq<nat>, fill: nat, n: nat, total: nat, pos: nat): Option<Lens>
    requires |acc| <= total
  {
    if total - |acc| < n then None else Some(Lens(acc + seq(n, i => fill), pos))
  }

  ghost function ReadLens(bits: seq<bool>, pos: nat, cl: seq<nat>, total: nat, acc: seq<nat>): (r: Option<Lens>)
    requires |cl| == 19 && |acc| <= total && forall i :: 0 <= i < |acc| ==> acc[i] <= 15
    ensures r.Some? ==> r.value.pos >= pos && |r.value.lens| == total && forall i :: 0 <= i < total ==>
      r.value.lens[i] <= 15
    decreases total - |acc|
  {
    if |acc| == total then Some(Lens(acc, pos))
    else match LensStep(bits, pos, cl, total, acc)
         case None => None
         case Some(l) => ReadLens(bits, l.pos, cl, total, l.lens)
  }

  datatype Codes = Codes(lit: seq<nat>, dist: seq<nat>, pos: nat)

  predicate ValidCodes(c: Codes)
  {
    ValidLengths(c.lit) && KraftHolds(c.lit) && ValidLengths(c.dist) && |c.dist| <= 32 && KraftHolds(c.dist)
  }

  lemma Take5Bound(bits: seq<bool>, pos: nat)
    ensures Take(bits, pos, 5) < 32
  {
    TakeBound(bits, pos, 5);
    assert Pow2(5) == 32;
  }

  lemma Take4Bound(bits: seq<bool>, pos: nat)
    ensures Take(bits, pos, 4) < 16
  {
    TakeBound(bits, pos, 4);
    assert Pow2(4) == 16;
  }

  /** The two codes at the head of a dynamic block. */
  ghost function DynamicCodes(bits: seq<bool>, pos: nat): (r: Option<Codes>)
    ensures r.Some? ==> ValidCodes(r.value) && r.value.pos >= pos
  {
    Take5Bound(bits, pos);
    Take5Bound(bits, pos + 5);
    Take4Bound(bits, pos + 10);
    var hlit := Take(bits, pos, 5) + 257;
    var hdist := Take(bits, pos + 5, 5) + 1;
    var hclen := Take(bits, pos + 10, 4) + 4;
    var cl := CodeLengthLens(bits, pos + 14, hclen);
    if !KraftHolds(cl) then None
    else
      match ReadLens(bits, pos + 14 + 3 * hclen, cl, hlit + hdist, [])
      case None => None
      case Some(l) =>
        var lit, dist := l.lens[..hlit], l.lens[hlit..];
        if KraftHolds(lit) && KraftHolds(dist) then Some(Codes(lit, dist, l.pos)) else None
  }

  // ---- fixed codes (RFC 1951, section 3.2.6) ----

  function FixedLength(i: nat): nat
  {
    if i <= 143 then 8 else if i <= 255 then 9 else if i <= 279 then 7 else 8
  }

  function FixedLit(): (s: seq<nat>)
    ensures |s| == 288 && forall i :: 0 <= i < 288 ==> s[i] == FixedLength(i)
  {
    seq(288, i requires 0 <= i => FixedLength(i))
  }

  function FixedDist(): (s: seq<nat>)
    ensures |s| == 32 && forall i :: 0 <= i < 32 ==> s[i] == 5
  {
    seq(32, i => 5)
  }

  // ---- whole streams ----

  ghost function OneBlock(bits: seq<bool>, pos: nat, out: seq<byte>, kind: nat, room: Option<nat>): (r: Outcome)
    ensures r.Done? ==> r.pos > pos
  {
    if kind == 0 then Stored(bits, pos, out, room)
    else if kind == 3 then Corrupt
    else if kind == 1 then Block(bits, pos, out, FixedLit(), FixedDist(), room)
    else
      match DynamicCodes(bits, pos)
      case None => Corrupt
      case Some(c) => Block(bits, c.pos, out, c.lit, c.dist, room)
  }

  /** Blocks up to and including the first one marked final. */
  ghost function Blocks(bits: seq<bool>, pos: nat, out: seq<byte>, room: Option<nat>): Outcome
    decreases if pos < |bits| then |bits| - pos else 0
  {
    PastEndIsCorrupt(bits, pos, out, room);
    var final := Take(bits, pos, 1);
    var r := OneBlock(bits, pos + 3, out, Take(bits, pos + 1, 2), room);
    if r.Done? && final != 1 then Blocks(bits, r.pos, r.out, room) else r
  }

  /** Zero bits beyond the end announce a stored block with a bad length check. */
  lemma PastEndIsCorrupt(bits: seq<bool>, pos: nat, out: seq<byte>, room: Option<nat>)
    ensures pos >= |bits| ==> OneBlock(bits, pos + 3, out, Take(bits, pos + 1, 2), room) == Corrupt
  {
    if pos >= |bits| {
      TakePastEnd(bits, pos + 1, 2);
      var q := (pos + 3 + 7) / 8;
      TakePastEnd(bits, 8 * q, 8);
      TakePastEnd(bits, 8 * (q + 1), 8);
      TakePastEnd(bits, 8 * (q + 2), 8);
      TakePastEnd(bits, 8 * (q + 3), 8);
    }
  }

  predicate ZlibHeader(cmf: byte, flg: byte)
  {
    (cmf * 256 + flg) % 31 == 0 && And(flg, 32) == 0 && And(cmf, 15) == 8
  }

  /** A whole stream, with or without the two bytes of RFC 1950 in front. */
  ghost function Inflate(data: seq<byte>, header: bool, room: Option<nat>): Outcome
  {
    var bits := Unpack(data);
    if !header then Blocks(bits, 0, [], room)
    else if ZlibHeader(ByteAt(bits, 0), ByteAt(bits, 1)) then Blocks(bits, 16, [], room)
    else Corrupt
  }
}
