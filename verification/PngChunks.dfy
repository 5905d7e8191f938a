/**
  Any PNG file within the reader's subset: the header limits, image data cut into any number of
  chunks, ancillary chunks between them, and what is refused.
*/
module PngChunks {
  import opened Bits
  import opened ByteStream
  import opened Wrappers
  import opened PngFile

  // ---- the header ----

  /** Width and height as such, depth, colour type, compression, filter and interlace method. */
  datatype Fields = Fields(x: nat, y: nat, depth: byte, color: byte, compression: byte, filter: byte, interlace: byte)
  {
    predicate Sized() { x < 0x1_0000_0000 && y < 0x1_0000_0000 }

    function Bytes(): (r: seq<byte>)
      ensures |r| == 13
    {
      Put32(x) + Put32(y) + [depth, color, compression, filter, interlace]
    }

    /** Samples of a pixel: gray, RGB, four for a palette, gray and alpha, RGB and alpha. */
    function Samples(): nat { match color case 0 => 1 case 2 => 3 case 3 => 4 case 4 => 2 case _ => 4 }

    /** What the reader takes. */
    predicate Taken()
    {
      && 1 <= x <= 0x100_0000 && 1 <= y <= 0x100_0000 && x * Samples() * y <= 0x4000_0000
      && color in {0, 2, 3, 4, 6} && depth in {1, 2, 4, 8, 16} && (color == 3 ==> depth != 16)
      && compression == 0 && filter == 0 && interlace <= 1
    }

    /** Palettes, 16-bit samples and interlacing are left aside. */
    predicate Plain() { color != 3 && depth != 16 && interlace == 0 }
  }

  lemma FieldsRead(s: seq<byte>, p: nat, f: Fields)
    requires f.Sized() && At(s, p, f.Bytes())
    ensures Get32(s, p) == f.x && Get32(s, p + 4) == f.y && Get8(s, p + 8) == f.depth && Get8(s, p + 9) == f.color
    ensures Get8(s, p + 10) == f.compression && Get8(s, p + 11) == f.filter && Get8(s, p + 12) == f.interlace
  {
    hide Put32, Get32, At;
    var t: seq<byte> := [f.depth, f.color, f.compression, f.filter, f.interlace];
    AtSplit(s, p, Put32(f.x) + Put32(f.y), t);
    AtSplit(s, p, Put32(f.x), Put32(f.y));
    FourRead(s, p, f.x);
    FourRead(s, p + 4, f.y);
    Get8At(s, p + 8, t, 0);
    Get8At(s, p + 8, t, 1);
    Get8At(s, p + 8, t, 2);
    Get8At(s, p + 8, t, 3);
    Get8At(s, p + 8, t, 4);
  }

  lemma FourRead(s: seq<byte>, p: nat, v: nat)
    requires v < 0x1_0000_0000 && At(s, p, Put32(v))
    ensures Get32(s, p) == v
  {
    hide Put32, Get32;
    Put32Reads(s, p, v);
  }

  /** Dividing twice and comparing is comparing the product. */
  lemma LimitIs(x: nat, n: nat, y: nat)
    requires x > 0 && n > 0
    ensures 0x4000_0000 / x / n < y <==> x * n * y > 0x4000_0000
  {
    var m := 0x4000_0000 / x / n;
    Divided(0x4000_0000, x);
    Divided(0x4000_0000 / x, n);
    if m < y {
      MulMono(n, m + 1, y);
      assert n * y > 0x4000_0000 / x;
      MulMono(x, 0x4000_0000 / x + 1, n * y);
    } else {
      MulMono(n, y, m);
      MulMono(x, n * y, 0x4000_0000 / x);
    }
    MulAssoc(x, n, y);
  }

  lemma Divided(m: nat, d: nat)
    requires d > 0
    ensures d * (m / d) <= m < d * (m / d + 1)
  {
  }

  /** A header is taken exactly within these limits, and then for what it says. */
  lemma HeadIs(s: seq<byte>, p: nat, f: Fields)
    requires f.Sized() && At(s, p, f.Bytes())
    ensures ParseHead(s, p) == if !f.Taken() then BadHead else if !f.Plain() then OtherHead
      else Good(Head(f.x, f.y, f.Samples(), f.depth, f.color))
  {
    hide Get32, Get8, At, Fields.Bytes;
    FieldsRead(s, p, f);
    if f.x > 0 {
      LimitIs(f.x, f.Samples(), f.y);
    }
  }

  // ---- chunks ----

  /** Image data, or a chunk with a name of its own; sum stands for the checksum. */
  datatype Part = Data(bytes: seq<byte>, sum: seq<byte>) | Other(name: seq<byte>, bytes: seq<byte>, sum: seq<byte>)
  {
    function Name(): seq<byte> { if Data? then [0x49, 0x44, 0x41, 0x54] else name }

    /** Other chunks the reader has no use for: small first letters, which make them ancillary, but not tRNS. */
    predicate Skipped()
    {
      Other? && |name| == 4 && name[0] / 32 % 2 == 1 && name != [0x74, 0x52, 0x4E, 0x53]
    }

    /** Names with a capital first letter that are not IHDR, IDAT, IEND, PLTE or CgBI. */
    predicate Unknown()
    {
      && Other? && |name| == 4 && name[0] / 32 % 2 == 0
      && name != [0x49, 0x48, 0x44, 0x52] && name != [0x49, 0x44, 0x41, 0x54] && name != [0x49, 0x45, 0x4E, 0x44]
      && name != [0x50, 0x4C, 0x54, 0x45] && name != [0x43, 0x67, 0x42, 0x49]
    }

    predicate Framed() { |Name()| == |sum| == 4 && |bytes| < 0x8000_0000 }

    function Bytes(): seq<byte> { Put32(|bytes|) + Name() + bytes + sum }
  }

  /** The four bytes of a name as one number. */
  function Letters(n: seq<byte>): nat
    requires |n| == 4
  {
    ((n[0] as int * 256 + n[1]) * 256 + n[2]) * 256 + n[3]
  }

  lemma PartRead(s: seq<byte>, pos: nat, part: Part)
    requires part.Framed() && At(s, pos, part.Bytes())
    ensures Get32(s, pos) == |part.bytes| && Get32(s, pos + 4) == Letters(part.Name())
    ensures pos + 12 + |part.bytes| <= |s| && s[pos + 8..pos + 8 + |part.bytes|] == part.bytes
  {
    hide Put32, Get8;
    var a, n := Put32(|part.bytes|), part.Name();
    AtSplit(s, pos, a + n + part.bytes, part.sum);
    AtSplit(s, pos, a + n, part.bytes);
    AtSplit(s, pos, a, n);
    FourRead(s, pos, |part.bytes|);
    Get8At(s, pos + 4, n, 0);
    Get8At(s, pos + 4, n, 1);
    Get8At(s, pos + 4, n, 2);
    Get8At(s, pos + 4, n, 3);
  }

  lemma {:induction false} LettersDiffer(m: seq<byte>, n: seq<byte>)
    requires |m| == |n| == 4 && Letters(m) == Letters(n)
    ensures m == n
  {
    Letter((m[0] as int * 256 + m[1]) * 256 + m[2], m[3], (n[0] as int * 256 + n[1]) * 256 + n[2], n[3]);
    Letter(m[0] as int * 256 + m[1], m[2], n[0] as int * 256 + n[1], n[2]);
    Letter(m[0], m[1], n[0], n[1]);
  }

  lemma Letter(x: nat, b: byte, y: nat, c: byte)
    requires x * 256 + b == y * 256 + c
    ensures x == y && b == c
  {
  }

  /** The names the parser knows. */
  lemma Names()
    ensures IHDR == Letters([0x49, 0x48, 0x44, 0x52]) && IDAT == Letters([0x49, 0x44, 0x41, 0x54])
    ensures IEND == Letters([0x49, 0x45, 0x4E, 0x44]) && PLTE == Letters([0x50, 0x4C, 0x54, 0x45])
    ensures TRNS == Letters([0x74, 0x52, 0x4E, 0x53]) && CGBI == Letters([0x43, 0x67, 0x42, 0x49])
  {
  }

  lemma SmallFirst(n: seq<byte>)
    requires |n| == 4
    ensures And(Letters(n), 0x2000_0000) == 0 <==> n[0] / 32 % 2 == 0
  {
    hide And, Shr, Shl, Pow2;
    var v := Letters(n);
    TopLetter(n);
    ShrShr(v, 24, 5);
    FiveDown(n[0]);
    BitUp();
    AndShl(v, 1, 29);
    AndStep(n[0] / 32, 1);
    ZeroOps();
    NoAnd(n[0] / 32 / 2);
    ShlIsZero(n[0] / 32 % 2, 29);
  }

  lemma NoAnd(x: nat)
    ensures And(x, 0) == 0
  {
  }

  lemma {:induction false} ShlIsZero(x: nat, n: nat)
    ensures Shl(x, n) == 0 <==> x == 0
  {
    if n > 0 {
      ShlIsZero(x, n - 1);
    }
  }

  lemma BitUp()
    ensures Shl(1, 29) == 0x2000_0000
  {
    hide Shl;
    ShlOf8(1);
    ShlOf8(0x100);
    ShlOf8(0x1_0000);
    ShlOf4(0x100_0000);
    ShlShl(1, 8, 8);
    ShlShl(1, 16, 8);
    ShlShl(1, 24, 4);
    ShlShl(1, 28, 1);
    ShlTwo(0x1000_0000);
  }

  lemma ShlTwo(x: nat)
    ensures Shl(x, 1) == 2 * x
  {
  }

  lemma TopLetter(n: seq<byte>)
    requires |n| == 4
    ensures Shr(Letters(n), 24) == n[0]
  {
    hide Shr;
    var v := Letters(n);
    Shr8(v);
    Shr8(v / 256);
    Shr8(v / 256 / 256);
    ShrShr(v, 8, 8);
    ShrShr(v, 16, 8);
    LettersAbove(n);
  }

  lemma LettersAbove(n: seq<byte>)
    requires |n| == 4
    ensures Letters(n) / 256 / 256 / 256 == n[0]
  {
    assert Letters(n) / 256 == (n[0] as int * 256 + n[1]) * 256 + n[2];
    assert Letters(n) / 256 / 256 == n[0] as int * 256 + n[1];
  }

  lemma FiveDown(x: nat)
    ensures Shr(x, 5) == x / 32
  {
    assert Shr(x, 5) == Shr(x / 2, 4) == Shr(x / 2 / 2, 3) == Shr(x / 2 / 2 / 2, 2) == Shr(x / 2 / 2 / 2 / 2, 1);
  }

  // ---- files ----

  function PartsBytes(parts: seq<Part>): seq<byte>
  {
    if parts == [] then [] else parts[0].Bytes() + PartsBytes(parts[1..])
  }

  /** The image data of all chunks, in order. */
  function Collected(parts: seq<Part>): seq<byte>
  {
    if parts == [] then [] else (if parts[0].Data? then parts[0].bytes else []) + Collected(parts[1..])
  }

  predicate Readable(parts: seq<Part>)
  {
    forall i :: 0 <= i < |parts| ==> parts[i].Framed() && (parts[i].Data? || parts[i].Skipped())
  }

  /** One chunk behind the header. */
  lemma PartStep(s: seq<byte>, pos: nat, part: Part, h: Head, idata: seq<byte>, req: nat)
    requires part.Framed() && (part.Data? || part.Skipped()) && At(s, pos, part.Bytes())
    ensures Chunks(s, pos, Some(h), idata, req)
      == Chunks(s, pos + |part.Bytes()|, Some(h), idata + Collected([part]), req)
  {
    hide At, And, Get32, Finish, Letters, ParseHead;
    PartRead(s, pos, part);
    Names();
    NotThese(part.Name());
    SmallFirst(part.Name());
    CollectedOne(part);
    assert part.Skipped() ==> idata + [] == idata;
  }

  lemma CollectedOne(part: Part)
    ensures Collected([part]) == if part.Data? then part.bytes else []
  {
    assert [part][1..] == [];
  }

  /** A name is none of those it differs from. */
  lemma NotThese(n: seq<byte>)
    requires |n| == 4
    ensures Letters(n) == IHDR <==> n == [0x49, 0x48, 0x44, 0x52]
    ensures Letters(n) == IDAT <==> n == [0x49, 0x44, 0x41, 0x54]
    ensures Letters(n) == IEND <==> n == [0x49, 0x45, 0x4E, 0x44]
    ensures Letters(n) == PLTE <==> n == [0x50, 0x4C, 0x54, 0x45]
    ensures Letters(n) == TRNS <==> n == [0x74, 0x52, 0x4E, 0x53]
    ensures Letters(n) == CGBI <==> n == [0x43, 0x67, 0x42, 0x49]
  {
    Names();
    hide Letters;
    SameName(n, [0x49, 0x48, 0x44, 0x52]);
    SameName(n, [0x49, 0x44, 0x41, 0x54]);
    SameName(n, [0x49, 0x45, 0x4E, 0x44]);
    SameName(n, [0x50, 0x4C, 0x54, 0x45]);
    SameName(n, [0x74, 0x52, 0x4E, 0x53]);
    SameName(n, [0x43, 0x67, 0x42, 0x49]);
  }

  lemma SameName(m: seq<byte>, n: seq<byte>)
    requires |m| == |n| == 4
    ensures Letters(m) == Letters(n) <==> m == n
  {
    hide Letters;
    if Letters(m) == Letters(n) {
      LettersDiffer(m, n);
    }
  }

  lemma {:induction false} PartsRead(s: seq<byte>, pos: nat, parts: seq<Part>, h: Head, idata: seq<byte>, req: nat)
    requires Readable(parts) && At(s, pos, PartsBytes(parts))
    ensures Chunks(s, pos, Some(h), idata, req)
      == Chunks(s, pos + |PartsBytes(parts)|, Some(h), idata + Collected(parts), req)
    decreases |parts|
  {
    hide At, Chunks, Part.Bytes, Part.Skipped, Part.Framed;
    if parts == [] {
      assert idata + [] == idata;
    } else {
      AtSplit(s, pos, parts[0].Bytes(), PartsBytes(parts[1..]));
      PartStep(s, pos, parts[0], h, idata, req);
      var more := idata + Collected([parts[0]]);
      PartsRead(s, pos + |parts[0].Bytes()|, parts[1..], h, more, req);
      CollectedOne(parts[0]);
      assert more + Collected(parts[1..]) == idata + Collected(parts);
    }
  }

  /** What ends a file: the end chunk, or one the reader does not know or that should not be there. */
  lemma LastPart(s: seq<byte>, pos: nat, last: Part, h: Head, idata: seq<byte>, req: nat)
    requires last.Framed() && At(s, pos, last.Bytes())
    ensures last.Name() == [0x49, 0x45, 0x4E, 0x44] ==>
      Chunks(s, pos, Some(h), idata, req) == if idata == [] then Bad else Finish(h, idata, req)
    ensures last.Unknown() || last.Name() == [0x49, 0x48, 0x44, 0x52] ==> Chunks(s, pos, Some(h), idata, req) == Bad
  {
    hide At, And, Get32, Finish, Letters, ParseHead;
    PartRead(s, pos, last);
    NotThese(last.Name());
    SmallFirst(last.Name());
  }

  /** The signature, the header chunk, other chunks and a last one. */
  function File(f: Fields, sum: seq<byte>, parts: seq<Part>, last: Part): seq<byte>
  {
    [137, 80, 78, 71, 13, 10, 26, 10]
    + (Other([0x49, 0x48, 0x44, 0x52], f.Bytes(), sum).Bytes() + (PartsBytes(parts) + last.Bytes()))
  }

  lemma SignatureIs(s: seq<byte>, rest: seq<byte>)
    requires s == [137, 80, 78, 71, 13, 10, 26, 10] + rest
    ensures forall i :: 0 <= i < 8 ==> Get8(s, i) == SIGNATURE[i]
    ensures At(s, 8, rest)
  {
  }

  /**
    Such a file is finished with all its image data put together, in order, however it is cut and
    whatever ancillary chunks stand between; it is refused without any, with a header beyond the
    limits, or when an unknown critical chunk or a second header comes before the end.
  */
  lemma FileMeans(f: Fields, sum: seq<byte>, parts: seq<Part>, last: Part, req: nat)
    requires f.Sized() && |sum| == 4 && Readable(parts) && last.Framed()
    ensures var r, data := ParseFile(File(f, sum, parts, last), req), Collected(parts);
      && (!f.Taken() ==> r == Bad)
      && (f.Taken() && !f.Plain() ==> r == Outside)
      && (f.Taken() && f.Plain() && last.Name() == [0x49, 0x45, 0x4E, 0x44] ==>
            r == if data == [] then Bad else Finish(Head(f.x, f.y, f.Samples(), f.depth, f.color), data, req))
      && (f.Taken() && (last.Unknown() || last.Name() == [0x49, 0x48, 0x44, 0x52]) && f.Plain() ==> r == Bad)
  {
    hide At, Chunks, Finish, Readable, PartsBytes, Fields.Taken, Part.Framed, Part.Unknown, Part.Bytes, Fields.Plain,
      Fields.Samples, Fields.Bytes, Collected;
    var s := File(f, sum, parts, last);
    var first := Other([0x49, 0x48, 0x44, 0x52], f.Bytes(), sum);
    SignatureIs(s, first.Bytes() + (PartsBytes(parts) + last.Bytes()));
    AtSplit(s, 8, first.Bytes(), PartsBytes(parts) + last.Bytes());
    AtSplit(s, 8 + |first.Bytes()|, PartsBytes(parts), last.Bytes());
    HeadStep(s, f, sum, req);
    if f.Taken() && f.Plain() {
      var h := Head(f.x, f.y, f.Samples(), f.depth, f.color);
      PartsRead(s, 33, parts, h, [], req);
      assert [] + Collected(parts) == Collected(parts);
      LastPart(s, 33 + |PartsBytes(parts)|, last, h, Collected(parts), req);
    }
  }

  lemma HeadStep(s: seq<byte>, f: Fields, sum: seq<byte>, req: nat)
    requires f.Sized() && |sum| == 4 && At(s, 8, Other([0x49, 0x48, 0x44, 0x52], f.Bytes(), sum).Bytes())
    ensures |Other([0x49, 0x48, 0x44, 0x52], f.Bytes(), sum).Bytes()| == 25
    ensures Chunks(s, 8, None, [], req) == if !f.Taken() then Bad else if !f.Plain() then Outside
      else Chunks(s, 33, Some(Head(f.x, f.y, f.Samples(), f.depth, f.color)), [], req)
  {
    hide Get32, ParseHead, Fields.Taken, Fields.Plain, Fields.Samples, Letters, Finish, And;
    var first := Other([0x49, 0x48, 0x44, 0x52], f.Bytes(), sum);
    PartRead(s, 8, first);
    NotThese(first.Name());
    assert At(s, 16, f.Bytes());
    HeadIs(s, 16, f);
  }

  /** Any other chunk in the place of the header is refused. */
  lemma HeaderFirst(first: Part, rest: seq<byte>, req: nat)
    requires first.Framed() && first.Name() != [0x49, 0x48, 0x44, 0x52] && first.Name() != [0x43, 0x67, 0x42, 0x49]
    ensures ParseFile([137, 80, 78, 71, 13, 10, 26, 10] + (first.Bytes() + rest), req) == Bad
  {
    hide At, Get32, Letters, And, ParseHead;
    var s := [137, 80, 78, 71, 13, 10, 26, 10] + (first.Bytes() + rest);
    SignatureIs(s, first.Bytes() + rest);
    AtSplit(s, 8, first.Bytes(), rest);
    PartRead(s, 8, first);
    NotThese(first.Name());
  }
}
