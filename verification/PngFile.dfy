/**
  PNG files: the chunks stbi_write_png_to_mem writes and stbi__parse_png_file reads, and
  the round trip through scanline filters, zlib and chunk framing.
*/
module PngFile {
  import opened Bits
  import opened ByteStream
  import opened Wrappers
  import opened InflateSpec
  import opened Inflater
  import opened Deflater
  import opened PngFilter
  import opened PngWriteLine
  import opened PngReadLine
  import opened PngUnpack
  import opened PngRaw
  import opened PngWrite

  // ---- reading big-endian fields ----

  function Get32(s: seq<byte>, p: nat): nat
  {
    ((Get8(s, p) as int * 256 + Get8(s, p + 1)) * 256 + Get8(s, p + 2)) * 256 + Get8(s, p + 3)
  }

  /** stbiw__wp32 */
  function Put32(v: nat): (r: seq<byte>)
    ensures |r| == 4
  {
    [Shr(v, 24) % 256, Shr(v, 16) % 256, Shr(v, 8) % 256, v % 256]
  }

  lemma Put32Reads(s: seq<byte>, p: nat, v: nat)
    requires v < 0x1_0000_0000 && p + 4 <= |s| && s[p..p + 4] == Put32(v)
    ensures Get32(s, p) == v
  {
    hide Shr;
    Shr8(v);
    Shr8(v / 256);
    Shr8(v / 256 / 256);
    ShrShr(v, 8, 8);
    ShrShr(v, 16, 8);
    assert s[p] == s[p..p + 4][0] && s[p + 1] == s[p..p + 4][1];
    assert s[p + 2] == s[p..p + 4][2] && s[p + 3] == s[p..p + 4][3];
    Digits(v);
  }

  lemma Digits(v: nat)
    requires v < 0x1_0000_0000
    ensures ((v / 256 / 256 / 256 % 256 * 256 + v / 256 / 256 % 256) * 256 + v / 256 % 256) * 256 + v % 256 == v
  {
    assert v / 256 / 256 / 256 < 256;
  }

  // ---- what a file means ----

  /**
    Picture: width, height, channels in the file, channels delivered, pixels.  Bad: an
    error.  Outside: palettes, transparency and iPhone chunks, 16-bit samples, interlacing,
    sample sizes the source asserts not to occur, and zlib data without a meaning.
  */
  datatype Png = Picture(x: nat, y: nat, n: nat, out_n: nat, pixels: seq<byte>) | Bad | Outside

  datatype Head = Head(x: nat, y: nat, img_n: nat, depth: nat, color: nat)

  datatype HeadResult = Good(head: Head) | BadHead | OtherHead

  const IHDR := 0x49484452
  const IDAT := 0x49444154
  const IEND := 0x49454E44
  const PLTE := 0x504C5445
  const TRNS := 0x74524E53
  const CGBI := 0x43674249

  function Channels(color: nat): nat
  {
    (if color == 2 || color == 6 then 3 else 1) + (if color >= 4 then 1 else 0)
  }

  /** The thirteen bytes of an IHDR chunk at p. */
  function ParseHead(s: seq<byte>, p: nat): HeadResult
  {
    var x, y := Get32(s, p), Get32(s, p + 4);
    var depth, color := Get8(s, p + 8), Get8(s, p + 9);
    if x > 0x1000000 || y > 0x1000000 then BadHead
    else if depth !in {1, 2, 4, 8, 16} then BadHead
    else if color > 6 || (color == 3 && depth == 16) || color == 1 || color == 5 then BadHead
    else if Get8(s, p + 10) != 0 || Get8(s, p + 11) != 0 || Get8(s, p + 12) > 1 then BadHead
    else if x == 0 || y == 0 then BadHead
    else if 0x40000000 / x / (if color == 3 then 4 else Channels(color)) < y then BadHead
    else if color == 3 || depth == 16 || Get8(s, p + 12) == 1 then OtherHead
    else Good(Head(x, y, Channels(color), depth, color))
  }

  /** The channels delivered when req are asked for: gray and RGB can get alpha. */
  function OutChannels(n: nat, req: nat): nat
  {
    if req == n + 1 && req != 3 then n + 1 else n
  }

  function FormatOf(h: Head, req: nat): Format
  {
    Format(h.x, h.img_n, OutChannels(h.img_n, req), h.depth, h.color)
  }

  /** The IEND chunk: inflate, undo the filters, expand. */
  ghost function Finish(h: Head, idata: seq<byte>, req: nat): Png
  {
    match Inflate(idata, true, None)
    case Undefined => Outside
    case Corrupt => Bad
    case Done(raw, _) =>
      var f := FormatOf(h, req);
      if h.x * h.y * f.out_n > 0x7FFFFFFF then Bad
      else if !f.Valid() then Outside
      else if (f.WidthBytes() + 1) * h.y > |raw| then Bad
      else (OffIs(f.WidthBytes(), h.y);
            if FiltersValid(raw, f.WidthBytes(), h.y)
            then Picture(h.x, h.y, h.img_n, f.out_n, Pixels(f, raw, h.y)) else Bad)
  }

  /** The chunks from pos on, after an optional header and idata bytes of image data. */
  ghost function Chunks(s: seq<byte>, pos: nat, head: Option<Head>, idata: seq<byte>, req: nat): Png
    decreases if pos < |s| then |s| - pos else 0
  {
    var len, kind, p := Get32(s, pos), Get32(s, pos + 4), pos + 8;
    PastEndIsNoChunk(s, pos);
    if kind == CGBI then Outside
    else if kind == IHDR then
      if head.Some? || len != 13 then Bad
      else match ParseHead(s, p)
           case BadHead => Bad
           case OtherHead => Outside
           case Good(h) => Chunks(s, p + 13 + 4, Some(h), idata, req)
    else if head.None? then Bad
    else if kind == PLTE || kind == TRNS then Outside
    else if kind == IDAT then
      if p + len > |s| then Bad
      else Chunks(s, p + len + 4, head, idata + s[p..p + len], req)
    else if kind == IEND then
      if |idata| == 0 then Bad else Finish(head.value, idata, req)
    else if And(kind, 0x20000000) == 0 then Bad
    else Chunks(s, (if len >= 0x80000000 then |s| else p + len) + 4, head, idata, req)
  }

  lemma PastEndIsNoChunk(s: seq<byte>, pos: nat)
    ensures pos >= |s| ==> Get32(s, pos + 4) == 0 && And(0, 0x20000000) == 0
  {
  }

  const SIGNATURE: seq<byte> := [137, 80, 78, 71, 13, 10, 26, 10]

  ghost function ParseFile(s: seq<byte>, req: nat): Png
  {
    if (exists i :: 0 <= i < 8 && Get8(s, i) != SIGNATURE[i]) then Bad
    else Chunks(s, 8, None, [], req)
  }

  // ---- the parser ----

  method CheckSignature(s: seq<byte>) returns (ok: bool)
    ensures ok <==> forall i :: 0 <= i < 8 ==> Get8(s, i) == SIGNATURE[i]
  {
    for i := 0 to 8
      invariant forall k :: 0 <= k < i ==> Get8(s, k) == SIGNATURE[k]
    {
      if Get8(s, i) != SIGNATURE[i] {
        return false;
      }
    }
    return true;
  }

  /** The IEND case of stbi__parse_png_file. */
  method FinishImage(h: Head, idata: seq<byte>, req: nat) returns (r: Png)
    requires h.x > 0 && h.y > 0 && h.img_n > 0 && Finish(h, idata, req) != Outside
    ensures r == Finish(h, idata, req)
  {
    hide Inflate, Pixels, FiltersValid, Format.WidthBytes, Format.Valid;
    var bpl := (h.x * h.depth + 7) / 8;
    var size := bpl * h.y * h.img_n + h.y;
    assert size > 0 by { assert bpl * h.y * h.img_n >= 0; }
    var expanded := DecodeMalloc(idata, size, true);
    if expanded.None? {
      return Bad;
    }
    var f := FormatOf(h, req);
    if h.x * h.y * f.out_n > 0x7FFFFFFF {
      return Bad;
    }
    OffIs(f.WidthBytes(), h.y);
    var ok, out := CreateImageRaw(f, expanded.value, h.y);
    r := if ok then Picture(h.x, h.y, h.img_n, f.out_n, out[..]) else Bad;
  }

  /** stbi__parse_png_file */
  method ParsePng(s: seq<byte>, req: nat) returns (r: Png)
    requires ParseFile(s, req) != Outside
    ensures r == ParseFile(s, req)
  {
    hide Finish, ParseHead, And;
    var ok := CheckSignature(s);
    if !ok {
      return Bad;
    }
    ghost var whole := Chunks(s, 8, None, [], req);
    var pos := 8;
    var head: Option<Head> := None;
    var idata := [];
    while true
      invariant Chunks(s, pos, head, idata, req) == whole != Outside
      invariant head.Some? ==> head.value.x > 0 && head.value.y > 0 && head.value.img_n > 0
      decreases if pos < |s| then |s| - pos else 0
    {
      PastEndIsNoChunk(s, pos);
      var len, kind, p := Get32(s, pos), Get32(s, pos + 4), pos + 8;
      if kind == IHDR {
        if head.Some? || len != 13 {
          return Bad;
        }
        var h := ParseHead(s, p);
        HeadIsPositive(s, p);
        if h.BadHead? {
          return Bad;
        }
        head := Some(h.head);
        pos := p + 13 + 4;
      } else if head.None? {
        return Bad;
      } else if kind == IDAT {
        if p + len > |s| {
          return Bad;
        }
        idata := idata + s[p..p + len];
        pos := p + len + 4;
      } else if kind == IEND {
        if |idata| == 0 {
          return Bad;
        }
        r := FinishImage(head.value, idata, req);
        return;
      } else {
        if And(kind, 0x20000000) == 0 {
          return Bad;
        }
        pos := (if len >= 0x80000000 then |s| else p + len) + 4;
      }
    }
  }

  lemma HeadIsPositive(s: seq<byte>, p: nat)
    ensures var h := ParseHead(s, p); h.Good? ==> h.head.x > 0 && h.head.y > 0 && h.head.img_n > 0
  {
  }

  // ---- the writer ----

  function Tag(kind: nat): (r: seq<byte>) { Put32(kind) }

  /** One chunk: length, type, data and checksum, for any checksum function. */
  function Chunk(kind: nat, data: seq<byte>, crc: seq<byte> -> nat): (r: seq<byte>)
    ensures |r| == |data| + 12
  {
    Put32(|data|) + Tag(kind) + data + Put32(crc(Tag(kind) + data))
  }

  function ColorType(n: nat): byte { if n == 1 then 0 else if n == 2 then 4 else if n == 3 then 2 else 6 }

  function HeadBytes(x: nat, y: nat, n: nat): (r: seq<byte>)
    ensures |r| == 13
  {
    Put32(x) + Put32(y) + [8, ColorType(n), 0, 0, 0]
  }

  lemma ChunkParts(s: seq<byte>, pos: nat, kind: nat, data: seq<byte>, crc: seq<byte> -> nat)
    requires kind < 0x1_0000_0000 && |data| < 0x1_0000_0000
    requires At(s, pos, Chunk(kind, data, crc))
    ensures Get32(s, pos) == |data| && Get32(s, pos + 4) == kind
    ensures pos + 12 + |data| <= |s| && s[pos + 8..pos + 8 + |data|] == data
  {
    hide Put32, Get32;
    var a, b, c := Put32(|data|), Tag(kind), Put32(crc(Tag(kind) + data));
    AtSplit(s, pos, a + b + data, c);
    AtSplit(s, pos, a + b, data);
    AtSplit(s, pos, a, b);
    Put32Reads(s, pos, |data|);
    Put32Reads(s, pos + 4, kind);
  }

  lemma HeadReads(s: seq<byte>, p: nat, x: nat, y: nat, n: nat)
    requires At(s, p, HeadBytes(x, y, n))
    requires 0 < x <= 0x1000000 && 0 < y <= 0x1000000 && 1 <= n <= 4 && y <= 0x40000000 / x / n
    ensures ParseHead(s, p) == Good(Head(x, y, n, 8, ColorType(n)))
  {
    hide Put32, Get32;
    var t: seq<byte> := [8, ColorType(n), 0, 0, 0];
    AtSplit(s, p, Put32(x) + Put32(y), t);
    AtSplit(s, p, Put32(x), Put32(y));
    Put32Reads(s, p, x);
    Put32Reads(s, p + 4, y);
    var u := s[p + 8..p + 13];
    assert s[p + 8] == u[0] && s[p + 9] == u[1] && s[p + 10] == u[2] && s[p + 11] == u[3] && s[p + 12] == u[4];
  }

  // ---- the round trip ----

  /** The file stbi_write_png_to_mem lays out around the compressed scanlines. */
  function FileBytes(x: nat, y: nat, n: nat, zlib: seq<byte>, crc: seq<byte> -> nat): seq<byte>
  {
    SIGNATURE + (Chunk(IHDR, HeadBytes(x, y, n), crc) + (Chunk(IDAT, zlib, crc) + Chunk(IEND, [], crc)))
  }

  /** Reading the file back reaches the end with the compressed data and the header. */
  lemma FileReads(x: nat, y: nat, n: nat, zlib: seq<byte>, crc: seq<byte> -> nat, req: nat)
    requires 0 < x <= 0x1000000 && 0 < y <= 0x1000000 && 1 <= n <= 4 && y <= 0x40000000 / x / n
    requires 0 < |zlib| < 0x80000000
    ensures ParseFile(FileBytes(x, y, n, zlib, crc), req) == Finish(Head(x, y, n, 8, ColorType(n)), zlib, req)
  {
    hide Finish, ParseHead, Chunk, Get32, HeadBytes, Inflate, And;
    var s := FileBytes(x, y, n, zlib, crc);
    var head, data, end := Chunk(IHDR, HeadBytes(x, y, n), crc), Chunk(IDAT, zlib, crc), Chunk(IEND, [], crc);
    assert At(s, 0, s) by { assert s[0..|s|] == s; }
    AtSplit(s, 0, SIGNATURE, head + (data + end));
    AtSplit(s, 8, head, data + end);
    AtSplit(s, 33, data, end);
    SignatureReads(s);
    ChunkParts(s, 8, IHDR, HeadBytes(x, y, n), crc);
    ChunkParts(s, 33, IDAT, zlib, crc);
    ChunkParts(s, 33 + 12 + |zlib|, IEND, [], crc);
    HeadReads(s, 16, x, y, n);
    var h := Head(x, y, n, 8, ColorType(n));
    assert [] + zlib == zlib;
    assert Chunks(s, 45 + |zlib|, Some(h), zlib, req) == Finish(h, zlib, req);
    assert Chunks(s, 33, Some(h), [], req) == Chunks(s, 45 + |zlib|, Some(h), zlib, req);
    assert Chunks(s, 8, None, [], req) == Chunks(s, 33, Some(h), [], req);
  }

  /** A header beyond the limits is refused. */
  lemma HeadRefused(s: seq<byte>, p: nat, x: nat, y: nat, n: nat)
    requires At(s, p, HeadBytes(x, y, n))
    requires x < 0x1_0000_0000 && y < 0x1_0000_0000 && 1 <= n <= 4 && !WithinLimits(x, y, n)
    ensures ParseHead(s, p) == BadHead
  {
    hide Put32, Get32;
    var t: seq<byte> := [8, ColorType(n), 0, 0, 0];
    AtSplit(s, p, Put32(x) + Put32(y), t);
    AtSplit(s, p, Put32(x), Put32(y));
    Put32Reads(s, p, x);
    Put32Reads(s, p + 4, y);
    var u := s[p + 8..p + 13];
    assert s[p + 8] == u[0] && s[p + 9] == u[1] && s[p + 10] == u[2] && s[p + 11] == u[3] && s[p + 12] == u[4];
  }

  lemma FileRefused(s: seq<byte>, x: nat, y: nat, n: nat, zlib: seq<byte>, crc: seq<byte> -> nat, req: nat)
    requires x < 0x1_0000_0000 && y < 0x1_0000_0000 && 1 <= n <= 4 && !WithinLimits(x, y, n)
    requires s == FileBytes(x, y, n, zlib, crc)
    ensures ParseFile(s, req) == Bad
  {
    hide ParseHead, Chunk, Get32, HeadBytes, And, WithinLimits;
    var head, rest := Chunk(IHDR, HeadBytes(x, y, n), crc), Chunk(IDAT, zlib, crc) + Chunk(IEND, [], crc);
    assert At(s, 0, SIGNATURE + (head + rest)) by { assert s[0..|s|] == s; }
    AtSplit(s, 0, SIGNATURE, head + rest);
    AtSplit(s, 8, head, rest);
    SignatureReads(s);
    ChunkParts(s, 8, IHDR, HeadBytes(x, y, n), crc);
    HeadRefused(s, 16, x, y, n);
  }

  lemma SignatureReads(s: seq<byte>)
    requires At(s, 0, SIGNATURE)
    ensures forall i :: 0 <= i < 8 ==> Get8(s, i) == SIGNATURE[i]
  {
    forall i | 0 <= i < 8 ensures Get8(s, i) == SIGNATURE[i] {
      assert s[i] == s[0..8][i];
    }
  }

  /** An image the reader accepts. */
  predicate WithinLimits(x: nat, y: nat, n: nat)
  {
    0 < x <= 0x1000000 && 0 < y <= 0x1000000 && 1 <= n <= 4 && y <= 0x40000000 / x / n
  }

  lemma LimitProduct(x: nat, y: nat, n: nat)
    requires WithinLimits(x, y, n)
    ensures x * n * y <= 0x40000000 && x * y * n == x * n * y
  {
    var a := 0x40000000 / x;
    DivMul(0x40000000, x);
    DivMul(a, n);
    MulMono(n, y, a / n);
    MulMono(x, n * y, a);
    MulAssoc(x, n, y);
    MulAssoc(x, y, n);
    assert n * y == y * n;
  }

  lemma DivMul(m: nat, d: nat)
    requires d > 0
    ensures d * (m / d) <= m
  {
  }

  lemma {:induction false} MulMono(a: nat, b: nat, c: nat)
    requires b <= c
    ensures a * b <= a * c
  {
    assert a * (c - b) >= 0;
    assert a * c == a * b + a * (c - b);
  }

  lemma MulAssoc(a: nat, b: nat, c: nat)
    ensures a * b * c == a * (b * c)
  {
  }

  lemma FormatIs(h: Head, req: nat)
    requires WithinLimits(h.x, h.y, h.img_n) && h.depth == 8
    ensures var f := FormatOf(h, req);
      && f == Format(h.x, h.img_n, OutChannels(h.img_n, req), 8, h.color)
      && f.Valid() && f.WidthBytes() == h.x * h.img_n && f.FilterBytes() == h.img_n
  {
    var f := FormatOf(h, req);
    hide Format.WidthBytes;
    WidthOf8(f);
  }

  /** The reader takes the image in, with the channels asked for. */
  predicate Deliverable(x: nat, y: nat, n: nat, req: nat)
  {
    WithinLimits(x, y, n) && x * y * OutChannels(n, req) <= 0x7FFFFFFF
  }

  /** The only images within the limits that adding alpha makes too large are gray ones of 2^30 pixels. */
  lemma AlphaTooLarge(x: nat, y: nat, n: nat, req: nat)
    requires WithinLimits(x, y, n)
    ensures Deliverable(x, y, n, req) <==> !(n == 1 && req == 2 && x * y == 0x40000000)
  {
    hide WithinLimits;
    LimitProduct(x, y, n);
    LimitChannels(x, y, n);
    var area := x * y;
    if n == 1 {
      assert area * n == area;
    } else if n == 2 {
      assert area * n == 2 * area;
    } else if n == 3 {
      assert area * n == 3 * area;
    } else {
      assert area * n == 4 * area;
    }
  }

  lemma LimitChannels(x: nat, y: nat, n: nat)
    requires WithinLimits(x, y, n)
    ensures 1 <= n <= 4
  {
  }

  /** One of them. */
  lemma SquareTooLarge()
    ensures WithinLimits(32768, 32768, 1) && Deliverable(32768, 32768, 1, 0) && !Deliverable(32768, 32768, 1, 2)
  {
    assert 32768 * 32768 == 0x40000000;
  }

  /** Filtered scanlines of an image, once inflated, are finished to its pixels. */
  lemma FinishScanlines(h: Head, img: Image, types: seq<nat>, zlib: seq<byte>, req: nat)
    requires WithinLimits(h.x, h.y, h.img_n) && h.depth == 8
    requires img.Inside() && img.len == h.x * h.img_n && img.height == h.y == |types| && FilterTypes(types)
    requires Inflate(zlib, true, None).Done?
    requires Inflate(zlib, true, None).out == Scanlines(img, h.img_n, types, h.y)
    ensures var out_n := OutChannels(h.img_n, req);
      Finish(h, zlib, req) == if Deliverable(h.x, h.y, h.img_n, req)
        then Picture(h.x, h.y, h.img_n, out_n, Delivered(Joined(img, h.y), h.img_n, out_n)) else Bad
  {
    hide Inflate, Format.WidthBytes, Format.Valid, Scanlines, Recon, Flat, FiltersValid, WithinLimits, Joined,
      Delivered;
    var f := FormatOf(h, req);
    LimitChannels(h.x, h.y, h.img_n);
    FormatIs(h, req);
    ScanlinesValid(img, h.img_n, types);
    OffIs(img.len, h.y);
    ReconScanlines(img, h.img_n, types, h.y);
    FlatIsJoined(f, img, h.y);
  }

  lemma ScanlinesFit(x: nat, y: nat, n: nat, size: nat, zlen: nat)
    requires WithinLimits(x, y, n) && size == (x * n + 1) * y && 8 * zlen <= 9 * size + 65
    ensures zlen < 0x80000000
  {
    LimitProduct(x, y, n);
    assert (x * n + 1) * y == x * n * y + y;
  }

  /** The rows stbi_write_png_to_mem is given; no stride means rows without gaps. */
  function ImageOf(pixels: seq<byte>, stride_bytes: nat, x: nat, y: nat, n: nat, flip: bool): Image
  {
    Image(pixels, if stride_bytes == 0 then x * n else stride_bytes, y, x * n, flip)
  }

  /**
    stbi_write_png_to_mem.  Whatever the stride, flip, filters, compression level, checksum
    function and number of channels asked for, parsing the file gives the width, height,
    channel count and pixels back, with alpha if it is asked for, exactly when the image is
    within the reader's limits.
  */
  method WritePng(pixels: seq<byte>, stride_bytes: nat, x: nat, y: nat, n: nat, flip: bool,
                  force_filter: int, level: int, crc: seq<byte> -> nat) returns (out: seq<byte>)
    requires x > 0 && 1 <= n <= 4 && ImageOf(pixels, stride_bytes, x, y, n, flip).Inside()
    ensures x < 0x1_0000_0000 && y < 0x1_0000_0000 ==>
      forall req: nat :: ParseFile(out, req) ==
        if Deliverable(x, y, n, req)
        then var m := OutChannels(n, req);
             Picture(x, y, n, m, Delivered(Joined(ImageOf(pixels, stride_bytes, x, y, n, flip), y), n, m))
        else Bad
  {
    hide Chunks, Finish, Inflate, Scanlines, Joined, Delivered, Chunk, HeadBytes, AdlerBytes, Image.Row, Image.Above,
      WithinLimits;
    var image := ImageOf(pixels, stride_bytes, x, y, n, flip);
    var force := if force_filter >= 5 then -1 else force_filter;
    assert n <= x * n;
    var filt;
    ghost var types;
    filt, types := FilterImage(image, n, force);
    var zlib := Compress(filt, level);
    out := SIGNATURE + (Chunk(IHDR, HeadBytes(x, y, n), crc) + (Chunk(IDAT, zlib, crc) + Chunk(IEND, [], crc)));
    if x < 0x1_0000_0000 && y < 0x1_0000_0000 {
      forall req: nat
        ensures ParseFile(out, req) == if Deliverable(x, y, n, req)
          then Picture(x, y, n, OutChannels(n, req), Delivered(Joined(image, y), n, OutChannels(n, req))) else Bad
      {
        WrittenReads(out, image, types, zlib, x, y, n, crc, req);
      }
    }
  }

  /** What is written is read. */
  lemma WrittenReads(s: seq<byte>, img: Image, types: seq<nat>, zlib: seq<byte>, x: nat, y: nat, n: nat,
                     crc: seq<byte> -> nat, req: nat)
    requires x < 0x1_0000_0000 && y < 0x1_0000_0000 && 1 <= n <= 4 && s == FileBytes(x, y, n, zlib, crc)
    requires img.Inside() && img.len == x * n && img.height == y == |types| && FilterTypes(types)
    requires Inflate(zlib, true, None).Done? && Inflate(zlib, true, None).out == Scanlines(img, n, types, y)
    requires 0 < |zlib| && 8 * |zlib| <= 9 * |Scanlines(img, n, types, y)| + 65
    ensures ParseFile(s, req) == if Deliverable(x, y, n, req)
      then Picture(x, y, n, OutChannels(n, req), Delivered(Joined(img, y), n, OutChannels(n, req))) else Bad
  {
    hide Chunks, Finish, Inflate, Scanlines, Joined, Delivered, Chunk, HeadBytes, FileBytes, Image.Inside;
    if WithinLimits(x, y, n) {
      ScanlinesSize(img, n, types, y);
      OffIs(img.len, y);
      ScanlinesFit(x, y, n, |Scanlines(img, n, types, y)|, |zlib|);
      FileReads(x, y, n, zlib, crc, req);
      FinishScanlines(Head(x, y, n, 8, ColorType(n)), img, types, zlib, req);
    } else {
      FileRefused(s, x, y, n, zlib, crc, req);
    }
  }
}
