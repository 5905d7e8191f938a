/** TGA files: stbi_write_tga_core with run-length packets, and stbi__tga_load. */
module TgaFile {
  import opened Bits
  import opened ByteStream
  import opened ImageRows
  import opened TgaPackets
  import opened TgaRead

  /**
    What the loader makes of a file.  `Outside`: palettes, 15 and 16 bit colour and files
    without run-length packets, of which nothing is said.
  */
  datatype Tga = Fail | Outside | Picture(w: nat, h: nat, c: nat, data: seq<byte>)

  /** stbi__tga_get_comp, when the pixels are not 15 or 16 bit colour; 0 on error */
  function GetComp(bits: nat): nat
  {
    if bits == 8 then 1 else if bits == 16 then 2 else if bits == 24 || bits == 32 then bits / 8 else 0
  }

  /** stbi__mad3sizes_valid with nothing added */
  predicate SizeFits(w: nat, h: nat, c: nat) { w * h * c <= 0x7FFF_FFFF }

  predicate PixelBits(bits: nat) { bits in [8, 15, 16, 24, 32] }

  /** stbi__tga_test */
  predicate Test(s: seq<byte>)
  {
    var indexed, kind, bits := Get8(s, 1), Get8(s, 2), Get8(s, 16);
    && (if indexed == 1 then (kind == 1 || kind == 9) && PixelBits(Get8(s, 7)) && (bits == 8 || bits == 16)
        else indexed == 0 && (kind == 2 || kind == 3 || kind == 10 || kind == 11))
    && Get16le(s, 12) >= 1 && Get16le(s, 14) >= 1 && PixelBits(bits)
  }

  /** What stbi__load_main makes of a file that no other format claims. */
  function Open(s: seq<byte>): Tga { if Test(s) then Load(s) else Fail }

  /** stbi__tga_load */
  function Load(s: seq<byte>): Tga
  {
    var kind, w, h, bits := Get8(s, 2), Get16le(s, 12), Get16le(s, 14), Get8(s, 16);
    var c := GetComp(bits);
    if Get8(s, 1) != 0 || kind < 8 || bits == 15 || (bits == 16 && kind != 11) then Outside
    else if c == 0 || !SizeFits(w, h, c) then Fail
    else LoadPixels(s, 18 + Get8(s, 0) as int, w, h, c, Get8(s, 17) / 32 % 2 == 0)
  }

  function LoadPixels(s: seq<byte>, pos: nat, w: nat, h: nat, c: nat, inverted: bool): Tga
    requires Comp(c)
  {
    var raw := Fresh(s, pos, RowOff(w, h), c);
    RowOffTimes(w, h, c);
    var turned := if inverted then Flipped(raw, Times(w, c), h) else raw;
    Picture(w, h, c, WriteAll(turned, c))
  }

  lemma {:induction false} NoColours(s: seq<byte>, c: nat)
    requires 1 <= c <= 2
    ensures WriteAll(s, c) == s
    decreases |s|
  {
    if |s| >= c {
      NoColours(s[c..], c);
    }
  }

  /** From the first packet on. */
  method LoadData(s: seq<byte>, pos: nat, w: nat, h: nat, c: nat, inverted: bool) returns (r: Tga)
    requires Comp(c)
    ensures r == LoadPixels(s, pos, w, h, c, inverted)
  {
    hide Times, Fresh, WriteAll, Flipped;
    RowOffTimes(w, h, c);
    RowOffIs(w, h);
    var data := ReadPixels(s, pos, w * h, c);
    if inverted {
      Invert(data, Times(w, c), h);
    }
    if c >= 3 {
      SwapColours(data, w * h, c);
    } else {
      NoColours(data[..], c);
    }
    r := Picture(w, h, c, data[..]);
  }

  /** stbi__tga_load */
  method LoadTga(s: seq<byte>) returns (r: Tga)
    requires Load(s) != Outside
    ensures r == Load(s)
  {
    hide LoadPixels;
    var offset, kind := Get8(s, 0), Get8(s, 2);
    var w, h := Get16le(s, 12), Get16le(s, 14);
    var inverted := 1 - (Get8(s, 17) / 32 % 2) as int;
    var c := GetComp(Get8(s, 16));
    if c == 0 || !SizeFits(w, h, c) {
      return Fail;
    }
    r := LoadData(s, 18 + offset as int, w, h, c, inverted == 1);
  }

  method OpenTga(s: seq<byte>) returns (r: Tga)
    requires Open(s) != Outside
    ensures r == Open(s)
  {
    hide Load;
    if Test(s) {
      r := LoadTga(s);
    } else {
      r := Fail;
    }
  }

  // ---- the writer ----

  /** The eighteen header bytes: stbiw__writef with "111 221 2222 11". */
  function Header(x: nat, y: nat, c: nat): (r: seq<byte>)
    ensures |r| == 18
  {
    var alpha := if c == 2 || c == 4 then 1 else 0;
    var colours := c - alpha;
    [0, 0, Uchar((if colours < 2 then 3 else 2) + 8), 0, 0, 0, 0, 0, 0, 0, 0, 0,
     Uchar(x), Uchar(x / 256), Uchar(y), Uchar(y / 256), Uchar((colours + alpha) * 8), Uchar(alpha * 8)]
  }

  lemma HeaderReads(s: seq<byte>, x: nat, y: nat, c: nat)
    requires Comp(c) && At(s, 0, Header(x, y, c))
    ensures Get8(s, 0) == Get8(s, 1) == 0 && Get8(s, 2) == (if c <= 2 then 11 else 10)
    ensures Get16le(s, 12) == x % 0x1_0000 && Get16le(s, 14) == y % 0x1_0000
    ensures Get8(s, 16) == 8 * c && Get8(s, 17) / 32 == 0
  {
    var u := Header(x, y, c);
    hide At;
    Get8At(s, 0, u, 0);
    Get8At(s, 0, u, 1);
    Get8At(s, 0, u, 2);
    Get8At(s, 0, u, 12);
    Get8At(s, 0, u, 13);
    Get8At(s, 0, u, 14);
    Get8At(s, 0, u, 15);
    Get8At(s, 0, u, 16);
    Get8At(s, 0, u, 17);
    hide Get8;
    LowBytes(x);
    LowBytes(y);
  }

  lemma LowBytes(v: nat)
    ensures Uchar(v) + 256 * Uchar(v / 256) as int == v % 0x1_0000
  {
    var q := v / 256;
    assert v == 256 * q + v % 256;
    assert q == 256 * (q / 256) + q % 256;
    LowSixteen(q / 256, 256 * (q % 256) + v % 256);
  }

  lemma LowSixteen(q: nat, r: nat)
    requires r < 0x1_0000
    ensures (0x1_0000 * q + r) % 0x1_0000 == r
  {
  }

  /** The rows in the order they are written: bottom up unless writing is flipped. */
  function InOrder(data: seq<byte>, w: nat, y: nat, flip: bool): (r: seq<byte>)
    requires |data| == RowOff(w, y)
    ensures |r| == |data|
  {
    if flip then data else Flipped(data, w, y)
  }

  lemma InOrderRow(data: seq<byte>, w: nat, y: nat, flip: bool, r: nat)
    requires |data| == RowOff(w, y) && r < y
    ensures RowAt(InOrder(data, w, y, flip), w, y, r) == RowAt(data, w, y, if flip then r else y - 1 - r)
  {
    if !flip {
      FlipRow(data, w, y, y, r);
    }
  }

  lemma RowsGrow(f: seq<byte>, x: nat, y: nat, r: nat, c: nat)
    requires Comp(c) && |f| == RowOff(Times(x, c), y) && r < y
    ensures var w := Times(x, c); RowOff(w, r) <= RowOff(w, r + 1) <= |f|
    ensures var w := Times(x, c);
      WriteAll(f[..RowOff(w, r + 1)], c) == WriteAll(f[..RowOff(w, r)], c) + WriteAll(RowAt(f, w, y, r), c)
  {
    hide WriteAll, Times;
    var w := Times(x, c);
    RowOffMono(w, r, y);
    RowOffTimes(x, r, c);
    WriteAllAppend(RowOff(x, r), f[..RowOff(w, r)], RowAt(f, w, y, r), c);
    assert f[..RowOff(w, r + 1)] == f[..RowOff(w, r)] + RowAt(f, w, y, r);
  }

  /** The packets of the first r rows. */
  ghost predicate RowsWritten(f: seq<byte>, x: nat, y: nat, c: nat, r: nat, ps: seq<Packet>)
    requires Comp(c) && |f| == RowOff(Times(x, c), y) && r <= y
  {
    && AllValid(ps, c) && RowOff(Times(x, c), r) <= |f|
    && Meanings(ps) == WriteAll(f[..RowOff(Times(x, c), r)], c)
  }

  lemma RowsWrittenMore(f: seq<byte>, x: nat, y: nat, c: nat, r: nat, ps: seq<Packet>, more: seq<Packet>)
    requires Comp(c) && |f| == RowOff(Times(x, c), y) && r < y && RowsWritten(f, x, y, c, r, ps)
    requires AllValid(more, c) && Meanings(more) == WriteAll(RowAt(f, Times(x, c), y, r), c)
    ensures RowsWritten(f, x, y, c, r + 1, ps + more)
  {
    hide WriteAll, Times, Meanings, Packet.Valid, RowAt;
    RowsGrow(f, x, y, r, c);
    PacketsAppend(ps, more);
  }

  lemma NoRowsWritten(f: seq<byte>, x: nat, y: nat, c: nat)
    requires Comp(c) && |f| == RowOff(Times(x, c), y)
    ensures RowsWritten(f, x, y, c, 0, []) && Stream([]) == []
  {
    hide Times;
  }

  lemma AllRowsWritten(f: seq<byte>, x: nat, y: nat, c: nat, ps: seq<Packet>)
    requires Comp(c) && |f| == RowOff(Times(x, c), y) && RowsWritten(f, x, y, c, y, ps)
    ensures AllValid(ps, c) && Meanings(ps) == WriteAll(f, c)
  {
    hide WriteAll, Times, AllValid, Meanings;
    assert f[..|f|] == f;
  }

  /** The row loop of stbi_write_tga_core. */
  method WriteRows(data: seq<byte>, x: nat, y: nat, c: nat, flip: bool) returns (out: seq<byte>, ghost ps: seq<Packet>)
    requires Comp(c) && |data| == RowOff(Times(x, c), y)
    ensures out == Stream(ps) && AllValid(ps, c)
    ensures Meanings(ps) == WriteAll(InOrder(data, Times(x, c), y, flip), c)
  {
    hide WriteAll, Times, AllValid, Meanings, Stream, RowsWritten, RowAt, InOrder;
    out, ps := [], [];
    ghost var f := InOrder(data, Times(x, c), y, flip);
    NoRowsWritten(f, x, y, c);
    var j: int, jend: int, jdir: int := y - 1, -1, -1;
    if flip {
      j, jend, jdir := 0, y, 1;
    }
    ghost var r: nat := 0;
    while j != jend
      invariant r <= y && j == if flip then r else y - 1 - r
      invariant jend == (if flip then y else -1) && jdir == if flip then 1 else -1
      invariant out == Stream(ps) && RowsWritten(f, x, y, c, r, ps)
      decreases y - r
    {
      var bytes;
      ghost var more;
      bytes, more := WriteRow(Row(RowAt(data, Times(x, c), y, j), x, c));
      InOrderRow(data, Times(x, c), y, flip, r);
      RowsWrittenMore(f, x, y, c, r, ps, more);
      PacketsAppend(ps, more);
      out := out + bytes;
      ps := ps + more;
      j := j + jdir;
      r := r + 1;
    }
    AllRowsWritten(f, x, y, c, ps);
  }

  /** What the loader sees after the header. */
  lemma PixelsReadBack(s: seq<byte>, pos: nat, data: seq<byte>, x: nat, y: nat, c: nat, flip: bool, ps: seq<Packet>)
    requires Comp(c) && |data| == RowOff(Times(x, c), y) && At(s, pos, Stream(ps)) && AllValid(ps, c)
    requires Meanings(ps) == WriteAll(InOrder(data, Times(x, c), y, flip), c)
    ensures LoadPixels(s, pos, x, y, c, true)
         == Picture(x, y, c, if flip then Flipped(data, Times(x, c), y) else data)
  {
    hide Times, WriteAll, At, AllValid, Meanings, Stream, Fresh, Flipped;
    var w := Times(x, c);
    var f := InOrder(data, w, y, flip);
    RowOffTimes(x, y, c);
    PacketsRead(s, pos, ps, RowOff(x, y), c);
    WriteAllFlipped(f, x, y, c);
    WriteAllTwice(Flipped(f, w, y), c);
    WriteAllTwice(f, c);
    FlippedTwice(data, w, y);
    WriteAllFlipped(WriteAll(f, c), x, y, c);
  }

  /**
    stbi_write_tga_core with run-length packets.  The reader gives the image back, upside
    down when the writer was told to flip, exactly when neither side is 0, both fit sixteen
    bits and the byte count fits an int.
  */
  method WriteTga(data: seq<byte>, x: nat, y: nat, c: nat, flip: bool) returns (out: seq<byte>)
    requires Comp(c) && |data| == RowOff(Times(x, c), y)
    ensures Open(out) == Picture(x, y, c, if flip then Flipped(data, Times(x, c), y) else data)
      <==> 1 <= x < 0x1_0000 && 1 <= y < 0x1_0000 && SizeFits(x, y, c)
    ensures Open(out) != Outside
  {
    hide Times, WriteAll, At, AllValid, Meanings, Stream, Flipped, Header, InOrder;
    var rows;
    ghost var ps;
    rows, ps := WriteRows(data, x, y, c, flip);
    out := Header(x, y, c) + rows;
    WholeFile(out, Header(x, y, c), rows);
    PixelsAreOfSize(out, x, y, c);
    if 1 <= x < 0x1_0000 && 1 <= y < 0x1_0000 && SizeFits(x, y, c) {
      PixelsReadBack(out, 18, data, x, y, c, flip, ps);
    }
  }

  /**
    Sixteen-bit sides are not enough: this image the writer still takes, since the offset
    (y - 1) * x of its last row fits an int, and whatever its pixels the reader refuses it.
  */
  lemma TooLarge(s: seq<byte>)
    requires At(s, 0, Header(65535, 32769, 1))
    ensures (32769 - 1) * 65535 <= 0x7FFF_FFFF && !SizeFits(65535, 32769, 1)
    ensures Open(s) == Fail
  {
    hide At, Header, SizeFits, LoadPixels, Open;
    SizeTooLarge();
    PixelsAreOfSize(s, 65535, 32769, 1);
  }

  lemma SizeTooLarge()
    ensures !SizeFits(65535, 32769, 1)
  {
    assert 65535 * 32769 == 0x8000_7FFF;
  }

  lemma WholeFile(s: seq<byte>, u: seq<byte>, v: seq<byte>)
    requires s == u + v
    ensures At(s, 0, u) && At(s, |u|, v)
  {
    assert s[0..|u|] == u && s[|u|..|u| + |v|] == v;
  }

  /** The reader believes the low sixteen bits of width and height. */
  lemma PixelsAreOfSize(s: seq<byte>, x: nat, y: nat, c: nat)
    requires Comp(c) && At(s, 0, Header(x, y, c))
    ensures var w, h := x % 0x1_0000, y % 0x1_0000;
      Open(s) == if w > 0 && h > 0 && SizeFits(w, h, c) then LoadPixels(s, 18, w, h, c, true) else Fail
    ensures Open(s).Picture? ==> Open(s).w == x % 0x1_0000 && Open(s).h == y % 0x1_0000
  {
    hide At, Header, SizeFits, Fresh, WriteAll, Flipped, Times;
    HeaderReads(s, x, y, c);
  }
}
