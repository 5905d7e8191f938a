/** Any run-length TGA file within the loader's subset, pixel by pixel. */
module TgaShown {
  import opened Bits
  import opened ByteStream
  import opened ImageRows
  import opened TgaPackets
  import opened TgaRead
  import opened TgaFile

  /** A packet is its length less one, with 128 on top for a run, and then one pixel or all of them. */
  lemma PacketIs(p: Packet, c: nat)
    requires Comp(c) && p.Valid(c)
    ensures p.Run? ==> p.Bytes() == [127 + p.len] + p.pixel
    ensures p.Raw? ==> p.Bytes() == [p.len - 1] + p.pixels
  {
  }

  /** Blue comes first in the file. */
  function Stored(k: nat, c: nat): nat { if c >= 3 && k == 0 then 2 else if c >= 3 && k == 2 then 0 else k }

  lemma PixelAt(p: seq<byte>, k: nat)
    requires Comp(|p|) && k < |p|
    ensures WritePixel(p)[k] == p[Stored(k, |p|)]
  {
  }

  lemma WriteFirst(s: seq<byte>, c: nat)
    requires Comp(c) && c <= |s|
    ensures WriteAll(s, c) == WritePixel(s[..c]) + WriteAll(s[c..], c)
  {
  }

  lemma {:induction false} SwappedAt(s: seq<byte>, n: nat, c: nat, i: nat, k: nat)
    requires Comp(c) && |s| == Times(n, c) && i < n && k < c
    ensures Times(i, c) + c <= |s| && WriteAll(s, c)[Times(i, c) + k] == s[Times(i, c) + Stored(k, c)]
    decreases i
  {
    hide Times, WriteAll, WritePixel;
    TimesStep(0, c);
    TimesStep(n - 1, c);
    WriteFirst(s, c);
    if i == 0 {
      PixelAt(s[..c], k);
    } else {
      TimesStep(i - 1, c);
      SwappedAt(s[c..], n - 1, c, i - 1, k);
    }
  }

  /** A header of eighteen bytes; those the loader does not look at may be anything. */
  function Head(id: nat, kind: byte, palette: seq<byte>, origin: seq<byte>, w: nat, h: nat, bits: byte, descr: byte)
    : seq<byte>
    requires id < 256 && |palette| == 5 && |origin| == 4 && w < 0x1_0000 && h < 0x1_0000
  {
    [id, 0, kind] + palette + origin + [w % 256, w / 256, h % 256, h / 256, bits, descr]
  }

  lemma HeadRead(s: seq<byte>, id: nat, kind: byte, palette: seq<byte>, origin: seq<byte>, w: nat, h: nat, bits: byte,
                 descr: byte)
    requires id < 256 && |palette| == 5 && |origin| == 4 && w < 0x1_0000 && h < 0x1_0000
    requires At(s, 0, Head(id, kind, palette, origin, w, h, bits, descr))
    ensures Get8(s, 0) == id && Get8(s, 1) == 0 && Get8(s, 2) == kind
    ensures Get16le(s, 12) == w && Get16le(s, 14) == h && Get8(s, 16) == bits && Get8(s, 17) == descr
  {
    hide At;
    var u := Head(id, kind, palette, origin, w, h, bits, descr);
    Get8At(s, 0, u, 0);
    Get8At(s, 0, u, 1);
    Get8At(s, 0, u, 2);
    Get8At(s, 0, u, 12);
    Get8At(s, 0, u, 13);
    Get8At(s, 0, u, 14);
    Get8At(s, 0, u, 15);
    Get8At(s, 0, u, 16);
    Get8At(s, 0, u, 17);
  }

  /** Stored pixels as they are shown. */
  function Shown(m: seq<byte>, w: nat, h: nat, c: nat, inverted: bool): (d: seq<byte>)
    requires Comp(c) && |m| == RowOff(Times(w, c), h)
    ensures |d| == |m|
  {
    WriteAll(if inverted then Flipped(m, Times(w, c), h) else m, c)
  }

  /**
    A picture of w x h pixels in run-length packets, behind any identification, is turned upside
    down unless bit 5 of the descriptor is set.
  */
  lemma FileMeans(s: seq<byte>, id: seq<byte>, palette: seq<byte>, origin: seq<byte>, w: nat, h: nat, c: nat,
                  descr: byte, ps: seq<Packet>)
    requires |id| < 256 && |palette| == 5 && |origin| == 4 && 0 < w < 0x1_0000 && 0 < h < 0x1_0000 && Comp(c)
    requires At(s, 0, Head(|id|, if c <= 2 then 11 else 10, palette, origin, w, h, 8 * c, descr) + (id + Stream(ps)))
    requires AllValid(ps, c) && |Meanings(ps)| == RowOff(Times(w, c), h)
    ensures Open(s) == if SizeFits(w, h, c) then Picture(w, h, c, Shown(Meanings(ps), w, h, c, descr / 32 % 2 == 0))
      else Fail
  {
    hide At, Head, Stream, Meanings, AllValid, Times, Shown, LoadPixels, SizeFits;
    var head := Head(|id|, if c <= 2 then 11 else 10, palette, origin, w, h, 8 * c, descr);
    HeadSize(|id|, if c <= 2 then 11 else 10, palette, origin, w, h, 8 * c, descr);
    AtSplit(s, 0, head, id + Stream(ps));
    AtSplit(s, 18, id, Stream(ps));
    HeadRead(s, |id|, if c <= 2 then 11 else 10, palette, origin, w, h, 8 * c, descr);
    RowOffTimes(w, h, c);
    PacketsRead(s, 18 + |id|, ps, RowOff(w, h), c);
    LoadIs(s, 18 + |id|, w, h, c, descr / 32 % 2 == 0);
  }

  lemma HeadSize(id: nat, kind: byte, palette: seq<byte>, origin: seq<byte>, w: nat, h: nat, bits: byte, descr: byte)
    requires id < 256 && |palette| == 5 && |origin| == 4 && w < 0x1_0000 && h < 0x1_0000
    ensures |Head(id, kind, palette, origin, w, h, bits, descr)| == 18
  {
  }

  /** Channel k of pixel i of row r, counted from the top, in an image of w pixels of c bytes to a row. */
  function Offset(w: nat, c: nat, r: nat, i: nat, k: nat): nat
    requires Comp(c)
  {
    Times(RowOff(w, r) + i, c) + k
  }

  /** Row r shows the stored row r, or r-th from the bottom, with blue and red exchanged. */
  lemma PixelShown(m: seq<byte>, w: nat, h: nat, c: nat, inverted: bool, r: nat, i: nat, k: nat)
    requires Comp(c) && |m| == RowOff(Times(w, c), h) && r < h && i < w && k < c
    ensures var row := if inverted then h - 1 - r else r;
      && Offset(w, c, r, i, k) < |m| && Offset(w, c, row, i, Stored(k, c)) < |m|
      && Shown(m, w, h, c, inverted)[Offset(w, c, r, i, k)] == m[Offset(w, c, row, i, Stored(k, c))]
  {
    hide WriteAll, Times, Flipped;
    var turned := if inverted then Flipped(m, Times(w, c), h) else m;
    RowOffTimes(w, h, c);
    PixelInside(w, h, r, i);
    SwappedAt(turned, RowOff(w, h), c, RowOff(w, r) + i, k);
    TurnedAt(m, inverted, w, h, c, r, i, Stored(k, c));
  }

  lemma LoadIs(s: seq<byte>, pos: nat, w: nat, h: nat, c: nat, inverted: bool)
    requires Comp(c)
    ensures var raw := Fresh(s, pos, RowOff(w, h), c);
      && |raw| == RowOff(Times(w, c), h)
      && LoadPixels(s, pos, w, h, c, inverted)
         == Picture(w, h, c, Shown(raw, w, h, c, inverted))
  {
    hide Fresh, Flipped, WriteAll, Times;
    RowOffTimes(w, h, c);
  }

  lemma PixelInside(w: nat, h: nat, r: nat, i: nat)
    requires r < h && i < w
    ensures RowOff(w, r) + i < RowOff(w, h)
  {
    RowOffMono(w, r, h);
  }

  /** A pixel within its row. */
  lemma TurnedAt(m: seq<byte>, inverted: bool, w: nat, h: nat, c: nat, r: nat, i: nat, k: nat)
    requires Comp(c) && |m| == RowOff(Times(w, c), h) && r < h && i < w && k < c
    ensures var turned, row := if inverted then Flipped(m, Times(w, c), h) else m, if inverted then h - 1 - r else r;
      && |turned| == |m| && Times(RowOff(w, r) + i, c) + k < |m| && Times(RowOff(w, row) + i, c) + k < |m|
      && turned[Times(RowOff(w, r) + i, c) + k] == m[Times(RowOff(w, row) + i, c) + k]
  {
    hide Times, Flipped;
    var u, row := Times(w, c), if inverted then h - 1 - r else r;
    var turned := if inverted then Flipped(m, u, h) else m;
    RowOffTimes(w, r, c);
    RowOffTimes(w, row, c);
    TimesAdd(RowOff(w, r), i, c);
    TimesAdd(RowOff(w, row), i, c);
    TimesMono(i + 1, w, c);
    TimesStep(i, c);
    RowOffMono(u, r, h);
    RowOffMono(u, row, h);
    if inverted {
      FlippedRow(m, u, h, r);
    }
    assert turned[RowOff(u, r) + (Times(i, c) + k)] == RowAt(turned, u, h, r)[Times(i, c) + k];
    assert m[RowOff(u, row) + (Times(i, c) + k)] == RowAt(m, u, h, row)[Times(i, c) + k];
  }

  lemma FlippedRow(m: seq<byte>, u: nat, h: nat, r: nat)
    requires |m| == RowOff(u, h) && r < h
    ensures RowAt(Flipped(m, u, h), u, h, r) == RowAt(m, u, h, h - 1 - r)
  {
    FlipRow(m, u, h, h, r);
  }

  lemma TimesAdd(a: nat, b: nat, c: nat)
    requires Comp(c)
    ensures Times(a + b, c) == Times(a, c) + Times(b, c)
  {
  }

  /** Files the format test lets through: true colour and gray images, or palettes of a known entry size. */
  lemma TestIs(s: seq<byte>)
    ensures Test(s) <==>
      && Get16le(s, 12) > 0 && Get16le(s, 14) > 0 && Get8(s, 16) in {8, 15, 16, 24, 32}
      && ((Get8(s, 1) == 0 && Get8(s, 2) in {2, 3, 10, 11})
          || (Get8(s, 1) == 1 && Get8(s, 2) in {1, 9} && Get8(s, 7) in {8, 15, 16, 24, 32} && Get8(s, 16) in {8, 16}))
  {
  }
}
