/** Adam7 de-interlacing (W3C PNG, second edition, section 8.2) in stbi__create_png_image. */
module Adam7 {
  import opened Bits
  import opened PngRaw

  function XOrig(p: nat): nat requires p < 7 { if p == 1 then 4 else if p == 3 then 2 else if p == 5 then 1 else 0 }
  function YOrig(p: nat): nat requires p < 7 { if p == 2 then 4 else if p == 4 then 2 else if p == 6 then 1 else 0 }
  function XSpc(p: nat): (s: nat)
    requires p < 7
    ensures s > XOrig(p)
  {
    if p < 2 then 8 else if p < 4 then 4 else if p < 6 then 2 else 1
  }
  function YSpc(p: nat): (s: nat)
    requires p < 7
    ensures s > YOrig(p)
  {
    if p < 3 then 8 else if p < 5 then 4 else 2
  }

  lemma OriginTables(p: nat)
    requires p < 7
    ensures XOrig(p) == [0, 4, 0, 2, 0, 1, 0][p] && YOrig(p) == [0, 0, 4, 0, 2, 0, 1][p]
    ensures XSpc(p) == [8, 8, 4, 4, 2, 2, 1][p] && YSpc(p) == [8, 8, 8, 4, 4, 2, 2][p]
  {
  }

  function PassWidth(p: nat, w: nat): nat requires p < 7 { (w - XOrig(p) + XSpc(p) - 1) / XSpc(p) }
  function PassHeight(p: nat, h: nat): nat requires p < 7 { (h - YOrig(p) + YSpc(p) - 1) / YSpc(p) }

  /** The pass a pixel belongs to, from its coordinates modulo 8. */
  function PassOf(r: nat, c: nat): (p: nat)
    ensures p < 7
  {
    if r % 2 == 1 then 6
    else if c % 2 == 1 then 5
    else if r % 4 == 2 then 4
    else if c % 4 == 2 then 3
    else if r % 8 == 4 then 2
    else if c % 8 == 4 then 1
    else 0
  }

  /** The place of a pixel inside its pass. */
  function PassCol(c: nat, p: nat): nat requires p < 7 { if c < XOrig(p) then 0 else (c - XOrig(p)) / XSpc(p) }
  function PassRow(r: nat, p: nat): nat requires p < 7 { if r < YOrig(p) then 0 else (r - YOrig(p)) / YSpc(p) }

  function ImageCol(i: nat, p: nat): nat requires p < 7 { i * XSpc(p) + XOrig(p) }
  function ImageRow(j: nat, p: nat): nat requires p < 7 { j * YSpc(p) + YOrig(p) }

  // ---- one axis ----

  predicate Spacing(s: nat) { s == 1 || s == 2 || s == 4 || s == 8 }

  lemma Axis(c: nat, o: nat, s: nat, w: nat)
    requires Spacing(s) && o < s && c < w && c % s == o
    ensures c >= o && (c - o) / s * s + o == c && (c - o) / s < (w - o + s - 1) / s
  {
    if s == 1 {
    } else if s == 2 {
    } else if s == 4 {
    } else {
    }
  }

  lemma AxisBack(i: nat, o: nat, s: nat, w: nat)
    requires Spacing(s) && o < s && i < (w - o + s - 1) / s
    ensures i * s + o < w && (i * s + o) % s == o && (i * s + o - o) / s == i
  {
    if s == 2 {
      AxisBack2(i, o, w);
    } else if s == 4 {
      AxisBack4(i, o, w);
    } else if s == 8 {
      AxisBack8(i, o, w);
    }
  }

  lemma AxisBack2(i: nat, o: nat, w: nat)
    requires o < 2 && i < (w - o + 1) / 2
    ensures i * 2 + o < w && (i * 2 + o) % 2 == o && (i * 2) / 2 == i
  {
  }

  lemma AxisBack4(i: nat, o: nat, w: nat)
    requires o < 4 && i < (w - o + 3) / 4
    ensures i * 4 + o < w && (i * 4 + o) % 4 == o && (i * 4) / 4 == i
  {
  }

  lemma AxisBack8(i: nat, o: nat, w: nat)
    requires o < 8 && i < (w - o + 7) / 8
    ensures i * 8 + o < w && (i * 8 + o) % 8 == o && (i * 8) / 8 == i
  {
  }

  lemma PassResidue(r: nat, c: nat)
    ensures var p := PassOf(r, c);
      c % XSpc(p) == XOrig(p) && r % YSpc(p) == YOrig(p)
  {
    if r % 2 == 0 && c % 2 == 0 {
      Halves(r, c, PassOf(r, c));
    }
  }

  lemma Halves(r: nat, c: nat, p: nat)
    requires r % 2 == 0 && c % 2 == 0 && p == PassOf(r, c)
    ensures c % XSpc(p) == XOrig(p) && r % YSpc(p) == YOrig(p)
  {
    Mod4Even(r);
    Mod4Even(c);
    Mod8Even(r);
    Mod8Even(c);
  }

  lemma Mod4Even(r: nat)
    ensures r % 2 == 0 ==> r % 4 == 0 || r % 4 == 2
  {
    var q := r / 4;
    assert r == 4 * q + r % 4;
    assert r % 4 == 1 ==> r == 2 * (2 * q) + 1;
    assert r % 4 == 3 ==> r == 2 * (2 * q + 1) + 1;
  }

  lemma Mod8Even(r: nat)
    ensures r % 4 == 0 ==> r % 8 == 0 || r % 8 == 4
  {
    var q := r / 8;
    assert r == 8 * q + r % 8;
    assert r % 8 < 4 ==> r == 4 * (2 * q) + r % 8;
    assert r % 8 >= 4 ==> r == 4 * (2 * q + 1) + (r % 8 - 4);
  }

  lemma ResiduePass(r: nat, c: nat, p: nat)
    requires p < 7 && c % XSpc(p) == XOrig(p) && r % YSpc(p) == YOrig(p)
    ensures PassOf(r, c) == p
  {
  }

  /** The passes partition the image: every pixel has a place in its pass ... */
  lemma PixelHasPlace(r: nat, c: nat, w: nat, h: nat)
    requires r < h && c < w
    ensures var p := PassOf(r, c);
      && PassCol(c, p) < PassWidth(p, w) && PassRow(r, p) < PassHeight(p, h)
      && ImageCol(PassCol(c, p), p) == c && ImageRow(PassRow(r, p), p) == r
  {
    var p := PassOf(r, c);
    PassResidue(r, c);
    hide PassOf;
    Axis(c, XOrig(p), XSpc(p), w);
    Axis(r, YOrig(p), YSpc(p), h);
  }

  /** ... and every place of every pass is one pixel of the image, in no other pass. */
  lemma PlaceHasPixel(i: nat, j: nat, p: nat, w: nat, h: nat)
    requires p < 7 && i < PassWidth(p, w) && j < PassHeight(p, h)
    ensures ImageCol(i, p) < w && ImageRow(j, p) < h
    ensures PassOf(ImageRow(j, p), ImageCol(i, p)) == p
    ensures PassCol(ImageCol(i, p), p) == i && PassRow(ImageRow(j, p), p) == j
  {
    hide PassOf;
    AxisBack(i, XOrig(p), XSpc(p), w);
    AxisBack(j, YOrig(p), YSpc(p), h);
    ResiduePass(ImageRow(j, p), ImageCol(i, p), p);
  }

  // ---- copying a pass into the image ----

  /** The index of pixel (r, c) of an image w pixels wide. */
  function Idx(r: nat, c: nat, w: nat): nat { r * w + c }

  lemma IdxInside(r: nat, c: nat, w: nat, h: nat)
    requires r < h && c < w
    ensures Idx(r, c, w) < w * h
  {
    assert (r + 1) * w <= h * w;
  }

  lemma RowGap(r: nat, r': nat, w: nat)
    requires r < r'
    ensures r * w + w <= r' * w
  {
    assert (r + 1) * w <= r' * w;
  }

  lemma IdxInjective(r: nat, c: nat, r': nat, c': nat, w: nat)
    requires c < w && c' < w && Idx(r, c, w) == Idx(r', c', w)
    ensures r == r' && c == c'
  {
    if r < r' {
      RowGap(r, r', w);
      assert false;
    } else if r' < r {
      RowGap(r', r, w);
      assert false;
    }
  }

  /** Pixel (j, i) of a pass: n bytes of its rows of x pixels. */
  function Chunk(px: seq<byte>, x: nat, n: nat, j: nat, i: nat): seq<byte>
  {
    var o := Idx(j, i, x) * n;
    if o + n <= |px| then px[o..o + n] else []
  }

  lemma ChunkInside(x: nat, y: nat, n: nat, j: nat, i: nat)
    requires i < x && j < y
    ensures Idx(j, i, x) * n + n <= x * n * y
  {
    IdxInside(j, i, x, y);
    assert (Idx(j, i, x) + 1) * n <= x * y * n;
    assert x * y * n == x * n * y;
  }

  /** Pass p has been copied up to place (j, i): its pixels before that place are set, all others are as in `was`. */
  ghost predicate Copied(image: seq<seq<byte>>, was: seq<seq<byte>>, w: nat, h: nat, p: nat, px: seq<byte>, x: nat,
                         n: nat, j: nat, i: nat)
    requires p < 7
  {
    |image| == |was| == w * h && forall r, c :: 0 <= r < h && 0 <= c < w ==>
      Idx(r, c, w) < w * h && image[Idx(r, c, w)] ==
        if PassOf(r, c) == p && (PassRow(r, p) < j || (PassRow(r, p) == j && PassCol(c, p) < i))
        then Chunk(px, x, n, PassRow(r, p), PassCol(c, p)) else was[Idx(r, c, w)]
  }

  lemma CopiedStep(image: seq<seq<byte>>, was: seq<seq<byte>>, w: nat, h: nat, p: nat, px: seq<byte>, x: nat, n: nat,
                   j: nat, i: nat)
    requires p < 7 && x == PassWidth(p, w) && i < x && j < PassHeight(p, h)
    requires Copied(image, was, w, h, p, px, x, n, j, i)
    ensures ImageRow(j, p) < h && ImageCol(i, p) < w && Idx(ImageRow(j, p), ImageCol(i, p), w) < w * h
    ensures Copied(image[Idx(ImageRow(j, p), ImageCol(i, p), w) := Chunk(px, x, n, j, i)], was, w, h, p, px, x, n, j,
      i + 1)
  {
    hide PassOf, Chunk, ImageRow, ImageCol, PassRow, PassCol, PassWidth, PassHeight, Idx;
    PlaceHasPixel(i, j, p, w, h);
    var r0, c0 := ImageRow(j, p), ImageCol(i, p);
    IdxInside(r0, c0, w, h);
    forall r, c | 0 <= r < h && 0 <= c < w && Idx(r, c, w) == Idx(r0, c0, w)
      ensures r == r0 && c == c0
    {
      IdxInjective(r, c, r0, c0, w);
    }
    forall r, c | 0 <= r < h && 0 <= c < w && PassOf(r, c) == p && PassRow(r, p) == j && PassCol(c, p) == i
      ensures r == r0 && c == c0
    {
      PixelHasPlace(r, c, w, h);
    }
  }

  lemma CopiedRow(image: seq<seq<byte>>, was: seq<seq<byte>>, w: nat, h: nat, p: nat, px: seq<byte>, x: nat, n: nat,
                  j: nat)
    requires p < 7 && x == PassWidth(p, w)
    requires Copied(image, was, w, h, p, px, x, n, j, x)
    ensures Copied(image, was, w, h, p, px, x, n, j + 1, 0)
  {
    hide PassOf, Chunk, PassRow, PassCol, PassWidth, Idx;
    forall r, c | 0 <= r < h && 0 <= c < w && PassOf(r, c) == p ensures PassCol(c, p) < x {
      PixelHasPlace(r, c, w, h);
    }
  }

  method CopyPass(image: array<seq<byte>>, w: nat, h: nat, p: nat, out: array<byte>, x: nat, y: nat, n: nat)
    requires p < 7 && image.Length == w * h && x == PassWidth(p, w) && y == PassHeight(p, h) && out.Length == x * n * y
    modifies image
    ensures Copied(image[..], old(image[..]), w, h, p, out[..], x, n, y, 0)
  {
    hide Copied, PassOf, Chunk, Idx, PassWidth, PassHeight;
    ghost var was, px := image[..], out[..];
    CopiedStart(was, w, h, p, px, x, n);
    for j := 0 to y
      invariant Copied(image[..], was, w, h, p, px, x, n, j, 0) && out[..] == px
    {
      for i := 0 to x
        invariant Copied(image[..], was, w, h, p, px, x, n, j, i) && out[..] == px
      {
        var out_y := j * YSpc(p) + YOrig(p);
        var out_x := i * XSpc(p) + XOrig(p);
        CopiedStep(image[..], was, w, h, p, px, x, n, j, i);
        PutPixel(image, out, w, out_y, out_x, x, y, n, j, i);
      }
      CopiedRow(image[..], was, w, h, p, px, x, n, j);
    }
  }

  lemma CopiedStart(was: seq<seq<byte>>, w: nat, h: nat, p: nat, px: seq<byte>, x: nat, n: nat)
    requires p < 7 && |was| == w * h
    ensures Copied(was, was, w, h, p, px, x, n, 0, 0)
  {
    forall r, c | 0 <= r < h && 0 <= c < w ensures Idx(r, c, w) < w * h {
      IdxInside(r, c, w, h);
    }
  }

  /** The memcpy of one pixel. */
  method PutPixel(image: array<seq<byte>>, out: array<byte>, w: nat, out_y: nat, out_x: nat, x: nat, y: nat, n: nat,
                  j: nat, i: nat)
    requires Idx(out_y, out_x, w) < image.Length && i < x && j < y && out.Length == x * n * y
    modifies image
    ensures image[..] == old(image[..])[Idx(out_y, out_x, w) := Chunk(out[..], x, n, j, i)]
  {
    ChunkInside(x, y, n, j, i);
    var o := (j * x + i) * n;
    image[out_y * w + out_x] := out[o..o + n];
    assert out[..][o..o + n] == out[o..o + n];
  }

  // ---- all seven passes ----

  predicate Interlaceable(f: Format)
  {
    (f.depth == 8 || (f.img_n == 1 && (f.depth == 1 || f.depth == 2 || f.depth == 4)))
    && f.img_n > 0 && (f.out_n == f.img_n || f.out_n == f.img_n + 1)
  }

  function PassFormat(f: Format, p: nat, w: nat): (g: Format)
    requires Interlaceable(f) && p < 7
    ensures PassWidth(p, w) > 0 ==> g.Valid()
  {
    OneChannelFits(f, PassWidth(p, w));
    f.(x := PassWidth(p, w))
  }

  lemma OneChannelFits(f: Format, x: nat)
    requires Interlaceable(f)
    ensures x > 0 ==> f.(x := x).Valid()
  {
    hide Format.WidthBytes;
    if f.depth < 8 {
      GrayFits(f.(x := x));
    }
  }

  lemma GrayFits(f: Format)
    requires f.img_n == 1 && (f.depth == 1 || f.depth == 2 || f.depth == 4)
    ensures f.WidthBytes() <= f.x
  {
    assert f.img_n * f.x == f.x;
  }

  function PassLength(f: Format, w: nat, h: nat, p: nat): nat
    requires Interlaceable(f) && p < 7
  {
    if PassWidth(p, w) > 0 && PassHeight(p, h) > 0
    then (PassFormat(f, p, w).WidthBytes() + 1) * PassHeight(p, h) else 0
  }

  /** Where the data of pass p begins. */
  function PassStart(f: Format, w: nat, h: nat, p: nat): nat
    requires Interlaceable(f) && p <= 7
  {
    if p == 0 then 0 else PassStart(f, w, h, p - 1) + PassLength(f, w, h, p - 1)
  }

  predicate PassValid(f: Format, raw: seq<byte>, w: nat, h: nat, p: nat)
    requires Interlaceable(f) && p < 7
  {
    PassWidth(p, w) > 0 && PassHeight(p, h) > 0 ==>
      var s, g := PassStart(f, w, h, p), PassFormat(f, p, w);
      && s + PassLength(f, w, h, p) <= |raw|
      && Off(g.WidthBytes(), PassHeight(p, h)) <= |raw| - s
      && FiltersValid(raw[s..], g.WidthBytes(), PassHeight(p, h))
  }

  /** The pixels of pass p, rows of PassWidth pixels. */
  function PassPixels(f: Format, raw: seq<byte>, w: nat, h: nat, p: nat): seq<byte>
    requires Interlaceable(f) && p < 7 && PassValid(f, raw, w, h, p)
  {
    if PassWidth(p, w) > 0 && PassHeight(p, h) > 0
    then Pixels(PassFormat(f, p, w), raw[PassStart(f, w, h, p)..], PassHeight(p, h)) else []
  }

  /** Pixel (r, c) of the interlaced image: its place in the pass it belongs to. */
  function InterlacedPixel(f: Format, raw: seq<byte>, w: nat, h: nat, r: nat, c: nat): seq<byte>
    requires Interlaceable(f) && PassValid(f, raw, w, h, PassOf(r, c))
  {
    var p := PassOf(r, c);
    Chunk(PassPixels(f, raw, w, h, p), PassWidth(p, w), f.out_n, PassRow(r, p), PassCol(c, p))
  }

  /** The pixels of the first p passes are in place. */
  ghost predicate Filled(image: seq<seq<byte>>, f: Format, raw: seq<byte>, w: nat, h: nat, p: nat)
    requires Interlaceable(f) && p <= 7
  {
    && |image| == w * h
    && (forall q :: 0 <= q < p ==> PassValid(f, raw, w, h, q))
    && forall r, c :: 0 <= r < h && 0 <= c < w && PassOf(r, c) < p ==>
         Idx(r, c, w) < w * h && image[Idx(r, c, w)] == InterlacedPixel(f, raw, w, h, r, c)
  }

  lemma FilledStep(image: seq<seq<byte>>, was: seq<seq<byte>>, f: Format, raw: seq<byte>, w: nat, h: nat, p: nat)
    requires Interlaceable(f) && p < 7 && Filled(was, f, raw, w, h, p) && PassValid(f, raw, w, h, p)
    requires Copied(image, was, w, h, p, PassPixels(f, raw, w, h, p), PassWidth(p, w), f.out_n, PassHeight(p, h), 0)
    ensures Filled(image, f, raw, w, h, p + 1)
  {
    hide PassOf, Chunk, PassRow, PassCol, PassWidth, PassHeight, Idx, PassValid, PassPixels;
    forall r, c | 0 <= r < h && 0 <= c < w && PassOf(r, c) == p ensures PassRow(r, p) < PassHeight(p, h) {
      PixelHasPlace(r, c, w, h);
    }
  }

  lemma FilledEmpty(image: seq<seq<byte>>, f: Format, raw: seq<byte>, w: nat, h: nat, p: nat)
    requires Interlaceable(f) && p < 7 && Filled(image, f, raw, w, h, p)
    requires PassWidth(p, w) == 0 || PassHeight(p, h) == 0
    ensures Filled(image, f, raw, w, h, p + 1)
  {
    assert PassValid(f, raw, w, h, p);
    hide PassOf, Chunk, PassRow, PassCol, PassWidth, PassHeight, Idx, PassPixels, InterlacedPixel;
    forall r, c | 0 <= r < h && 0 <= c < w ensures PassOf(r, c) != p {
      PixelHasPlace(r, c, w, h);
    }
  }

  /**
    The interlaced half of stbi__create_png_image.  Pixels of the result are indexed by
    out_y * img_x + out_x.
  */
  method CreateInterlaced(f: Format, raw: seq<byte>, w: nat, h: nat) returns (ok: bool, image: array<seq<byte>>)
    requires Interlaceable(f)
    ensures ok <==> forall p :: 0 <= p < 7 ==> PassValid(f, raw, w, h, p)
    ensures ok ==> image.Length == w * h && forall r, c :: 0 <= r < h && 0 <= c < w ==>
      Idx(r, c, w) < w * h && image[Idx(r, c, w)] == InterlacedPixel(f, raw, w, h, r, c)
  {
    hide PassOf, Chunk, Idx, InterlacedPixel, PassWidth, PassHeight, PassValid, PassStart, PassPixels;
    image := new seq<byte>[w * h](_ => []);
    var start := 0;
    PassStartZero(f, w, h);
    for p := 0 to 7
      invariant start == PassStart(f, w, h, p)
      invariant fresh(image) && image.Length == w * h && Filled(image[..], f, raw, w, h, p)
      invariant start <= |raw|
    {
      ok, start := OnePass(f, raw, w, h, p, start, image);
      if !ok {
        return;
      }
    }
    return true, image;
  }

  lemma PassStartZero(f: Format, w: nat, h: nat)
    requires Interlaceable(f)
    ensures PassStart(f, w, h, 0) == 0
  {
  }

  method OnePass(f: Format, raw: seq<byte>, w: nat, h: nat, p: nat, start: nat, image: array<seq<byte>>)
    returns (ok: bool, next: nat)
    requires Interlaceable(f) && p < 7 && start == PassStart(f, w, h, p) <= |raw|
    requires image.Length == w * h && Filled(image[..], f, raw, w, h, p)
    modifies image
    ensures ok <==> PassValid(f, raw, w, h, p)
    ensures ok ==> next == PassStart(f, w, h, p + 1) <= |raw| && Filled(image[..], f, raw, w, h, p + 1)
  {
    hide PassOf, Chunk, Idx, InterlacedPixel, PassWidth, PassHeight, Pixels, Filled, Copied;
    var x, y := PassWidth(p, w), PassHeight(p, h);
    if x > 0 && y > 0 {
      var g := PassFormat(f, p, w);
      var out;
      ok, out := CreateImageRaw(g, raw[start..], y);
      if !ok {
        return false, start;
      }
      ghost var was := image[..];
      assert out.Length == x * f.out_n * y;
      CopyPass(image, w, h, p, out, x, y, f.out_n);
      FilledStep(image[..], was, f, raw, w, h, p);
      next := start + (g.WidthBytes() + 1) * y;
    } else {
      FilledEmpty(image[..], f, raw, w, h, p);
      ok, next := true, start;
    }
  }

  /** De-interlacing inverts extraction: passes taken from an image give that image back. */
  lemma DeinterlaceInvertsExtraction(image: seq<seq<byte>>, original: seq<seq<byte>>, passes: seq<seq<byte>>, w: nat,
                                     h: nat, n: nat)
    requires |image| == |original| == w * h && |passes| == 7
    requires forall r, c :: 0 <= r < h && 0 <= c < w ==>
      && Idx(r, c, w) < w * h
      && var p := PassOf(r, c);
         image[Idx(r, c, w)] == Chunk(passes[p], PassWidth(p, w), n, PassRow(r, p), PassCol(c, p))
    requires forall p, i, j :: 0 <= p < 7 && 0 <= i < PassWidth(p, w) && 0 <= j < PassHeight(p, h) ==>
      && Idx(ImageRow(j, p), ImageCol(i, p), w) < w * h
      && Chunk(passes[p], PassWidth(p, w), n, j, i) == original[Idx(ImageRow(j, p), ImageCol(i, p), w)]
    ensures forall r, c :: 0 <= r < h && 0 <= c < w ==>
      && Idx(r, c, w) < w * h
      && image[Idx(r, c, w)] == original[Idx(r, c, w)]
  {
    hide PassOf, Chunk, Idx, PassWidth, PassHeight, PassRow, PassCol, ImageRow, ImageCol;
    forall r, c | 0 <= r < h && 0 <= c < w
      ensures Idx(r, c, w) < w * h && image[Idx(r, c, w)] == original[Idx(r, c, w)]
    {
      PixelHasPlace(r, c, w, h);
      IdxInside(r, c, w, h);
    }
  }
}
