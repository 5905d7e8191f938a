/**
  Interlaced images read back: the pixels of an image taken pass by pass (W3C PNG, second
  edition, section 8.2), packed, filtered, and de-interlaced again.
*/
module Adam7RoundTrip {
  import opened Bits
  import opened ImageRows
  import opened PngFilter
  import opened PngWriteLine
  import opened PngReadLine
  import opened PngUnpack
  import opened PngPack
  import opened PngRaw
  import opened PngWrite
  import opened Adam7

  // ---- extraction ----

  /** A w by h image of pixels of n bytes. */
  predicate Pixelated(px: seq<seq<byte>>, w: nat, h: nat, n: nat)
  {
    |px| == w * h && n > 0 && forall i :: 0 <= i < |px| ==> |px[i]| == n
  }

  /** Where the pixel at place (j, i) of pass p is in the image. */
  function PlaceIdx(w: nat, h: nat, p: nat, j: nat, i: nat): (k: nat)
    requires p < 7 && j < PassHeight(p, h) && i < PassWidth(p, w)
    ensures k < w * h
  {
    PlaceHasPixel(i, j, p, w, h);
    IdxInside(ImageRow(j, p), ImageCol(i, p), w, h);
    Idx(ImageRow(j, p), ImageCol(i, p), w)
  }

  function Place(px: seq<seq<byte>>, w: nat, h: nat, n: nat, p: nat, j: nat, i: nat): (r: seq<byte>)
    requires p < 7 && Pixelated(px, w, h, n) && j < PassHeight(p, h) && i < PassWidth(p, w)
    ensures |r| == n
  {
    px[PlaceIdx(w, h, p, j, i)]
  }

  /** The first i pixels of row j of pass p. */
  function PassRowBytes(px: seq<seq<byte>>, w: nat, h: nat, n: nat, p: nat, j: nat, i: nat): (r: seq<byte>)
    requires p < 7 && Pixelated(px, w, h, n) && j < PassHeight(p, h) && i <= PassWidth(p, w)
    ensures |r| == RowOff(n, i)
  {
    if i == 0 then [] else PassRowBytes(px, w, h, n, p, j, i - 1) + Place(px, w, h, n, p, j, i - 1)
  }

  lemma {:induction false} PassRowAt(px: seq<seq<byte>>, w: nat, h: nat, n: nat, p: nat, j: nat, i: nat, k: nat)
    requires p < 7 && Pixelated(px, w, h, n) && j < PassHeight(p, h) && k < i <= PassWidth(p, w)
    ensures RowOff(n, k) + n <= RowOff(n, i)
    ensures PassRowBytes(px, w, h, n, p, j, i)[RowOff(n, k)..RowOff(n, k) + n] == Place(px, w, h, n, p, j, k)
    decreases i
  {
    hide Place, Pixelated, PassWidth, PassHeight;
    RowOffMono(n, k, i);
    if k < i - 1 {
      PassRowAt(px, w, h, n, p, j, i - 1, k);
    }
  }

  /** The first j rows of pass p. */
  function PassBytes(px: seq<seq<byte>>, w: nat, h: nat, n: nat, p: nat, j: nat): (r: seq<byte>)
    requires p < 7 && Pixelated(px, w, h, n) && j <= PassHeight(p, h)
    ensures |r| == RowOff(RowOff(n, PassWidth(p, w)), j)
  {
    if j == 0 then []
    else PassBytes(px, w, h, n, p, j - 1) + PassRowBytes(px, w, h, n, p, j - 1, PassWidth(p, w))
  }

  lemma {:induction false} PassBytesAt(px: seq<seq<byte>>, w: nat, h: nat, n: nat, p: nat, j: nat, k: nat)
    requires p < 7 && Pixelated(px, w, h, n) && k < j <= PassHeight(p, h)
    ensures var len := RowOff(n, PassWidth(p, w));
      && RowOff(len, k) + len <= RowOff(len, j)
      && PassBytes(px, w, h, n, p, j)[RowOff(len, k)..RowOff(len, k) + len]
         == PassRowBytes(px, w, h, n, p, k, PassWidth(p, w))
    decreases j
  {
    hide PassRowBytes, Pixelated, PassWidth, PassHeight;
    RowOffMono(RowOff(n, PassWidth(p, w)), k, j);
    if k < j - 1 {
      PassBytesAt(px, w, h, n, p, j - 1, k);
    }
  }

  lemma {:induction false} RowOffRows(n: nat, x: nat, j: nat)
    ensures RowOff(n, j * x) == RowOff(RowOff(n, x), j)
    decreases j
  {
    if j > 0 {
      RowOffRows(n, x, j - 1);
      assert j * x == (j - 1) * x + x;
      RowOffAdd(n, (j - 1) * x, x);
    }
  }

  lemma PlaceOffset(x: nat, n: nat, j: nat, i: nat)
    ensures Idx(j, i, x) * n == RowOff(RowOff(n, x), j) + RowOff(n, i)
  {
    hide RowOff, Idx;
    IdxIs(j, i, x);
    BytesOf(n, Idx(j, i, x));
    RowOffAdd(n, j * x, i);
    RowOffRows(n, x, j);
  }

  lemma IdxIs(j: nat, i: nat, x: nat)
    ensures Idx(j, i, x) == j * x + i
  {
  }

  lemma BytesOf(n: nat, k: nat)
    ensures k * n == RowOff(n, k)
  {
    hide RowOff;
    RowOffIs(n, k);
  }

  /** The reader's address of a place in a pass finds the pixel. */
  lemma ChunkIsPlace(px: seq<seq<byte>>, w: nat, h: nat, n: nat, p: nat, j: nat, i: nat)
    requires p < 7 && Pixelated(px, w, h, n) && j < PassHeight(p, h) && i < PassWidth(p, w)
    ensures Chunk(PassBytes(px, w, h, n, p, PassHeight(p, h)), PassWidth(p, w), n, j, i) == Place(px, w, h, n, p, j, i)
  {
    hide PassBytes, PassRowBytes, Place, Pixelated, PassWidth, PassHeight, Idx, RowOff;
    var x, y := PassWidth(p, w), PassHeight(p, h);
    var all, row := PassBytes(px, w, h, n, p, y), PassRowBytes(px, w, h, n, p, j, x);
    PlaceOffset(x, n, j, i);
    PassBytesAt(px, w, h, n, p, y, j);
    PassRowAt(px, w, h, n, p, j, x, i);
    var a, b := RowOff(RowOff(n, x), j), RowOff(n, i);
    SliceOfSlice(all, a, a + RowOff(n, x), b, b + n);
  }

  lemma SliceOfSlice(s: seq<byte>, a: nat, e: nat, i: nat, j: nat)
    requires a <= e <= |s| && i <= j <= e - a
    ensures s[a..e][i..j] == s[a + i..a + j]
  {
    assert forall k :: 0 <= k < j - i ==> s[a..e][i..j][k] == s[a + i..a + j][k];
  }

  // ---- what the reader shows of a pixel ----

  /** A w by h image in format f; samples of less than eight bits fit their depth. */
  predicate Source(px: seq<seq<byte>>, w: nat, h: nat, f: Format)
  {
    && Interlaceable(f) && Pixelated(px, w, h, f.img_n)
    && (f.depth < 8 ==> forall i :: 0 <= i < |px| ==> px[i][0] < Pow2(f.depth))
  }

  /** A pixel with its samples scaled to eight bits. */
  function Widened(f: Format, pixel: seq<byte>): (r: seq<byte>)
    requires Interlaceable(f) && |pixel| == f.img_n && (f.depth < 8 ==> pixel[0] < Pow2(f.depth))
    ensures |r| == f.img_n
  {
    if f.depth == 8 then pixel else [ScaledSample(pixel[0], f.depth, f.color)]
  }

  /** And with alpha, when one channel more is asked for. */
  function Shown(f: Format, pixel: seq<byte>): (r: seq<byte>)
    requires Interlaceable(f) && |pixel| == f.img_n && (f.depth < 8 ==> pixel[0] < Pow2(f.depth))
    ensures |r| == f.out_n
  {
    Widened(f, pixel) + if f.out_n == f.img_n then [] else [255]
  }

  function WidenedAll(f: Format, px: seq<seq<byte>>, w: nat, h: nat): (r: seq<seq<byte>>)
    requires Source(px, w, h, f)
    ensures Pixelated(r, w, h, f.img_n) && forall i :: 0 <= i < |px| ==> r[i] == Widened(f, px[i])
  {
    seq(|px|, i requires 0 <= i < |px| => Widened(f, px[i]))
  }

  function ShownAll(f: Format, px: seq<seq<byte>>, w: nat, h: nat): (r: seq<seq<byte>>)
    requires Source(px, w, h, f)
    ensures Pixelated(r, w, h, f.out_n) && forall i :: 0 <= i < |px| ==> r[i] == Shown(f, px[i])
  {
    seq(|px|, i requires 0 <= i < |px| => Shown(f, px[i]))
  }

  // ---- a coded row ----

  /** Pass p of a w by h image has pixels. */
  predicate Any(p: nat, w: nat, h: nat)
    requires p < 7
  {
    PassWidth(p, w) > 0 && PassHeight(p, h) > 0
  }

  lemma {:induction false} RowFits(f: Format, px: seq<seq<byte>>, w: nat, h: nat, p: nat, j: nat, i: nat)
    requires p < 7 && Source(px, w, h, f) && f.depth < 8 && j < PassHeight(p, h) && i <= PassWidth(p, w)
    ensures Fit(PassRowBytes(px, w, h, 1, p, j, i), f.depth)
    decreases i
  {
    hide PassWidth, PassHeight, Pow2, PlaceIdx;
    if i > 0 {
      RowFits(f, px, w, h, p, j, i - 1);
      var k := PlaceIdx(w, h, p, j, i - 1);
      assert px[k] == [px[k][0]];
    }
  }

  /** The bytes of row j of pass p before filtering. */
  function CodedRow(f: Format, px: seq<seq<byte>>, w: nat, h: nat, p: nat, j: nat): (r: seq<byte>)
    requires p < 7 && Source(px, w, h, f) && j < PassHeight(p, h) && PassWidth(p, w) > 0
    ensures |r| == PassFormat(f, p, w).WidthBytes()
  {
    CodedSize(f, p, w);
    var row := PassRowBytes(px, w, h, f.img_n, p, j, PassWidth(p, w));
    if f.depth == 8 then row else (RowFits(f, px, w, h, p, j, PassWidth(p, w)); PackRow(row, f.depth))
  }

  lemma CodedSize(f: Format, p: nat, w: nat)
    requires p < 7 && Interlaceable(f) && PassWidth(p, w) > 0
    ensures var g, k := PassFormat(f, p, w), RowOff(f.img_n, PassWidth(p, w));
      && g.Valid() && k == g.x * g.img_n && g.WidthBytes() == if f.depth == 8 then k else PackedSize(k, f.depth)
  {
    hide PassWidth, Format.WidthBytes, RowOff;
    var g := PassFormat(f, p, w);
    RowOffIs(f.img_n, PassWidth(p, w));
    if f.depth == 8 {
      WidthOf8(g);
    } else {
      WidthIsPacked(g);
    }
  }

  lemma {:induction false} ScaledRow(f: Format, px: seq<seq<byte>>, w: nat, h: nat, p: nat, j: nat, i: nat)
    requires p < 7 && Source(px, w, h, f) && f.depth < 8 && j < PassHeight(p, h) && i <= PassWidth(p, w)
    ensures Fit(PassRowBytes(px, w, h, 1, p, j, i), f.depth)
    ensures ScaledAll(PassRowBytes(px, w, h, 1, p, j, i), f.depth, f.color)
         == PassRowBytes(WidenedAll(f, px, w, h), w, h, 1, p, j, i)
    decreases i
  {
    hide PassWidth, PassHeight, Pow2, PlaceIdx, ScaledSample;
    RowFits(f, px, w, h, p, j, i);
    if i > 0 {
      ScaledRow(f, px, w, h, p, j, i - 1);
      var k := PlaceIdx(w, h, p, j, i - 1);
      assert px[k] == [px[k][0]];
      ScaledMore(PassRowBytes(px, w, h, 1, p, j, i - 1), px[k][0], f.depth, f.color);
    }
  }

  lemma ScaledMore(samples: seq<byte>, v: byte, depth: nat, color: nat)
    requires Depth(depth) && Fit(samples + [v], depth)
    ensures Fit(samples, depth) && v < Pow2(depth)
    ensures ScaledAll(samples + [v], depth, color) == ScaledAll(samples, depth, color) + [ScaledSample(v, depth, color)]
  {
    hide Pow2, ScaledSample;
    assert samples == (samples + [v])[..|samples|] && v == (samples + [v])[|samples|];
  }

  lemma {:induction false} PlainRow(f: Format, px: seq<seq<byte>>, w: nat, h: nat, p: nat, j: nat, i: nat)
    requires p < 7 && Source(px, w, h, f) && f.depth == 8 && j < PassHeight(p, h) && i <= PassWidth(p, w)
    ensures PassRowBytes(px, w, h, f.img_n, p, j, i) == PassRowBytes(WidenedAll(f, px, w, h), w, h, f.img_n, p, j, i)
    decreases i
  {
    hide PassWidth, PassHeight, PlaceIdx;
    if i > 0 {
      var k := PlaceIdx(w, h, p, j, i - 1);
      assert Widened(f, px[k]) == px[k];
      PlainRow(f, px, w, h, p, j, i - 1);
    }
  }

  lemma {:induction false} ShownRow(f: Format, px: seq<seq<byte>>, w: nat, h: nat, p: nat, j: nat, i: nat)
    requires p < 7 && Source(px, w, h, f) && j < PassHeight(p, h) && i <= PassWidth(p, w)
    ensures Delivered(PassRowBytes(WidenedAll(f, px, w, h), w, h, f.img_n, p, j, i), f.img_n, f.out_n)
         == PassRowBytes(ShownAll(f, px, w, h), w, h, f.out_n, p, j, i)
    decreases i
  {
    hide PassWidth, PassHeight, PlaceIdx, AddAlpha, Widened;
    var n := f.img_n;
    if i == 0 {
      AddAlphaEmpty([], n);
    } else {
      ShownRow(f, px, w, h, p, j, i - 1);
      ShownPlace(f, px, w, h, p, j, i - 1);
      var s := PassRowBytes(WidenedAll(f, px, w, h), w, h, n, p, j, i);
      AddAlphaStep(s, RowOff(n, i - 1), n);
    }
  }

  lemma ShownPlace(f: Format, px: seq<seq<byte>>, w: nat, h: nat, p: nat, j: nat, i: nat)
    requires p < 7 && Source(px, w, h, f) && j < PassHeight(p, h) && i < PassWidth(p, w)
    ensures Place(ShownAll(f, px, w, h), w, h, f.out_n, p, j, i)
         == Place(WidenedAll(f, px, w, h), w, h, f.img_n, p, j, i) + if f.out_n == f.img_n then [] else [255]
  {
    hide PassWidth, PassHeight, PlaceIdx, Widened;
    var k := PlaceIdx(w, h, p, j, i);
    assert ShownAll(f, px, w, h)[k] == Shown(f, px[k]) && WidenedAll(f, px, w, h)[k] == Widened(f, px[k]);
  }

  /** A coded row, expanded and widened, is the row as shown. */
  lemma RowShows(f: Format, px: seq<seq<byte>>, w: nat, h: nat, p: nat, j: nat)
    requires p < 7 && Source(px, w, h, f) && j < PassHeight(p, h) && PassWidth(p, w) > 0
    ensures OutRow(PassFormat(f, p, w), CodedRow(f, px, w, h, p, j))
         == PassRowBytes(ShownAll(f, px, w, h), w, h, f.out_n, p, j, PassWidth(p, w))
  {
    hide PassWidth, PassHeight, AddAlpha, Widened, PassRowBytes, PackRow, UnpackRow, ScaledAll, Format.WidthBytes,
      ShownAll, WidenedAll, RowOff;
    var x := PassWidth(p, w);
    CodedSize(f, p, w);
    ShownRow(f, px, w, h, p, j, x);
    if f.depth == 8 {
      PlainRow(f, px, w, h, p, j, x);
    } else {
      ScaledRow(f, px, w, h, p, j, x);
      UnpackPacked(PassRowBytes(px, w, h, 1, p, j, x), f.depth, f.color);
    }
  }

  // ---- the passes as images ----

  /** The first j rows of pass p before filtering. */
  function CodedBytes(f: Format, px: seq<seq<byte>>, w: nat, h: nat, p: nat, j: nat): (r: seq<byte>)
    requires p < 7 && Source(px, w, h, f) && j <= PassHeight(p, h) && PassWidth(p, w) > 0
    ensures |r| == RowOff(PassFormat(f, p, w).WidthBytes(), j)
  {
    if j == 0 then [] else CodedBytes(f, px, w, h, p, j - 1) + CodedRow(f, px, w, h, p, j - 1)
  }

  lemma {:induction false} CodedBytesAt(f: Format, px: seq<seq<byte>>, w: nat, h: nat, p: nat, j: nat, k: nat)
    requires p < 7 && Source(px, w, h, f) && k < j <= PassHeight(p, h) && PassWidth(p, w) > 0
    ensures var len := PassFormat(f, p, w).WidthBytes();
      && RowOff(len, k) + len <= RowOff(len, j)
      && CodedBytes(f, px, w, h, p, j)[RowOff(len, k)..RowOff(len, k) + len] == CodedRow(f, px, w, h, p, k)
    decreases j
  {
    hide CodedRow, PassWidth, PassHeight, Format.WidthBytes;
    RowOffMono(PassFormat(f, p, w).WidthBytes(), k, j);
    if k < j - 1 {
      CodedBytesAt(f, px, w, h, p, j - 1, k);
    }
  }

  function PassImage(f: Format, px: seq<seq<byte>>, w: nat, h: nat, p: nat): Image
    requires p < 7 && Source(px, w, h, f) && Any(p, w, h)
  {
    var len := PassFormat(f, p, w).WidthBytes();
    Image(CodedBytes(f, px, w, h, p, PassHeight(p, h)), len, PassHeight(p, h), len, false)
  }

  lemma PassImageRow(f: Format, px: seq<seq<byte>>, w: nat, h: nat, p: nat, k: nat)
    requires p < 7 && Source(px, w, h, f) && Any(p, w, h) && k < PassHeight(p, h)
    ensures PassImage(f, px, w, h, p).Inside()
    ensures PassImage(f, px, w, h, p).Row(k) == CodedRow(f, px, w, h, p, k)
  {
    hide CodedRow, CodedBytes, PassWidth, PassHeight, Format.WidthBytes, RowOff, Image.Inside, Image.Row;
    var img := PassImage(f, px, w, h, p);
    GaplessRow(img, k);
    CodedBytesAt(f, px, w, h, p, PassHeight(p, h), k);
  }

  lemma GaplessRow(img: Image, y: nat)
    requires img.stride == img.len && !img.flip && |img.pixels| == RowOff(img.len, img.height) && y < img.height
    ensures img.Inside() && RowOff(img.len, y) + img.len <= |img.pixels|
    ensures img.Row(y) == img.pixels[RowOff(img.len, y)..RowOff(img.len, y) + img.len]
  {
    hide Image.Inside, Image.Start;
    Gapless(img);
    RowOffMono(img.len, y, img.height);
    InsideAt(img, y);
    assert img.Start(y) == RowOff(img.len, y);
  }

  lemma InsideAt(img: Image, y: nat)
    requires img.Inside() && y < img.height
    ensures img.Start(y) + img.len <= |img.pixels|
  {
  }

  /** An image without gaps is its rows one behind the other. */
  lemma Gapless(img: Image)
    requires img.stride == img.len && !img.flip && |img.pixels| == RowOff(img.len, img.height)
    ensures img.Inside() && forall y :: 0 <= y < img.height ==> img.Start(y) == RowOff(img.len, y)
  {
    forall y | 0 <= y < img.height
      ensures img.Start(y) == RowOff(img.len, y) && img.Start(y) + img.len <= |img.pixels|
    {
      RowOffIs(img.len, y);
      RowOffMono(img.len, y, img.height);
    }
  }

  /** The rows of a pass, expanded, are the pass as shown. */
  lemma {:induction false} FlatShows(f: Format, px: seq<seq<byte>>, w: nat, h: nat, p: nat, j: nat)
    requires p < 7 && Source(px, w, h, f) && Any(p, w, h) && j <= PassHeight(p, h)
    ensures var g, img := PassFormat(f, p, w), PassImage(f, px, w, h, p);
      && g.Valid() && img.Inside()
      && Flat(g, Rows(img, j), j) == PassBytes(ShownAll(f, px, w, h), w, h, f.out_n, p, j)
    decreases j
  {
    hide CodedRow, CodedBytes, PassWidth, PassHeight, Format.WidthBytes, Format.Valid, RowOff, Image.Inside, Image.Row,
      Image.Start, OutRow, PassRowBytes, ShownAll;
    var g, img := PassFormat(f, p, w), PassImage(f, px, w, h, p);
    CodedSize(f, p, w);
    Gapless(img);
    if j > 0 {
      FlatShows(f, px, w, h, p, j - 1);
      var rows, fewer := Rows(img, j), Rows(img, j - 1);
      assert rows[..j - 1] == fewer[..j - 1] by { RowsPrefix(img, j); }
      FlatPrefix(g, rows, fewer, j - 1);
      PassImageRow(f, px, w, h, p, j - 1);
      RowShows(f, px, w, h, p, j - 1);
    }
  }

  // ---- the interlaced stream ----

  /** A filter for every row of every pass. */
  predicate FiltersFor(types: seq<seq<nat>>, h: nat)
  {
    |types| == 7 && forall p :: 0 <= p < 7 ==> |types[p]| == PassHeight(p, h) && FilterTypes(types[p])
  }

  /** The filtered scanlines of pass p; a pass without pixels has none. */
  function PassStream(f: Format, px: seq<seq<byte>>, w: nat, h: nat, types: seq<seq<nat>>, p: nat): seq<byte>
    requires p < 7 && Source(px, w, h, f) && FiltersFor(types, h)
  {
    if Any(p, w, h) then
      (var img := PassImage(f, px, w, h, p);
       Gapless(img);
       Scanlines(img, f.FilterBytes(), types[p], img.height))
    else []
  }

  /** The first q passes. */
  function Stream(f: Format, px: seq<seq<byte>>, w: nat, h: nat, types: seq<seq<nat>>, q: nat): seq<byte>
    requires q <= 7 && Source(px, w, h, f) && FiltersFor(types, h)
  {
    if q == 0 then [] else Stream(f, px, w, h, types, q - 1) + PassStream(f, px, w, h, types, q - 1)
  }

  lemma {:induction false} StreamPrefix(f: Format, px: seq<seq<byte>>, w: nat, h: nat, types: seq<seq<nat>>, p: nat,
                                        q: nat)
    requires p < q <= 7 && Source(px, w, h, f) && FiltersFor(types, h)
    ensures At(Stream(f, px, w, h, types, q), |Stream(f, px, w, h, types, p)|, PassStream(f, px, w, h, types, p))
    decreases q
  {
    hide PassStream, Source, FiltersFor;
    if p < q - 1 {
      StreamPrefix(f, px, w, h, types, p, q - 1);
    }
  }

  lemma {:induction false} StreamSize(f: Format, px: seq<seq<byte>>, w: nat, h: nat, types: seq<seq<nat>>, q: nat)
    requires q <= 7 && Source(px, w, h, f) && FiltersFor(types, h)
    ensures |Stream(f, px, w, h, types, q)| == PassStart(f, w, h, q)
    decreases q
  {
    hide PassStream, PassLength, FiltersFor;
    if q > 0 {
      StreamSize(f, px, w, h, types, q - 1);
      PassSize(f, px, w, h, types, q - 1);
    }
  }

  lemma PassSize(f: Format, px: seq<seq<byte>>, w: nat, h: nat, types: seq<seq<nat>>, p: nat)
    requires p < 7 && Source(px, w, h, f) && FiltersFor(types, h)
    ensures |PassStream(f, px, w, h, types, p)| == PassLength(f, w, h, p)
  {
    hide PassWidth, PassHeight, CodedBytes, Scanlines, Format.WidthBytes, Image.Inside;
    if Any(p, w, h) {
      var img := PassImage(f, px, w, h, p);
      Gapless(img);
      ScanlinesSize(img, f.FilterBytes(), types[p], img.height);
      OffIs(img.len, img.height);
    }
  }

  // ---- reading it ----

  /** Rows reconstructed depend on their scanlines only, not on what follows. */
  lemma {:induction false} ReconFront(s: seq<byte>, t: seq<byte>, w: nat, fb: nat, j: nat)
    requires fb > 0 && Off(w, j) <= |s| && Off(w, j) <= |t| && s[..Off(w, j)] == t[..Off(w, j)]
    ensures Recon(s, w, fb, j) == Recon(t, w, fb, j)
    decreases j
  {
    hide Recon, UnfilterRow, Off;
    if j == 0 {
      NoRows(s, w, fb);
      NoRows(t, w, fb);
    } else {
      OffNext(w, j - 1);
      ReconNext(s, w, fb, j - 1);
      ReconNext(t, w, fb, j - 1);
      var o := Off(w, j - 1);
      SlicesAgree(s, t, Off(w, j), 0, o);
      SlicesAgree(s, t, Off(w, j), o, o + 1);
      SlicesAgree(s, t, Off(w, j), o + 1, o + 1 + w);
      assert s[o] == s[o..o + 1][0] && t[o] == t[o..o + 1][0];
      ReconFront(s, t, w, fb, j - 1);
    }
  }

  lemma NoRows(s: seq<byte>, w: nat, fb: nat)
    requires fb > 0
    ensures Off(w, 0) == 0 && Recon(s, w, fb, 0) == []
  {
  }

  lemma FiltersFront(s: seq<byte>, t: seq<byte>, w: nat, j: nat)
    requires Off(w, j) <= |s| && Off(w, j) <= |t| && s[..Off(w, j)] == t[..Off(w, j)] && FiltersValid(t, w, j)
    ensures FiltersValid(s, w, j)
  {
    hide Off;
    forall i | 0 <= i < j ensures Off(w, i) < |s| && s[Off(w, i)] <= 4 {
      OffMono(w, i, j);
      assert s[Off(w, i)] == s[..Off(w, j)][Off(w, i)] == t[Off(w, i)];
    }
  }

  /** The reader's pixels of a pass are those taken from the image, as shown. */
  lemma PassReads(f: Format, px: seq<seq<byte>>, w: nat, h: nat, types: seq<seq<nat>>, p: nat)
    requires p < 7 && Source(px, w, h, f) && FiltersFor(types, h)
    ensures var raw := Stream(f, px, w, h, types, 7);
      && PassValid(f, raw, w, h, p)
      && (Any(p, w, h) ==>
            PassPixels(f, raw, w, h, p) == PassBytes(ShownAll(f, px, w, h), w, h, f.out_n, p, PassHeight(p, h)))
  {
    hide PassWidth, PassHeight, PassBytes, Scanlines, Format.WidthBytes, Format.Valid, Image.Inside, Stream, Recon,
      Flat, FiltersValid, FiltersFor, PassStart, PassFormat, Rows, Off, CodedBytes, ShownAll;
    var raw := Stream(f, px, w, h, types, 7);
    if Any(p, w, h) {
      StreamSize(f, px, w, h, types, p);
      StreamPrefix(f, px, w, h, types, p, 7);
      PassSize(f, px, w, h, types, p);
      FrontReads(raw[PassStart(f, w, h, p)..], f, px, w, h, types, p);
    }
  }

  lemma FrontReads(s: seq<byte>, f: Format, px: seq<seq<byte>>, w: nat, h: nat, types: seq<seq<nat>>, p: nat)
    requires p < 7 && Source(px, w, h, f) && FiltersFor(types, h) && Any(p, w, h)
    requires At(s, 0, PassStream(f, px, w, h, types, p))
    ensures var g, y := PassFormat(f, p, w), PassHeight(p, h);
      && g.Valid() && Off(g.WidthBytes(), y) == (g.WidthBytes() + 1) * y <= |s| && FiltersValid(s, g.WidthBytes(), y)
      && Pixels(g, s, y) == PassBytes(ShownAll(f, px, w, h), w, h, f.out_n, p, y)
  {
    hide PassWidth, PassHeight, PassBytes, Scanlines, Format.WidthBytes, Format.Valid, Image.Inside, Recon, Flat,
      FiltersValid, Rows, Off, CodedBytes, ShownAll;
    var g, img, y := PassFormat(f, p, w), PassImage(f, px, w, h, p), PassHeight(p, h);
    var len, fb := g.WidthBytes(), f.FilterBytes();
    CodedSize(f, p, w);
    Gapless(img);
    var t := Scanlines(img, fb, types[p], y);
    ScanlinesValid(img, fb, types[p]);
    OffIs(len, y);
    assert s[..Off(len, y)] == t == t[..Off(len, y)];
    FiltersFront(s, t, len, y);
    ReconFront(s, t, len, fb, y);
    ReconScanlines(img, fb, types[p], y);
    FlatShows(f, px, w, h, p, y);
  }

  /**
    Pixels taken pass by pass, packed when they are small and filtered by any filters, come
    back from the interlaced half of stbi__create_png_image, every one in its place, scaled to
    eight bits and with alpha if it is asked for.
  */
  method ReadInterlaced(f: Format, px: seq<seq<byte>>, w: nat, h: nat, types: seq<seq<nat>>)
    returns (ok: bool, image: array<seq<byte>>)
    requires Source(px, w, h, f) && FiltersFor(types, h)
    ensures ok && image[..] == ShownAll(f, px, w, h)
    ensures f.depth == 8 && f.out_n == f.img_n ==> image[..] == px
  {
    hide PassOf, Chunk, Idx, InterlacedPixel, PassWidth, PassHeight, PassValid, PassPixels, Stream, FiltersFor;
    forall p | 0 <= p < 7 ensures PassValid(f, Stream(f, px, w, h, types, 7), w, h, p) {
      PassReads(f, px, w, h, types, p);
    }
    ok, image := CreateInterlaced(f, Stream(f, px, w, h, types, 7), w, h);
    ghost var shown := ShownAll(f, px, w, h);
    forall k | 0 <= k < w * h ensures image[k] == shown[k] {
      PixelOf(k, w, h);
      PixelReads(f, px, w, h, types, k / w, k % w);
    }
    assert image[..] == shown;
    if f.depth == 8 && f.out_n == f.img_n {
      AsIs(f, px, w, h);
    }
  }

  lemma AsIs(f: Format, px: seq<seq<byte>>, w: nat, h: nat)
    requires Source(px, w, h, f) && f.depth == 8 && f.out_n == f.img_n
    ensures ShownAll(f, px, w, h) == px
  {
    forall i | 0 <= i < |px| ensures ShownAll(f, px, w, h)[i] == px[i] {
      assert Shown(f, px[i]) == px[i] + [] == px[i];
    }
  }

  lemma PixelOf(k: nat, w: nat, h: nat)
    requires k < w * h
    ensures w > 0 && k / w < h && k % w < w && Idx(k / w, k % w, w) == k
  {
    NotEmpty(w, h);
    var r := k / w;
    assert k == r * w + k % w;
    if h <= r {
      MulMono(h, r, w);
      assert false;
    }
  }

  lemma NotEmpty(w: nat, h: nat)
    ensures w == 0 ==> w * h == 0
  {
  }

  lemma MulMono(a: nat, b: nat, c: nat)
    requires a <= b
    ensures a * c <= b * c
  {
    assert (b - a) * c >= 0;
  }

  lemma PixelReads(f: Format, px: seq<seq<byte>>, w: nat, h: nat, types: seq<seq<nat>>, r: nat, c: nat)
    requires Source(px, w, h, f) && FiltersFor(types, h) && r < h && c < w
    ensures var raw := Stream(f, px, w, h, types, 7);
      && PassValid(f, raw, w, h, PassOf(r, c)) && Idx(r, c, w) < |px|
      && InterlacedPixel(f, raw, w, h, r, c) == ShownAll(f, px, w, h)[Idx(r, c, w)]
  {
    hide PassOf, Chunk, Idx, PassWidth, PassHeight, PassRow, PassCol, ImageRow, ImageCol, PassValid, PassPixels, Stream,
      FiltersFor, PassBytes, ShownAll;
    var p := PassOf(r, c);
    PixelHasPlace(r, c, w, h);
    IdxInside(r, c, w, h);
    PassReads(f, px, w, h, types, p);
    ChunkIsPlace(ShownAll(f, px, w, h), w, h, f.out_n, p, PassRow(r, p), PassCol(c, p));
  }
}
