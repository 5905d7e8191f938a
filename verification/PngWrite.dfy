/** stbi_write_png_to_mem: choosing filters, and the chunks of the file. */
module PngWrite {
  import opened Bits
  import opened PngFilter
  import opened PngWriteLine
  import opened PngReadLine
  import opened PngRaw

  // ---- filtered scanlines ----

  predicate FilterTypes(types: seq<nat>) { forall i :: 0 <= i < |types| ==> types[i] <= 4 }

  /** The first j scanlines, each led by its filter byte. */
  function Scanlines(img: Image, n: nat, types: seq<nat>, j: nat): seq<byte>
    requires img.Inside() && n > 0 && j <= img.height && j <= |types| && FilterTypes(types)
  {
    if j == 0 then []
    else Scanlines(img, n, types, j - 1)
         + ([types[j - 1]] + FilterRow(types[j - 1], img.Row(j - 1), img.Above(j - 1), n))
  }

  /** The first j rows of the image. */
  function Rows(img: Image, j: nat): (r: seq<seq<byte>>)
    requires img.Inside() && j <= img.height
    ensures |r| == j && forall i :: 0 <= i < j ==> r[i] == img.Row(i)
  {
    if j == 0 then [] else Rows(img, j - 1) + [img.Row(j - 1)]
  }

  lemma {:induction false} ScanlinesSize(img: Image, n: nat, types: seq<nat>, j: nat)
    requires img.Inside() && n > 0 && j <= img.height && j <= |types| && FilterTypes(types)
    ensures |Scanlines(img, n, types, j)| == Off(img.len, j)
  {
    if j > 0 {
      ScanlinesSize(img, n, types, j - 1);
    }
  }

  lemma {:induction false} ScanlinesPrefix(img: Image, n: nat, types: seq<nat>, i: nat, j: nat)
    requires img.Inside() && n > 0 && i <= j <= img.height && j <= |types| && FilterTypes(types)
    ensures |Scanlines(img, n, types, i)| <= |Scanlines(img, n, types, j)|
    ensures Scanlines(img, n, types, j)[..|Scanlines(img, n, types, i)|] == Scanlines(img, n, types, i)
  {
    hide FilterRow, Image.Row, Image.Above;
    if i < j {
      ScanlinesPrefix(img, n, types, i, j - 1);
    }
  }

  /** Scanline j of the whole: its filter byte and its filtered row. */
  lemma ScanlineAt(img: Image, n: nat, types: seq<nat>, j: nat, h: nat)
    requires img.Inside() && n > 0 && j < h <= img.height && h <= |types| && FilterTypes(types)
    ensures var raw, o := Scanlines(img, n, types, h), Off(img.len, j);
      && o + 1 + img.len <= |raw| && raw[o] == types[j]
      && raw[o + 1..o + 1 + img.len] == FilterRow(types[j], img.Row(j), img.Above(j), n)
  {
    hide FilterRow, Image.Row, Image.Above, Scanlines, Image.Inside, Off;
    var raw, o := Scanlines(img, n, types, h), Off(img.len, j);
    ScanlinesSize(img, n, types, j);
    ScanlinesNext(img, n, types, j);
    ScanlinesPrefix(img, n, types, j + 1, h);
    Behind(raw, Scanlines(img, n, types, j), types[j], FilterRow(types[j], img.Row(j), img.Above(j), n));
  }

  lemma ScanlinesNext(img: Image, n: nat, types: seq<nat>, j: nat)
    requires img.Inside() && n > 0 && j < img.height && j < |types| && FilterTypes(types)
    ensures img.Start(j) + img.len <= |img.pixels| && (j > 0 ==> img.Start(j - 1) + img.len <= |img.pixels|)
    ensures Scanlines(img, n, types, j + 1)
         == Scanlines(img, n, types, j) + ([types[j]] + FilterRow(types[j], img.Row(j), img.Above(j), n))
  {
  }

  lemma Behind(raw: seq<byte>, front: seq<byte>, t: byte, row: seq<byte>)
    requires |front| + 1 + |row| <= |raw| && raw[..|front| + 1 + |row|] == front + ([t] + row)
    ensures raw[|front|] == t && raw[|front| + 1..|front| + 1 + |row|] == row
  {
    var s := front + ([t] + row);
    forall k | 0 <= k < |s| ensures raw[k] == s[k] {
      assert raw[k] == raw[..|s|][k];
    }
  }

  /** The reader reconstructs the rows of the image, whatever filters were chosen. */
  lemma {:induction false} ReconScanlines(img: Image, n: nat, types: seq<nat>, j: nat)
    requires img.Inside() && n > 0 && j <= img.height == |types| && FilterTypes(types)
    ensures var raw := Scanlines(img, n, types, img.height);
      Off(img.len, j) <= |raw| && Recon(raw, img.len, n, j) == Rows(img, j)
  {
    hide FilterRow, UnfilterRow, Image.Row, Image.Above;
    var raw := Scanlines(img, n, types, img.height);
    ScanlinesSize(img, n, types, img.height);
    OffMonoTo(img.len, j, img.height);
    if j > 0 {
      ReconScanlines(img, n, types, j - 1);
      ScanlineAt(img, n, types, j - 1, img.height);
      AboveIsLast(img, j - 1);
      RowRoundTrip(types[j - 1], img.Row(j - 1), img.Above(j - 1), n);
    }
  }

  lemma AboveIsLast(img: Image, j: nat)
    requires img.Inside() && j < img.height
    ensures Last(Rows(img, j), img.len) == img.Above(j)
  {
  }

  lemma ScanlinesValid(img: Image, n: nat, types: seq<nat>)
    requires img.Inside() && n > 0 && img.height == |types| && FilterTypes(types)
    ensures var raw := Scanlines(img, n, types, img.height);
      |raw| == Off(img.len, img.height) && FiltersValid(raw, img.len, img.height)
  {
    hide FilterRow, Image.Row, Image.Above;
    ScanlinesSize(img, n, types, img.height);
    forall i | 0 <= i < img.height
      ensures var raw := Scanlines(img, n, types, img.height); Off(img.len, i) < |raw| && raw[Off(img.len, i)] <= 4
    {
      ScanlineAt(img, n, types, i, img.height);
    }
  }

  /** The pixels of the first j rows. */
  function Joined(img: Image, j: nat): seq<byte>
    requires img.Inside() && j <= img.height
  {
    if j == 0 then [] else Joined(img, j - 1) + img.Row(j - 1)
  }

  /** Pixels of n bytes as they are delivered: with 255 behind each when one channel more is asked for. */
  function Delivered(pixels: seq<byte>, n: nat, out_n: nat): seq<byte>
    requires n > 0
  {
    if out_n == n then pixels else AddAlpha(pixels, n)
  }

  lemma {:induction false} AddAlphaAppend(s: seq<byte>, t: seq<byte>, n: nat)
    requires n > 0 && Whole(|t|, n)
    ensures AddAlpha(s + t, n) == AddAlpha(s, n) + AddAlpha(t, n)
    decreases |t|
  {
    if t == [] {
      assert s + t == s;
    } else {
      var k := |t| - n;
      assert (s + t)[..|s + t| - n] == s + t[..k] && (s + t)[|s + t| - n..] == t[k..];
      AddAlphaAppend(s, t[..k], n);
    }
  }

  /** The reconstructed rows, expanded, are the image as it is delivered. */
  lemma {:induction false} FlatIsJoined(f: Format, img: Image, j: nat)
    requires img.Inside() && j <= img.height && f.Valid() && f.depth == 8 && f.WidthBytes() == img.len
    ensures Flat(f, Rows(img, j), j) == Delivered(Joined(img, j), f.img_n, f.out_n)
  {
    hide Format.WidthBytes, Image.Row, OutRow, Image.Inside, Image.Start, AddAlpha;
    WidthOf8(f);
    if j == 0 {
      AddAlphaEmpty([], f.img_n);
    } else {
      FlatIsJoined(f, img, j - 1);
      var rows, fewer := Rows(img, j), Rows(img, j - 1);
      assert rows[..j - 1] == fewer[..j - 1] by { RowsPrefix(img, j); }
      FlatPrefix(f, rows, fewer, j - 1);
      RowDelivered(f, rows[j - 1]);
      AddAlphaAppend(Joined(img, j - 1), rows[j - 1], f.img_n);
    }
  }

  lemma RowsPrefix(img: Image, j: nat)
    requires img.Inside() && 0 < j <= img.height
    ensures Rows(img, j)[..j - 1] == Rows(img, j - 1)[..j - 1]
  {
    hide Image.Row, Image.Inside, Image.Start;
  }

  lemma RowDelivered(f: Format, row: seq<byte>)
    requires f.Valid() && f.depth == 8 && |row| == f.WidthBytes()
    ensures f.img_n > 0 && OutRow(f, row) == Delivered(row, f.img_n, f.out_n)
  {
    hide Format.WidthBytes, AddAlpha;
  }

  // ---- choosing the filter ----

  function Signed(b: byte): int { if b < 128 then b else b - 256 }

  /** The writer's entropy estimate of a line: the sum of its absolute values as signed bytes. */
  function Estimate(line: seq<byte>, k: nat): nat
    requires k <= |line|
  {
    if k == 0 then 0 else Estimate(line, k - 1) + Abs(Signed(line[k - 1]))
  }

  method EstimateLine(line: array<byte>) returns (est: nat)
    ensures est == Estimate(line[..], line.Length)
  {
    est := 0;
    for i := 0 to line.Length
      invariant est == Estimate(line[..], i)
    {
      est := est + Abs(Signed(line[i]));
    }
  }

  /** Try all five filters; the last line encoded is the one with the least estimate. */
  method BestFilter(img: Image, y: nat, n: nat, line: array<byte>) returns (best: nat)
    requires img.Inside() && y < img.height && 0 < n <= img.len && line.Length == img.len
    modifies line
    ensures best <= 4 && line[..] == FilterRow(best, img.Row(y), img.Above(y), n)
    ensures forall k :: 0 <= k < 5 && EstimateOf(img, y, n, k) < 0x7FFFFFFF ==>
      EstimateOf(img, y, n, best) <= EstimateOf(img, y, n, k)
  {
    hide FilterRow, Estimate, Image.Row, Image.Above;
    best := 0;
    var bestVal := 0x7FFFFFFF;
    for filter_type := 0 to 5
      invariant best <= 4
      invariant bestVal == 0x7FFFFFFF || bestVal == EstimateOf(img, y, n, best)
      invariant forall k :: 0 <= k < filter_type ==> bestVal <= EstimateOf(img, y, n, k)
      invariant bestVal <= 0x7FFFFFFF
    {
      EncodeLine(img, y, n, filter_type, line);
      var est := EstimateLine(line);
      if est < bestVal {
        bestVal, best := est, filter_type;
      }
    }
    EncodeLine(img, y, n, best, line);
  }

  function EstimateOf(img: Image, y: nat, n: nat, k: nat): nat
    requires img.Inside() && y < img.height && n > 0
  {
    var r := FilterRow(k, img.Row(y), img.Above(y), n);
    Estimate(r, |r|)
  }

  /** The filtered scanlines, with a forced filter or the best one for each row. */
  method FilterImage(img: Image, n: nat, force: int) returns (filt: seq<byte>, ghost types: seq<nat>)
    requires img.Inside() && 0 < n <= img.len && force <= 4
    ensures |types| == img.height && FilterTypes(types)
    ensures filt == Scanlines(img, n, types, img.height)
  {
    hide FilterRow, Estimate, Image.Row, Image.Above, EstimateOf;
    filt, types := [], [];
    var line := new byte[img.len];
    for j := 0 to img.height
      invariant |types| == j && FilterTypes(types) && filt == Scanlines(img, n, types, j)
    {
      var filter_type: nat;
      if force > -1 {
        filter_type := force;
        EncodeLine(img, j, n, force, line);
      } else {
        filter_type := BestFilter(img, j, n, line);
      }
      ScanlinesSame(img, n, types, types + [filter_type], j);
      filt := filt + ([filter_type] + line[..]);
      types := types + [filter_type];
    }
  }

  lemma {:induction false} ScanlinesSame(img: Image, n: nat, types: seq<nat>, types': seq<nat>, j: nat)
    requires img.Inside() && n > 0 && j <= img.height && j <= |types| <= |types'|
    requires FilterTypes(types) && FilterTypes(types') && types'[..j] == types[..j]
    ensures Scanlines(img, n, types, j) == Scanlines(img, n, types', j)
  {
    if j > 0 {
      assert types'[j - 1] == types'[..j][j - 1] == types[..j][j - 1];
      assert types'[..j - 1] == types'[..j][..j - 1] == types[..j][..j - 1];
      hide FilterRow, Image.Row, Image.Above;
      ScanlinesSame(img, n, types, types', j - 1);
    }
  }
}
