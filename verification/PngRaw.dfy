/**
  stbi__create_png_image_raw for samples of 1, 2, 4 and 8 bits: filtered scanlines to
  pixels, with or without an added alpha channel.
*/
module PngRaw {
  import opened Bits
  import opened ImageRows
  import opened PngFilter
  import opened PngReadLine
  import opened PngUnpack

  /** Width, channels in the file, channels wanted, bits per sample, colour type. */
  datatype Format = Format(x: nat, img_n: nat, out_n: nat, depth: nat, color: nat)
  {
    function WidthBytes(): nat { (img_n * x * depth + 7) / 8 }

    function FilterBytes(): nat { if depth < 8 then 1 else img_n }

    function Stride(): nat { x * out_n }

    predicate Valid()
    {
      && x > 0 && (depth == 8 || Depth(depth)) && img_n > 0
      && (out_n == img_n || out_n == img_n + 1)
      && (depth < 8 ==> WidthBytes() <= x && (out_n == img_n || img_n == 1 || img_n == 3))
    }
  }

  /** Where scanline j starts: every one is a filter byte and w bytes. */
  function Off(w: nat, j: nat): nat { RowOff(w + 1, j) }

  lemma OffIs(w: nat, j: nat)
    ensures Off(w, j) == (w + 1) * j
  {
    RowOffIs(w + 1, j);
  }

  lemma OffMono(w: nat, i: nat, j: nat)
    requires i < j
    ensures Off(w, i) + w + 1 <= Off(w, j)
  {
    RowOffMono(w + 1, i, j);
  }

  predicate FiltersValid(raw: seq<byte>, w: nat, j: nat)
    requires Off(w, j) <= |raw|
  {
    forall i :: 0 <= i < j ==> Off(w, i) < |raw| && raw[Off(w, i)] <= 4
  }

  /** The row above: zeros for the first. */
  function Last(rows: seq<seq<byte>>, w: nat): seq<byte>
  {
    if rows == [] then Zeros(w) else rows[|rows| - 1]
  }

  /** The first j rows reconstructed, each from the one above it. */
  function Recon(raw: seq<byte>, w: nat, fb: nat, j: nat): (r: seq<seq<byte>>)
    requires Off(w, j) <= |raw| && fb > 0
    ensures |r| == j && forall i :: 0 <= i < j ==> |r[i]| == w
  {
    if j == 0 then []
    else
      var rows := Recon(raw, w, fb, j - 1);
      var o := Off(w, j - 1);
      rows + [UnfilterRow(raw[o], raw[o + 1..o + 1 + w], Last(rows, w), fb)]
  }

  /** A reconstructed row as pixels. */
  function OutRow(f: Format, row: seq<byte>): seq<byte>
    requires f.Valid() && |row| == f.WidthBytes()
  {
    var samples := if f.depth == 8 then row else Samples(f, row);
    if f.img_n == f.out_n then samples else AddAlpha(samples, f.img_n)
  }

  function Samples(f: Format, row: seq<byte>): (s: seq<byte>)
    requires f.Valid() && f.depth < 8 && |row| == f.WidthBytes()
    ensures |s| == f.x * f.img_n
  {
    WidthIsPacked(f);
    UnpackRow(row, f.depth, f.color, f.x * f.img_n)
  }

  lemma WidthIsPacked(f: Format)
    requires f.Valid() && f.depth < 8
    ensures f.WidthBytes() == PackedSize(f.x * f.img_n, f.depth)
  {
    var k := f.x * f.img_n;
    assert f.img_n * f.x == k;
    if f.depth == 1 {
      assert f.img_n * f.x * f.depth == k;
    } else if f.depth == 2 {
      assert f.img_n * f.x * f.depth == 2 * k;
    } else {
      assert f.img_n * f.x * f.depth == 4 * k;
    }
  }

  lemma WidthOf8(f: Format)
    requires f.Valid() && f.depth == 8
    ensures f.WidthBytes() == f.x * f.img_n && Whole(f.WidthBytes(), f.img_n) && f.img_n <= f.WidthBytes()
  {
    var k := f.x * f.img_n;
    assert f.img_n * f.x * f.depth == 8 * k;
    WholeProduct(f.x, f.img_n);
  }

  lemma {:induction false} WholeProduct(a: nat, n: nat)
    requires n > 0
    ensures Whole(a * n, n)
    ensures a > 0 ==> n <= a * n
  {
    if a > 0 {
      WholeProduct(a - 1, n);
      assert a * n == (a - 1) * n + n;
    }
  }

  lemma {:induction false} AddAlphaSize(s: seq<byte>, x: nat, n: nat)
    requires n > 0 && |s| == x * n
    ensures |AddAlpha(s, n)| == x * (n + 1)
  {
    if x == 0 {
      AddAlphaEmpty(s, n);
    } else {
      assert x * n == (x - 1) * n + n;
      AddAlphaStep(s, (x - 1) * n, n);
      AddAlphaSize(s[..(x - 1) * n], x - 1, n);
      assert x * (n + 1) == (x - 1) * (n + 1) + n + 1;
    }
  }

  lemma OutRowSize(f: Format, row: seq<byte>)
    requires f.Valid() && |row| == f.WidthBytes()
    ensures |OutRow(f, row)| == f.Stride()
  {
    hide UnpackRow, AddAlpha;
    if f.depth == 8 { WidthOf8(f); }
    var samples := if f.depth == 8 then row else Samples(f, row);
    if f.out_n != f.img_n {
      AddAlphaSize(samples, f.x, f.img_n);
    }
  }

  /** The first j output rows one after the other. */
  function Flat(f: Format, rows: seq<seq<byte>>, j: nat): seq<byte>
    requires f.Valid() && j <= |rows| && forall i :: 0 <= i < j ==> |rows[i]| == f.WidthBytes()
  {
    if j == 0 then [] else Flat(f, rows, j - 1) + OutRow(f, rows[j - 1])
  }

  lemma {:induction false} FlatPrefix(f: Format, rows: seq<seq<byte>>, rows': seq<seq<byte>>, j: nat)
    requires f.Valid() && j <= |rows| && j <= |rows'| && rows[..j] == rows'[..j]
    requires forall i :: 0 <= i < j ==> |rows[i]| == f.WidthBytes()
    ensures forall i :: 0 <= i < j ==> rows[i] == rows'[i]
    ensures Flat(f, rows, j) == Flat(f, rows', j)
  {
    assert forall i :: 0 <= i < j ==> rows[i] == rows[..j][i] == rows'[..j][i] == rows'[i];
    if j > 0 {
      assert rows[..j - 1] == rows[..j][..j - 1] == rows'[..j - 1];
      FlatPrefix(f, rows, rows', j - 1);
    }
  }

  // ---- the loops ----

  /** The case the loops switch on: first_row_filter on the first row. */
  function RowCase(filter: nat, j: nat): nat { if j == 0 then FirstRowCase(filter) else filter }

  lemma RowCaseOf(raw: seq<byte>, w: nat, fb: nat, j: nat, filter: nat)
    requires Off(w, j) <= |raw| && fb > 0 && filter <= 4
    ensures CaseOf(RowCase(filter, j), filter, Last(Recon(raw, w, fb, j), w))
    ensures ReadsPrior(RowCase(filter, j)) ==> j > 0
  {
  }

  /** One scanline of eight-bit samples. */
  method Row8(f: Format, out: array<byte>, cur: nat, raw: seq<byte>, filter: nat, j: nat, ghost above: seq<byte>)
    requires f.Valid() && f.depth == 8 && |raw| == |above| == f.WidthBytes()
    requires cur + f.Stride() <= out.Length && CaseOf(RowCase(filter, j), filter, above)
    requires ReadsPrior(RowCase(filter, j)) ==> cur >= f.Stride() && out[cur - f.Stride()..cur] == OutRow(f, above)
    modifies out
    ensures out[cur..cur + f.Stride()] == OutRow(f, UnfilterRow(filter, raw, above, f.FilterBytes()))
    ensures out[..cur] == old(out[..cur])
  {
    hide AddAlpha, CaseOf, RowCase, Unfilter;
    WidthOf8(f);
    var kind := RowCase(filter, j);
    OutRowSize(f, above);
    if f.img_n == f.out_n {
      UnfilterContiguous(out, cur, cur - f.Stride(), raw, kind, f.img_n, filter, above);
    } else {
      AddAlphaSize(above, f.x, f.img_n);
      UnfilterInterleaved(out, cur, cur - f.Stride(), raw, kind, f.img_n, filter, above);
    }
  }

  /** Scanline j, appended to the rows already stored. */
  method NextRow8(f: Format, raw: seq<byte>, j: nat, pos: nat, out: array<byte>, cur: nat)
    requires f.Valid() && f.depth == 8 && pos == Off(f.WidthBytes(), j) && Off(f.WidthBytes(), j + 1) <= |raw|
    requires cur + f.Stride() <= out.Length && raw[pos] <= 4
    requires out[..cur] == Flat(f, Recon(raw, f.WidthBytes(), f.FilterBytes(), j), j)
    modifies out
    ensures out[..cur + f.Stride()] == Flat(f, Recon(raw, f.WidthBytes(), f.FilterBytes(), j + 1), j + 1)
  {
    hide UnfilterRow, OutRow, CaseOf, RowCase, Format.WidthBytes, Flat, Recon;
    ghost var w, fb := f.WidthBytes(), f.FilterBytes();
    var width := f.WidthBytes();
    var filter := raw[pos];
    ghost var rows := Recon(raw, w, fb, j);
    ghost var above := Last(rows, w);
    ghost var before := out[..cur];
    RowCaseOf(raw, w, fb, j, filter);
    if j > 0 { LastRowStored(f, rows, j, before); }
    Row8(f, out, cur, raw[pos + 1..pos + 1 + width], filter, j, above);
    ReconStep(f, raw, w, fb, j);
    assert out[..cur + f.Stride()] == before + out[cur..cur + f.Stride()];
  }

  method Create8(f: Format, raw: seq<byte>, y: nat, out: array<byte>) returns (ok: bool)
    requires f.Valid() && f.depth == 8 && Off(f.WidthBytes(), y) <= |raw|
    requires out.Length >= f.Stride() * y
    modifies out
    ensures ok <==> FiltersValid(raw, f.WidthBytes(), y)
    ensures ok ==> out[..f.Stride() * y] == Flat(f, Recon(raw, f.WidthBytes(), f.FilterBytes(), y), y)
  {
    hide Recon, OutRow, Format.WidthBytes;
    ghost var w, fb := f.WidthBytes(), f.FilterBytes();
    var width := f.WidthBytes();
    var pos, cur := 0, 0;
    for j := 0 to y
      invariant pos == Off(w, j) <= |raw| && cur == f.Stride() * j <= out.Length
      invariant FiltersValid(raw, w, j)
      invariant out[..cur] == Flat(f, Recon(raw, w, fb, j), j)
    {
      OffMono(w, j, y);
      OffMonoTo(w, j + 1, y);
      StrideStep(f.Stride(), j, y);
      if raw[pos] > 4 {
        return false;
      }
      NextRow8(f, raw, j, pos, out, cur);
      pos := pos + 1 + width;
      cur := cur + f.Stride();
    }
    return true;
  }

  lemma StrideStep(s: nat, j: nat, y: nat)
    requires j < y
    ensures s * (j + 1) == s * j + s <= s * y
  {
    if j + 1 < y {
      StrideStep(s, j, y - 1);
      assert s * y == s * (y - 1) + s;
    }
  }

  lemma OffMonoTo(w: nat, i: nat, j: nat)
    requires i <= j
    ensures Off(w, i) <= Off(w, j)
  {
    if i < j { OffMono(w, i, j); }
  }

  lemma ReconStep(f: Format, raw: seq<byte>, w: nat, fb: nat, j: nat)
    requires f.Valid() && w == f.WidthBytes() && Off(w, j + 1) <= |raw| && fb > 0
    ensures Off(w, j) + w + 1 <= |raw|
    ensures var rows := Recon(raw, w, fb, j); var o := Off(w, j);
      Flat(f, Recon(raw, w, fb, j + 1), j + 1)
        == Flat(f, rows, j) + OutRow(f, UnfilterRow(raw[o], raw[o + 1..o + 1 + w], Last(rows, w), fb))
  {
    hide UnfilterRow, OutRow, Format.WidthBytes;
    var rows, rows' := Recon(raw, w, fb, j), Recon(raw, w, fb, j + 1);
    assert rows'[..j] == rows == rows[..j];
    FlatPrefix(f, rows, rows', j);
  }

  lemma LastRowStored(f: Format, rows: seq<seq<byte>>, j: nat, flat: seq<byte>)
    requires f.Valid() && 0 < j == |rows| && forall i :: 0 <= i < j ==> |rows[i]| == f.WidthBytes()
    requires flat == Flat(f, rows, j)
    ensures f.Stride() <= |flat| && flat[|flat| - f.Stride()..] == OutRow(f, Last(rows, f.WidthBytes()))
  {
    hide OutRow;
    OutRowSize(f, rows[j - 1]);
  }

  // ---- fewer than eight bits per sample ----

  /** Row j lies at the right end of its place in the output. */
  ghost predicate Packed(f: Format, out: seq<byte>, rows: seq<seq<byte>>, from: nat, to: nat)
    requires f.Valid() && f.depth < 8 && f.Stride() > 0
  {
    && to <= |rows| && Off(f.Stride() - 1, to) <= |out|
    && forall i :: from <= i < to ==> PackedRow(f, out, rows, i)
  }

  ghost predicate PackedRow(f: Format, out: seq<byte>, rows: seq<seq<byte>>, i: nat)
    requires f.Valid() && f.depth < 8 && f.Stride() > 0 && i < |rows|
  {
    var end := Off(f.Stride() - 1, i) + f.Stride();
    f.WidthBytes() <= f.Stride() && end <= |out| && out[end - f.WidthBytes()..end] == rows[i]
  }

  lemma StrideCovers(f: Format)
    requires f.Valid()
    ensures f.Stride() > 0 && (f.depth < 8 ==> f.WidthBytes() <= f.x <= f.Stride() && f.WidthBytes() > 0)
    ensures f.x * f.img_n <= f.Stride()
  {
    assert f.x * f.out_n >= f.x;
    assert f.img_n * f.x * f.depth >= 1 by {
      assert f.img_n * f.x >= 1;
    }
    assert f.x * (f.img_n + 1) == f.x * f.img_n + f.x;
  }

  /** The row above is read where its packed bytes were put. */
  lemma AboveStored(f: Format, out: seq<byte>, rows: seq<seq<byte>>, j: nat)
    requires f.Valid() && f.depth < 8 && f.Stride() > 0 && 0 < j == |rows| && Packed(f, out, rows, 0, j)
    ensures var end := Off(f.Stride() - 1, j);
      f.WidthBytes() <= end <= |out| && out[end - f.WidthBytes()..end] == Last(rows, f.WidthBytes())
  {
    hide Format.WidthBytes, Format.Stride, Format.Valid;
    assert PackedRow(f, out, rows, j - 1);
  }

  /** Reconstruct scanline j where its packed bytes will be expanded from. */
  method NextPacked(f: Format, raw: seq<byte>, j: nat, pos: nat, out: array<byte>, cur: nat)
    requires f.Valid() && f.depth < 8 && f.Stride() > 0
    requires pos == Off(f.WidthBytes(), j) && Off(f.WidthBytes(), j + 1) <= |raw| && raw[pos] <= 4
    requires cur == Off(f.Stride() - 1, j) && cur + f.Stride() <= out.Length
    requires Packed(f, out[..], Recon(raw, f.WidthBytes(), 1, j), 0, j)
    modifies out
    ensures Packed(f, out[..], Recon(raw, f.WidthBytes(), 1, j + 1), 0, j + 1)
  {
    hide UnfilterRow, CaseOf, RowCase, Format.WidthBytes, Format.Stride, Format.Valid, Zeros, Last, Packed, PackedRow,
      Recon, Off;
    StrideCovers(f);
    OffNext(f.WidthBytes(), j);
    ReconNext(raw, f.WidthBytes(), 1, j);
    ghost var w := f.WidthBytes();
    var width, stride := f.WidthBytes(), f.Stride();
    var filter := raw[pos];
    ghost var rows := Recon(raw, w, 1, j);
    ghost var above := Last(rows, w);
    ghost var before := out[..];
    RowCaseOf(raw, w, 1, j, filter);
    var place := cur + stride - width;
    if j > 0 {
      AboveStored(f, before, rows, j);
    }
    UnfilterContiguous(out, place, place - stride, raw[pos + 1..pos + 1 + width], RowCase(filter, j), 1, filter, above);
    PackedExtended(f, before, out[..], rows, Recon(raw, w, 1, j + 1), j);
  }

  lemma OffNext(w: nat, j: nat)
    ensures Off(w, j + 1) == Off(w, j) + w + 1
  {
  }

  lemma ReconNext(raw: seq<byte>, w: nat, fb: nat, j: nat)
    requires Off(w, j + 1) <= |raw| && fb > 0
    ensures Off(w, j) + w + 1 <= |raw| && |Last(Recon(raw, w, fb, j), w)| == w
    ensures var rows := Recon(raw, w, fb, j); var o := Off(w, j);
      Recon(raw, w, fb, j + 1) == rows + [UnfilterRow(raw[o], raw[o + 1..o + 1 + w], Last(rows, w), fb)]
  {
    hide UnfilterRow;
  }

  lemma PackedExtended(f: Format, before: seq<byte>, after: seq<byte>, rows: seq<seq<byte>>, rows': seq<seq<byte>>,
                       j: nat)
    requires f.Valid() && f.depth < 8 && f.Stride() > 0 && 0 < f.WidthBytes() <= f.Stride()
    requires |rows| == j && |rows'| == j + 1 && rows'[..j] == rows && |rows'[j]| == f.WidthBytes()
    requires |before| == |after| && Packed(f, before, rows, 0, j)
    requires var cur := Off(f.Stride() - 1, j); var place := cur + f.Stride() - f.WidthBytes();
      && cur + f.Stride() <= |after| && after[..cur] == before[..cur]
      && after[place..place + f.WidthBytes()] == rows'[j]
    ensures Packed(f, after, rows', 0, j + 1)
  {
    hide Format.WidthBytes, Format.Stride, Format.Valid, Off;
    var stride, width, cur := f.Stride(), f.WidthBytes(), Off(f.Stride() - 1, j);
    OffNext(stride - 1, j);
    forall i | 0 <= i < j + 1 ensures PackedRow(f, after, rows', i) {
      if i < j {
        assert PackedRow(f, before, rows, i);
        OffMono(stride - 1, i, j);
        var end := Off(stride - 1, i) + stride;
        SlicesAgree(before, after, cur, end - width, end);
        assert rows'[i] == rows'[..j][i];
      }
    }
  }

  lemma SlicesAgree(s: seq<byte>, t: seq<byte>, n: nat, i: nat, j: nat)
    requires i <= j <= n <= |s| && n <= |t| && s[..n] == t[..n]
    ensures s[i..j] == t[i..j]
  {
    assert s[i..j] == s[..n][i..j] && t[i..j] == t[..n][i..j];
  }

  /** Expand row j and add its alpha. */
  method ExpandPacked(f: Format, out: array<byte>, cur: nat, ghost rows: seq<seq<byte>>, ghost j: nat)
    requires f.Valid() && f.depth < 8 && f.Stride() > 0 && j < |rows| && |rows[j]| == f.WidthBytes()
    requires cur == Off(f.Stride() - 1, j) && PackedRow(f, out[..], rows, j)
    modifies out
    ensures cur + f.Stride() <= out.Length && out[cur..cur + f.Stride()] == OutRow(f, rows[j])
    ensures forall i :: 0 <= i < out.Length && !(cur <= i < cur + f.Stride()) ==> out[i] == old(out[i])
  {
    hide UnpackRow, AddAlpha, Format.WidthBytes, Format.Stride, Format.Valid, PackedSize, Samples, OutRow, Off,
      PackedRow;
    StrideCovers(f);
    SameStride(f);
    PackedPlace(f, out[..], rows, j);
    SamplesOfRow(f, rows[j]);
    var k, start := f.x * f.img_n, cur + f.Stride() - f.WidthBytes();
    assert out[start..start + f.WidthBytes()] == out[..][start..start + f.WidthBytes()];
    ExpandRow(out, cur, start, k, f.depth, f.color, rows[j]);
    if f.img_n != f.out_n {
      WidenRow(f, out, cur, Samples(f, rows[j]));
    }
  }

  lemma PackedPlace(f: Format, out: seq<byte>, rows: seq<seq<byte>>, j: nat)
    requires f.Valid() && f.depth < 8 && f.Stride() > 0 && j < |rows| && PackedRow(f, out, rows, j)
    ensures var end := Off(f.Stride() - 1, j) + f.Stride();
      f.WidthBytes() <= f.Stride() && end <= |out| && out[end - f.WidthBytes()..end] == rows[j]
  {
  }

  lemma SamplesOfRow(f: Format, row: seq<byte>)
    requires f.Valid() && f.depth < 8 && |row| == f.WidthBytes()
    ensures Depth(f.depth) && |row| == PackedSize(f.x * f.img_n, f.depth) && f.img_n > 0
    ensures Samples(f, row) == UnpackRow(row, f.depth, f.color, f.x * f.img_n)
    ensures OutRow(f, row) == if f.img_n == f.out_n then Samples(f, row) else AddAlpha(Samples(f, row), f.img_n)
  {
    hide UnpackRow, AddAlpha, PackedSize, Format.WidthBytes;
    WidthIsPacked(f);
  }

  lemma SameStride(f: Format)
    requires f.Valid()
    ensures f.img_n == f.out_n ==> f.Stride() == f.x * f.img_n
    ensures f.img_n != f.out_n ==> f.Stride() == f.x * f.img_n + f.x
  {
    assert f.x * (f.img_n + 1) == f.x * f.img_n + f.x;
  }

  method WidenRow(f: Format, out: array<byte>, cur: nat, ghost samples: seq<byte>)
    requires f.Valid() && f.depth < 8 && f.img_n != f.out_n && |samples| == f.x * f.img_n <= f.Stride()
    requires cur + f.Stride() <= out.Length && out[cur..cur + f.x * f.img_n] == samples
    modifies out
    ensures out[cur..cur + f.Stride()] == AddAlpha(samples, f.img_n)
    ensures forall i :: 0 <= i < out.Length && !(cur <= i < cur + f.Stride()) ==> out[i] == old(out[i])
  {
    hide AddAlpha, Format.WidthBytes;
    SameStride(f);
    if f.img_n == 1 {
      InsertAlpha1(out, cur, f.x);
    } else {
      InsertAlpha3(out, cur, f.x);
    }
  }

  method ExpandAll(f: Format, out: array<byte>, y: nat, ghost rows: seq<seq<byte>>)
    requires f.Valid() && f.depth < 8 && f.Stride() > 0 && |rows| == y
    requires forall i :: 0 <= i < y ==> |rows[i]| == f.WidthBytes()
    requires Packed(f, out[..], rows, 0, y)
    modifies out
    ensures Off(f.Stride() - 1, y) <= out.Length && out[..Off(f.Stride() - 1, y)] == Flat(f, rows, y)
  {
    hide OutRow, Format.WidthBytes, Format.Stride;
    var stride := f.Stride();
    var cur := 0;
    for j := 0 to y
      invariant cur == Off(stride - 1, j) <= out.Length
      invariant out[..cur] == Flat(f, rows, j) && Packed(f, out[..], rows, j, y)
    {
      ghost var before := out[..];
      assert PackedRow(f, before, rows, j);
      ExpandPacked(f, out, cur, rows, j);
      forall i | j + 1 <= i < y ensures PackedRow(f, out[..], rows, i) {
        assert PackedRow(f, before, rows, i);
        OffMono(stride - 1, j, i);
        var end := Off(stride - 1, i) + stride;
        assert out[..][end - f.WidthBytes()..end] == before[end - f.WidthBytes()..end];
      }
      assert out[..cur] == before[..cur];
      assert out[..cur + stride] == out[..cur] + out[cur..cur + stride];
      OffMonoTo(stride - 1, j + 1, y);
      cur := cur + stride;
    }
  }

  method CreatePacked(f: Format, raw: seq<byte>, y: nat, out: array<byte>) returns (ok: bool)
    requires f.Valid() && f.depth < 8 && f.Stride() > 0 && Off(f.WidthBytes(), y) <= |raw|
    requires out.Length >= Off(f.Stride() - 1, y)
    modifies out
    ensures ok <==> FiltersValid(raw, f.WidthBytes(), y)
    ensures ok ==> out[..Off(f.Stride() - 1, y)] == Flat(f, Recon(raw, f.WidthBytes(), 1, y), y)
  {
    hide Recon, Format.WidthBytes, Format.Stride, PackedRow, OutRow;
    var width, stride := f.WidthBytes(), f.Stride();
    var pos, cur := 0, 0;
    for j := 0 to y
      invariant pos == Off(width, j) <= |raw| && cur == Off(stride - 1, j) <= out.Length
      invariant FiltersValid(raw, width, j)
      invariant Packed(f, out[..], Recon(raw, width, 1, j), 0, j)
    {
      OffMono(width, j, y);
      OffMonoTo(width, j + 1, y);
      OffMono(stride - 1, j, y);
      OffMonoTo(stride - 1, j + 1, y);
      if raw[pos] > 4 {
        return false;
      }
      NextPacked(f, raw, j, pos, out, cur);
      pos := pos + 1 + width;
      cur := cur + stride;
    }
    ExpandAll(f, out, y, Recon(raw, width, 1, y));
    return true;
  }

  // ---- the whole function ----

  function Pixels(f: Format, raw: seq<byte>, y: nat): seq<byte>
    requires f.Valid() && Off(f.WidthBytes(), y) <= |raw|
  {
    Flat(f, Recon(raw, f.WidthBytes(), f.FilterBytes(), y), y)
  }

  /**
    stbi__create_png_image_raw: succeeds exactly when there is enough data and every
    filter byte is valid, and yields the reconstructed rows, expanded and widened.
  */
  method CreateImageRaw(f: Format, raw: seq<byte>, y: nat) returns (ok: bool, out: array<byte>)
    requires f.Valid()
    ensures fresh(out) && out.Length == f.Stride() * y
    ensures ok <==>
      (f.WidthBytes() + 1) * y <= |raw| && Off(f.WidthBytes(), y) <= |raw| && FiltersValid(raw, f.WidthBytes(), y)
    ensures ok ==> out[..] == Pixels(f, raw, y)
  {
    hide Recon, Flat, Format.WidthBytes, Format.Stride, FiltersValid;
    OffIs(f.WidthBytes(), y);
    StrideCovers(f);
    OffIs(f.Stride() - 1, y);
    out := new byte[f.Stride() * y](_ => 0);
    if |raw| < (f.WidthBytes() + 1) * y {
      return false, out;
    }
    if f.depth == 8 {
      ok := Create8(f, raw, y, out);
      assert out[..f.Stride() * y] == out[..];
    } else {
      ok := CreatePacked(f, raw, y, out);
      assert out[..Off(f.Stride() - 1, y)] == out[..];
    }
  }
}
