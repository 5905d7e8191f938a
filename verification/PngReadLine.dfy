/** The reader's reconstruction of one row in place: the loops of stbi__create_png_image_raw. */
module PngReadLine {
  import opened Bits
  import opened PngFilter

  /** The case `kind` of the loops stands for filter f below the row `above`. */
  predicate CaseOf(kind: nat, f: nat, above: seq<byte>)
  {
    f <= 4 && (kind == f || (kind == FirstRowCase(f) && above == Zeros(|above|)))
  }

  /** One reconstructed byte, computed by the case the reader switches on. */
  lemma DecodedByte(f: nat, kind: nat, raw: seq<byte>, above: seq<byte>, bpp: nat, done: seq<byte>, a: byte, b: byte,
                    c: byte)
    requires CaseOf(kind, f, above) && |done| < |raw| == |above| && bpp > 0
    requires a == Left(done, |done|, bpp)
    requires ReadsPrior(kind) ==> b == above[|done|] && c == Left(above, |done|, bpp)
    ensures (raw[|done|] + Predict7(kind, a, b, c)) % 256 == NextByte(f, raw, above, bpp, done)
  {
    if kind != f {
      FirstRowIsZeroPrior(f, a);
      PriorUnread(kind, a, b, c);
    }
  }

  /** Rows without added alpha: the bytes of a row follow each other. */
  method UnfilterContiguous(out: array<byte>, cur: nat, prior: int, raw: seq<byte>, kind: nat, bpp: nat,
                            ghost f: nat, ghost above: seq<byte>)
    requires cur + |raw| <= out.Length && |raw| == |above| && 0 < bpp <= |raw|
    requires CaseOf(kind, f, above)
    requires ReadsPrior(kind) ==> 0 <= prior && prior + |raw| <= cur && out[prior..prior + |raw|] == above
    modifies out
    ensures out[cur..cur + |raw|] == UnfilterRow(f, raw, above, bpp)
    ensures forall i :: 0 <= i < out.Length && !(cur <= i < cur + |raw|) ==> out[i] == old(out[i])
  {
    hide Predict7, NextByte, FirstRowCase, Zeros;
    for k := 0 to bpp
      invariant out[cur..cur + k] == Unfilter(f, raw, above, bpp, k)
      invariant forall i :: 0 <= i < out.Length && !(cur <= i < cur + k) ==> out[i] == old(out[i])
    {
      StepContiguous(out, cur, prior, raw, kind, bpp, k, f, above);
    }
    for k := bpp to |raw|
      invariant out[cur..cur + k] == Unfilter(f, raw, above, bpp, k)
      invariant forall i :: 0 <= i < out.Length && !(cur <= i < cur + k) ==> out[i] == old(out[i])
    {
      StepContiguous(out, cur, prior, raw, kind, bpp, k, f, above);
    }
  }

  /** One assignment of the loops; bytes left of the row count as zero. */
  method StepContiguous(out: array<byte>, cur: nat, prior: int, raw: seq<byte>, kind: nat, bpp: nat, k: nat,
                        ghost f: nat, ghost above: seq<byte>)
    requires cur + |raw| <= out.Length && |raw| == |above| && 0 < bpp && k < |raw|
    requires CaseOf(kind, f, above)
    requires ReadsPrior(kind) ==> 0 <= prior && prior + |raw| <= cur && forall i :: 0 <= i < |raw| ==>
      out[prior + i] == above[i]
    requires out[cur..cur + k] == Unfilter(f, raw, above, bpp, k)
    modifies out
    ensures out[cur..cur + k + 1] == Unfilter(f, raw, above, bpp, k + 1)
    ensures forall i :: 0 <= i < out.Length && i != cur + k ==> out[i] == old(out[i])
  {
    hide Predict7, NextByte, CaseOf, ReadsPrior;
    ghost var done := Unfilter(f, raw, above, bpp, k);
    var a := if k < bpp then 0 else out[cur + k - bpp];
    assert k >= bpp ==> out[cur + k - bpp] == out[cur..cur + k][k - bpp];
    var b := if ReadsPrior(kind) then out[prior + k] else 0;
    var c := if ReadsPrior(kind) && k >= bpp then out[prior + k - bpp] else 0;
    DecodedByte(f, kind, raw, above, bpp, done, a, b, c);
    out[cur + k] := (raw[k] + Predict7(kind, a, b, c)) % 256;
  }

  // ---- an added alpha channel ----

  /** Every pixel of n bytes followed by 255. */
  function AddAlpha(row: seq<byte>, n: nat): (r: seq<byte>)
    requires n > 0
  {
    if |row| < n then []
    else AddAlpha(row[..|row| - n], n) + row[|row| - n..] + [255]
  }

  lemma {:induction false} AddAlphaLength(row: seq<byte>, row': seq<byte>, n: nat)
    requires n > 0 && |row| == |row'|
    ensures |AddAlpha(row, n)| == |AddAlpha(row', n)|
    ensures |AddAlpha(row, n)| <= 2 * |row|
  {
    if |row| >= n {
      AddAlphaLength(row[..|row| - n], row'[..|row| - n], n);
    }
  }

  /** m bytes are a whole number of pixels of n bytes. */
  predicate Whole(m: nat, n: nat)
    requires n > 0
  {
    m == 0 || (m >= n && Whole(m - n, n))
  }

  lemma {:induction false} WholeGap(m: nat, l: nat, n: nat)
    requires n > 0 && m < l && Whole(m, n) && Whole(l, n)
    ensures m + n <= l
  {
    if m > 0 {
      WholeGap(m - n, l - n, n);
    }
  }

  /** Whole pixels at the front of a row are the front of the widened row. */
  lemma {:induction false} AddAlphaPrefix(row: seq<byte>, m: nat, n: nat)
    requires n > 0 && m <= |row| && Whole(m, n) && Whole(|row|, n)
    ensures |AddAlpha(row[..m], n)| <= |AddAlpha(row, n)|
    ensures AddAlpha(row, n)[..|AddAlpha(row[..m], n)|] == AddAlpha(row[..m], n)
    decreases |row|
  {
    if m == |row| {
      assert row[..m] == row;
    } else {
      WholeGap(m, |row|, n);
      var s := row[..|row| - n];
      AddAlphaPrefix(s, m, n);
      assert s[..m] == row[..m];
    }
  }

  /** Channel k of the pixel at m of a widened row. */
  lemma AddAlphaAt(row: seq<byte>, m: nat, n: nat, k: nat)
    requires n > 0 && Whole(m, n) && Whole(|row|, n) && m < |row| && k < n
    ensures m + n <= |row| && |AddAlpha(row[..m], n)| + n < |AddAlpha(row, n)|
    ensures AddAlpha(row, n)[|AddAlpha(row[..m], n)| + k] == row[m + k]
  {
    hide AddAlpha;
    WholeGap(m, |row|, n);
    AddAlphaPrefix(row, m + n, n);
    var s := row[..m + n];
    assert s[..m] == row[..m];
    AddAlphaStep(s, m, n);
    var t, o := AddAlpha(s, n), |AddAlpha(row[..m], n)|;
    assert t[o + k] == s[m..][k] == row[m + k];
    assert t[o + k] == AddAlpha(row, n)[..|t|][o + k];
  }

  /** Rows with added alpha: n bytes of data and one of 255 for every pixel. */
  method UnfilterInterleaved(out: array<byte>, cur: nat, prior: int, raw: seq<byte>, kind: nat, n: nat,
                             ghost f: nat, ghost above: seq<byte>)
    requires |raw| == |above| && 0 < n <= |raw| && Whole(|raw|, n)
    requires cur + |AddAlpha(above, n)| <= out.Length && CaseOf(kind, f, above)
    requires ReadsPrior(kind) ==> 0 <= prior && prior + |AddAlpha(above, n)| <= cur
    requires ReadsPrior(kind) ==> out[prior..prior + |AddAlpha(above, n)|] == AddAlpha(above, n)
    modifies out
    ensures var row := UnfilterRow(f, raw, above, n);
      |AddAlpha(row, n)| == |AddAlpha(above, n)| && out[cur..cur + |AddAlpha(above, n)|] == AddAlpha(row, n)
    ensures forall i :: 0 <= i < out.Length && !(cur <= i < cur + |AddAlpha(above, n)|) ==> out[i] == old(out[i])
  {
    hide NextByte, Predict7, FirstRowCase, Zeros, AddAlpha;
    ghost var size := |AddAlpha(above, n)|;
    AddAlphaLength(UnfilterRow(f, raw, above, n), above, n);
    AddAlphaEmpty(Unfilter(f, raw, above, n, 0), n);
    var r, dst := 0, cur;
    while r < |raw|
      invariant r <= |raw| && Whole(r, n)
      invariant cur <= dst <= cur + size && out[cur..dst] == AddAlpha(Unfilter(f, raw, above, n, r), n)
      invariant forall i :: 0 <= i < out.Length && !(cur <= i < dst) ==> out[i] == old(out[i])
      decreases |raw| - r
    {
      WholeGap(r, |raw|, n);
      PixelInterleaved(out, cur, dst, prior, raw, r, kind, n, f, above);
      r := r + n;
      dst := dst + n + 1;
    }
  }

  lemma AddAlphaEmpty(s: seq<byte>, n: nat)
    requires n > 0 && |s| == 0
    ensures AddAlpha(s, n) == []
  {
  }

  /** Where the bytes of a pixel and of its neighbours lie in the widened rows. */
  lemma Neighbours(above: seq<byte>, done: seq<byte>, r: nat, n: nat, k: nat)
    requires n > 0 && Whole(r, n) && Whole(|above|, n) && r < |above| && k < n && |done| == r + k
    ensures r + n <= |above| && |AddAlpha(done[..r], n)| + n < |AddAlpha(above, n)|
    ensures var o := |AddAlpha(done[..r], n)|;
      && AddAlpha(above, n)[o + k] == above[r + k]
      && (r > 0 ==> r >= n && o >= n + 1)
      && (r > 0 ==> AddAlpha(done[..r], n)[o - n - 1 + k] == done[r - n + k])
      && (r > 0 ==> AddAlpha(above, n)[o - n - 1 + k] == above[r - n + k])
  {
    hide AddAlpha;
    AddAlphaAt(above, r, n, k);
    AddAlphaLength(done[..r], above[..r], n);
    if r > 0 {
      AddAlphaStep(above[..r], r - n, n);
      assert above[..r][..r - n] == above[..r - n];
      AddAlphaAt(above, r - n, n, k);
      AddAlphaStep(done[..r], r - n, n);
    }
  }

  method ChannelByte(out: array<byte>, cur: nat, dst: nat, prior: int, raw: seq<byte>, r: nat, kind: nat, n: nat,
                     k: nat,
                     ghost f: nat, ghost above: seq<byte>)
    returns (v: byte)
    requires |raw| == |above| && 0 < n && Whole(r, n) && Whole(|raw|, n) && r + n <= |raw| && k < n
    requires cur <= dst && cur + |AddAlpha(above, n)| <= out.Length && CaseOf(kind, f, above)
    requires ReadsPrior(kind) ==> 0 <= prior && prior + |AddAlpha(above, n)| <= cur
    requires ReadsPrior(kind) ==> out[prior..prior + |AddAlpha(above, n)|] == AddAlpha(above, n)
    requires dst + n < cur + |AddAlpha(above, n)|
    requires var done := Unfilter(f, raw, above, n, r + k);
      out[cur..dst] == AddAlpha(done[..r], n) && out[dst..dst + k] == done[r..]
    ensures v == NextByte(f, raw, above, n, Unfilter(f, raw, above, n, r + k))
  {
    hide NextByte, Predict7, FirstRowCase, Zeros, AddAlpha, CaseOf, ReadsPrior;
    ghost var done := Unfilter(f, raw, above, n, r + k);
    ghost var wide := AddAlpha(above, n);
    Neighbours(above, done, r, n, k);
    assert r > 0 ==> out[dst + k - n - 1] == out[cur..dst][dst - cur - n - 1 + k];
    var a := if r == 0 then 0 else out[dst + k - n - 1];
    var b, c := 0, 0;
    if ReadsPrior(kind) {
      var up := prior + (dst - cur);
      assert out[up + k] == out[prior..prior + |wide|][dst - cur + k];
      b := out[up + k];
      if r > 0 {
        assert out[up + k - n - 1] == out[prior..prior + |wide|][dst - cur + k - n - 1];
        c := out[up + k - n - 1];
      }
    }
    DecodedByte(f, kind, raw, above, n, done, a, b, c);
    v := (raw[r + k] + Predict7(kind, a, b, c)) % 256;
  }

  /** The n bytes of one pixel, each from the same channel of its neighbours. */
  method ChannelsInterleaved(out: array<byte>, cur: nat, dst: nat, prior: int, raw: seq<byte>, r: nat, kind: nat,
                             n: nat,
                             ghost f: nat, ghost above: seq<byte>)
    requires |raw| == |above| && 0 < n && Whole(r, n) && Whole(|raw|, n) && r + n <= |raw|
    requires cur <= dst && cur + |AddAlpha(above, n)| <= out.Length && CaseOf(kind, f, above)
    requires ReadsPrior(kind) ==> 0 <= prior && prior + |AddAlpha(above, n)| <= cur
    requires ReadsPrior(kind) ==> out[prior..prior + |AddAlpha(above, n)|] == AddAlpha(above, n)
    requires dst + n < cur + |AddAlpha(above, n)| && out[cur..dst] == AddAlpha(Unfilter(f, raw, above, n, r), n)
    modifies out
    ensures out[dst..dst + n] == Unfilter(f, raw, above, n, r + n)[r..]
    ensures forall i :: 0 <= i < out.Length && !(dst <= i < dst + n) ==> out[i] == old(out[i])
  {
    hide NextByte, Predict7, FirstRowCase, Zeros, AddAlpha, CaseOf, ReadsPrior;
    ghost var size := |AddAlpha(above, n)|;
    for k := 0 to n
      invariant out[dst..dst + k] == Unfilter(f, raw, above, n, r + k)[r..]
      invariant out[cur..dst] == old(out[cur..dst])
      invariant ReadsPrior(kind) ==> out[prior..prior + size] == AddAlpha(above, n)
      invariant forall i :: 0 <= i < out.Length && !(dst <= i < dst + k) ==> out[i] == old(out[i])
    {
      UnfilterPrefix(f, raw, above, n, r, r + k);
      var v := ChannelByte(out, cur, dst, prior, raw, r, kind, n, k, f, above);
      out[dst + k] := v;
    }
  }

  /** One pixel: its reconstructed bytes, then 255. */
  method PixelInterleaved(out: array<byte>, cur: nat, dst: nat, prior: int, raw: seq<byte>, r: nat, kind: nat, n: nat,
                          ghost f: nat, ghost above: seq<byte>)
    requires |raw| == |above| && 0 < n && Whole(r, n) && Whole(|raw|, n) && r < |raw|
    requires cur <= dst && cur + |AddAlpha(above, n)| <= out.Length && CaseOf(kind, f, above)
    requires ReadsPrior(kind) ==> 0 <= prior && prior + |AddAlpha(above, n)| <= cur
    requires ReadsPrior(kind) ==> out[prior..prior + |AddAlpha(above, n)|] == AddAlpha(above, n)
    requires dst <= out.Length && out[cur..dst] == AddAlpha(Unfilter(f, raw, above, n, r), n)
    modifies out
    ensures r + n <= |raw| && dst + n + 1 <= cur + |AddAlpha(above, n)|
    ensures out[cur..dst + n + 1] == AddAlpha(Unfilter(f, raw, above, n, r + n), n)
    ensures forall i :: 0 <= i < out.Length && !(dst <= i < dst + n + 1) ==> out[i] == old(out[i])
  {
    hide NextByte, Predict7, FirstRowCase, Zeros, AddAlpha, CaseOf, ReadsPrior, Unfilter;
    ghost var before := out[cur..dst];
    AddAlphaLength(Unfilter(f, raw, above, n, r), above[..r], n);
    AddAlphaAt(above, r, n, 0);
    ChannelsInterleaved(out, cur, dst, prior, raw, r, kind, n, f, above);
    out[dst + n] := 255;
    UnfilterPrefix(f, raw, above, n, r, r + n);
    AddAlphaStep(Unfilter(f, raw, above, n, r + n), r, n);
    assert out[cur..dst + n + 1] == before + out[dst..dst + n] + [255];
  }

  lemma AddAlphaStep(s: seq<byte>, r: nat, n: nat)
    requires n > 0 && |s| == r + n
    ensures AddAlpha(s, n) == AddAlpha(s[..r], n) + s[r..] + [255]
  {
  }
}
