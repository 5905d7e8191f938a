/**
  PNG row filters (W3C PNG, second edition, section 9.2): the writer's filtered line, the
  reader's reconstruction, and that each undoes the other.
*/
module PngFilter {
  import opened Bits

  /** stbi__paeth and stbiw__paeth. */
  function Paeth(a: int, b: int, c: int): (r: int)
    ensures r == a || r == b || r == c
  {
    var p := a + b - c;
    var pa, pb, pc := Abs(p - a), Abs(p - b), Abs(p - c);
    if pa <= pb && pa <= pc then a else if pb <= pc then b else c
  }

  /** The predictor of filter type f from the left, upper and upper left bytes. */
  function Predict(f: nat, a: byte, b: byte, c: byte): (p: byte)
  {
    if f == 1 then a
    else if f == 2 then b
    else if f == 3 then (a + b) / 2
    else if f == 4 then Paeth(a, b, c)
    else 0
  }

  /** x is no farther from p than y and z are. */
  predicate Nearest(p: int, x: int, y: int, z: int) { Abs(p - x) <= Abs(p - y) && Abs(p - x) <= Abs(p - z) }

  /** The nearest of left, above and upper left to a + b - c, in this order when several are. */
  lemma PaethIsNearest(a: int, b: int, c: int)
    ensures var p, r := a + b - c, Paeth(a, b, c);
      && Nearest(p, r, a, b) && Nearest(p, r, b, c)
      && (Nearest(p, a, b, c) ==> r == a)
      && (!Nearest(p, a, b, c) && Nearest(p, b, a, c) ==> r == b)
      && (!Nearest(p, a, b, c) && !Nearest(p, b, a, c) ==> r == c)
  {
  }

  /** Section 9.2, type by type. */
  lemma PredictIs(a: byte, b: byte, c: byte)
    ensures Predict(0, a, b, c) == 0 && Predict(1, a, b, c) == a && Predict(2, a, b, c) == b
    ensures var avg := Predict(3, a, b, c); 2 * avg <= a + b < 2 * avg + 2
    ensures var p, r := a + b - c, Predict(4, a, b, c);
      && Nearest(p, r, a, b) && Nearest(p, r, b, c)
      && (Nearest(p, a, b, c) ==> r == a)
      && (!Nearest(p, a, b, c) && Nearest(p, b, a, c) ==> r == b)
      && (!Nearest(p, a, b, c) && !Nearest(p, b, a, c) ==> r == c)
  {
    hide Paeth;
    PaethIsNearest(a, b, c);
  }

  function Left(s: seq<byte>, i: nat, bpp: nat): byte
    requires i < |s| + bpp
  {
    if i < bpp then 0 else s[i - bpp]
  }

  /** One filtered byte: the byte minus its prediction, modulo 256. */
  function FilterByte(f: nat, row: seq<byte>, prior: seq<byte>, bpp: nat, i: nat): byte
    requires i < |row| == |prior| && bpp > 0
  {
    (row[i] - Predict(f, Left(row, i, bpp), prior[i], Left(prior, i, bpp))) % 256
  }

  function FilterRow(f: nat, row: seq<byte>, prior: seq<byte>, bpp: nat): (r: seq<byte>)
    requires |row| == |prior| && bpp > 0
    ensures |r| == |row|
    ensures forall i :: 0 <= i < |row| ==> r[i] == FilterByte(f, row, prior, bpp, i)
  {
    seq(|row|, i requires 0 <= i < |row| => FilterByte(f, row, prior, bpp, i))
  }

  /** The byte after the reconstructed bytes `done`. */
  function NextByte(f: nat, raw: seq<byte>, prior: seq<byte>, bpp: nat, done: seq<byte>): byte
    requires |done| < |raw| == |prior| && bpp > 0
  {
    var i := |done|;
    (raw[i] + Predict(f, Left(done, i, bpp), prior[i], Left(prior, i, bpp))) % 256
  }

  /** The first n bytes reconstructed. */
  function Unfilter(f: nat, raw: seq<byte>, prior: seq<byte>, bpp: nat, n: nat): (r: seq<byte>)
    requires n <= |raw| == |prior| && bpp > 0
    ensures |r| == n
  {
    if n == 0 then []
    else
      var done := Unfilter(f, raw, prior, bpp, n - 1);
      done + [NextByte(f, raw, prior, bpp, done)]
  }

  function UnfilterRow(f: nat, raw: seq<byte>, prior: seq<byte>, bpp: nat): (r: seq<byte>)
    requires |raw| == |prior| && bpp > 0
    ensures |r| == |raw|
  {
    Unfilter(f, raw, prior, bpp, |raw|)
  }

  lemma AddBack(x: byte, p: byte)
    ensures ((x - p) % 256 + p) % 256 == x && ((x + p) % 256 - p) % 256 == x
  {
  }

  /** Reconstruction undoes filtering. */
  lemma {:induction false} UnfilterFilter(f: nat, row: seq<byte>, prior: seq<byte>, bpp: nat, n: nat)
    requires n <= |row| == |prior| && bpp > 0
    ensures Unfilter(f, FilterRow(f, row, prior, bpp), prior, bpp, n) == row[..n]
  {
    if n > 0 {
      UnfilterFilter(f, row, prior, bpp, n - 1);
      var i := n - 1;
      AddBack(row[i], Predict(f, Left(row, i, bpp), prior[i], Left(prior, i, bpp)));
      assert Left(row[..i], i, bpp) == Left(row, i, bpp);
    }
  }

  lemma RowRoundTrip(f: nat, row: seq<byte>, prior: seq<byte>, bpp: nat)
    requires |row| == |prior| && bpp > 0
    ensures UnfilterRow(f, FilterRow(f, row, prior, bpp), prior, bpp) == row
  {
    UnfilterFilter(f, row, prior, bpp, |row|);
    assert row[..|row|] == row;
  }

  lemma {:induction false} UnfilterPrefix(f: nat, raw: seq<byte>, prior: seq<byte>, bpp: nat, m: nat, n: nat)
    requires m <= n <= |raw| == |prior| && bpp > 0
    ensures Unfilter(f, raw, prior, bpp, n)[..m] == Unfilter(f, raw, prior, bpp, m)
  {
    if m < n {
      UnfilterPrefix(f, raw, prior, bpp, m, n - 1);
    }
  }

  /** Filtering undoes reconstruction: every filtered line stands for exactly one row. */
  lemma FilterUnfilter(f: nat, raw: seq<byte>, prior: seq<byte>, bpp: nat)
    requires |raw| == |prior| && bpp > 0
    ensures FilterRow(f, UnfilterRow(f, raw, prior, bpp), prior, bpp) == raw
  {
    var row := UnfilterRow(f, raw, prior, bpp);
    forall i | 0 <= i < |raw| ensures FilterByte(f, row, prior, bpp, i) == raw[i] {
      var done := Unfilter(f, raw, prior, bpp, i);
      UnfilterPrefix(f, raw, prior, bpp, i, |raw|);
      UnfilterPrefix(f, raw, prior, bpp, i + 1, |raw|);
      assert row[i] == row[..i + 1][i] == NextByte(f, raw, prior, bpp, done);
      assert Left(row[..i], i, bpp) == Left(row, i, bpp);
      AddBack(raw[i], Predict(f, Left(row, i, bpp), prior[i], Left(prior, i, bpp)));
    }
  }

  // ---- the seven cases of the loops ----

  /** The predictors as the loops switch on them; 5 and 6 are avg and paeth of a first row. */
  function Predict7(f: nat, a: byte, b: byte, c: byte): byte
  {
    if f == 5 then a / 2 else if f == 6 then Paeth(a, 0, 0) else Predict(f, a, b, c)
  }

  /** firstmap and first_row_filter: the case used for filter type f on the first row. */
  function FirstRowCase(f: nat): nat
  {
    if f == 2 then 0 else if f == 3 then 5 else if f == 4 then 6 else f
  }

  /** The first-row cases are the filters over a row of zeros. */
  lemma FirstRowIsZeroPrior(f: nat, a: byte)
    requires f <= 4
    ensures Predict7(FirstRowCase(f), a, 0, 0) == Predict(f, a, 0, 0)
  {
  }

  predicate ReadsPrior(f: nat) { 2 <= f <= 4 }

  lemma PriorUnread(f: nat, a: byte, b: byte, c: byte)
    requires !ReadsPrior(f)
    ensures Predict7(f, a, b, c) == Predict7(f, a, 0, 0)
  {
  }
}
