/** Painting a frame: symbols put at the cells of the frame one after the other. */
module GifPaint {
  import opened Bits
  import opened ImageRows
  import opened GifCells

  /** The output, four bytes a pixel, and the marks of pixels touched by this frame. */
  datatype Canvas = Canvas(out: seq<byte>, history: seq<byte>)
  {
    predicate Valid() { |out| == 4 * |history| }

    function Pixel(q: nat): seq<byte>
      requires Valid() && q < |history|
    {
      out[4 * q..4 * q + 4]
    }
  }

  /** A rectangle within a screen of width x height pixels. */
  datatype Frame = Frame(width: nat, height: nat, x: nat, y: nat, w: nat, h: nat, interlaced: bool)
  {
    predicate Valid() { x + w <= width && y + h <= height }

    function Spot(c: Cell): nat
    {
      RowOff(width, y + c.y) + x + c.x
    }

    predicate Holds(cells: seq<Cell>)
    {
      forall i :: 0 <= i < |cells| ==> cells[i].x < w && cells[i].y < h
    }
  }

  lemma SpotInside(f: Frame, c: Cell)
    requires f.Valid() && c.x < f.w && c.y < f.h
    ensures f.Spot(c) < RowOff(f.width, f.height)
  {
    RowOffMono(f.width, f.y + c.y, f.height);
  }

  lemma SpotDistinct(f: Frame, c: Cell, d: Cell)
    requires f.Valid() && c.x < f.w && d.x < f.w && c != d
    ensures f.Spot(c) != f.Spot(d)
  {
    if c.y < d.y {
      RowOffMono(f.width, f.y + c.y, f.y + d.y);
    } else if d.y < c.y {
      RowOffMono(f.width, f.y + d.y, f.y + c.y);
    }
  }

  type Table = t: seq<byte> | |t| == 1024 witness seq(1024, _ => 0)

  /** Blue, green, red, alpha of a symbol. */
  function Colour(table: Table, symbol: byte): (c: seq<byte>)
    ensures |c| == 4
  {
    table[4 * symbol..4 * symbol + 4]
  }

  lemma ColourIs(table: Table, s: byte)
    ensures Colour(table, s) == [table[4 * s], table[4 * s + 1], table[4 * s + 2], table[4 * s + 3]]
  {
  }

  /** One pixel: transparent colours only leave their mark. */
  function Put(cv: Canvas, q: nat, c: seq<byte>): (r: Canvas)
    requires cv.Valid() && q < |cv.history| && |c| == 4
    ensures r.Valid() && |r.history| == |cv.history|
  {
    var out := if c[3] > 128 then cv.out[..4 * q] + [c[2], c[1], c[0], c[3]] + cv.out[4 * q + 4..] else cv.out;
    Canvas(out, cv.history[q := 1])
  }

  lemma PutHit(cv: Canvas, q: nat, c: seq<byte>)
    requires cv.Valid() && q < |cv.history| && |c| == 4
    ensures Put(cv, q, c).Pixel(q) == (if c[3] > 128 then [c[2], c[1], c[0], c[3]] else cv.Pixel(q))
    ensures Put(cv, q, c).history[q] == 1
  {
  }

  lemma PutMiss(cv: Canvas, q: nat, c: seq<byte>, p: nat)
    requires cv.Valid() && q < |cv.history| && |c| == 4 && p < |cv.history| && p != q
    ensures Put(cv, q, c).Pixel(p) == cv.Pixel(p) && Put(cv, q, c).history[p] == cv.history[p]
  {
    var r := Put(cv, q, c);
    forall k | 4 * p <= k < 4 * p + 4 ensures r.out[k] == cv.out[k] {
    }
  }

  ghost predicate Paintable(cv: Canvas, f: Frame, cells: seq<Cell>)
  {
    cv.Valid() && f.Valid() && |cv.history| == RowOff(f.width, f.height) && f.Holds(cells)
  }

  function Drop<T>(s: seq<T>, n: nat): seq<T>
  {
    if n <= |s| then s[n..] else []
  }

  /** The canvas after the symbols are put at the cells, until one of the two runs out. */
  ghost function Paint(cv: Canvas, f: Frame, cells: seq<Cell>, table: Table, symbols: seq<byte>): (r: Canvas)
    requires Paintable(cv, f, cells)
    ensures r.Valid() && |r.history| == |cv.history|
    decreases |symbols|
  {
    if cells == [] || symbols == [] then cv
    else
      SpotInside(f, cells[0]);
      Paint(Put(cv, f.Spot(cells[0]), Colour(table, symbols[0])), f, cells[1..], table, symbols[1..])
  }

  lemma {:induction false} PaintAppend(cv: Canvas, f: Frame, cells: seq<Cell>, table: Table, a: seq<byte>, b: seq<byte>)
    requires Paintable(cv, f, cells)
    ensures f.Holds(Drop(cells, |a|))
    ensures Paint(cv, f, cells, table, a + b)
         == Paint(Paint(cv, f, cells, table, a), f, Drop(cells, |a|), table, b)
    decreases |a|
  {
    hide Put, Colour, Frame.Spot, Frame.Valid;
    if a == [] {
      assert a + b == b;
    } else if cells != [] {
      SpotInside(f, cells[0]);
      assert (a + b)[1..] == a[1..] + b;
      var cv' := Put(cv, f.Spot(cells[0]), Colour(table, a[0]));
      assert Paintable(cv', f, cells[1..]);
      PaintAppend(cv', f, cells[1..], table, a[1..], b);
      assert Drop(cells[1..], |a| - 1) == Drop(cells, |a|);
    }
  }

  predicate Distinct(cells: seq<Cell>)
  {
    forall i, j :: 0 <= i < j < |cells| ==> cells[i] != cells[j]
  }

  /** A pixel no symbol is put at keeps its colour and its mark. */
  lemma {:induction false} PaintMiss(cv: Canvas, f: Frame, cells: seq<Cell>, table: Table, symbols: seq<byte>, q: nat)
    requires Paintable(cv, f, cells) && q < |cv.history|
    requires forall i :: 0 <= i < |cells| && i < |symbols| ==> f.Spot(cells[i]) != q
    ensures var r := Paint(cv, f, cells, table, symbols); r.Pixel(q) == cv.Pixel(q) && r.history[q] == cv.history[q]
    decreases |symbols|
  {
    hide Put, Colour, Frame.Spot, Frame.Valid, Canvas.Pixel;
    if cells != [] && symbols != [] {
      SpotInside(f, cells[0]);
      var c := Colour(table, symbols[0]);
      var cv' := Put(cv, f.Spot(cells[0]), c);
      PutMiss(cv, f.Spot(cells[0]), c, q);
      forall i | 0 <= i < |cells[1..]| && i < |symbols[1..]| ensures f.Spot(cells[1..][i]) != q {
        assert cells[1..][i] == cells[i + 1];
      }
      PaintMiss(cv', f, cells[1..], table, symbols[1..], q);
    }
  }

  /** The k-th symbol colours the k-th cell, unless it is transparent, and marks it. */
  lemma {:induction false} PaintHit(cv: Canvas, f: Frame, cells: seq<Cell>, table: Table, symbols: seq<byte>, k: nat)
    requires Paintable(cv, f, cells) && Distinct(cells) && k < |cells| && k < |symbols|
    ensures f.Spot(cells[k]) < |cv.history|
    ensures var s: nat, r, q := symbols[k], Paint(cv, f, cells, table, symbols), f.Spot(cells[k]);
      && r.history[q] == 1
      && r.Pixel(q) == if table[4 * s + 3] > 128
           then [table[4 * s + 2], table[4 * s + 1], table[4 * s], table[4 * s + 3]] else cv.Pixel(q)
    decreases k
  {
    hide Put, Colour, Frame.Spot, Frame.Valid, Canvas.Pixel;
    SpotInside(f, cells[0]);
    SpotInside(f, cells[k]);
    var c := Colour(table, symbols[0]);
    var cv' := Put(cv, f.Spot(cells[0]), c);
    if k == 0 {
      ColourIs(table, symbols[0]);
      PutHit(cv, f.Spot(cells[0]), c);
      forall i | 0 <= i < |cells[1..]| && i < |symbols[1..]| ensures f.Spot(cells[1..][i]) != f.Spot(cells[0]) {
        SpotDistinct(f, cells[0], cells[i + 1]);
      }
      PaintMiss(cv', f, cells[1..], table, symbols[1..], f.Spot(cells[0]));
    } else {
      PaintHit(cv', f, cells[1..], table, symbols[1..], k - 1);
      SpotDistinct(f, cells[0], cells[k]);
      PutMiss(cv, f.Spot(cells[0]), c, f.Spot(cells[k]));
    }
  }

  lemma FrameCellsFit(f: Frame)
    ensures Distinct(FrameCells(f.w, f.h, f.interlaced)) && f.Holds(FrameCells(f.w, f.h, f.interlaced))
  {
    hide FrameCells;
    var s := FrameCells(f.w, f.h, f.interlaced);
    forall i, j | 0 <= i < j < |s| ensures s[i] != s[j] {
      FrameCellsDistinct(f.w, f.h, f.interlaced, i, j);
    }
    forall i | 0 <= i < |s| ensures s[i].x < f.w && s[i].y < f.h {
      FrameCellsInside(f.w, f.h, f.interlaced, i);
    }
  }
}
