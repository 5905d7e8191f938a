/**
  The order in which the GIF cursor visits the pixels of a frame, and what painting the
  decoded symbols in that order leaves on the canvas.
*/
module GifCells {
  import opened Bits
  import opened ImageRows

  // ---- rows ----

  /** a, a + step, ... below h. */
  function Progression(a: nat, step: nat, h: nat): (r: seq<nat>)
    requires step > 0
    decreases if a < h then h - a else 0
  {
    if a >= h then [] else [a] + Progression(a + step, step, h)
  }

  /** The interlaced passes still to come: every 2^parse-th row from 2^(parse-1) on. */
  function Later(parse: nat, h: nat): (r: seq<nat>)
    requires parse <= 3
  {
    if parse == 0 then []
    else if parse == 1 then Progression(1, 2, h) + Later(0, h)
    else if parse == 2 then Progression(2, 4, h) + Later(1, h)
    else Progression(4, 8, h) + Later(2, h)
  }

  function RowOrder(h: nat, interlaced: bool): seq<nat>
  {
    if interlaced then Progression(0, 8, h) + Later(3, h) else Progression(0, 1, h) + Later(0, h)
  }

  predicate OnStep(r: nat, a: nat, step: nat)
  {
    r >= a && (if step == 1 then true else if step == 2 then (r - a) % 2 == 0
               else if step == 4 then (r - a) % 4 == 0 else (r - a) % 8 == 0)
  }

  lemma OnStepNext(r: nat, a: nat, step: nat)
    requires step in {1, 2, 4, 8}
    ensures OnStep(r, a, step) <==> r == a || OnStep(r, a + step, step)
    ensures OnStep(r, a, step) ==> r >= a
  {
  }

  /** How often c occurs in s. */
  function Count<T(==)>(s: seq<T>, c: T): nat
  {
    if s == [] then 0 else Count(s[1..], c) + if s[0] == c then 1 else 0
  }

  lemma {:induction false} CountAppend<T>(s: seq<T>, t: seq<T>, c: T)
    ensures Count(s + t, c) == Count(s, c) + Count(t, c)
    decreases |s|
  {
    if s == [] {
      assert s + t == t;
    } else {
      assert (s + t)[1..] == s[1..] + t;
      CountAppend(s[1..], t, c);
    }
  }

  lemma {:induction false} CountAt<T>(s: seq<T>, i: nat)
    requires i < |s|
    ensures Count(s, s[i]) >= 1
    decreases i
  {
    if i > 0 {
      CountAt(s[1..], i - 1);
    }
  }

  lemma {:induction false} CountTwice<T>(s: seq<T>, i: nat, j: nat)
    requires i < j < |s| && s[i] == s[j]
    ensures Count(s, s[i]) >= 2
    decreases i
  {
    if i > 0 {
      CountTwice(s[1..], i - 1, j - 1);
    } else {
      CountAt(s[1..], j - 1);
    }
  }

  lemma {:induction false} ProgressionRows(a: nat, step: nat, h: nat, r: nat)
    requires step in {1, 2, 4, 8}
    ensures Count(Progression(a, step, h), r) == if r < h && OnStep(r, a, step) then 1 else 0
    decreases if a < h then h - a else 0
  {
    hide OnStep;
    OnStepNext(r, a, step);
    OnStepNext(r, a + step, step);
    if a < h {
      ProgressionRows(a + step, step, h, r);
      assert Progression(a, step, h)[1..] == Progression(a + step, step, h);
    }
  }

  /** Interlaced or not, every row of the frame comes exactly once. */
  lemma RowOrderOnce(h: nat, interlaced: bool, r: nat)
    ensures Count(RowOrder(h, interlaced), r) == if r < h then 1 else 0
  {
    hide Progression, Count, OnStep;
    var p0, p1, p2, p3 := Progression(0, 8, h), Progression(4, 8, h), Progression(2, 4, h), Progression(1, 2, h);
    if interlaced {
      LaterIs(h);
      CountAppend(p0, p1 + (p2 + p3), r);
      CountAppend(p1, p2 + p3, r);
      CountAppend(p2, p3, r);
      ProgressionRows(0, 8, h, r);
      ProgressionRows(4, 8, h, r);
      ProgressionRows(2, 4, h, r);
      ProgressionRows(1, 2, h, r);
      OnePass(r);
    } else {
      ProgressionRows(0, 1, h, r);
      assert RowOrder(h, false) == Progression(0, 1, h);
      assert OnStep(r, 0, 1) by { OnePass(r); }
    }
  }

  lemma LaterIs(h: nat)
    ensures Later(3, h) == Progression(4, 8, h) + (Progression(2, 4, h) + Progression(1, 2, h))
  {
    hide Progression;
    assert Later(1, h) == Progression(1, 2, h) + Later(0, h) == Progression(1, 2, h);
    assert Later(2, h) == Progression(2, 4, h) + Later(1, h);
  }

  /** Each row belongs to exactly one of the four passes. */
  lemma OnePass(r: nat)
    ensures OnStep(r, 0, 1)
    ensures (if OnStep(r, 0, 8) then 1 else 0) + (if OnStep(r, 4, 8) then 1 else 0)
          + (if OnStep(r, 2, 4) then 1 else 0) + (if OnStep(r, 1, 2) then 1 else 0) == 1
  {
  }

  /** Non-interlaced frames come top to bottom. */
  lemma {:induction false} InRowOrder(a: nat, h: nat, i: nat)
    requires a + i < h
    ensures |Progression(a, 1, h)| == h - a && Progression(a, 1, h)[i] == a + i
    decreases h - a
  {
    if i > 0 {
      InRowOrder(a + 1, h, i - 1);
    } else if a + 1 < h {
      InRowOrder(a + 1, h, 0);
    }
  }

  lemma {:induction false} ProgressionAt(a: nat, step: nat, h: nat, i: nat)
    requires step in {1, 2, 4, 8}
    ensures i < |Progression(a, step, h)| <==> a + Steps(step, i) < h
    ensures i < |Progression(a, step, h)| ==> Progression(a, step, h)[i] == a + Steps(step, i)
    decreases if a < h then h - a else 0
  {
    if i > 0 && a < h {
      ProgressionAt(a + step, step, h, i - 1);
    }
  }

  /** i times a step of a pass. */
  function Steps(step: nat, i: nat): nat
  {
    if step == 1 then i else if step == 2 then 2 * i else if step == 4 then 4 * i else 8 * i
  }

  /** Interlaced rows come in four passes: every eighth row, the fourths between, the seconds, the odd ones. */
  lemma InterlacedOrder(h: nat)
    ensures var p0, p1, p2, p3 := Progression(0, 8, h), Progression(4, 8, h), Progression(2, 4, h),
      Progression(1, 2, h);
      && RowOrder(h, true) == p0 + p1 + p2 + p3
      && (forall i: nat {:trigger p0[i]} :: i < |p0| ==> p0[i] == 8 * i)
      && (forall i: nat {:trigger p1[i]} :: i < |p1| ==> p1[i] == 4 + 8 * i)
      && (forall i: nat {:trigger p2[i]} :: i < |p2| ==> p2[i] == 2 + 4 * i)
      && (forall i: nat {:trigger p3[i]} :: i < |p3| ==> p3[i] == 1 + 2 * i)
  {
    hide Progression, Later;
    LaterIs(h);
    var p0, p1, p2, p3 := Progression(0, 8, h), Progression(4, 8, h), Progression(2, 4, h), Progression(1, 2, h);
    assert p0 + (p1 + (p2 + p3)) == p0 + p1 + p2 + p3;
    forall i: nat | i < |p0| ensures p0[i] == 8 * i {
      ProgressionAt(0, 8, h, i);
    }
    forall i: nat | i < |p1| ensures p1[i] == 4 + 8 * i {
      ProgressionAt(4, 8, h, i);
    }
    forall i: nat | i < |p2| ensures p2[i] == 2 + 4 * i {
      ProgressionAt(2, 4, h, i);
    }
    forall i: nat | i < |p3| ensures p3[i] == 1 + 2 * i {
      ProgressionAt(1, 2, h, i);
    }
  }

  // ---- cells ----

  /** Column and row within the frame. */
  datatype Cell = Cell(x: nat, y: nat)

  /** What is left of a row from column x on, then all of the rows after it. */
  function Visits(rows: seq<nat>, x: nat, w: nat): (r: seq<Cell>)
    requires x < w
    decreases |rows|, w - x
  {
    if rows == [] then []
    else [Cell(x, rows[0])] + if x + 1 < w then Visits(rows, x + 1, w) else Visits(rows[1..], 0, w)
  }

  /** Every cell of a w by h frame, in the order it is painted. */
  function FrameCells(w: nat, h: nat, interlaced: bool): seq<Cell>
  {
    if w == 0 then [] else Visits(RowOrder(h, interlaced), 0, w)
  }

  lemma CountFirst<T>(s: seq<T>, c: T)
    ensures Count(s, c) == if s == [] then 0 else Count(s[1..], c) + if s[0] == c then 1 else 0
  {
  }

  lemma VisitsFirst(rows: seq<nat>, x: nat, w: nat)
    requires x < w && rows != []
    ensures var s := Visits(rows, x, w);
      s != [] && s[0] == Cell(x, rows[0]) && s[1..] == if x + 1 < w then Visits(rows, x + 1, w)
        else Visits(rows[1..], 0, w)
  {
  }

  lemma {:induction false} VisitsCount(rows: seq<nat>, x: nat, w: nat, c: Cell)
    requires x < w
    ensures Count(Visits(rows, x, w), c) == if rows == [] || c.x >= w then 0
              else Count(rows[1..], c.y) + (if c.y == rows[0] && x <= c.x then 1 else 0)
    decreases |rows|, w - x
  {
    hide Count, Visits;
    CountFirst(Visits(rows, x, w), c);
    if rows != [] {
      VisitsFirst(rows, x, w);
      if x + 1 < w {
        VisitsCount(rows, x + 1, w, c);
      } else {
        VisitsCount(rows[1..], 0, w, c);
        CountFirst(rows[1..], c.y);
      }
    } else {
      NoVisits(x, w);
    }
  }

  lemma NoVisits(x: nat, w: nat)
    requires x < w
    ensures Visits([], x, w) == []
  {
  }

  /** The cursor visits every pixel of the rectangle exactly once and no other. */
  lemma FrameCellsOnce(w: nat, h: nat, interlaced: bool, c: Cell)
    ensures Count(FrameCells(w, h, interlaced), c) == if c.x < w && c.y < h then 1 else 0
  {
    hide RowOrder, Visits;
    if w > 0 {
      var rows := RowOrder(h, interlaced);
      VisitsCount(rows, 0, w, c);
      RowOrderOnce(h, interlaced, c.y);
    }
  }

  lemma FrameCellsDistinct(w: nat, h: nat, interlaced: bool, i: nat, j: nat)
    requires i < j < |FrameCells(w, h, interlaced)|
    ensures FrameCells(w, h, interlaced)[i] != FrameCells(w, h, interlaced)[j]
  {
    hide FrameCells, Count;
    var s := FrameCells(w, h, interlaced);
    if s[i] == s[j] {
      CountTwice(s, i, j);
      FrameCellsOnce(w, h, interlaced, s[i]);
      assert false;
    }
  }

  lemma FrameCellsInside(w: nat, h: nat, interlaced: bool, i: nat)
    requires i < |FrameCells(w, h, interlaced)|
    ensures var c := FrameCells(w, h, interlaced)[i]; c.x < w && c.y < h
  {
    hide FrameCells, Count;
    var s := FrameCells(w, h, interlaced);
    CountAt(s, i);
    FrameCellsOnce(w, h, interlaced, s[i]);
  }

  /** Rows are painted from left to right, one after the other. */
  lemma {:induction false} VisitsAt(rows: seq<nat>, x: nat, w: nat, i: nat, c: nat)
    requires x < w && i < |rows| && c < w && (i == 0 ==> x <= c)
    ensures var k := RowOff(w, i) + c - x;
      0 <= k < |Visits(rows, x, w)| && Visits(rows, x, w)[k] == Cell(c, rows[i])
    decreases |rows|, w - x
  {
    hide Visits;
    VisitsFirst(rows, x, w);
    var s := Visits(rows, x, w);
    if i > 0 {
      RowOffNext(w, i);
    } else {
      assert RowOff(w, 0) == 0;
    }
    if x + 1 < w {
      if i > 0 || x < c {
        VisitsAt(rows, x + 1, w, i, c);
        assert s[1..][RowOff(w, i) + c - x - 1] == s[RowOff(w, i) + c - x];
      }
    } else if i > 0 {
      VisitsAt(rows[1..], 0, w, i - 1, c);
      assert s[1..][RowOff(w, i - 1) + c] == s[RowOff(w, i - 1) + c + 1];
    }
  }

  lemma {:induction false} RowOffNext(w: nat, i: nat)
    requires i > 0
    ensures RowOff(w, i) == RowOff(w, i - 1) + w
  {
  }

  lemma FrameCellAt(w: nat, h: nat, interlaced: bool, i: nat, c: nat)
    requires i < |RowOrder(h, interlaced)| && c < w
    ensures RowOff(w, i) + c < |FrameCells(w, h, interlaced)|
    ensures FrameCells(w, h, interlaced)[RowOff(w, i) + c] == Cell(c, RowOrder(h, interlaced)[i])
  {
    hide RowOrder, Visits;
    VisitsAt(RowOrder(h, interlaced), 0, w, i, c);
  }
}
