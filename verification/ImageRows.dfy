/** Images as rows of bytes, and the images upside down. */
module ImageRows {
  import opened Bits

  /** Where row j of w bytes starts. */
  function RowOff(w: nat, j: nat): nat
  {
    if j == 0 then 0 else RowOff(w, j - 1) + w
  }

  lemma {:induction false} RowOffIs(w: nat, j: nat)
    ensures RowOff(w, j) == w * j
  {
    if j > 0 {
      RowOffIs(w, j - 1);
    }
  }

  lemma {:induction false} RowOffMono(w: nat, i: nat, j: nat)
    requires i < j
    ensures RowOff(w, i) + w <= RowOff(w, j)
  {
    if i + 1 < j {
      RowOffMono(w, i, j - 1);
    }
  }

  lemma {:induction false} RowOffAdd(w: nat, a: nat, b: nat)
    ensures RowOff(w, a + b) == RowOff(w, a) + RowOff(w, b)
    decreases b
  {
    if b > 0 {
      RowOffAdd(w, a, b - 1);
    }
  }

  function RowAt(s: seq<byte>, w: nat, h: nat, j: nat): (r: seq<byte>)
    requires |s| == RowOff(w, h) && j < h
    ensures |r| == w
  {
    RowOffMono(w, j, h);
    s[RowOff(w, j)..RowOff(w, j) + w]
  }

  /** The last k rows of s, last first. */
  function Flip(s: seq<byte>, w: nat, h: nat, k: nat): (r: seq<byte>)
    requires |s| == RowOff(w, h) && k <= h
    ensures |r| == RowOff(w, k)
  {
    if k == 0 then [] else Flip(s, w, h, k - 1) + RowAt(s, w, h, h - k)
  }

  /** Upside down. */
  function Flipped(s: seq<byte>, w: nat, h: nat): (r: seq<byte>)
    requires |s| == RowOff(w, h)
    ensures |r| == |s|
  {
    Flip(s, w, h, h)
  }

  lemma {:induction false} FlipRow(s: seq<byte>, w: nat, h: nat, k: nat, j: nat)
    requires |s| == RowOff(w, h) && j < k <= h
    ensures RowAt(Flip(s, w, h, k), w, k, j) == RowAt(s, w, h, h - 1 - j)
  {
    if j < k - 1 {
      FlipRow(s, w, h, k - 1, j);
      RowOffMono(w, j, k - 1);
    }
  }

  lemma {:induction false} SameRows(s: seq<byte>, t: seq<byte>, w: nat, h: nat, k: nat)
    requires |s| == |t| == RowOff(w, h) && k <= h
    requires forall j :: 0 <= j < h ==> RowAt(s, w, h, j) == RowAt(t, w, h, j)
    ensures k < h ==> RowOff(w, k) <= |s|
    ensures s[..if k < h then RowOff(w, k) else |s|] == t[..if k < h then RowOff(w, k) else |t|]
  {
    if k > 0 {
      SameRows(s, t, w, h, k - 1);
      RowOffMono(w, k - 1, h);
      if k < h {
        RowOffMono(w, k, h);
      }
      var o := RowOff(w, k - 1);
      assert s[..o + w] == s[..o] + RowAt(s, w, h, k - 1);
      assert t[..o + w] == t[..o] + RowAt(t, w, h, k - 1);
    } else if h > 0 {
      RowOffMono(w, 0, h);
    }
  }

  lemma RowsDetermine(s: seq<byte>, t: seq<byte>, w: nat, h: nat)
    requires |s| == |t| == RowOff(w, h)
    requires forall j :: 0 <= j < h ==> RowAt(s, w, h, j) == RowAt(t, w, h, j)
    ensures s == t
  {
    SameRows(s, t, w, h, h);
    assert s[..|s|] == s && t[..|t|] == t;
  }

  lemma FlippedTwice(s: seq<byte>, w: nat, h: nat)
    requires |s| == RowOff(w, h)
    ensures Flipped(Flipped(s, w, h), w, h) == s
  {
    var t := Flipped(s, w, h);
    forall j | 0 <= j < h ensures RowAt(Flipped(t, w, h), w, h, j) == RowAt(s, w, h, j) {
      FlipRow(t, w, h, h, j);
      FlipRow(s, w, h, h, h - 1 - j);
    }
    RowsDetermine(Flipped(t, w, h), s, w, h);
  }
}
