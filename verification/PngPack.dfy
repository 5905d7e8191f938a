/** Samples of less than eight bits: packed as W3C PNG section 7.2 says, and expanded again. */
module PngPack {
  import opened Bits
  import opened ImageRows
  import opened PngUnpack

  /** Fields of depth bits each, the first one uppermost. */
  function Fields(vs: seq<nat>, depth: nat): nat
  {
    if vs == [] then 0 else Shl(Fields(vs[..|vs| - 1], depth), depth) + vs[|vs| - 1]
  }

  predicate Small(vs: seq<nat>, depth: nat) { forall i :: 0 <= i < |vs| ==> vs[i] < Pow2(depth) }

  lemma {:induction false} FieldsBound(vs: seq<nat>, depth: nat)
    requires Small(vs, depth)
    ensures Fields(vs, depth) < Pow2(RowOff(depth, |vs|))
    decreases |vs|
  {
    hide Pow2, Shl;
    if vs == [] {
      ShlOne(0);
      NoShift();
    } else {
      var n := |vs| - 1;
      var front, size := Fields(vs[..n], depth), RowOff(depth, n);
      FieldsBound(vs[..n], depth);
      ShlLess(front, Pow2(size), depth);
      ShlOne(size);
      ShlShl(1, size, depth);
      ShlOne(size + depth);
    }
  }

  lemma NoShift()
    ensures Pow2(0) == 1
  {
  }

  /** What lies above the last fields. */
  lemma {:induction false} FieldsShr(vs: seq<nat>, depth: nat, j: nat)
    requires Small(vs, depth) && j <= |vs|
    ensures Shr(Fields(vs, depth), RowOff(depth, |vs| - j)) == Fields(vs[..j], depth)
    decreases |vs| - j
  {
    hide Shr, Shl, Pow2;
    if j == |vs| {
      assert vs[..j] == vs;
      ShrNothing(Fields(vs, depth));
    } else {
      var front := vs[..|vs| - 1];
      LowShrUnique(vs[|vs| - 1], Fields(front, depth), depth);
      FieldsShr(front, depth, j);
      ShrShr(Fields(vs, depth), depth, RowOff(depth, |front| - j));
      assert front[..j] == vs[..j];
    }
  }

  lemma ShrNothing(x: nat)
    ensures Shr(x, 0) == x
  {
  }

  lemma FieldAt(vs: seq<nat>, depth: nat, j: nat)
    requires Small(vs, depth) && j < |vs|
    ensures Low(Shr(Fields(vs, depth), RowOff(depth, |vs| - 1 - j)), depth) == vs[j]
  {
    hide Shr, Shl, Pow2, Low, RowOff;
    FieldsShr(vs, depth, j + 1);
    var front := vs[..j + 1];
    assert front[..j] == vs[..j] && front[j] == vs[j];
    LowShrUnique(vs[j], Fields(vs[..j], depth), depth);
  }

  // ---- a packed row ----

  /** The samples in byte t of a row, zeros behind its end. */
  function InByte(samples: seq<byte>, depth: nat, t: nat): (vs: seq<nat>)
    requires Depth(depth)
    ensures |vs| == Per(depth)
  {
    seq<nat>(Per(depth), j requires 0 <= j < Per(depth) => SampleOrZero(samples, RowOff(Per(depth), t) + j))
  }

  function SampleOrZero(samples: seq<byte>, i: nat): nat { if i < |samples| then samples[i] else 0 }

  predicate Fit(samples: seq<byte>, depth: nat) { forall i :: 0 <= i < |samples| ==> samples[i] < Pow2(depth) }

  function PackByte(samples: seq<byte>, depth: nat, t: nat): byte
    requires Depth(depth) && Fit(samples, depth)
  {
    PackedFits(samples, depth, t);
    Fields(InByte(samples, depth, t), depth)
  }

  lemma PackedFits(samples: seq<byte>, depth: nat, t: nat)
    requires Depth(depth) && Fit(samples, depth)
    ensures Small(InByte(samples, depth, t), depth) && Fields(InByte(samples, depth, t), depth) < 256
  {
    hide Fields, Pow2, RowOff, Fit, SampleOrZero;
    forall j | 0 <= j < Per(depth) ensures InByte(samples, depth, t)[j] < Pow2(depth) {
      SampleFits(samples, depth, RowOff(Per(depth), t) + j);
    }
    FieldsBound(InByte(samples, depth, t), depth);
    EightBits(depth);
    Pow2Of8();
  }

  lemma SampleFits(samples: seq<byte>, depth: nat, i: nat)
    requires Fit(samples, depth)
    ensures SampleOrZero(samples, i) < Pow2(depth)
  {
  }

  lemma EightBits(depth: nat)
    requires Depth(depth)
    ensures RowOff(depth, Per(depth)) == 8
  {
    RowOffIs(depth, Per(depth));
  }

  function PackRow(samples: seq<byte>, depth: nat): (r: seq<byte>)
    requires Depth(depth) && Fit(samples, depth)
    ensures |r| == PackedSize(|samples|, depth)
  {
    seq(PackedSize(|samples|, depth), t requires 0 <= t => PackByte(samples, depth, t))
  }

  /** The reader's field of a packed byte is the sample put there. */
  lemma PackedField(samples: seq<byte>, depth: nat, t: nat, j: nat)
    requires Depth(depth) && Fit(samples, depth) && j < Per(depth)
    ensures Field(PackByte(samples, depth, t), depth, j) == InByte(samples, depth, t)[j]
  {
    hide Fields, Pow2, Shr, Low, And, InByte, RowOff;
    PackedFits(samples, depth, t);
    FieldAt(InByte(samples, depth, t), depth, j);
    FieldOffset(depth, j);
    AndMask(Shr(PackByte(samples, depth, t), 8 - depth * (j + 1)), depth);
  }

  lemma FieldOffset(depth: nat, j: nat)
    requires Depth(depth) && j < Per(depth)
    ensures depth * (j + 1) <= 8 && RowOff(depth, Per(depth) - 1 - j) == 8 - depth * (j + 1)
  {
    hide RowOff;
    RowOffIs(depth, Per(depth) - 1 - j);
  }

  /** Every sample, as the reader scales it. */
  function ScaledAll(samples: seq<byte>, depth: nat, color: nat): (r: seq<byte>)
    requires Depth(depth) && Fit(samples, depth)
    ensures |r| == |samples|
  {
    seq(|samples|, i requires 0 <= i < |samples| => ScaledSample(samples[i], depth, color))
  }

  function ScaledSample(v: byte, depth: nat, color: nat): byte
    requires Depth(depth) && v < Pow2(depth)
  {
    SmallPowers();
    Scale(depth, color) * v
  }

  /** Expanding a packed row gives its samples back, scaled. */
  lemma UnpackPacked(samples: seq<byte>, depth: nat, color: nat)
    requires Depth(depth) && Fit(samples, depth)
    ensures UnpackRow(PackRow(samples, depth), depth, color, |samples|) == ScaledAll(samples, depth, color)
  {
    hide PackByte, Scale, Sample, Pow2;
    var k, packed := |samples|, PackRow(samples, depth);
    forall m | 0 <= m < k
      ensures UnpackRow(packed, depth, color, k)[m] == ScaledAll(samples, depth, color)[m]
    {
      InPacked(k, depth, m);
      SampleBack(samples, depth, color, m);
    }
  }

  lemma SampleBack(samples: seq<byte>, depth: nat, color: nat, m: nat)
    requires Depth(depth) && Fit(samples, depth) && m < |samples| && m / Per(depth) < PackedSize(|samples|, depth)
    ensures Sample(PackRow(samples, depth), depth, color, m) == ScaledSample(samples[m], depth, color)
  {
    hide PackByte, Pow2, Scale, Field, RowOff;
    var t, j := m / Per(depth), m % Per(depth);
    Placed(depth, m);
    PackedField(samples, depth, t, j);
    assert PackRow(samples, depth)[t] == PackByte(samples, depth, t);
    assert InByte(samples, depth, t)[j] == SampleOrZero(samples, RowOff(Per(depth), t) + j);
  }

  lemma Placed(depth: nat, m: nat)
    requires Depth(depth)
    ensures m % Per(depth) < Per(depth) && RowOff(Per(depth), m / Per(depth)) + m % Per(depth) == m
  {
    hide RowOff;
    RowOffIs(Per(depth), m / Per(depth));
  }
}
