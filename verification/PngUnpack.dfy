/**
  In-place expansion of 1-, 2- and 4-bit rows in stbi__create_png_image_raw: the packed
  bytes lie at the right end of the row they are expanded into.
*/
module PngUnpack {
  import opened Bits
  import opened PngFilter
  import opened PngReadLine

  predicate Depth(d: nat) { d == 1 || d == 2 || d == 4 }

  /** Samples per byte. */
  function Per(depth: nat): (p: nat)
    ensures p >= 1
  {
    if depth == 1 then 8 else if depth == 2 then 4 else 2
  }

  /** Sample j of a byte, leftmost first. */
  function Field(b: byte, depth: nat, j: nat): nat
    requires Depth(depth) && j < Per(depth)
  {
    And(Shr(b, 8 - depth * (j + 1)), Pow2(depth) - 1)
  }

  /** stbi__depth_scale_table for gray images, 1 for others. */
  function Scale(depth: nat, color: nat): nat
  {
    if color != 0 then 1 else if depth == 1 then 0xFF else if depth == 2 then 0x55 else 0x11
  }

  function PackedSize(k: nat, depth: nat): nat
  {
    (k + Per(depth) - 1) / Per(depth)
  }

  lemma FieldBound(b: byte, depth: nat, j: nat, color: nat)
    requires Depth(depth) && j < Per(depth)
    ensures Scale(depth, color) * Field(b, depth, j) < 256
  {
    hide Field, Pow2;
    FieldLess(b, depth, j);
    SmallPowers();
  }

  lemma FieldLess(b: byte, depth: nat, j: nat)
    requires Depth(depth) && j < Per(depth)
    ensures Field(b, depth, j) < Pow2(depth)
  {
    hide And, Shr, Low, Pow2;
    AndMask(Shr(b, 8 - depth * (j + 1)), depth);
    LowBound(Shr(b, 8 - depth * (j + 1)), depth);
  }

  lemma SmallPowers()
    ensures Pow2(1) == 2 && Pow2(2) == 4 && Pow2(4) == 16
  {
    assert Pow2(3) == 8;
  }

  /** The first sample of a byte needs no mask. */
  lemma FirstField(b: byte, depth: nat)
    requires Depth(depth)
    ensures Field(b, depth, 0) == Shr(b, 8 - depth)
  {
    Pow2Of8();
    ShlOne(8);
    ShlOne(depth);
    ShlShl(1, depth, 8 - depth);
    ShrBound(b, 8 - depth, Pow2(depth));
    AndMask(Shr(b, 8 - depth), depth);
    LowSmall(Shr(b, 8 - depth), depth);
  }

  /** Sample m of a packed row, out of place. */
  function Scaled(b: byte, depth: nat, color: nat, j: nat): byte
    requires Depth(depth) && j < Per(depth)
  {
    FieldBound(b, depth, j, color);
    Scale(depth, color) * Field(b, depth, j)
  }

  function Sample(packed: seq<byte>, depth: nat, color: nat, m: nat): byte
    requires Depth(depth) && m / Per(depth) < |packed|
  {
    Scaled(packed[m / Per(depth)], depth, color, m % Per(depth))
  }

  lemma InPacked(k: nat, depth: nat, m: nat)
    requires Depth(depth) && m < k
    ensures m / Per(depth) < PackedSize(k, depth)
  {
  }

  function UnpackRow(packed: seq<byte>, depth: nat, color: nat, k: nat): (r: seq<byte>)
    requires Depth(depth) && |packed| == PackedSize(k, depth)
    ensures |r| == k
  {
    seq(k, m requires 0 <= m < k => (InPacked(k, depth, m); Sample(packed, depth, color, m)))
  }

  /**
    After m samples: they are in place, and every packed byte still to be read is intact.
    The packed row starts at `start`, at most |packed| bytes before the end of the k samples.
  */
  ghost predicate Expanding(out: seq<byte>, row: nat, start: nat, packed: seq<byte>, depth: nat, color: nat, m: nat,
                            k: nat)
  {
    && Depth(depth) && |packed| == PackedSize(k, depth) && m <= k
    && row + k <= start + |packed| <= |out|
    && (forall s :: 0 <= s < m ==> out[row + s] == UnpackRow(packed, depth, color, k)[s])
    && (m < k ==> forall t :: m / Per(depth) <= t < |packed| ==> out[start + t] == packed[t])
  }

  /** The write of sample m stays left of every byte that later samples come from. */
  lemma WriteBehindReads(k: nat, depth: nat, m: nat)
    requires Depth(depth) && m + 1 < k
    ensures m + PackedSize(k, depth) < k + (m + 1) / Per(depth)
  {
  }

  /** The bound is tight: the last write but one lands directly before the byte read last. */
  lemma WriteBehindReadsTight(k: nat, depth: nat)
    requires Depth(depth) && k >= 2
    ensures var m: nat := k - 2; m + PackedSize(k, depth) + 1 == k + (m + 1) / Per(depth)
  {
  }

  lemma SamplePlaced(out: seq<byte>, out': seq<byte>, row: nat, start: nat, packed: seq<byte>, depth: nat, color: nat,
                     m: nat, k: nat)
    requires Expanding(out, row, start, packed, depth, color, m, k) && m < k
    requires out' == out[row + m := UnpackRow(packed, depth, color, k)[m]]
    ensures Expanding(out', row, start, packed, depth, color, m + 1, k)
  {
    hide UnpackRow, PackedSize;
    if m + 1 < k {
      WriteBehindReads(k, depth, m);
    }
  }

  /** What lies left and right of a row. */
  function Outside(out: seq<byte>, row: nat, k: nat): (seq<byte>, seq<byte>)
    requires row + k <= |out|
  {
    (out[..row], out[row + k..])
  }

  /** The next sample can be computed from the byte it comes from. */
  lemma SampleReady(out: seq<byte>, row: nat, start: nat, packed: seq<byte>, depth: nat, color: nat, m: nat, k: nat)
    requires Expanding(out, row, start, packed, depth, color, m, k) && m < k
    ensures start + m / Per(depth) < |out| && row + m < |out|
    ensures Scale(depth, color) * Field(out[start + m / Per(depth)], depth, m % Per(depth))
         == UnpackRow(packed, depth, color, k)[m]
  {
    hide Scale, Field;
    InPacked(k, depth, m);
  }

  /** One statement of the unrolled loops: *cur++ = scale * ((*in >> shift) & mask). */
  method PutSample(out: array<byte>, cur: nat, src: nat, shift: nat, mask: nat, scale: nat,
                   ghost row: nat, ghost start: nat, ghost packed: seq<byte>, ghost depth: nat, ghost color: nat,
                   ghost m: nat, ghost k: nat)
    requires row + k <= out.Length && Expanding(out[..], row, start, packed, depth, color, m, k) && m < k
    requires cur == row + m && src == start + m / Per(depth)
    requires shift == 8 - depth * (m % Per(depth) + 1) && mask == Pow2(depth) - 1 && scale == Scale(depth, color)
    modifies out
    ensures Expanding(out[..], row, start, packed, depth, color, m + 1, k)
    ensures Outside(out[..], row, k) == old(Outside(out[..], row, k))
  {
    hide Scale, And, Shr, Pow2, Expanding, UnpackRow;
    ghost var before := out[..];
    SampleReady(before, row, start, packed, depth, color, m, k);
    assert out[src] == before[src];
    out[cur] := scale * And(Shr(out[src], shift), mask);
    SamplePlaced(before, out[..], row, start, packed, depth, color, m, k);
  }

  /** The first sample of a byte, which the loops do not mask. */
  method PutFirst(out: array<byte>, cur: nat, src: nat, shift: nat, scale: nat,
                  ghost row: nat, ghost start: nat, ghost packed: seq<byte>, ghost depth: nat, ghost color: nat,
                  ghost m: nat, ghost k: nat)
    requires row + k <= out.Length && Depth(depth) && Expanding(out[..], row, start, packed, depth, color, m, k)
      && m < k && m % Per(depth) == 0
    requires cur == row + m && src == start + m / Per(depth)
    requires shift == 8 - depth && scale == Scale(depth, color)
    modifies out
    ensures Expanding(out[..], row, start, packed, depth, color, m + 1, k)
    ensures Outside(out[..], row, k) == old(Outside(out[..], row, k))
  {
    hide Scale, Field, Shr, Pow2, Expanding, UnpackRow;
    ghost var before := out[..];
    SampleReady(before, row, start, packed, depth, color, m, k);
    assert out[src] == before[src];
    FirstField(out[src], depth);
    out[cur] := scale * Shr(out[src], shift);
    SamplePlaced(before, out[..], row, start, packed, depth, color, m, k);
  }

  // ---- the three loops ----

  method Expand4(out: array<byte>, row: nat, start: nat, k0: nat, scale: nat, ghost packed: seq<byte>, ghost color: nat)
    requires row + k0 <= out.Length && Expanding(out[..], row, start, packed, 4, color, 0, k0)
      && scale == Scale(4, color)
    modifies out
    ensures Expanding(out[..], row, start, packed, 4, color, k0, k0)
    ensures Outside(out[..], row, k0) == old(Outside(out[..], row, k0))
  {
    hide Expanding, Scale, Outside;
    Masks();
    var cur, src, k := row, start, k0;
    ghost var t := 0;
    while k >= 2
      invariant 0 <= k && k + 2 * t == k0 && cur == row + 2 * t && src == start + t
      invariant Expanding(out[..], row, start, packed, 4, color, 2 * t, k0)
      invariant Outside(out[..], row, k0) == old(Outside(out[..], row, k0))
    {
      PutFirst(out, cur, src, 4, scale, row, start, packed, 4, color, 2 * t, k0);
      PutSample(out, cur + 1, src, 0, 0x0F, scale, row, start, packed, 4, color, 2 * t + 1, k0);
      cur := cur + 2;
      src := src + 1;
      k := k - 2;
      t := t + 1;
    }
    if k > 0 {
      PutFirst(out, cur, src, 4, scale, row, start, packed, 4, color, 2 * t, k0);
    }
  }

  lemma Masks()
    ensures Pow2(4) - 1 == 0x0F && Pow2(2) - 1 == 0x03 && Pow2(1) - 1 == 0x01
  {
    assert Pow2(2) == 4;
  }

  /** The four samples of byte t. */
  method Byte2(out: array<byte>, cur: nat, src: nat, scale: nat, ghost row: nat, ghost start: nat,
               ghost packed: seq<byte>, ghost color: nat, ghost t: nat, ghost k0: nat)
    requires row + k0 <= out.Length && Expanding(out[..], row, start, packed, 2, color, 4 * t, k0)
    requires 4 * t + 4 <= k0 && cur == row + 4 * t && src == start + t && scale == Scale(2, color)
    modifies out
    ensures Expanding(out[..], row, start, packed, 2, color, 4 * t + 4, k0)
    ensures Outside(out[..], row, k0) == old(Outside(out[..], row, k0))
  {
    hide Expanding, Scale, Outside;
    Masks();
    PutFirst(out, cur, src, 6, scale, row, start, packed, 2, color, 4 * t, k0);
    PutSample(out, cur + 1, src, 4, 0x03, scale, row, start, packed, 2, color, 4 * t + 1, k0);
    PutSample(out, cur + 2, src, 2, 0x03, scale, row, start, packed, 2, color, 4 * t + 2, k0);
    PutSample(out, cur + 3, src, 0, 0x03, scale, row, start, packed, 2, color, 4 * t + 3, k0);
  }

  method Expand2(out: array<byte>, row: nat, start: nat, k0: nat, scale: nat, ghost packed: seq<byte>, ghost color: nat)
    requires row + k0 <= out.Length && Expanding(out[..], row, start, packed, 2, color, 0, k0)
      && scale == Scale(2, color)
    modifies out
    ensures Expanding(out[..], row, start, packed, 2, color, k0, k0)
    ensures Outside(out[..], row, k0) == old(Outside(out[..], row, k0))
  {
    hide Expanding, Scale, Outside;
    Masks();
    var cur, src, k := row, start, k0;
    ghost var t := 0;
    while k >= 4
      invariant 0 <= k && k + 4 * t == k0 && cur == row + 4 * t && src == start + t
      invariant Expanding(out[..], row, start, packed, 2, color, 4 * t, k0)
      invariant Outside(out[..], row, k0) == old(Outside(out[..], row, k0))
    {
      Byte2(out, cur, src, scale, row, start, packed, color, t, k0);
      cur := cur + 4;
      src := src + 1;
      k := k - 4;
      t := t + 1;
    }
    if k > 0 { PutFirst(out, cur, src, 6, scale, row, start, packed, 2, color, 4 * t, k0); }
    if k > 1 { PutSample(out, cur + 1, src, 4, 0x03, scale, row, start, packed, 2, color, 4 * t + 1, k0); }
    if k > 2 { PutSample(out, cur + 2, src, 2, 0x03, scale, row, start, packed, 2, color, 4 * t + 2, k0); }
  }

  /** The eight samples of byte t. */
  method Byte1(out: array<byte>, cur: nat, src: nat, scale: nat, ghost row: nat, ghost start: nat,
               ghost packed: seq<byte>, ghost color: nat, ghost t: nat, ghost k0: nat)
    requires row + k0 <= out.Length && Expanding(out[..], row, start, packed, 1, color, 8 * t, k0)
    requires 8 * t + 8 <= k0 && cur == row + 8 * t && src == start + t && scale == Scale(1, color)
    modifies out
    ensures Expanding(out[..], row, start, packed, 1, color, 8 * t + 8, k0)
    ensures Outside(out[..], row, k0) == old(Outside(out[..], row, k0))
  {
    hide Expanding, Scale, Outside;
    Masks();
    PutFirst(out, cur, src, 7, scale, row, start, packed, 1, color, 8 * t, k0);
    PutSample(out, cur + 1, src, 6, 0x01, scale, row, start, packed, 1, color, 8 * t + 1, k0);
    PutSample(out, cur + 2, src, 5, 0x01, scale, row, start, packed, 1, color, 8 * t + 2, k0);
    PutSample(out, cur + 3, src, 4, 0x01, scale, row, start, packed, 1, color, 8 * t + 3, k0);
    PutSample(out, cur + 4, src, 3, 0x01, scale, row, start, packed, 1, color, 8 * t + 4, k0);
    PutSample(out, cur + 5, src, 2, 0x01, scale, row, start, packed, 1, color, 8 * t + 5, k0);
    PutSample(out, cur + 6, src, 1, 0x01, scale, row, start, packed, 1, color, 8 * t + 6, k0);
    PutSample(out, cur + 7, src, 0, 0x01, scale, row, start, packed, 1, color, 8 * t + 7, k0);
  }

  /** The k < 8 samples of the last byte. */
  method Tail1(out: array<byte>, cur: nat, src: nat, k: nat, scale: nat, ghost row: nat, ghost start: nat,
               ghost packed: seq<byte>, ghost color: nat, ghost t: nat, ghost k0: nat)
    requires row + k0 <= out.Length && Expanding(out[..], row, start, packed, 1, color, 8 * t, k0)
    requires 8 * t + k == k0 && k < 8 && cur == row + 8 * t && src == start + t && scale == Scale(1, color)
    modifies out
    ensures Expanding(out[..], row, start, packed, 1, color, k0, k0)
    ensures Outside(out[..], row, k0) == old(Outside(out[..], row, k0))
  {
    hide Expanding, Scale, Outside;
    Masks();
    if k > 0 { PutFirst(out, cur, src, 7, scale, row, start, packed, 1, color, 8 * t, k0); }
    if k > 1 { PutSample(out, cur + 1, src, 6, 0x01, scale, row, start, packed, 1, color, 8 * t + 1, k0); }
    if k > 2 { PutSample(out, cur + 2, src, 5, 0x01, scale, row, start, packed, 1, color, 8 * t + 2, k0); }
    if k > 3 { PutSample(out, cur + 3, src, 4, 0x01, scale, row, start, packed, 1, color, 8 * t + 3, k0); }
    if k > 4 { PutSample(out, cur + 4, src, 3, 0x01, scale, row, start, packed, 1, color, 8 * t + 4, k0); }
    if k > 5 { PutSample(out, cur + 5, src, 2, 0x01, scale, row, start, packed, 1, color, 8 * t + 5, k0); }
    if k > 6 { PutSample(out, cur + 6, src, 1, 0x01, scale, row, start, packed, 1, color, 8 * t + 6, k0); }
  }

  method Expand1(out: array<byte>, row: nat, start: nat, k0: nat, scale: nat, ghost packed: seq<byte>, ghost color: nat)
    requires row + k0 <= out.Length && Expanding(out[..], row, start, packed, 1, color, 0, k0)
      && scale == Scale(1, color)
    modifies out
    ensures Expanding(out[..], row, start, packed, 1, color, k0, k0)
    ensures Outside(out[..], row, k0) == old(Outside(out[..], row, k0))
  {
    hide Expanding, Scale, Outside;
    var cur, src, k: nat := row, start, k0;
    ghost var t := 0;
    while k >= 8
      invariant k + 8 * t == k0 && cur == row + 8 * t && src == start + t
      invariant Expanding(out[..], row, start, packed, 1, color, 8 * t, k0)
      invariant Outside(out[..], row, k0) == old(Outside(out[..], row, k0))
    {
      Byte1(out, cur, src, scale, row, start, packed, color, t, k0);
      cur := cur + 8;
      src := src + 1;
      k := k - 8;
      t := t + 1;
    }
    Tail1(out, cur, src, k, scale, row, start, packed, color, t, k0);
  }

  /** Expand a packed row where it lies: the result is the row unpacked out of place. */
  method ExpandRow(out: array<byte>, row: nat, start: nat, k: nat, depth: nat, color: nat, ghost packed: seq<byte>)
    requires Depth(depth) && |packed| == PackedSize(k, depth)
    requires row + k <= start + |packed| <= out.Length && out[start..start + |packed|] == packed
    modifies out
    ensures out[row..row + k] == UnpackRow(packed, depth, color, k)
    ensures forall i :: 0 <= i < out.Length && !(row <= i < row + k) ==> out[i] == old(out[i])
  {
    hide Scale, UnpackRow, PackedSize;
    var scale := Scale(depth, color);
    assert Expanding(out[..], row, start, packed, depth, color, 0, k) by {
      forall t | 0 <= t < |packed| ensures out[..][start + t] == packed[t] {
        assert out[start + t] == out[start..start + |packed|][t];
      }
    }
    if depth == 4 {
      Expand4(out, row, start, k, scale, packed, color);
    } else if depth == 2 {
      Expand2(out, row, start, k, scale, packed, color);
    } else {
      Expand1(out, row, start, k, scale, packed, color);
    }
  }

  // ---- alpha after expansion ----

  lemma {:induction false} AlphaIndex1(s: seq<byte>, q: nat)
    requires q < |s|
    ensures |AddAlpha(s, 1)| == 2 * |s|
    ensures AddAlpha(s, 1)[2 * q] == s[q] && AddAlpha(s, 1)[2 * q + 1] == 255
    decreases |s|
  {
    hide AddAlpha;
    var r := |s| - 1;
    AddAlphaStep(s, r, 1);
    if r > 0 {
      AlphaIndex1(s[..r], if q < r then q else 0);
    } else {
      AddAlphaEmpty(s[..r], 1);
    }
  }

  lemma {:induction false} AlphaIndex3(s: seq<byte>, x: nat, q: nat)
    requires |s| == 3 * x && q < x
    ensures |AddAlpha(s, 3)| == 4 * x
    ensures AddAlpha(s, 3)[4 * q] == s[3 * q] && AddAlpha(s, 3)[4 * q + 1] == s[3 * q + 1]
    ensures AddAlpha(s, 3)[4 * q + 2] == s[3 * q + 2] && AddAlpha(s, 3)[4 * q + 3] == 255
    decreases x
  {
    hide AddAlpha;
    var r := 3 * (x - 1);
    AddAlphaStep(s, r, 3);
    if x > 1 {
      AlphaIndex3(s[..r], x - 1, if q < x - 1 then q else 0);
    } else {
      AddAlphaEmpty(s[..r], 3);
    }
  }

  /** Spread x gray samples to pairs, from the right; no sample is overwritten before it is moved. */
  method InsertAlpha1(out: array<byte>, row: nat, x: nat)
    requires row + 2 * x <= out.Length
    modifies out
    ensures out[row..row + 2 * x] == old(AddAlpha(out[row..row + x], 1))
    ensures forall i :: 0 <= i < out.Length && !(row <= i < row + 2 * x) ==> out[i] == old(out[i])
  {
    hide AddAlpha;
    ghost var s := out[row..row + x];
    ghost var wide := AddAlpha(s, 1);
    if x == 0 { AddAlphaEmpty(s, 1); return; }
    AlphaIndex1(s, 0);
    var q := x - 1;
    while q >= 0
      invariant -1 <= q < x && |wide| == 2 * x
      invariant forall i :: 0 <= i <= q ==> out[row + i] == s[i]
      invariant forall i :: 2 * q + 2 <= i < 2 * x ==> out[row + i] == wide[i]
      invariant forall i :: 0 <= i < out.Length && !(row <= i < row + 2 * x) ==> out[i] == old(out[i])
    {
      AlphaIndex1(s, q);
      out[row + q * 2 + 1] := 255;
      out[row + q * 2 + 0] := out[row + q];
      q := q - 1;
    }
  }

  /** One triple to its place among the quadruples, the last byte first. */
  method SpreadTriple(out: array<byte>, row: nat, q: nat)
    requires row + 4 * q + 4 <= out.Length
    modifies out
    ensures out[row + 4 * q] == old(out[row + 3 * q]) && out[row + 4 * q + 1] == old(out[row + 3 * q + 1])
    ensures out[row + 4 * q + 2] == old(out[row + 3 * q + 2]) && out[row + 4 * q + 3] == 255
    ensures forall i :: 0 <= i < out.Length && !(row + 4 * q <= i < row + 4 * q + 4) ==> out[i] == old(out[i])
  {
    out[row + q * 4 + 3] := 255;
    out[row + q * 4 + 2] := out[row + q * 3 + 2];
    out[row + q * 4 + 1] := out[row + q * 3 + 1];
    out[row + q * 4 + 0] := out[row + q * 3 + 0];
  }

  /** Spread x triples to quadruples, from the right. */
  method InsertAlpha3(out: array<byte>, row: nat, x: nat)
    requires row + 4 * x <= out.Length
    modifies out
    ensures out[row..row + 4 * x] == old(AddAlpha(out[row..row + 3 * x], 3))
    ensures forall i :: 0 <= i < out.Length && !(row <= i < row + 4 * x) ==> out[i] == old(out[i])
  {
    hide AddAlpha;
    ghost var s := out[row..row + 3 * x];
    ghost var wide := AddAlpha(s, 3);
    if x == 0 { AddAlphaEmpty(s, 3); return; }
    AlphaIndex3(s, x, 0);
    var q := x - 1;
    while q >= 0
      invariant -1 <= q < x && |wide| == 4 * x
      invariant forall i :: 0 <= i < 3 * (q + 1) ==> out[row + i] == s[i]
      invariant forall i :: 4 * (q + 1) <= i < 4 * x ==> out[row + i] == wide[i]
      invariant forall i :: 0 <= i < out.Length && !(row <= i < row + 4 * x) ==> out[i] == old(out[i])
    {
      AlphaIndex3(s, x, q);
      SpreadTriple(out, row, q);
      q := q - 1;
    }
  }
}
