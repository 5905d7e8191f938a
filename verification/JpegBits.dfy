/**
  The JPEG entropy-coded segment as bits, first bit of a byte on top, and byte stuffing
  (ITU-T T.81 sections F.1.2.3 and B.1.1.5).
*/
module JpegBits {
  import opened Bits
  import opened ByteStream

  /** The low n bits of x, most significant first. */
  function Field(x: nat, n: nat): (s: seq<bool>)
    ensures |s| == n
    decreases n, x
  {
    if n == 0 then [] else Field(x / 2, n - 1) + [x % 2 == 1]
  }

  lemma {:induction false} FieldSplit(x: nat, a: nat, b: nat)
    ensures Field(x, a + b) == Field(Shr(x, b), a) + Field(x, b)
    decreases b
  {
    if b == 0 {
      assert Field(x, 0) == [];
    } else {
      FieldSplit(x / 2, a, b - 1);
      assert Field(x, a + b) == Field(x / 2, a + b - 1) + [x % 2 == 1];
      assert Field(Shr(x, b), a) + (Field(x / 2, b - 1) + [x % 2 == 1])
          == (Field(Shr(x, b), a) + Field(x / 2, b - 1)) + [x % 2 == 1];
    }
  }

  /** One more bit below. */
  lemma FieldNext(x: nat, b: Bit, n: nat)
    ensures Field(2 * x + b, n + 1) == Field(x, n) + [b == 1] && Field(x, 0) == []
  {
    assert (2 * x + b) / 2 == x && (2 * x + b) % 2 == b;
  }

  lemma {:induction false} FieldLow(x: nat, n: nat)
    ensures Field(Low(x, n), n) == Field(x, n)
    decreases n
  {
    if n > 0 {
      FieldLow(x / 2, n - 1);
    }
  }

  /** A field below another is appended to it. */
  lemma FieldAppend(x: nat, a: nat, y: nat, b: nat)
    requires y < Pow2(b)
    ensures Field(Shl(x, b) + y, a + b) == Field(x, a) + Field(y, b)
  {
    LowShrUnique(y, x, b);
    FieldSplit(Shl(x, b) + y, a, b);
    FieldLow(Shl(x, b) + y, b);
  }

  /** Reading a field back. */
  lemma {:induction false} TakeField(bits: seq<bool>, pos: nat, v: nat, n: nat)
    requires At(bits, pos, Field(v, n)) && v < Pow2(n)
    ensures TakeMSB(bits, pos, n) == v
    decreases n
  {
    if n > 0 {
      AtSplit(bits, pos, Field(v / 2, n - 1), [v % 2 == 1]);
      TakeField(bits, pos, v / 2, n - 1);
      TakeMSBSplit(bits, pos, n - 1, 1);
      assert bits[pos + n - 1] == bits[pos + (n - 1)..pos + (n - 1) + 1][0];
      OneBit(bits, pos + n - 1);
      assert Shl(v / 2, 1) == 2 * Shl(v / 2, 0);
    }
  }

  lemma OneBit(bits: seq<bool>, pos: nat)
    ensures TakeMSB(bits, pos, 1) == BitAt(bits, pos)
  {
    assert TakeMSB(bits, pos, 1) == Shl(BitAt(bits, pos), 0) + TakeMSB(bits, pos + 1, 0);
  }

  /** All bits of a byte string. */
  function AllBits(data: seq<byte>): (s: seq<bool>)
    ensures |s| == 8 * |data|
  {
    if data == [] then [] else AllBits(data[..|data| - 1]) + Field(data[|data| - 1], 8)
  }

  lemma AllBitsPush(data: seq<byte>, b: byte)
    ensures AllBits(data + [b]) == AllBits(data) + Field(b, 8)
  {
    assert (data + [b])[..|data|] == data;
  }

  lemma {:induction false} AllBitsAt(data: seq<byte>, k: nat)
    requires k < |data|
    ensures At(AllBits(data), 8 * k, Field(data[k], 8))
    decreases |data|
  {
    var n := |data| - 1;
    var bits, front := AllBits(data), AllBits(data[..n]);
    if k < n {
      AllBitsAt(data[..n], k);
      assert bits[8 * k..8 * k + 8] == front[8 * k..8 * k + 8];
    }
  }

  /** Byte k is the eight bits at 8k; past the end it reads as zero. */
  lemma TakeByteMSB(data: seq<byte>, k: nat)
    ensures TakeMSB(AllBits(data), 8 * k, 8) == if k < |data| then data[k] else 0
  {
    if k < |data| {
      AllBitsAt(data, k);
      Pow2Of8();
      TakeField(AllBits(data), 8 * k, data[k], 8);
    } else {
      TakePastEndMSB(AllBits(data), 8 * k, 8);
    }
  }

  // ---- byte stuffing ----

  /** A zero byte behind every 255. */
  function Stuff(data: seq<byte>): seq<byte>
  {
    if data == [] then []
    else Stuff(data[..|data| - 1]) + Stuffed(data[|data| - 1])
  }

  lemma StuffPush(data: seq<byte>, b: byte)
    ensures Stuff(data + [b]) == Stuff(data) + Stuffed(b)
  {
    assert (data + [b])[..|data|] == data;
  }

  /** The first byte at or behind p that is not a fill byte. */
  function PastFill(s: seq<byte>, p: nat): (q: nat)
    ensures q >= p && Get8(s, q) != 255
    decreases if p < |s| then |s| - p else 0
  {
    if Get8(s, p) == 255 then PastFill(s, p + 1) else p
  }

  /** The data bytes from p up to the next marker, or to the end of the input. */
  function Unstuffed(s: seq<byte>, p: nat): seq<byte>
    decreases if p < |s| then |s| - p else 0
  {
    if p >= |s| then []
    else if s[p] != 255 then [s[p]] + Unstuffed(s, p + 1)
    else
      var q := PastFill(s, p + 1);
      if Get8(s, q) == 0 then [255] + Unstuffed(s, q + 1) else []
  }

  function Stuffed(b: byte): seq<byte> { if b == 255 then [255, 0] else [b] }

  lemma UnstuffOne(s: seq<byte>, p: nat, b: byte)
    requires At(s, p, Stuffed(b))
    ensures Unstuffed(s, p) == [b] + Unstuffed(s, p + |Stuffed(b)|)
  {
    hide At;
    Get8At(s, p, Stuffed(b), 0);
    if b == 255 {
      Get8At(s, p, Stuffed(b), 1);
      assert PastFill(s, p + 1) == p + 1;
    }
    InRange(s, p, Stuffed(b));
  }

  lemma InRange(s: seq<byte>, p: nat, w: seq<byte>)
    requires At(s, p, w) && w != []
    ensures p < |s|
  {
  }

  lemma {:induction false} UnstuffAppend(s: seq<byte>, p: nat, data: seq<byte>)
    requires At(s, p, Stuff(data))
    ensures Unstuffed(s, p) == data + Unstuffed(s, p + |Stuff(data)|)
    decreases |data|
  {
    hide At, Unstuffed, Stuffed;
    if data == [] {
      assert [] + Unstuffed(s, p) == Unstuffed(s, p);
    } else {
      var n := |data| - 1;
      AtSplit(s, p, Stuff(data[..n]), Stuffed(data[n]));
      UnstuffAppend(s, p, data[..n]);
      var q := p + |Stuff(data[..n])|;
      UnstuffOne(s, q, data[n]);
      var rest := Unstuffed(s, q + |Stuffed(data[n])|);
      assert data[..n] + ([data[n]] + rest) == data + rest;
    }
  }

  /** The stuffed bytes in front of a marker are read back without the stuffing. */
  lemma UnstuffStuff(s: seq<byte>, p: nat, data: seq<byte>)
    requires At(s, p, Stuff(data))
    requires var q := p + |Stuff(data)|; q + 1 < |s| && s[q] == 255 && 0 < s[q + 1] < 255
    ensures Unstuffed(s, p) == data
  {
    UnstuffAppend(s, p, data);
    assert data + [] == data;
  }
}
