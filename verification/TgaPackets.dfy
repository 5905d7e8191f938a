/**
  The run-length packets of the TGA writer: stbiw__write_pixel and the row loop of
  stbi_write_tga_core.
*/
module TgaPackets {
  import opened Bits

  predicate Comp(c: nat) { 1 <= c <= 4 }

  /** n pixels of c bytes. */
  function Times(n: nat, c: nat): (r: nat)
    requires Comp(c)
    ensures r >= n
  {
    if c == 1 then n else if c == 2 then 2 * n else if c == 3 then 3 * n else 4 * n
  }

  lemma TimesMono(a: nat, b: nat, c: nat)
    requires Comp(c) && a <= b
    ensures Times(b, c) - Times(a, c) == Times(b - a, c) <= Times(b, c)
  {
  }

  lemma TimesStep(n: nat, c: nat)
    requires Comp(c)
    ensures Times(n + 1, c) == Times(n, c) + c && Times(0, c) == 0 && Times(1, c) == c
  {
  }

  /** x pixels of c bytes each. */
  datatype Row = Row(data: seq<byte>, x: nat, c: nat)
  {
    predicate Valid() { Comp(c) && |data| == Times(x, c) }

    /** Pixels i to j. */
    function Slice(i: nat, j: nat): (s: seq<byte>)
      requires Valid() && i <= j <= x
      ensures |s| == Times(j - i, c)
    {
      TimesMono(i, j, c);
      TimesMono(j, x, c);
      data[Times(i, c)..Times(j, c)]
    }

    function Pixel(i: nat): (p: seq<byte>)
      requires Valid() && i < x
      ensures |p| == c
    {
      TimesStep(0, c);
      Slice(i, i + 1)
    }

    lemma SliceAppend(i: nat, j: nat, k: nat)
      requires Valid() && i <= j <= k <= x
      ensures Slice(i, k) == Slice(i, j) + Slice(j, k)
    {
      hide Times;
      TimesMono(i, j, c);
      TimesMono(j, k, c);
      TimesMono(k, x, c);
    }

    lemma SliceEnds()
      requires Valid()
      ensures Slice(0, x) == data && forall i :: 0 <= i <= x ==> Slice(i, i) == []
    {
    }
  }

  /** The value of a C cast to unsigned char. */
  function Uchar(v: int): byte { v % 256 }

  /** stbiw__write_pixel, rgb_dir = -1: the colours last to first, then alpha. */
  function WritePixel(p: seq<byte>): (r: seq<byte>)
    requires Comp(|p|)
    ensures |r| == |p|
  {
    if |p| <= 2 then p else [p[2], p[1], p[0]] + p[3..]
  }

  lemma WritePixelTwice(p: seq<byte>)
    requires Comp(|p|)
    ensures WritePixel(WritePixel(p)) == p
  {
    if |p| > 2 {
      assert WritePixel(p)[3..] == p[3..];
    }
  }

  /** Every whole pixel of s as the writer stores it. */
  function WriteAll(s: seq<byte>, c: nat): (r: seq<byte>)
    requires Comp(c)
    ensures |r| == |s|
    decreases |s|
  {
    if |s| < c then s else WritePixel(s[..c]) + WriteAll(s[c..], c)
  }

  lemma {:induction false} WriteAllAppend(n: nat, a: seq<byte>, b: seq<byte>, c: nat)
    requires Comp(c) && |a| == Times(n, c)
    ensures WriteAll(a + b, c) == WriteAll(a, c) + WriteAll(b, c)
    decreases n
  {
    if n == 0 {
      assert a + b == b;
    } else {
      assert (a + b)[..c] == a[..c] && (a + b)[c..] == a[c..] + b;
      WriteAllAppend(n - 1, a[c..], b, c);
      assert WriteAll(a, c) + WriteAll(b, c) == WritePixel(a[..c]) + (WriteAll(a[c..], c) + WriteAll(b, c));
    }
  }

  lemma {:induction false} WriteAllTwice(s: seq<byte>, c: nat)
    requires Comp(c)
    ensures WriteAll(WriteAll(s, c), c) == s
    decreases |s|
  {
    if |s| >= c {
      var t := WriteAll(s, c);
      assert t[..c] == WritePixel(s[..c]) && t[c..] == WriteAll(s[c..], c);
      WriteAllTwice(s[c..], c);
      WritePixelTwice(s[..c]);
    }
  }

  lemma WriteAllOne(p: seq<byte>)
    requires Comp(|p|)
    ensures WriteAll(p, |p|) == WritePixel(p)
  {
    assert p[..|p|] == p && p[|p|..] == [];
  }

  // ---- packets ----

  /** What one packet stores: a pixel and how often it repeats, or that many pixels. */
  datatype Packet = Run(len: nat, pixel: seq<byte>) | Raw(len: nat, pixels: seq<byte>)
  {
    predicate Valid(c: nat)
      requires Comp(c)
    {
      && 1 <= len <= 128
      && match this { case Run(_, p) => |p| == c case Raw(_, ps) => |ps| == Times(len, c) }
    }

    function Bytes(): seq<byte>
    {
      match this { case Run(n, p) => [Uchar(n - 129)] + p case Raw(n, ps) => [Uchar(n - 1)] + ps }
    }

    function Meaning(): seq<byte>
    {
      match this { case Run(n, p) => Repeat(p, n) case Raw(_, ps) => ps }
    }
  }

  function Repeat(p: seq<byte>, n: nat): (r: seq<byte>)
    ensures Comp(|p|) ==> |r| == Times(n, |p|)
  {
    if n == 0 then [] else p + Repeat(p, n - 1)
  }

  predicate AllValid(ps: seq<Packet>, c: nat)
    requires Comp(c)
  {
    forall i :: 0 <= i < |ps| ==> ps[i].Valid(c)
  }

  function Stream(ps: seq<Packet>): seq<byte>
  {
    if ps == [] then [] else ps[0].Bytes() + Stream(ps[1..])
  }

  function Meanings(ps: seq<Packet>): seq<byte>
  {
    if ps == [] then [] else ps[0].Meaning() + Meanings(ps[1..])
  }

  lemma {:induction false} PacketsAppend(a: seq<Packet>, b: seq<Packet>)
    ensures Stream(a + b) == Stream(a) + Stream(b)
    ensures Meanings(a + b) == Meanings(a) + Meanings(b)
    decreases |a|
  {
    hide Packet.Bytes, Packet.Meaning;
    if a == [] {
      assert a + b == b;
    } else {
      assert (a + b)[1..] == a[1..] + b;
      PacketsAppend(a[1..], b);
      assert Stream(a) + Stream(b) == a[0].Bytes() + (Stream(a[1..]) + Stream(b));
      assert Meanings(a) + Meanings(b) == a[0].Meaning() + (Meanings(a[1..]) + Meanings(b));
    }
  }

  lemma PacketsPush(a: seq<Packet>, p: Packet)
    ensures Stream(a + [p]) == Stream(a) + p.Bytes()
    ensures Meanings(a + [p]) == Meanings(a) + p.Meaning()
  {
    hide Packet.Bytes, Packet.Meaning;
    PacketsAppend(a, [p]);
    assert Stream([p]) == p.Bytes() + Stream([]);
    assert Meanings([p]) == p.Meaning() + Meanings([]);
  }

  // ---- the splitter ----

  /** len equal pixels from i on, as many as a packet or the row takes. */
  predicate RunAt(row: Row, i: nat, len: nat)
    requires row.Valid()
  {
    && 2 <= len <= 128 && i + len <= row.x
    && (forall k :: i <= k < i + len ==> row.Pixel(k) == row.Pixel(i))
    && (len == 128 || i + len == row.x || row.Pixel(i + len) != row.Pixel(i))
  }

  /**
    len pixels from i on of which none equals the one two before it, and either there is no
    room for more, or the pixel after next would be the first to equal one of them.
  */
  predicate RawAt(row: Row, i: nat, len: nat)
    requires row.Valid()
  {
    && 1 <= len <= 128 && i + len <= row.x
    && (i + 1 < row.x ==> row.Pixel(i) != row.Pixel(i + 1))
    && (forall k :: i + 2 <= k < i + len ==> row.Pixel(k - 2) != row.Pixel(k))
    && (len == 128 || i + len == row.x || CutAt(row, i, len))
  }

  predicate CutAt(row: Row, i: nat, len: nat)
    requires row.Valid() && 1 <= len
  {
    && len < 127 && i + len + 1 < row.x && row.Pixel(i + len - 1) == row.Pixel(i + len + 1)
    && (len > 1 ==> row.Pixel(i + len - 2) != row.Pixel(i + len))
  }

  /** The scan for the next packet: how long it is and whether it is raw. */
  method Scan(row: Row, i: nat) returns (len: nat, diff: bool)
    requires row.Valid() && i < row.x
    ensures if diff then RawAt(row, i, len) else RunAt(row, i, len)
  {
    hide Row.Valid, Row.Pixel;
    diff := true;
    len := 1;
    if i + 1 < row.x {
      len := 2;
      diff := row.Pixel(i) != row.Pixel(i + 1);
      var k := i + 2;
      if diff {
        var prev := i;
        while k < row.x && len < 128
          invariant k == i + len == prev + 2 <= row.x && 2 <= len <= 128
          invariant forall m :: i + 2 <= m < k ==> row.Pixel(m - 2) != row.Pixel(m)
        {
          if row.Pixel(prev) == row.Pixel(k) {
            len := len - 1;
            break;
          }
          prev := prev + 1;
          len := len + 1;
          k := k + 1;
        }
      } else {
        while k < row.x && len < 128
          invariant k == i + len <= row.x && 2 <= len <= 128
          invariant forall m :: i <= m < k ==> row.Pixel(m) == row.Pixel(i)
        {
          if row.Pixel(i) != row.Pixel(k) {
            break;
          }
          len := len + 1;
          k := k + 1;
        }
      }
    }
  }

  lemma {:induction false} RunIsRepeat(row: Row, i: nat, j: nat, p: seq<byte>)
    requires row.Valid() && i <= j <= row.x && |p| == row.c
    requires forall k :: i <= k < j ==> row.Pixel(k) == p
    ensures WriteAll(row.Slice(i, j), row.c) == Repeat(WritePixel(p), j - i)
    decreases j - i
  {
    hide WritePixel, Times, Row.Slice;
    if i < j {
      var s := row.Slice(i, j);
      row.SliceAppend(i, i + 1, j);
      assert s == row.Pixel(i) + row.Slice(i + 1, j);
      assert s[..row.c] == row.Pixel(i) && s[row.c..] == row.Slice(i + 1, j);
      RunIsRepeat(row, i + 1, j, p);
    } else {
      row.SliceEnds();
    }
  }

  /** The loop that emits the pixels of a raw packet. */
  method RawPixels(row: Row, i: nat, len: nat) returns (out: seq<byte>)
    requires row.Valid() && i + len <= row.x
    ensures out == WriteAll(row.Slice(i, i + len), row.c)
  {
    hide WriteAll, WritePixel, Times, Row.Slice;
    out := [];
    NoPixels(row, i);
    for k := 0 to len
      invariant out == WriteAll(row.Slice(i, i + k), row.c)
    {
      var p := row.Pixel(i + k);
      out := out + WritePixel(p);
      WriteAllAppend(k, row.Slice(i, i + k), p, row.c);
      WriteAllOne(p);
      row.SliceAppend(i, i + k, i + k + 1);
    }
  }

  lemma NoPixels(row: Row, i: nat)
    requires row.Valid() && i <= row.x
    ensures WriteAll(row.Slice(i, i), row.c) == []
  {
    row.SliceEnds();
  }

  /** One packet from pixel i on. */
  method NextPacket(row: Row, i: nat) returns (out: seq<byte>, ghost p: Packet, len: nat)
    requires row.Valid() && i < row.x
    ensures p.len == len && i + len <= row.x && p.Valid(row.c)
    ensures if p.Run? then RunAt(row, i, len) else RawAt(row, i, len)
    ensures out == p.Bytes() && p.Meaning() == WriteAll(row.Slice(i, i + len), row.c)
  {
    hide WriteAll, Times, Row.Slice;
    var diff;
    len, diff := Scan(row, i);
    if diff {
      var data := RawPixels(row, i, len);
      out := [Uchar(len - 1)] + data;
      p := Raw(len, data);
    } else {
      var first := WritePixel(row.Pixel(i));
      out := [Uchar(len - 129)] + first;
      p := Run(len, first);
      RunIsRepeat(row, i, i + len, row.Pixel(i));
    }
  }

  /** What a packet costs beyond the pixels it stands for. */
  lemma PacketSize(p: Packet, c: nat)
    requires Comp(c) && p.Valid(c)
    ensures |p.Bytes()| <= Times(p.len, c) + 1
    ensures p.Run? && p.len >= 2 ==> |p.Bytes()| <= Times(p.len, c)
  {
  }

  /** The packets hold the first i pixels of the row. */
  ghost predicate Covers(row: Row, i: nat, ps: seq<Packet>)
    requires row.Valid() && i <= row.x
  {
    AllValid(ps, row.c) && Meanings(ps) == WriteAll(row.Slice(0, i), row.c)
  }

  /** At most one header byte per pixel, and one less once the last pair is reached. */
  predicate Cheap(row: Row, i: nat, size: nat)
    requires row.Valid()
  {
    && size <= Times(i, row.c) + i
    && (0 < i && row.x - 1 <= i && 1 < row.x ==> size < Times(i, row.c) + i)
  }

  lemma CoversMore(row: Row, i: nat, ps: seq<Packet>, p: Packet)
    requires row.Valid() && i + p.len <= row.x && p.Valid(row.c) && Covers(row, i, ps)
    requires p.Meaning() == WriteAll(row.Slice(i, i + p.len), row.c)
    ensures Covers(row, i + p.len, ps + [p])
  {
    hide WriteAll, Row.Slice, Packet.Meaning, Packet.Bytes, Times, Meanings, Packet.Valid;
    row.SliceAppend(0, i, i + p.len);
    WriteAllAppend(i, row.Slice(0, i), row.Slice(i, i + p.len), row.c);
    PacketsPush(ps, p);
  }

  /** The dearest rows: two pixels by turns. */
  predicate Alternating(row: Row)
    requires row.Valid()
  {
    && row.x > 1 && row.Pixel(0) != row.Pixel(1)
    && forall i :: 2 <= i < row.x ==> row.Pixel(i) == row.Pixel(i - 2)
  }

  lemma {:induction false} NeighboursDiffer(row: Row, i: nat)
    requires row.Valid() && Alternating(row) && i + 1 < row.x
    ensures row.Pixel(i) != row.Pixel(i + 1)
    decreases i
  {
    hide Row.Pixel, Row.Valid;
    if i > 0 {
      NeighboursDiffer(row, i - 1);
      assert row.Pixel(i + 1) == row.Pixel(i + 1 - 2);
    }
  }

  /** In such a row every packet is raw and holds one pixel, but the last holds two. */
  lemma AlternatingPacket(row: Row, i: nat, len: nat)
    requires row.Valid() && Alternating(row) && i + 1 < row.x
    ensures !RunAt(row, i, len)
    ensures RawAt(row, i, len) ==> len == if i + 2 < row.x then 1 else 2
  {
    hide Row.Pixel, Row.Valid;
    NeighboursDiffer(row, i);
    assert i + 2 < row.x ==> row.Pixel(i + 2) == row.Pixel(i + 2 - 2);
  }

  /** Every pixel of an alternating row so far has cost a header byte, but the last two cost one. */
  predicate Dear(row: Row, i: nat, size: nat)
    requires row.Valid()
  {
    && (i + 1 < row.x ==> size == Times(i, row.c) + i)
    && (i == row.x ==> size == Times(i, row.c) + i - 1)
    && i + 1 != row.x
  }

  lemma DearMore(row: Row, i: nat, size: nat, p: Packet)
    requires row.Valid() && i + p.len <= row.x && p.Valid(row.c) && Alternating(row) && i < row.x && Dear(row, i, size)
    requires if p.Run? then RunAt(row, i, p.len) else RawAt(row, i, p.len)
    ensures Dear(row, i + p.len, size + |p.Bytes()|)
  {
    hide Row.Pixel, RunAt, RawAt, Alternating;
    AlternatingPacket(row, i, p.len);
  }

  lemma CheapMore(row: Row, i: nat, size: nat, p: Packet)
    requires row.Valid() && i + p.len <= row.x && p.Valid(row.c) && Cheap(row, i, size)
    requires if p.Run? then RunAt(row, i, p.len) else RawAt(row, i, p.len)
    ensures Cheap(row, i + p.len, size + |p.Bytes()|)
  {
    hide Row.Pixel, Packet.Bytes, Packet.Valid, Times;
    PacketSize(p, row.c);
    TimesMono(i, i + p.len, row.c);
  }

  lemma CoversNone(row: Row)
    requires row.Valid()
    ensures Covers(row, 0, []) && Cheap(row, 0, 0) && Stream([]) == []
  {
    NoPixels(row, 0);
  }

  lemma DearStart(row: Row)
    requires row.Valid()
    ensures Alternating(row) ==> Dear(row, 0, 0)
  {
  }

  lemma DearEnd(row: Row, size: nat)
    requires row.Valid() && Dear(row, row.x, size)
    ensures size == |row.data| + row.x - 1
  {
  }

  lemma CoversAll(row: Row, ps: seq<Packet>, size: nat)
    requires row.Valid() && Covers(row, row.x, ps) && Cheap(row, row.x, size)
    ensures AllValid(ps, row.c) && Meanings(ps) == WriteAll(row.data, row.c)
    ensures size <= |row.data| + if row.x > 1 then row.x - 1 else row.x
  {
    hide WriteAll, Row.Slice, Times;
    row.SliceEnds();
  }

  /**
    One row.  Its packets have 1 to 128 pixels each, hold exactly the pixels of this row,
    and cost at most one header byte per pixel, or one less in a row of two or more.  Rows
    of two pixels by turns cost just that.
  */
  method WriteRow(row: Row) returns (out: seq<byte>, ghost ps: seq<Packet>)
    requires row.Valid()
    ensures AllValid(ps, row.c) && out == Stream(ps) && Meanings(ps) == WriteAll(row.data, row.c)
    ensures |out| <= |row.data| + if row.x > 1 then row.x - 1 else row.x
    ensures Alternating(row) ==> |out| == |row.data| + row.x - 1
  {
    hide Covers, Cheap, Dear, Alternating, Stream, AllValid, Meanings, WriteAll, Row.Valid, Row.Slice, RunAt, RawAt,
      Packet.Bytes, Packet.Meaning;
    out, ps := [], [];
    var i := 0;
    CoversNone(row);
    DearStart(row);
    while i < row.x
      invariant i <= row.x && Covers(row, i, ps) && out == Stream(ps) && Cheap(row, i, |out|)
      invariant Alternating(row) ==> Dear(row, i, |out|)
    {
      var bytes, len;
      ghost var p;
      bytes, p, len := NextPacket(row, i);
      CoversMore(row, i, ps, p);
      CheapMore(row, i, |out|, p);
      if Alternating(row) {
        DearMore(row, i, |out|, p);
      }
      PacketsPush(ps, p);
      out := out + bytes;
      ps := ps + [p];
      i := i + len;
    }
    CoversAll(row, ps, |out|);
    if Alternating(row) {
      DearEnd(row, |out|);
    }
  }
}
