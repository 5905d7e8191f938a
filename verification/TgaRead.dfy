/**
  The pixel loop of stbi__tga_load: run-length packets to pixels, then the in-place
  vertical flip and colour swap.
*/
module TgaRead {
  import opened Bits
  import opened ByteStream
  import opened ImageRows
  import opened TgaPackets

  lemma {:induction false} RowOffTimes(x: nat, j: nat, c: nat)
    requires Comp(c)
    ensures RowOff(Times(x, c), j) == Times(RowOff(x, j), c)
  {
    if j > 0 {
      RowOffTimes(x, j - 1, c);
    }
  }

  lemma WriteAllRow(s: seq<byte>, x: nat, h: nat, j: nat, c: nat)
    requires Comp(c) && |s| == RowOff(Times(x, c), h) && j < h
    ensures RowAt(WriteAll(s, c), Times(x, c), h, j) == WriteAll(RowAt(s, Times(x, c), h, j), c)
  {
    hide Times, WriteAll;
    var w := Times(x, c);
    var o := RowOff(w, j);
    RowOffMono(w, j, h);
    RowOffTimes(x, j, c);
    assert s == s[..o] + (s[o..o + w] + s[o + w..]);
    WriteAllAppend(RowOff(x, j), s[..o], s[o..o + w] + s[o + w..], c);
    WriteAllAppend(x, s[o..o + w], s[o + w..], c);
  }

  /** Swapping colours and turning the image upside down commute. */
  lemma WriteAllFlipped(s: seq<byte>, x: nat, h: nat, c: nat)
    requires Comp(c) && |s| == RowOff(Times(x, c), h)
    ensures WriteAll(Flipped(s, Times(x, c), h), c) == Flipped(WriteAll(s, c), Times(x, c), h)
  {
    hide Times, WriteAll, RowAt;
    var w := Times(x, c);
    var t, u := Flipped(s, w, h), WriteAll(s, c);
    forall j | 0 <= j < h ensures RowAt(WriteAll(t, c), w, h, j) == RowAt(Flipped(u, w, h), w, h, j) {
      WriteAllRow(t, x, h, j, c);
      FlipRow(s, w, h, h, j);
      WriteAllRow(s, x, h, h - 1 - j, c);
      FlipRow(u, w, h, h, j);
    }
    RowsDetermine(WriteAll(t, c), Flipped(u, w, h), w, h);
  }

  // ---- the packet reader ----

  /**
    The next n pixels from a reader at pos that has count pixels of a packet left, repeated
    ones if rep, the last pixel read being raw.
  */
  function Pixels(s: seq<byte>, pos: nat, count: nat, rep: bool, raw: seq<byte>, n: nat, c: nat): (r: seq<byte>)
    requires Comp(c) && |raw| == c
    ensures |r| == Times(n, c)
    decreases n, |s|
  {
    if n == 0 then []
    else if count == 0 then
      var cmd, p := Get8(s, pos), Read(s, pos + 1, c);
      p + Pixels(s, pos + 1 + c, cmd % 128, cmd >= 128, p, n - 1, c)
    else if rep then raw + Pixels(s, pos, count - 1, true, raw, n - 1, c)
    else
      var p := Read(s, pos, c);
      p + Pixels(s, pos + c, count - 1, false, p, n - 1, c)
  }

  /** What a reader between packets delivers next. */
  function Fresh(s: seq<byte>, pos: nat, n: nat, c: nat): (r: seq<byte>)
    requires Comp(c)
    ensures |r| == Times(n, c)
  {
    Pixels(s, pos, 0, false, Zeros(c), n, c)
  }

  lemma BetweenPackets(s: seq<byte>, pos: nat, rep: bool, raw: seq<byte>, n: nat, c: nat)
    requires Comp(c) && |raw| == c
    ensures Pixels(s, pos, 0, rep, raw, n, c) == Fresh(s, pos, n, c)
  {
  }

  lemma {:induction false} RunPixels(s: seq<byte>, pos: nat, len: nat, p: seq<byte>, n: nat, c: nat)
    requires Comp(c) && |p| == c && len <= n
    ensures Pixels(s, pos, len, true, p, n, c) == Repeat(p, len) + Fresh(s, pos, n - len, c)
    decreases len
  {
    hide Read, Get8, Times, Fresh;
    if len == 0 {
      BetweenPackets(s, pos, true, p, n, c);
      assert Repeat(p, 0) + Fresh(s, pos, n, c) == Fresh(s, pos, n, c);
    } else {
      RunPixels(s, pos, len - 1, p, n - 1, c);
      assert Repeat(p, len) + Fresh(s, pos, n - len, c) == p + (Repeat(p, len - 1) + Fresh(s, pos, n - len, c));
    }
  }

  lemma {:induction false} RawPixelsRead(s: seq<byte>, pos: nat, len: nat, ps: seq<byte>, raw: seq<byte>, n: nat,
                                         c: nat)
    requires Comp(c) && |raw| == c && len <= n && |ps| == Times(len, c) && At(s, pos, ps)
    ensures Pixels(s, pos, len, false, raw, n, c) == ps + Fresh(s, pos + |ps|, n - len, c)
    decreases len
  {
    hide Read, Get8, Times, At;
    TimesStep(if len > 0 then len - 1 else 0, c);
    if len == 0 {
      BetweenPackets(s, pos, false, raw, n, c);
      assert ps + Fresh(s, pos, n, c) == Fresh(s, pos, n, c);
    } else {
      var p, rest := ps[..c], ps[c..];
      assert ps == p + rest;
      AtSplit(s, pos, p, rest);
      ReadAt(s, pos, p);
      RawPixelsRead(s, pos + c, len - 1, rest, p, n - 1, c);
      assert p + (rest + Fresh(s, pos + |ps|, n - len, c)) == ps + Fresh(s, pos + |ps|, n - len, c);
    }
  }

  lemma PacketStart(s: seq<byte>, pos: nat, n: nat, c: nat)
    requires Comp(c) && n > 0
    ensures var cmd, p := Get8(s, pos), Read(s, pos + 1, c);
      Fresh(s, pos, n, c) == p + Pixels(s, pos + 1 + c, cmd % 128, cmd >= 128, p, n - 1, c)
  {
    hide Times;
  }

  lemma PacketHeader(p: Packet, c: nat)
    requires Comp(c) && p.Valid(c)
    ensures p.Bytes() != [] && p.Bytes()[0] % 128 == p.len - 1 && (p.Bytes()[0] >= 128 <==> p.Run?)
    ensures p.Bytes()[1..] == match p { case Run(_, q) => q case Raw(_, qs) => qs }
  {
  }

  lemma RunRead(s: seq<byte>, pos: nat, cmd: byte, p: seq<byte>, n: nat, c: nat)
    requires Comp(c) && |p| == c && 128 <= cmd && cmd % 128 < n && At(s, pos, [cmd] + p)
    ensures Fresh(s, pos, n, c) == Repeat(p, cmd % 128 + 1) + Fresh(s, pos + 1 + c, n - cmd % 128 - 1, c)
  {
    hide Read, Get8, Times, At, Fresh, Pixels, Repeat;
    Get8At(s, pos, [cmd] + p, 0);
    AtSplit(s, pos, [cmd], p);
    PacketStart(s, pos, n, c);
    ReadAt(s, pos + 1, p);
    RunPixels(s, pos + 1 + c, cmd % 128, p, n - 1, c);
    RepeatMore(p, cmd % 128, Fresh(s, pos + 1 + c, n - cmd % 128 - 1, c));
  }

  lemma RepeatMore(p: seq<byte>, n: nat, rest: seq<byte>)
    ensures p + (Repeat(p, n) + rest) == Repeat(p, n + 1) + rest
  {
  }

  lemma RawRead(s: seq<byte>, pos: nat, cmd: byte, ps: seq<byte>, n: nat, c: nat)
    requires Comp(c) && cmd < 128 && |ps| == Times(cmd + 1, c) && cmd < n && At(s, pos, [cmd] + ps)
    ensures Fresh(s, pos, n, c) == ps + Fresh(s, pos + 1 + |ps|, n - cmd - 1, c)
  {
    hide Read, Get8, Times, At, Fresh, Pixels;
    TimesStep(cmd, c);
    Get8At(s, pos, [cmd] + ps, 0);
    AtSplit(s, pos, [cmd], ps);
    PacketStart(s, pos, n, c);
    var p, qs := ps[..c], ps[c..];
    assert ps == p + qs;
    AtSplit(s, pos + 1, p, qs);
    ReadAt(s, pos + 1, p);
    RawPixelsRead(s, pos + 1 + c, cmd, qs, p, n - 1, c);
    var rest := Fresh(s, pos + 1 + |ps|, n - cmd - 1, c);
    assert p + (qs + rest) == ps + rest;
  }

  /** A packet is read as what it stands for, and the reader is between packets again. */
  lemma PacketRead(s: seq<byte>, pos: nat, p: Packet, n: nat, c: nat)
    requires Comp(c) && p.Valid(c) && p.len <= n && At(s, pos, p.Bytes())
    ensures Fresh(s, pos, n, c) == p.Meaning() + Fresh(s, pos + |p.Bytes()|, n - p.len, c)
  {
    hide Times, At, Fresh, Repeat;
    var b := p.Bytes();
    PacketHeader(p, c);
    assert b == [b[0]] + b[1..];
    if p.Run? {
      RunRead(s, pos, b[0], b[1..], n, c);
    } else {
      RawRead(s, pos, b[0], b[1..], n, c);
    }
  }

  lemma MeaningSize(p: Packet, c: nat)
    requires Comp(c) && p.Valid(c)
    ensures |p.Meaning()| == Times(p.len, c)
  {
  }

  /** A stream of packets is read as the pixels they stand for. */
  lemma {:induction false} PacketsRead(s: seq<byte>, pos: nat, ps: seq<Packet>, n: nat, c: nat)
    requires Comp(c) && AllValid(ps, c) && At(s, pos, Stream(ps)) && |Meanings(ps)| == Times(n, c)
    ensures Fresh(s, pos, n, c) == Meanings(ps)
    decreases |ps|
  {
    hide Times, Fresh, At, Packet.Bytes, Packet.Meaning, Packet.Valid;
    if ps != [] {
      var p := ps[0];
      MeaningSize(p, c);
      TimesAtMost(p.len, n, c);
      AtSplit(s, pos, p.Bytes(), Stream(ps[1..]));
      PacketRead(s, pos, p, n, c);
      TimesMono(p.len, n, c);
      PacketsRead(s, pos + |p.Bytes()|, ps[1..], n - p.len, c);
    } else {
      TimesAtMost(n, 0, c);
      FreshNone(s, pos, c);
    }
  }

  lemma TimesAtMost(a: nat, b: nat, c: nat)
    requires Comp(c) && Times(a, c) <= Times(b, c)
    ensures a <= b
  {
  }

  lemma FreshNone(s: seq<byte>, pos: nat, c: nat)
    requires Comp(c)
    ensures Fresh(s, pos, 0, c) == []
  {
  }

  /** One turn of the loop up to the copy: a packet header or a pixel is read if it is time to. */
  method NextPixel(s: seq<byte>, pos: nat, count: nat, rep: bool, read_next: bool, raw: seq<byte>, ghost n: nat, c: nat)
    returns (pos': nat, count': nat, rep': bool, raw': seq<byte>)
    requires Comp(c) && |raw| == c && n > 0 && (read_next ==> count == 0)
    ensures |raw'| == c
    ensures Pixels(s, pos, count, rep, raw, n, c) == raw' + Pixels(s, pos', count', rep', raw', n - 1, c)
  {
    hide Times, Read, Get8;
    pos', count', rep', raw' := pos, count, rep, raw;
    var read := read_next;
    if count == 0 {
      var cmd := Get8(s, pos);
      pos' := pos + 1;
      count' := 1 + cmd % 128;
      rep' := cmd >= 128;
      read := true;
    } else if !rep {
      read := true;
    }
    if read {
      raw' := Read(s, pos', c);
      pos' := pos' + c;
    }
    count' := count' - 1;
  }

  /** The pixel loop. */
  method ReadPixels(s: seq<byte>, start: nat, n: nat, c: nat) returns (out: array<byte>)
    requires Comp(c)
    ensures fresh(out) && out[..] == Fresh(s, start, n, c)
  {
    hide Times, Read, Get8, Pixels, Zeros;
    out := new byte[Times(n, c)];
    var pos: nat, count: nat, rep := start, 0, false;
    var raw := Blank(c);
    TimesStep(0, c);
    FreshIs(s, start, n, c);
    assert out[..0] == [];
    for i := 0 to n
      invariant |raw| == c && out.Length == Times(n, c) && Times(i, c) <= out.Length && (i == 0 ==> count == 0)
      invariant out[..Times(i, c)] + Pixels(s, pos, count, rep, raw, n - i, c) == Fresh(s, start, n, c)
    {
      ghost var rest := Pixels(s, pos, count, rep, raw, n - i, c);
      pos, count, rep, raw := NextPixel(s, pos, count, rep, i == 0, raw, n - i, c);
      TimesStep(i, c);
      TimesMono(i + 1, n, c);
      ghost var before := out[..Times(i, c)];
      Store(out, Times(i, c), raw);
      ghost var after := Pixels(s, pos, count, rep, raw, n - i - 1, c);
      assert (before + raw) + after == before + rest;
    }
    NoneLeft(s, pos, count, rep, raw, c);
    assert out[..out.Length] == out[..];
  }

  function Blank(c: nat): (r: seq<byte>)
    requires Comp(c)
    ensures r == Zeros(c) && |r| == c
  {
    Zeros(c)
  }

  lemma FreshIs(s: seq<byte>, pos: nat, n: nat, c: nat)
    requires Comp(c)
    ensures |Zeros(c)| == c && Fresh(s, pos, n, c) == Pixels(s, pos, 0, false, Zeros(c), n, c)
  {
    hide Pixels;
  }

  lemma NoneLeft(s: seq<byte>, pos: nat, count: nat, rep: bool, raw: seq<byte>, c: nat)
    requires Comp(c) && |raw| == c
    ensures Pixels(s, pos, count, rep, raw, 0, c) == []
  {
  }

  method Store(out: array<byte>, at: nat, p: seq<byte>)
    requires at + |p| <= out.Length
    modifies out
    ensures out[..at] == old(out[..at]) && out[at..at + |p|] == p && out[at + |p|..] == old(out[at + |p|..])
    ensures out[..at + |p|] == old(out[..at]) + p
  {
    for j := 0 to |p|
      invariant out[..at] == old(out[..at]) && out[at..at + j] == p[..j]
      invariant out[at + j..] == old(out[at + j..])
    {
      out[at + j] := p[j];
    }
  }

  // ---- the in-place passes over the finished image ----

  /** Exchange two runs of n bytes, byte by byte. */
  method SwapRuns(out: array<byte>, a: nat, b: nat, n: nat)
    requires a == b || a + n <= b
    requires b + n <= out.Length
    modifies out
    ensures Swapped(old(out[..]), out[..], a, b, n)
  {
    for i := 0 to n
      invariant forall k :: a <= k < a + i ==> out[k] == old(out[k - a + b])
      invariant forall k :: b <= k < b + i ==> out[k] == old(out[k - b + a])
      invariant forall k :: 0 <= k < out.Length && !(a <= k < a + i) && !(b <= k < b + i) ==> out[k] == old(out[k])
    {
      var temp := out[a + i];
      out[a + i] := out[b + i];
      out[b + i] := temp;
    }
  }

  /** t is s with the n bytes at a and those at b exchanged. */
  ghost predicate Swapped(s: seq<byte>, t: seq<byte>, a: nat, b: nat, n: nat)
    requires (a == b || a + n <= b) && b + n <= |s|
  {
    && |t| == |s|
    && t[a..a + n] == s[b..b + n] && t[b..b + n] == s[a..a + n]
    && t[0..a] == s[0..a] && t[b + n..|t|] == s[b + n..|s|]
    && (a + n <= b ==> t[a + n..b] == s[a + n..b])
  }

  lemma SwappedElsewhere(s: seq<byte>, t: seq<byte>, a: nat, b: nat, n: nat, o: nat)
    requires (a == b || a + n <= b) && b + n <= |s| && Swapped(s, t, a, b, n) && o + n <= |s|
    requires o + n <= a || (a + n <= o && o + n <= b) || b + n <= o
    ensures |t| == |s| && t[o..o + n] == s[o..o + n]
  {
    if o + n <= a {
      SameSlice(s, t, 0, a, o, o + n);
    } else if b + n <= o {
      SameSlice(s, t, b + n, |s|, o, o + n);
    } else {
      SameSlice(s, t, a + n, b, o, o + n);
    }
  }

  lemma SwappedRow(s: seq<byte>, t: seq<byte>, w: nat, h: nat, j: nat, r: nat)
    requires |s| == RowOff(w, h) && j <= h - 1 - j && r < h
    requires |t| == |s| && (RowOff(w, j) == RowOff(w, h - 1 - j) || RowOff(w, j) + w <= RowOff(w, h - 1 - j))
    requires RowOff(w, h - 1 - j) + w <= |s|
    requires Swapped(s, t, RowOff(w, j), RowOff(w, h - 1 - j), w)
    ensures RowAt(t, w, h, r) == RowAt(s, w, h, if r == j || r == h - 1 - j then h - 1 - r else r)
  {
    var k := h - 1 - j;
    if r == j || r == k {
      hide RowOff;
    } else {
      hide RowOff, Swapped;
      RowOffMono(w, r, h);
      if r < j {
        RowOffMono(w, r, j);
      } else if r < k {
        RowOffMono(w, j, r);
        RowOffMono(w, r, k);
      } else {
        RowOffMono(w, k, r);
      }
      SwappedElsewhere(s, t, RowOff(w, j), RowOff(w, k), w, RowOff(w, r));
    }
  }

  lemma SameSlice(s: seq<byte>, t: seq<byte>, lo: nat, hi: nat, i: nat, j: nat)
    requires lo <= i <= j <= hi <= |s| && |t| == |s| && s[lo..hi] == t[lo..hi]
    ensures s[i..j] == t[i..j]
  {
    forall k | i <= k < j ensures s[k] == t[k] {
      assert s[k] == s[lo..hi][k - lo] && t[k] == t[lo..hi][k - lo];
    }
  }

  /** Rows below j and from h - j on are those of s upside down, the others those of s. */
  ghost predicate EndsFlipped(s: seq<byte>, t: seq<byte>, w: nat, h: nat, j: nat)
    requires |s| == RowOff(w, h)
  {
    && |t| == |s|
    && forall r :: 0 <= r < h ==> RowAt(t, w, h, r) == RowAt(s, w, h, if r < j || r >= h - j then h - 1 - r else r)
  }

  lemma EndsFlippedMore(s: seq<byte>, t: seq<byte>, u: seq<byte>, w: nat, h: nat, j: nat)
    requires |s| == RowOff(w, h) && EndsFlipped(s, t, w, h, j) && j <= h - 1 - j
    requires |u| == |t| && (RowOff(w, j) == RowOff(w, h - 1 - j) || RowOff(w, j) + w <= RowOff(w, h - 1 - j))
    requires RowOff(w, h - 1 - j) + w <= |t|
    requires Swapped(t, u, RowOff(w, j), RowOff(w, h - 1 - j), w)
    ensures EndsFlipped(s, u, w, h, j + 1)
  {
    hide Swapped, RowAt;
    forall r | 0 <= r < h
      ensures RowAt(u, w, h, r) == RowAt(s, w, h, if r < j + 1 || r >= h - j - 1 then h - 1 - r else r)
    {
      SwappedRow(t, u, w, h, j, r);
    }
  }

  lemma EndsMeet(s: seq<byte>, t: seq<byte>, w: nat, h: nat, j: nat)
    requires |s| == RowOff(w, h) && EndsFlipped(s, t, w, h, j) && h <= j * 2
    ensures t == Flipped(s, w, h)
  {
    hide RowAt;
    var u := Flipped(s, w, h);
    forall r | 0 <= r < h ensures RowAt(t, w, h, r) == RowAt(u, w, h, r) {
      FlipRow(s, w, h, h, r);
    }
    RowsDetermine(t, u, w, h);
  }

  /** The flip in place: row j against row h - 1 - j, up to the middle. */
  method Invert(out: array<byte>, w: nat, h: nat)
    requires out.Length == RowOff(w, h)
    modifies out
    ensures out[..] == Flipped(old(out[..]), w, h)
  {
    hide Swapped, RowAt, EndsFlipped, Flipped;
    var j := 0;
    ghost var was := out[..];
    NothingFlipped(was, w, h);
    while j * 2 < h
      invariant EndsFlipped(was, out[..], w, h, j)
    {
      ghost var before := out[..];
      Offsets(w, h, j);
      SwapRuns(out, RowOff(w, j), RowOff(w, h - 1 - j), w);
      EndsFlippedMore(was, before, out[..], w, h, j);
      j := j + 1;
    }
    EndsMeet(was, out[..], w, h, j);
  }

  lemma NothingFlipped(s: seq<byte>, w: nat, h: nat)
    requires |s| == RowOff(w, h)
    ensures EndsFlipped(s, s, w, h, 0)
  {
  }

  lemma Offsets(w: nat, h: nat, j: nat)
    requires j * 2 < h
    ensures RowOff(w, h - 1 - j) + w <= RowOff(w, h)
    ensures RowOff(w, j) == RowOff(w, h - 1 - j) || RowOff(w, j) + w <= RowOff(w, h - 1 - j)
  {
    RowOffMono(w, h - 1 - j, h);
    if j < h - 1 - j {
      RowOffMono(w, j, h - 1 - j);
    }
  }

  lemma SwapIsWrite(p: seq<byte>)
    requires 3 <= |p| <= 4
    ensures WriteAll(p, |p|) == p[0 := p[2]][2 := p[0]]
  {
    hide WriteAll;
    WriteAllOne(p);
    ExchangeEnds(p);
  }

  lemma ExchangeEnds(p: seq<byte>)
    requires |p| >= 3
    ensures p[0 := p[2]][2 := p[0]] == [p[2], p[1], p[0]] + p[3..]
  {
    var u := p[0 := p[2]][2 := p[0]];
    assert u[..3] == [u[0], u[1], u[2]];
    assert u[3..] == p[3..];
    assert u == u[..3] + u[3..];
  }

  method SwapPixel(out: array<byte>, p: nat, c: nat)
    requires 3 <= c <= 4 && p + c <= out.Length
    modifies out
    ensures out[..p + c] == old(out[..p]) + WriteAll(old(out[p..p + c]), c) && out[p + c..] == old(out[p + c..])
  {
    hide WriteAll;
    ghost var q := out[p..p + c];
    var temp := out[p];
    out[p] := out[p + 2];
    out[p + 2] := temp;
    SwapIsWrite(q);
    assert out[p..p + c] == q[0 := q[2]][2 := q[0]];
    assert out[..p + c] == out[..p] + out[p..p + c];
  }

  /** The colour swap in place. */
  method SwapColours(out: array<byte>, n: nat, c: nat)
    requires 3 <= c <= 4 && out.Length == Times(n, c)
    modifies out
    ensures out[..] == WriteAll(old(out[..]), c)
  {
    hide Times, WriteAll;
    var p: nat := 0;
    ghost var was := out[..];
    TimesStep(0, c);
    NothingWritten(c);
    for i := 0 to n
      invariant p == Times(i, c) <= out.Length && out[..p] == WriteAll(was[..p], c) && out[p..] == was[p..]
    {
      TimesStep(i, c);
      TimesMono(i + 1, n, c);
      WriteAllAppend(i, was[..p], was[p..p + c], c);
      assert was[..p + c] == was[..p] + was[p..p + c];
      assert was[p..p + c] == was[p..][..c] == out[p..][..c] == out[p..p + c];
      SwapPixel(out, p, c);
      assert was[p + c..] == was[p..][c..];
      p := p + c;
    }
    assert was[..p] == was && out[..p] == out[..];
  }

  lemma NothingWritten(c: nat)
    requires Comp(c)
    ensures WriteAll([], c) == []
  {
  }
}
