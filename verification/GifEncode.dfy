/**
  The LZW encoder of GIF89a, appendix F, which the decoder undoes: strings are looked up in a
  dictionary of its own, and a clear code empties it when it is full.
*/
module GifEncode {
  import opened Bits
  import opened Wrappers
  import opened ByteStream
  import opened ImageRows
  import opened GifCells
  import opened GifPaint
  import opened GifLzw
  import opened GifRaster

  /** The code of a string. */
  function Find(dict: seq<seq<byte>>, s: seq<byte>, n: nat): (r: Option<nat>)
    requires n <= |dict|
    ensures r.Some? ==> r.value < n && dict[r.value] == s
  {
    if n == 0 then None else if dict[n - 1] == s then Some(n - 1) else Find(dict, s, n - 1)
  }

  /** Root width, strings by code, the width of the next code, and the code of the string read so far. */
  datatype Encoder = Encoder(cs: nat, dict: seq<seq<byte>>, size: nat, cur: nat)
  {
    predicate Valid() { Pow2(cs) + 2 <= |dict| && cur < |dict| }

    function Text(): seq<byte>
      requires Valid()
    {
      dict[cur]
    }
  }

  predicate Below(syms: seq<byte>, n: nat) { forall k :: 0 <= k < |syms| ==> syms[k] < n }

  function Fresh(cs: nat, symbol: byte): Encoder { Encoder(cs, Initial(cs), cs + 1, symbol) }

  /** Codes become wider as soon as the next entry, number n, would not fit them, up to twelve bits. */
  function Wider(n: nat, size: nat): nat { if size < 12 && n == Pow2(size) then size + 1 else size }

  function EndCode(cs: nat, size: nat): seq<bool> { BitsOf(Pow2(cs) + 1, size) }

  function ClearCode(cs: nat, size: nat): seq<bool> { BitsOf(Pow2(cs), size) }

  /** The codes for the string read so far and the symbols behind it. */
  function Codes(e: Encoder, syms: seq<byte>): seq<bool>
    requires e.Valid() && Below(syms, Pow2(e.cs))
    decreases |syms|
  {
    var size := Wider(|e.dict|, e.size);
    if syms == [] then BitsOf(e.cur, e.size) + EndCode(e.cs, size)
    else
      var longer := e.Text() + [syms[0]];
      match Find(e.dict, longer, |e.dict|)
      case Some(code) => Codes(e.(cur := code), syms[1..])
      case None =>
        BitsOf(e.cur, e.size) +
        if |e.dict| < 4096 then
          Codes(Encoder(e.cs, e.dict + [longer], size, syms[0]), syms[1..])
        else ClearCode(e.cs, size) + Codes(Fresh(e.cs, syms[0]), syms[1..])
  }

  function Encode(cs: nat, syms: seq<byte>): seq<bool>
    requires Below(syms, Pow2(cs))
  {
    ClearCode(cs, cs + 1) + if syms == [] then EndCode(cs, cs + 1) else Codes(Fresh(cs, syms[0]), syms[1..])
  }

  // ---- one code ----

  /** The decoder has the same strings but the newest, whose last symbol is the first of the string read so far. */
  ghost predicate Follows(e: Encoder, st: Lzw)
  {
    && 1 <= e.cs <= 8 && st.Valid() && st.cs == e.cs && st.size == e.size && !st.needs_clear
    && Initial(e.cs) <= e.dict && Live(e.cs, |e.dict|, e.cur) && e.dict[e.cur] != []
    && |e.dict| <= 4096 && e.size <= 12 && |e.dict| <= Pow2(e.size)
    && match st.prior
       case None => st.dict == e.dict
       case Some(o) => e.dict == st.dict + [st.dict[o] + [e.dict[e.cur][0]]]
  }

  /** The decoder's state after the code of the string read so far. */
  function Told(e: Encoder): Lzw { Lzw(e.cs, e.dict, Wider(|e.dict|, e.size), Some(e.cur), false) }

  lemma CodeTells(e: Encoder, st: Lzw)
    requires Follows(e, st)
    ensures OnCode(st, e.cur) == Emit(e.dict[e.cur], Told(e))
  {
    hide Grow, Pow2, Initial;
    GrowIs(|e.dict|, e.size);
  }

  lemma CodeFits(e: Encoder, st: Lzw)
    requires Follows(e, st)
    ensures e.cur < Pow2(e.size)
  {
  }

  lemma WiderIs(n: nat, size: nat)
    requires 0 < size <= 12 && n <= Pow2(size) && n <= 4096
    ensures size <= Wider(n, size) <= 12 && (n < 4096 ==> n + 1 <= Pow2(Wider(n, size)))
    ensures Pow2(size) <= Pow2(Wider(n, size))
  {
    Pow2Of12();
    Pow2Mono(size, Wider(n, size));
  }

  lemma ToldIsValid(e: Encoder, st: Lzw)
    requires Follows(e, st)
    ensures Told(e).Valid()
  {
    hide OnCode, Follows, Lzw.Valid;
    CodeTells(e, st);
    FollowsValid(e, st);
    OnCodeIsValid(st, e.cur);
  }

  lemma FollowsValid(e: Encoder, st: Lzw)
    requires Follows(e, st)
    ensures st.Valid() && e.Valid() && 0 < e.size == st.size <= 12 && 1 <= e.cs <= 8 && st.cs == e.cs
    ensures |e.dict| <= 4096 && |e.dict| <= Pow2(e.size) && e.cs < e.size <= Wider(|e.dict|, e.size)
  {
    if e.size <= e.cs {
      Pow2Mono(e.size, e.cs);
      assert false;
    }
  }

  /** Reserved codes have no string, so that none is found for them. */
  lemma MatchFollows(e: Encoder, st: Lzw, symbol: byte, code: nat)
    requires Follows(e, st) && code < |e.dict| && e.dict[code] == e.dict[e.cur] + [symbol]
    ensures Follows(e.(cur := code), st)
  {
    hide Pow2;
    var i := Initial(e.cs);
    assert i[Pow2(e.cs)] == [] && i[Pow2(e.cs) + 1] == [];
    assert e.dict[Pow2(e.cs)] == i[Pow2(e.cs)] && e.dict[Pow2(e.cs) + 1] == i[Pow2(e.cs) + 1];
  }

  lemma MissFollows(e: Encoder, st: Lzw, symbol: byte)
    requires Follows(e, st) && |e.dict| < 4096 && symbol < Pow2(e.cs)
    ensures Follows(Encoder(e.cs, e.dict + [e.dict[e.cur] + [symbol]], Wider(|e.dict|, e.size), symbol), Told(e))
    ensures symbol < |e.dict| && e.dict[symbol] == [symbol]
  {
    hide Pow2, Wider, Initial, Lzw.Valid;
    ToldIsValid(e, st);
    FollowsValid(e, st);
    WiderIs(|e.dict|, e.size);
    RootIs(e.cs, symbol);
    assert e.dict[symbol] == Initial(e.cs)[symbol];
  }

  lemma RootIs(cs: nat, symbol: byte)
    requires symbol < Pow2(cs)
    ensures Initial(cs)[symbol] == [symbol]
  {
  }

  lemma FreshFollows(cs: nat, symbol: byte)
    requires 1 <= cs <= 8 && symbol < Pow2(cs)
    ensures Follows(Fresh(cs, symbol), Cleared(cs)) && Fresh(cs, symbol).dict[symbol] == [symbol]
  {
    hide Pow2, Initial;
    ClearedIsValid(cs);
    RootIs(cs, symbol);
    RootsAre(cs);
  }

  lemma RootsAre(cs: nat)
    requires 1 <= cs <= 8
    ensures Pow2(cs) + 2 <= Pow2(cs + 1) <= 512
  {
    assert Pow2(1) == 2;
    Pow2Of8();
    Pow2Mono(1, cs);
    Pow2Mono(cs, 8);
  }

  // ---- the whole list ----

  lemma ReadField(bits: seq<bool>, pos: nat, v: nat, n: nat, rest: seq<bool>)
    requires At(bits, pos, BitsOf(v, n) + rest) && v < Pow2(n)
    ensures pos + n <= |bits| && Take(bits, pos, n) == v && At(bits, pos + n, rest)
  {
    hide Take, BitsOf;
    AtSplit(bits, pos, BitsOf(v, n), rest);
    TakeAt(bits, pos, v, n);
  }

  /** One code of either kind at pos. */
  lemma DecodeField(bits: seq<bool>, pos: nat, st: Lzw, code: nat, rest: seq<bool>)
    requires st.Valid() && At(bits, pos, BitsOf(code, st.size) + rest) && code < Pow2(st.size)
    ensures OnCode(st, code) == End ==> Decode(bits, pos, st) == Decoded.Symbols([])
    ensures OnCode(st, code).Emit? ==>
      var next := OnCode(st, code).next;
      && next.Valid() && At(bits, pos + st.size, rest)
      && Decode(bits, pos, st) == Decode(bits, pos + st.size, next).Prepend(OnCode(st, code).text)
  {
    hide Take, BitsOf, OnCode, Decode, Lzw.Valid, At;
    ReadField(bits, pos, code, st.size, rest);
    DecodeCode(bits, pos, st);
  }

  lemma ReservedFit(cs: nat, size: nat)
    requires 1 <= cs < size
    ensures Pow2(cs) + 1 < Pow2(size)
  {
    assert Pow2(1) == 2;
    Pow2Mono(1, cs);
    Pow2Mono(cs + 1, size);
  }

  /** The end code ends it. */
  lemma EndRead(bits: seq<bool>, pos: nat, st: Lzw)
    requires st.Valid() && 1 <= st.cs < st.size && At(bits, pos, EndCode(st.cs, st.size))
    ensures Decode(bits, pos, st) == Decoded.Symbols([])
  {
    hide Decode, BitsOf, At;
    ReservedFit(st.cs, st.size);
    assert EndCode(st.cs, st.size) + [] == EndCode(st.cs, st.size);
    DecodeField(bits, pos, st, Pow2(st.cs) + 1, []);
  }

  lemma ClearRead(bits: seq<bool>, pos: nat, st: Lzw, rest: seq<bool>)
    requires st.Valid() && 1 <= st.cs < st.size && At(bits, pos, ClearCode(st.cs, st.size) + rest)
    ensures Cleared(st.cs).Valid() && At(bits, pos + st.size, rest)
    ensures Decode(bits, pos, st) == Decode(bits, pos + st.size, Cleared(st.cs))
  {
    hide Decode, BitsOf, At, Cleared;
    ReservedFit(st.cs, st.size);
    DecodeField(bits, pos, st, Pow2(st.cs), rest);
    var d := Decode(bits, pos + st.size, Cleared(st.cs));
    PrependNone(d);
  }

  lemma PrependNone(d: Decoded)
    ensures d.Prepend([]) == d
  {
    if d.Symbols? {
      assert [] + d.text == d.text;
    }
  }

  /** The code of the string read so far. */
  lemma CodeRead(bits: seq<bool>, pos: nat, e: Encoder, st: Lzw, rest: seq<bool>)
    requires Follows(e, st) && At(bits, pos, BitsOf(e.cur, e.size) + rest)
    ensures st.Valid() && Told(e).Valid() && At(bits, pos + e.size, rest)
    ensures Decode(bits, pos, st) == Decode(bits, pos + e.size, Told(e)).Prepend(e.dict[e.cur])
  {
    hide Decode, BitsOf, At, OnCode, Told, Lzw.Valid;
    FollowsValid(e, st);
    CodeTells(e, st);
    CodeFits(e, st);
    DecodeField(bits, pos, st, e.cur, rest);
  }

  /** Every list of symbols comes back, whatever strings repeat and however often the dictionary fills up. */
  lemma {:induction false} CodesRead(bits: seq<bool>, pos: nat, e: Encoder, st: Lzw, syms: seq<byte>)
    requires Follows(e, st) && e.Valid() && Below(syms, Pow2(e.cs)) && At(bits, pos, Codes(e, syms))
    ensures st.Valid() && Decode(bits, pos, st) == Decoded.Symbols(e.dict[e.cur] + syms)
    decreases |syms|
  {
    hide Decode, BitsOf, At, Lzw.Valid, Follows, Find, Wider, Encoder.Valid, Pow2, Cleared, ClearCode, EndCode,
      Initial;
    FollowsValid(e, st);
    if syms == [] {
      CodeRead(bits, pos, e, st, EndCode(e.cs, Wider(|e.dict|, e.size)));
      EndRead(bits, pos + e.size, Told(e));
    } else {
      match Find(e.dict, e.Text() + [syms[0]], |e.dict|)
      case Some(code) =>
        MatchFollows(e, st, syms[0], code);
        FollowsValid(e.(cur := code), st);
        CodesRead(bits, pos, e.(cur := code), st, syms[1..]);
        assert (e.Text() + [syms[0]]) + syms[1..] == e.Text() + syms;
      case None =>
        assert syms == [syms[0]] + syms[1..];
        if |e.dict| < 4096 {
          var next := Encoder(e.cs, e.dict + [e.Text() + [syms[0]]], Wider(|e.dict|, e.size), syms[0]);
          MissFollows(e, st, syms[0]);
          FollowsValid(next, Told(e));
          CodeRead(bits, pos, e, st, Codes(next, syms[1..]));
          CodesRead(bits, pos + e.size, next, Told(e), syms[1..]);
        } else {
          var next := Fresh(e.cs, syms[0]);
          FreshFollows(e.cs, syms[0]);
          FollowsValid(next, Cleared(e.cs));
          CodeRead(bits, pos, e, st, ClearCode(e.cs, Wider(|e.dict|, e.size)) + Codes(next, syms[1..]));
          ClearRead(bits, pos + e.size, Told(e), Codes(next, syms[1..]));
          CodesRead(bits, pos + e.size + Told(e).size, next, Cleared(e.cs), syms[1..]);
        }
    }
  }

  lemma EncodedRead(bits: seq<bool>, cs: nat, syms: seq<byte>)
    requires 1 <= cs <= 8 && Below(syms, Pow2(cs)) && At(bits, 0, Encode(cs, syms))
    ensures var st := Cleared(cs).(needs_clear := true);
      st.Valid() && Decode(bits, 0, st) == Decoded.Symbols(syms)
  {
    hide Decode, BitsOf, At, Pow2, ClearCode, EndCode, Codes, Lzw.Valid, Initial;
    var st := Cleared(cs).(needs_clear := true);
    ClearedIsValid(cs);
    if syms == [] {
      ClearRead(bits, 0, st, EndCode(cs, cs + 1));
      EndRead(bits, cs + 1, Cleared(cs));
    } else {
      FreshFollows(cs, syms[0]);
      FollowsValid(Fresh(cs, syms[0]), Cleared(cs));
      ClearRead(bits, 0, st, Codes(Fresh(cs, syms[0]), syms[1..]));
      CodesRead(bits, cs + 1, Fresh(cs, syms[0]), Cleared(cs), syms[1..]);
      assert [syms[0]] + syms[1..] == syms;
    }
  }

  // ---- bytes and sub-blocks ----

  /** Bits as bytes, low bit first; the last byte is filled up with zeros. */
  function Pack(bits: seq<bool>): seq<byte>
    decreases |bits|
  {
    Take8(bits);
    if bits == [] then [] else [Take(bits, 0, 8)] + Pack(if |bits| > 8 then bits[8..] else [])
  }

  lemma Take8(bits: seq<bool>)
    ensures Take(bits, 0, 8) < 256
  {
    TakeBound(bits, 0, 8);
    Pow2Of8();
  }

  lemma {:induction false} BitsOfTake(bits: seq<bool>, pos: nat, n: nat, i: nat)
    requires i < n
    ensures BitsOf(Take(bits, pos, n), n)[i] == (pos + i < |bits| && bits[pos + i])
    decreases n
  {
    hide BitsOf, Take;
    FirstBit(bits, pos, n);
    if i > 0 {
      BitsOfTake(bits, pos + 1, n - 1, i - 1);
    }
  }

  lemma FirstBit(bits: seq<bool>, pos: nat, n: nat)
    requires n > 0
    ensures BitsOf(Take(bits, pos, n), n) == [BitAt(bits, pos) == 1] + BitsOf(Take(bits, pos + 1, n - 1), n - 1)
  {
    hide BitAt;
    var b, t := BitAt(bits, pos), Take(bits, pos + 1, n - 1);
    assert Take(bits, pos, n) == b + 2 * t;
    assert (b + 2 * t) / 2 == t && (b + 2 * t) % 2 == b;
  }

  lemma {:induction false} Unpacked(bits: seq<bool>)
    ensures At(Unpack(Pack(bits)), 0, bits)
    decreases |bits|
  {
    hide Take, BitsOf;
    if bits != [] {
      Take8(bits);
      var b, rest := Take(bits, 0, 8), if |bits| > 8 then bits[8..] else [];
      Unpacked(rest);
      assert Pack(bits) == [b] + Pack(rest);
      UnpackAppend([b], Pack(rest));
      UnpackOne(b);
      var u, v := BitsOf(b, 8), Unpack(Pack(rest));
      forall i | 0 <= i < |bits| ensures (u + v)[i] == bits[i] {
        if i < 8 {
          BitsOfTake(bits, 0, 8, i);
        } else {
          assert rest[i - 8] == v[..|rest|][i - 8];
        }
      }
      assert Unpack(Pack(bits))[..|bits|] == bits;
    }
  }

  /** Sub-blocks of at most 255 bytes, each behind its length, and an empty one. */
  function Chunked(data: seq<byte>): seq<byte>
  {
    if data == [] then [0]
    else
      var n := if |data| > 255 then 255 else |data|;
      [n] + (data[..n] + Chunked(data[n..]))
  }

  lemma {:induction false} ChunksRead(s: seq<byte>, pos: nat, data: seq<byte>)
    requires At(s, pos, Chunked(data))
    ensures SubBlocks(s, pos) == Blocks(data, pos + |Chunked(data)|)
    decreases |data|
  {
    hide Read;
    Get8At(s, pos, Chunked(data), 0);
    if data != [] {
      var n := if |data| > 255 then 255 else |data|;
      AtSplit(s, pos, [n], data[..n] + Chunked(data[n..]));
      AtSplit(s, pos + 1, data[..n], Chunked(data[n..]));
      ReadAt(s, pos + 1, data[..n]);
      ChunksRead(s, pos + 1 + n, data[n..]);
    }
  }

  /** The data of an image: root width, then the codes in sub-blocks. */
  function Raster(cs: byte, syms: seq<byte>): seq<byte>
    requires Below(syms, Pow2(cs))
  {
    [cs] + Chunked(Pack(Encode(cs, syms)))
  }

  lemma RasterRead(s: seq<byte>, start: nat, cs: byte, syms: seq<byte>)
    requires 1 <= cs <= 8 && Below(syms, Pow2(cs)) && At(s, start, Raster(cs, syms))
    ensures RasterSymbols(s, start) == Decoded.Symbols(syms)
    ensures SubBlocks(s, start + 1).next == start + |Raster(cs, syms)|
  {
    hide Decode, Encode, Pack, Chunked, SubBlocks, Cleared, Pow2;
    var data := Pack(Encode(cs, syms));
    Get8At(s, start, Raster(cs, syms), 0);
    AtSplit(s, start, [cs], Chunked(data));
    ChunksRead(s, start + 1, data);
    Unpacked(Encode(cs, syms));
    EncodedRead(Unpack(data), cs, syms);
  }

  /** Roots of more than twelve bits are refused at once, and no others. */
  lemma RootWidths(cs: byte)
    ensures RasterSymbols([cs, 0], 0) == if cs > 12 then Failed else Decoded.Symbols([])
  {
    hide Unpack, Decode, Cleared;
    var s: seq<byte> := [cs, 0];
    assert Get8(s, 0) == cs && SubBlocks(s, 1).data == [];
    assert |Unpack([])| == 0;
    if cs <= 12 {
      ClearedIsValid(cs);
      ClearedSize(cs);
      DecodeEnds(Unpack([]), 0, Cleared(cs).(needs_clear := true));
    }
  }

  lemma ClearedSize(cs: nat)
    ensures Cleared(cs).size == cs + 1
  {
  }

  /**
    A written frame is drawn: the colour of every symbol at its own cell, red first, unless it is
    transparent.
  */
  method DrawWritten(g: Gif, s: seq<byte>, start: nat, f: Frame, cs: byte, syms: seq<byte>)
    returns (ok: bool, pos: nat)
    requires g.codes.Length == 8192 && g.out != g.history && g.out.Length == 4 * g.history.Length
    requires g.history.Length == RowOff(f.width, f.height) && f.Valid()
    requires 1 <= cs <= 8 && Below(syms, Pow2(cs)) && At(s, start, Raster(cs, syms))
    modifies g, g.out, g.history, g.codes
    ensures ok && pos == start + |Raster(cs, syms)|
    ensures g.out == old(g.out) && g.history == old(g.history) && g.color_table == old(g.color_table)
    ensures var cells, table := FrameCells(f.w, f.h, f.interlaced), g.color_table;
      forall k :: 0 <= k < |cells| && k < |syms| ==>
        var c: nat, q := syms[k], f.Spot(cells[k]);
        && q < g.history.Length && g.history[q] == 1
        && g.out[4 * q..4 * q + 4] == if table[4 * c + 3] > 128
             then [table[4 * c + 2], table[4 * c + 1], table[4 * c], table[4 * c + 3]]
             else old(g.out[4 * q..4 * q + 4])
  {
    hide FrameCells, Paint, Raster, SubBlocks, RasterSymbols, Frame.Spot, RowOff, At, Frame.Holds, Below, Pow2;
    RasterRead(s, start, cs, syms);
    ghost var before := g.Shown();
    ok, pos := g.DrawFrame(s, start, f.width, f.height, f.x, f.y, f.w, f.h, if f.interlaced then 0x40 else 0);
    ghost var cells := FrameCells(f.w, f.h, f.interlaced);
    forall k | 0 <= k < |cells| && k < |syms|
      ensures f.Spot(cells[k]) < g.history.Length
      ensures var c: nat, q, table := syms[k], f.Spot(cells[k]), g.color_table;
        && g.history[q] == 1
        && g.out[4 * q..4 * q + 4] == if table[4 * c + 3] > 128
             then [table[4 * c + 2], table[4 * c + 1], table[4 * c], table[4 * c + 3]]
             else before.out[4 * q..4 * q + 4]
    {
      FrameShows(before, f, g.color_table, syms, k);
    }
  }
}
