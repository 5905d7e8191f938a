/** The GIF frame decoder: stbi__out_gif_code, stbi__process_gif_raster and the image descriptor. */
module GifRaster {
  import opened Bits
  import opened ByteStream
  import opened ImageRows
  import opened GifCells
  import opened GifPaint
  import opened GifLzw

  // ---- the sub-blocks that carry the codes ----

  datatype Blocks = Blocks(data: seq<byte>, next: nat)

  /** The data of the sub-blocks from pos on, and where they end. */
  function SubBlocks(s: seq<byte>, pos: nat): Blocks
    decreases if pos < |s| then |s| - pos else 0
  {
    var len := Get8(s, pos);
    if len == 0 then Blocks([], pos + 1) else InBlock(s, pos + 1, len, SubBlocks(s, pos + 1 + len as int))
  }

  /** The same when the reader is at pos, with len bytes of a sub-block still to come. */
  function InBlock(s: seq<byte>, pos: nat, len: nat, rest: Blocks): Blocks
  {
    Blocks(Read(s, pos, len) + rest.data, rest.next)
  }

  function Rest(s: seq<byte>, pos: nat, len: nat): Blocks
  {
    InBlock(s, pos, len, SubBlocks(s, pos + len))
  }

  lemma RestStarts(s: seq<byte>, pos: nat)
    ensures Rest(s, pos, 0) == SubBlocks(s, pos)
    ensures Get8(s, pos) > 0 ==> Rest(s, pos, 0) == Rest(s, pos + 1, Get8(s, pos))
    ensures Get8(s, pos) == 0 ==> Rest(s, pos, 0) == Blocks([], pos + 1)
  {
    var r := SubBlocks(s, pos);
    assert [] + r.data == r.data;
  }

  lemma RestNext(s: seq<byte>, pos: nat, len: nat)
    requires len > 0
    ensures Rest(s, pos, len).data == [Get8(s, pos)] + Rest(s, pos + 1, len - 1).data
    ensures Rest(s, pos, len).next == Rest(s, pos + 1, len - 1).next
  {
  }

  // ---- the cursor ----

  lemma {:induction false} RowOffPow(w: nat, p: nat)
    ensures RowOff(w, Pow2(p)) == Shl(w, p)
    decreases p
  {
    if p > 0 {
      RowOffPow(w, p - 1);
      RowOffAdd(w, Pow2(p - 1), Pow2(p - 1));
    } else {
      assert RowOff(w, 1) == RowOff(w, 0) + w;
    }
  }

  lemma {:induction false} RowOffFour(w: nat, j: nat)
    ensures RowOff(4 * w, j) == 4 * RowOff(w, j)
  {
    if j > 0 {
      RowOffFour(w, j - 1);
    }
  }

  /** The rows after the one the cursor leaves. */
  function RowsFrom(row: nat, p: nat, parse: nat, h: nat): seq<nat>
    requires parse <= 3
  {
    Progression(row, Pow2(p), h) + Later(parse, h)
  }

  lemma NoRowsLeft(row: nat, p: nat, h: nat)
    requires row >= h
    ensures RowsFrom(row, p, 0, h) == []
    ensures Progression(row, Pow2(p), h) == []
  {
  }

  lemma NextPass(row: nat, p: nat, parse: nat, h: nat)
    requires row >= h && 0 < parse <= 3
    ensures RowsFrom(row, p, parse, h) == RowsFrom(Pow2(parse - 1), parse, parse - 1, h)
  {
    NoRowsLeft(row, p, h);
    assert Pow2(1) == 2 && Pow2(2) == 4 && Pow2(3) == 8;
    assert [] + Later(parse, h) == Later(parse, h);
  }

  lemma RowDone(row: nat, p: nat, parse: nat, h: nat)
    requires row < h && parse <= 3
    ensures RowsFrom(row, p, parse, h) == [row] + RowsFrom(row + Pow2(p), p, parse, h)
  {
    hide Later;
    var u := Progression(row + Pow2(p), Pow2(p), h);
    assert ([row] + u) + Later(parse, h) == [row] + (u + Later(parse, h));
  }

  /** Byte offset of a row of the frame, its step, and the row and step they stand for. */
  ghost predicate OnRow(cur_y: nat, step: nat, line: nat, f: Frame, row: nat, p: nat)
  {
    cur_y == RowOff(line, f.y + row) && step == Shl(line, p)
  }

  lemma OnRowStep(cur_y: nat, step: nat, line: nat, f: Frame, row: nat, p: nat)
    requires OnRow(cur_y, step, line, f, row, p)
    ensures OnRow(cur_y + step, step, line, f, row + Pow2(p), p)
  {
    RowOffAdd(line, f.y + row, Pow2(p));
    RowOffPow(line, p);
  }

  lemma OnRowPass(line: nat, f: Frame, parse: nat)
    requires 0 < parse
    ensures OnRow(RowOff(line, f.y) + Shl(line, parse) / 2, Shl(line, parse), line, f, Pow2(parse - 1), parse)
  {
    assert Shl(line, parse) / 2 == Shl(line, parse - 1);
    RowOffAdd(line, f.y, Pow2(parse - 1));
    RowOffPow(line, parse - 1);
  }

  /** Below the frame by offset is below the frame by row. */
  lemma OnRowBelow(cur_y: nat, step: nat, line: nat, f: Frame, row: nat, p: nat)
    requires OnRow(cur_y, step, line, f, row, p) && line > 0
    ensures cur_y >= RowOff(line, f.y + f.h) <==> row >= f.h
  {
    if row < f.h {
      RowOffMono(line, f.y + row, f.y + f.h);
    } else if row > f.h {
      RowOffMono(line, f.y + f.h, f.y + row);
    }
  }

  /** The cursor leaves a row. */
  method NextRow(line: nat, start_y: nat, max_y: nat, y0: nat, step0: nat, parse0: nat,
                 ghost f: Frame, ghost row0: nat, ghost p0: nat)
    returns (cur_y: nat, step: nat, parse: nat, ghost row: nat, ghost p: nat)
    requires line > 0 && start_y == RowOff(line, f.y) && max_y == RowOff(line, f.y + f.h)
    requires parse0 <= 3 && OnRow(y0, step0, line, f, row0, p0) && row0 < f.h
    ensures parse <= 3 && OnRow(cur_y, step, line, f, row, p)
    ensures RowsFrom(row0, p0, parse0, f.h) == [row0] + RowsFrom(row, p, parse, f.h)
    ensures row >= f.h ==> RowsFrom(row, p, parse, f.h) == []
  {
    hide OnRow, RowOff, Shl, RowsFrom, Pow2;
    OnRowStep(y0, step0, line, f, row0, p0);
    RowDone(row0, p0, parse0, f.h);
    cur_y, step, parse, row, p := y0 + step0, step0, parse0, row0 + Pow2(p0), p0;
    OnRowBelow(cur_y, step, line, f, row, p);
    while cur_y >= max_y && parse > 0
      invariant parse <= 3 && OnRow(cur_y, step, line, f, row, p) && (cur_y >= max_y <==> row >= f.h)
      invariant RowsFrom(row0, p0, parse0, f.h) == [row0] + RowsFrom(row, p, parse, f.h)
      decreases parse
    {
      NextPass(row, p, parse, f.h);
      OnRowPass(line, f, parse);
      step := Shl(line, parse);
      cur_y := start_y + step / 2;
      row, p := Pow2(parse - 1), parse;
      parse := parse - 1;
      OnRowBelow(cur_y, step, line, f, row, p);
    }
    if row >= f.h {
      NoRowsLeft(row, p, f.h);
    }
  }

  // ---- the bits of the codes ----

  /** n data bytes are fetched, of which the last valid_bits bits are held and not yet used. */
  ghost predicate Feeding(s: seq<byte>, start: nat, pos: nat, len: nat, n: nat, bits: nat, valid_bits: nat)
  {
    var all := SubBlocks(s, start);
    && n <= |all.data| && valid_bits <= 8 * n
    && all.data[n..] == Rest(s, pos, len).data && all.next == Rest(s, pos, len).next
    && bits == Take(Unpack(all.data), 8 * n - valid_bits, valid_bits)
  }

  lemma FeedStart(s: seq<byte>, start: nat)
    ensures Feeding(s, start, start, 0, 0, 0, 0)
  {
    RestStarts(s, start);
    var all := SubBlocks(s, start);
    assert all.data[0..] == all.data;
  }

  lemma FeedBlock(s: seq<byte>, start: nat, pos: nat, n: nat, bits: nat, valid_bits: nat)
    requires Feeding(s, start, pos, 0, n, bits, valid_bits)
    ensures Get8(s, pos) > 0 ==> Feeding(s, start, pos + 1, Get8(s, pos), n, bits, valid_bits)
    ensures Get8(s, pos) == 0 ==> n == |SubBlocks(s, start).data| && pos + 1 == SubBlocks(s, start).next
  {
    hide Rest, SubBlocks, Take, Unpack;
    RestStarts(s, pos);
  }

  lemma FeedByte(s: seq<byte>, start: nat, pos: nat, len: nat, n: nat, bits: nat, valid_bits: nat)
    requires Feeding(s, start, pos, len, n, bits, valid_bits) && len > 0
    ensures n < |SubBlocks(s, start).data|
    ensures Feeding(s, start, pos + 1, len - 1, n + 1, Or(bits, Shl(Get8(s, pos), valid_bits)), valid_bits + 8)
  {
    hide Rest, SubBlocks, Take, Unpack, Or, Shl;
    var data := SubBlocks(s, start).data;
    RestNext(s, pos, len);
    assert data[n..][0] == data[n] && data[n..][1..] == data[n + 1..];
    AppendByte(data, Unpack(data), n, valid_bits, Get8(s, pos));
  }

  lemma FeedCode(s: seq<byte>, start: nat, pos: nat, len: nat, n: nat, bits: nat, valid_bits: nat, size: nat)
    requires Feeding(s, start, pos, len, n, bits, valid_bits) && size <= valid_bits
    ensures Low(bits, size) == Take(Unpack(SubBlocks(s, start).data), 8 * n - valid_bits, size)
    ensures Feeding(s, start, pos, len, n, Shr(bits, size), valid_bits - size)
  {
    hide Rest, SubBlocks, Take, Unpack, Low, Shr;
    TakeLowShr(Unpack(SubBlocks(s, start).data), 8 * n - valid_bits, size, valid_bits);
  }

  lemma FeedSkip(s: seq<byte>, start: nat, pos: nat, len: nat, n: nat, bits: nat, valid_bits: nat)
    requires Feeding(s, start, pos, len, n, bits, valid_bits)
    ensures SubBlocks(s, start).next == SubBlocks(s, pos + len).next
  {
    hide SubBlocks, Take, Unpack, Read;
  }

  /** Past the end code: the rest of the sub-blocks is skipped. */
  lemma NextIs(s: seq<byte>, pos: nat)
    ensures SubBlocks(s, pos).next == if Get8(s, pos) == 0 then pos + 1
      else SubBlocks(s, pos + 1 + Get8(s, pos) as int).next
    ensures Get8(s, pos) > 0 ==> pos < |s|
  {
    hide Read;
  }

  method SkipBlocks(s: seq<byte>, pos: nat, len0: nat) returns (next: nat)
    ensures next == SubBlocks(s, pos + len0).next
  {
    hide SubBlocks, Get8;
    next := pos + len0;
    NextIs(s, next);
    var len: nat := Get8(s, next);
    next := next + 1;
    while len > 0
      invariant next > 0 && len == Get8(s, next - 1) && SubBlocks(s, next - 1).next == SubBlocks(s, pos + len0).next
      invariant len == 0 ==> next == SubBlocks(s, pos + len0).next
      decreases if next <= |s| then |s| + 1 - next else 0
    {
      NextIs(s, next - 1);
      next := next + len;
      NextIs(s, next);
      len := Get8(s, next);
      next := next + 1;
    }
  }

  lemma DecodeEnds(bits: seq<bool>, pos: nat, st: Lzw)
    requires st.Valid() && pos + st.size > |bits|
    ensures Decode(bits, pos, st) == Decoded.Symbols([])
    ensures forall text :: Decode(bits, pos, st).Prepend(text) == Decoded.Symbols(text)
  {
    forall text ensures Decode(bits, pos, st).Prepend(text) == Decoded.Symbols(text) {
      assert text + [] == text;
    }
  }

  lemma DecodeCode(bits: seq<bool>, pos: nat, st: Lzw)
    requires st.Valid() && pos + st.size <= |bits|
    ensures Decode(bits, pos, st) == match OnCode(st, Take(bits, pos, st.size))
      case End => Decoded.Symbols([])
      case Reject => Failed
      case Emit(text, next) => (OnCodeIsValid(st, Take(bits, pos, st.size));
        Decode(bits, pos + st.size, next).Prepend(text))
    ensures OnCode(st, Take(bits, pos, st.size)).Emit? ==>
      OnCode(st, Take(bits, pos, st.size)).next.Valid() && OnCode(st, Take(bits, pos, st.size)).next.cs == st.cs
  {
    OnCodeIsValid(st, Take(bits, pos, st.size));
  }

  lemma ClearedIs(cs: nat)
    ensures Cleared(cs).cs == cs
  {
  }

  /** The symbols of a frame whose data starts with the root width. */
  ghost function RasterSymbols(s: seq<byte>, start: nat): Decoded
  {
    var cs := Get8(s, start);
    if cs > 12 then Failed
    else
      ClearedIsValid(cs);
      Decode(Unpack(SubBlocks(s, start + 1).data), 0, Cleared(cs).(needs_clear := true))
  }

  datatype Verdict = Go | Stop | Bad

  class Gif {
    var codes: array<Entry>
    var out: array<byte>
    var history: array<byte>
    var color_table: Table
    var parse: nat
    var step: nat
    var start_x: nat
    var start_y: nat
    var max_x: nat
    var max_y: nat
    var cur_x: nat
    var cur_y: nat
    var line_size: nat
    ghost var frame: Frame
    /** The cells the cursor will visit. */
    ghost var ahead: seq<Cell>
    ghost var col: nat
    ghost var row: nat
    ghost var p: nat

    ghost function Shown(): Canvas
      reads this, out, history
    {
      Canvas(out[..], history[..])
    }

    /** The buffers fit the screen, the limits are those of the frame. */
    ghost predicate Framed()
      reads this
    {
      && codes.Length == 8192 && out != history && out.Length == 4 * history.Length && frame.Valid()
      && history.Length == RowOff(frame.width, frame.height) && line_size == 4 * frame.width
      && start_x == 4 * frame.x && max_x == start_x + 4 * frame.w
      && start_y == RowOff(line_size, frame.y) && max_y == RowOff(line_size, frame.y + frame.h)
    }

    /** The cursor is at the first cell still to be visited, or at the bottom. */
    ghost predicate CursorOk()
      reads this
    {
      && parse <= 3
      && if frame.w == 0 then ahead == [] && cur_y == max_y
         else && col < frame.w && cur_x == 4 * (frame.x + col)
              && OnRow(cur_y, step, line_size, frame, row, p)
              && ahead == Visits(RowsFrom(row, p, parse, frame.h), col, frame.w)
              && (row >= frame.h ==> ahead == [])
    }

    ghost predicate Ready()
      reads this
    {
      Framed() && CursorOk() && frame.Holds(ahead)
    }

    lemma AtFirst()
      requires Ready()
      ensures cur_y >= max_y <==> ahead == []
      ensures ahead != [] ==> frame.w > 0 && row < frame.h && ahead[0] == Cell(col, row)
      ensures ahead != [] ==> cur_x + cur_y == 4 * frame.Spot(ahead[0]) && frame.Spot(ahead[0]) < history.Length
    {
      hide RowsFrom, Visits, Shl;
      if frame.w > 0 {
        OnRowBelow(cur_y, step, line_size, frame, row, p);
        if row < frame.h {
          RowDone(row, p, parse, frame.h);
          VisitsFirst(RowsFrom(row, p, parse, frame.h), col, frame.w);
          RowOffFour(frame.width, frame.y + row);
          SpotInside(frame, ahead[0]);
        }
      }
    }

    /** What is ahead behind the first cell. */
    lemma AheadNext()
      requires Ready() && ahead != []
      ensures frame.w > 0 && row < frame.h && frame.Holds(ahead[1..])
      ensures var rows := RowsFrom(row, p, parse, frame.h);
        rows != [] && ahead[1..] == if col + 1 < frame.w then Visits(rows, col + 1, frame.w)
          else Visits(rows[1..], 0, frame.w)
    {
      hide RowsFrom, Visits, Shl, OnRow, RowOff, Pow2;
      AtFirst();
      RowDone(row, p, parse, frame.h);
      VisitsFirst(RowsFrom(row, p, parse, frame.h), col, frame.w);
      assert forall i :: 0 <= i < |ahead| - 1 ==> ahead[1..][i] == ahead[i + 1];
    }

    /** The move after a pixel. */
    method Advance()
      requires Ready() && ahead != []
      modifies this`cur_x, this`cur_y, this`step, this`parse, this`ahead, this`col, this`row, this`p
      ensures Ready() && ahead == old(ahead)[1..]
    {
      hide RowsFrom, Visits, Shl, OnRow, RowOff, Pow2, Frame.Holds;
      AheadNext();
      ahead := ahead[1..];
      cur_x := cur_x + 4;
      if cur_x >= max_x {
        ghost var rows := RowsFrom(row, p, parse, frame.h);
        cur_x := start_x;
        cur_y, step, parse, row, p := NextRow(line_size, start_y, max_y, cur_y, step, parse, frame, row, p);
        col := 0;
        assert rows[1..] == RowsFrom(row, p, parse, frame.h);
        if row >= frame.h {
          NoVisits(0, frame.w);
        }
      } else {
        col := col + 1;
      }
    }

    /** The pixel at the cursor. */
    method Store(ghost q: nat, at: nat, c: seq<byte>)
      requires Framed() && |c| == 4 && at == 4 * q && q < history.Length
      modifies out, history
      ensures Shown() == Put(old(Shown()), q, c)
    {
      history[at / 4] := 1;
      if c[3] > 128 {
        out[at] := c[2];
        out[at + 1] := c[1];
        out[at + 2] := c[0];
        out[at + 3] := c[3];
        assert out[at..at + 4] == [c[2], c[1], c[0], c[3]];
        assert out[..] == out[..at] + out[at..at + 4] + out[at + 4..];
        assert out[..at] == old(out[..])[..at] && out[at + 4..] == old(out[..])[at + 4..];
      }
    }

    /** The part of stbi__out_gif_code behind the recursion. */
    method PutPixel(symbol: byte)
      requires Ready() && Paintable(Shown(), frame, ahead)
      modifies this`cur_x, this`cur_y, this`step, this`parse, this`ahead, this`col, this`row, this`p, out, history
      ensures Ready() && ahead == Drop(old(ahead), 1)
      ensures Shown() == Paint(old(Shown()), frame, old(ahead), color_table, [symbol])
    {
      hide CursorOk, Put, Colour, Frame.Spot, Visits, RowsFrom;
      AtFirst();
      OnePainted(Shown(), frame, ahead, color_table, symbol);
      if cur_y >= max_y {
        return;
      }
      Store(frame.Spot(ahead[0]), cur_x + cur_y, Colour(color_table, symbol));
      Advance();
    }

    /** stbi__out_gif_code: the string of a code, first symbol first. */
    method OutCode(code: nat, ghost cs: nat, ghost dict: seq<seq<byte>>)
      requires Ready() && Paintable(Shown(), frame, ahead)
      requires Represents(cs, codes[..], dict) && Live(cs, |dict|, code)
      modifies this`cur_x, this`cur_y, this`step, this`parse, this`ahead, this`col, this`row, this`p, out, history
      ensures Ready() && Paintable(Shown(), frame, ahead) && ahead == Drop(old(ahead), |dict[code]|)
      ensures Shown() == Paint(old(Shown()), frame, old(ahead), color_table, dict[code])
      decreases code
    {
      hide CursorOk, Paint, Frame.Spot, Visits, RowsFrom, Framed, Ready, Pow2;
      ReadyFacts();
      assert Spells(cs, codes[..], dict, code);
      var e := codes[code];
      if e.prefix >= 0 {
        OutCode(e.prefix, cs, dict);
        PaintAppend(old(Shown()), frame, old(ahead), color_table, dict[e.prefix], [e.suffix]);
        ReadyFacts();
      } else {
        PaintNone(Shown(), frame, ahead, color_table);
      }
      PutPixel(e.suffix);
      ReadyFacts();
    }

    /** The entry for the string before the present code, followed by that code's first symbol. */
    method AddEntry(code: nat, avail: nat, oldcode: nat, ghost st: Lzw)
      requires Tracks(st, st.size, avail, oldcode, false, codes[..]) && !st.needs_clear
      requires avail < 8192 && code <= avail && (code == avail || Live(st.cs, avail, code))
      modifies codes
      ensures st.prior.Some? && Live(st.cs, avail, oldcode)
      ensures Represents(st.cs, codes[..], st.dict + [st.dict[oldcode] + [LastSymbol(st, code)]])
    {
      hide Pow2, Initial;
      ghost var was := codes[..];
      assert Spells(st.cs, was, st.dict, oldcode);
      codes[avail] := codes[avail].(prefix := oldcode);
      codes[avail] := codes[avail].(first := codes[oldcode].first);
      codes[avail] := codes[avail].(suffix := codes[if code == avail + 1 then avail else code].first);
      if code < avail {
        assert Spells(st.cs, was, st.dict, code);
      }
      RepresentsMore(st.cs, was, st.dict, oldcode, LastSymbol(st, code));
      assert codes[..] == was[avail := Entry(oldcode, was[oldcode].first, LastSymbol(st, code))];
    }

    /** One code: a new entry, then the code's string. */
    method TakeEntry(code: nat, avail: nat, oldcode: int, ghost st: Lzw) returns (ok: bool, avail': nat)
      requires Ready() && Paintable(Shown(), frame, ahead)
      requires Tracks(st, st.size, avail, oldcode, false, codes[..]) && !st.needs_clear
      requires code <= avail && code != Pow2(st.cs) && code != Pow2(st.cs) + 1
      modifies this`cur_x, this`cur_y, this`step, this`parse, this`ahead, this`col, this`row, this`p, out, history,
        codes
      ensures Ready() && Paintable(Shown(), frame, ahead)
      ensures ok <==> OnCode(st, code).Emit?
      ensures ok ==> Tracks(OnCode(st, code).next, Grow(avail', st.size), avail', code, false, codes[..])
      ensures ok ==> ahead == Drop(old(ahead), |OnCode(st, code).text|)
      ensures ok ==> Shown() == Paint(old(Shown()), frame, old(ahead), color_table, OnCode(st, code).text)
    {
      hide CursorOk, Framed, Pow2, Initial, Represents, Paint, Grow, Frame.Spot;
      avail' := avail;
      ReadyFacts();
      if oldcode >= 0 {
        if avail + 1 > 8192 {
          return false, avail;
        }
        AddEntry(code, avail, oldcode, st);
        avail' := avail + 1;
      } else if code == avail {
        return false, avail;
      }
      ghost var next := OnCode(st, code).next;
      OnCodeIsValid(st, code);
      OutCode(code, st.cs, next.dict);
      ok := true;
    }

    /** The loop body once a code is there. */
    method TakeCode(lzw_cs: nat, clear: nat, code: nat, codesize0: nat, avail0: nat, oldcode0: int, first0: bool,
                    ghost st: Lzw)
      returns (verdict: Verdict, codesize: nat, avail: nat, oldcode: int, first: bool)
      requires Ready() && Paintable(Shown(), frame, ahead) && lzw_cs == st.cs && clear == Pow2(st.cs)
      requires Tracks(st, codesize0, avail0, oldcode0, first0, codes[..])
      modifies this`cur_x, this`cur_y, this`step, this`parse, this`ahead, this`col, this`row, this`p, out, history,
        codes
      ensures Ready() && Paintable(Shown(), frame, ahead)
      ensures match OnCode(st, code)
        case End => verdict == Stop && Shown() == old(Shown())
        case Reject => verdict == Bad
        case Emit(text, next) =>
          && verdict == Go && Tracks(next, codesize, avail, oldcode, first, codes[..])
          && Shown() == Paint(old(Shown()), frame, old(ahead), color_table, text) && ahead == Drop(old(ahead), |text|)
    {
      hide CursorOk, Framed, Pow2, Initial, Represents, Paint, Frame.Spot, Tracks, Ready;
      codesize, avail, oldcode, first := codesize0, avail0, oldcode0, first0;
      TracksFacts(st, codesize, avail, oldcode, first, codes[..]);
      if code == clear {
        TracksCleared(st, codesize, avail, oldcode, first, codes[..]);
        ReadyFacts();
        PaintNone(Shown(), frame, ahead, color_table);
        codesize, avail, oldcode, first := lzw_cs + 1, clear + 2, -1, false;
        verdict := Go;
      } else if code == clear + 1 {
        verdict := Stop;
      } else if code <= avail && !first {
        var ok;
        ok, avail := TakeEntry(code, avail, oldcode, st);
        if !ok {
          return Bad, codesize, avail, oldcode, first;
        }
        if Low(avail, codesize) == 0 && avail <= 0x0FFF {
          codesize := codesize + 1;
        }
        oldcode := code;
        verdict := Go;
      } else {
        verdict := Bad;
      }
    }

    method InitRoots(clear: nat)
      requires clear <= codes.Length
      modifies codes
      ensures forall i :: 0 <= i < clear ==> codes[i] == Entry(-1, i % 256, i % 256)
    {
      for init_code := 0 to clear
        invariant forall i :: 0 <= i < init_code ==> codes[i] == Entry(-1, i % 256, i % 256)
      {
        codes[init_code] := Entry(-1, init_code % 256, init_code % 256);
      }
    }

    /** What was drawn since the canvas was cv and the cells were cells. */
    ghost predicate Drawn(cv: Canvas, cells: seq<Cell>, text: seq<byte>)
      requires Paintable(cv, frame, cells)
      reads this, out, history
    {
      && Ready() && Paintable(Shown(), frame, ahead) && ahead == Drop(cells, |text|)
      && Shown() == Paint(cv, frame, cells, color_table, text)
    }

    lemma DrawnMore(cv: Canvas, cells: seq<Cell>, text: seq<byte>, more: seq<byte>, shown: Canvas, left: seq<Cell>)
      requires Paintable(cv, frame, cells) && Paintable(shown, frame, left)
      requires left == Drop(cells, |text|) && shown == Paint(cv, frame, cells, color_table, text)
      requires Ready() && Paintable(Shown(), frame, ahead) && ahead == Drop(left, |more|)
      requires Shown() == Paint(shown, frame, left, color_table, more)
      ensures Drawn(cv, cells, text + more)
    {
      hide CursorOk, Framed, Paint, Frame.Spot;
      PaintAppend(cv, frame, cells, color_table, text, more);
    }

    /** One code, in the course of drawing. */
    method DrawCode(lzw_cs: nat, clear: nat, code: nat, codesize0: nat, avail0: nat, oldcode0: int, first0: bool,
                    ghost st: Lzw, ghost cv: Canvas, ghost cells: seq<Cell>, ghost text: seq<byte>)
      returns (verdict: Verdict, codesize: nat, avail: nat, oldcode: int, first: bool)
      requires Paintable(cv, frame, cells) && Drawn(cv, cells, text) && lzw_cs == st.cs && clear == Pow2(st.cs)
      requires Tracks(st, codesize0, avail0, oldcode0, first0, codes[..])
      modifies this`cur_x, this`cur_y, this`step, this`parse, this`ahead, this`col, this`row, this`p, out, history,
        codes
      ensures match OnCode(st, code)
        case End => verdict == Stop && Shown() == old(Shown())
        case Reject => verdict == Bad
        case Emit(more, next) =>
          verdict == Go && Tracks(next, codesize, avail, oldcode, first, codes[..]) && Drawn(cv, cells, text + more)
    {
      hide CursorOk, Framed, Pow2, Represents, Paint, Tracks, Ready, OnCode, Frame.Holds;
      ghost var shown, left := Shown(), ahead;
      TracksFacts(st, codesize0, avail0, oldcode0, first0, codes[..]);
      verdict, codesize, avail, oldcode, first :=
        TakeCode(lzw_cs, clear, code, codesize0, avail0, oldcode0, first0, st);
      if verdict == Go {
        DrawnMore(cv, cells, text, OnCode(st, code).text, shown, left);
      }
    }

    /** The codes of a frame whose roots are set up. */
    method DrawCodes(s: seq<byte>, start: nat, lzw_cs: nat, clear: nat, ghost st0: Lzw) returns (ok: bool, pos: nat)
      requires Ready() && Paintable(Shown(), frame, ahead) && lzw_cs == st0.cs && clear == Pow2(st0.cs)
      requires Tracks(st0, lzw_cs + 1, clear + 2, -1, true, codes[..]) && st0.Valid()
      modifies this`cur_x, this`cur_y, this`step, this`parse, this`ahead, this`col, this`row, this`p, out, history,
        codes
      ensures var r := Decode(Unpack(SubBlocks(s, start).data), 0, st0);
        && (ok <==> r.Symbols?)
        && (ok ==>
          pos == SubBlocks(s, start).next && Shown() == Paint(old(Shown()), frame, old(ahead), color_table, r.text))
    {
      hide CursorOk, Framed, Pow2, Tracks, Ready, Drawn, Decode, OnCode, Lzw.Valid, Paint, Paintable,
        SubBlocks, Low, Shr, Or, Take, Shl, Get8, Feeding;
      ghost var cv, cells, text: seq<byte>, st := Shown(), ahead, [], st0;
      ghost var stream := Unpack(SubBlocks(s, start).data);
      ghost var whole := Decode(stream, 0, st0);
      ghost var n: nat := 0;
      var codesize: nat, avail: nat, oldcode: int, first := lzw_cs + 1, clear + 2, -1, true;
      var bits: nat, valid_bits: nat, len: nat := 0, 0, 0;
      pos := start;
      FeedStart(s, start);
      DrawnNone();
      assert whole.Prepend([]) == whole;
      while true
        invariant Paintable(cv, frame, cells) && Drawn(cv, cells, text) && st.cs == lzw_cs && st.Valid()
        invariant Tracks(st, codesize, avail, oldcode, first, codes[..])
        invariant Feeding(s, start, pos, len, n, bits, valid_bits) && valid_bits <= 8 * n <= |stream|
        invariant Decode(stream, 8 * n - valid_bits, st).Prepend(text) == whole
        decreases |stream| - 8 * n, valid_bits
      {
        TracksFacts(st, codesize, avail, oldcode, first, codes[..]);
        if valid_bits < codesize {
          if len == 0 {
            len := Get8(s, pos);
            FeedBlock(s, start, pos, n, bits, valid_bits);
            pos := pos + 1;
            if len == 0 {
              DecodeEnds(stream, 8 * n - valid_bits, st);
              DrawnAll(cv, cells, text);
              return true, pos;
            }
          }
          FeedByte(s, start, pos, len, n, bits, valid_bits);
          len := len - 1;
          bits := Or(bits, Shl(Get8(s, pos), valid_bits));
          pos := pos + 1;
          valid_bits := valid_bits + 8;
          n := n + 1;
        } else {
          var code := Low(bits, codesize);
          FeedCode(s, start, pos, len, n, bits, valid_bits, codesize);
          DecodeCode(stream, 8 * n - valid_bits, st);
          bits := Shr(bits, codesize);
          valid_bits := valid_bits - codesize;
          var verdict;
          ghost var action := OnCode(st, code);
          DrawnAll(cv, cells, text);
          verdict, codesize, avail, oldcode, first :=
            DrawCode(lzw_cs, clear, code, codesize, avail, oldcode, first, st, cv, cells, text);
          match verdict
          case Go =>
            PrependTwice(Decode(stream, 8 * n - valid_bits, action.next), text, action.text);
            text := text + action.text;
            st := action.next;
          case Stop =>
            assert text + [] == text;
            FeedSkip(s, start, pos, len, n, bits, valid_bits);
            pos := SkipBlocks(s, pos, len);
            return true, pos;
          case Bad =>
            return false, pos;
        }
      }
    }

    lemma DrawnNone()
      requires Ready() && Paintable(Shown(), frame, ahead)
      ensures Drawn(Shown(), ahead, [])
    {
      PaintNone(Shown(), frame, ahead, color_table);
    }

    lemma DrawnAll(cv: Canvas, cells: seq<Cell>, text: seq<byte>)
      requires Paintable(cv, frame, cells) && Drawn(cv, cells, text)
      ensures Shown() == Paint(cv, frame, cells, color_table, text)
    {
    }

    /** stbi__process_gif_raster */
    method ProcessRaster(s: seq<byte>, start: nat) returns (ok: bool, pos: nat)
      requires Ready() && Paintable(Shown(), frame, ahead)
      modifies this`cur_x, this`cur_y, this`step, this`parse, this`ahead, this`col, this`row, this`p, out, history,
        codes
      ensures ok <==> RasterSymbols(s, start).Symbols?
      ensures ok ==> pos == SubBlocks(s, start + 1).next
      ensures ok ==> Shown() == Paint(old(Shown()), frame, old(ahead), color_table, RasterSymbols(s, start).text)
    {
      hide CursorOk, Framed, Pow2, Initial, Represents, Paint, Frame.Spot, Tracks, Ready, Decode,
        Paintable, SubBlocks, Get8, Cleared;
      var lzw_cs := Get8(s, start);
      pos := start + 1;
      if lzw_cs > 12 {
        return false, pos;
      }
      var clear := Shl(1, lzw_cs);
      ShlOne(lzw_cs);
      RootsFit(lzw_cs);
      ReadyFacts();
      InitRoots(clear);
      TracksRoots(lzw_cs, codes[..]);
      ClearedIsValid(lzw_cs);
      ClearedIs(lzw_cs);
      ok, pos := DrawCodes(s, start + 1, lzw_cs, clear, Cleared(lzw_cs).(needs_clear := true));
    }

    /** The limits of a frame that lies on the screen. */
    method SetLimits(f: Frame)
      requires codes.Length == 8192 && out != history && out.Length == 4 * history.Length && f.Valid()
      requires history.Length == RowOff(f.width, f.height)
      modifies this`frame, this`line_size, this`start_x, this`start_y, this`max_x, this`max_y
      ensures Framed() && frame == f
    {
      hide RowOff;
      frame := f;
      line_size := f.width * 4;
      RowOffIs(line_size, f.y);
      RowOffIs(line_size, f.y + f.h);
      MulAdd(line_size, f.y, f.h);
      start_x := f.x * 4;
      start_y := f.y * line_size;
      max_x := start_x + f.w * 4;
      max_y := start_y + f.h * line_size;
    }

    method PutCursor(w: nat, interlaced: bool)
      modifies this`cur_x, this`cur_y, this`step, this`parse, this`ahead, this`col, this`row, this`p
      ensures cur_x == start_x && cur_y == (if w == 0 then max_y else start_y) && col == row == 0
      ensures step == (if interlaced then 8 * line_size else line_size) && parse == p == (if interlaced then 3 else 0)
      ensures ahead == FrameCells(frame.w, frame.h, frame.interlaced)
    {
      hide FrameCells;
      ahead, col, row := FrameCells(frame.w, frame.h, frame.interlaced), 0, 0;
      cur_x := start_x;
      cur_y := start_y;
      if w == 0 {
        cur_y := max_y;
      }
      if interlaced {
        step, parse, p := 8 * line_size, 3, 3;
      } else {
        step, parse, p := line_size, 0, 0;
      }
    }

    /** The cursor at the first pixel of the frame, or below it when the frame has no columns. */
    method SetCursor(w: nat, interlaced: bool)
      requires Framed() && w == frame.w && interlaced == frame.interlaced
      modifies this`cur_x, this`cur_y, this`step, this`parse, this`ahead, this`col, this`row, this`p
      ensures Framed() && CursorOk() && ahead == FrameCells(frame.w, frame.h, frame.interlaced)
    {
      hide Visits, RowOff, RowsFrom, FrameCells, Shl, OnRow, Frame.Holds, Frame.Valid;
      CursorStarts(line_size, frame);
      FrameFacts();
      PutCursor(w, interlaced);
    }

    /** The image descriptor: the frame has to lie on the screen. */
    method BeginFrame(width: nat, height: nat, x: nat, y: nat, w: nat, h: nat, lflags: byte) returns (ok: bool)
      requires codes.Length == 8192 && out != history && out.Length == 4 * history.Length
      requires history.Length == RowOff(width, height)
      modifies this
      ensures out == old(out) && history == old(history) && codes == old(codes) && color_table == old(color_table)
      ensures ok <==> x + w <= width && y + h <= height
      ensures ok ==> Ready() && frame == Frame(width, height, x, y, w, h, lflags / 0x40 % 2 == 1)
      ensures ok ==> ahead == FrameCells(w, h, frame.interlaced)
    {
      hide FrameCells, CursorOk, Framed, Distinct, Frame.Holds;
      if x + w > width || y + h > height {
        return false;
      }
      SetLimits(Frame(width, height, x, y, w, h, lflags / 0x40 % 2 == 1));
      SetCursor(w, lflags / 0x40 % 2 == 1);
      FrameCellsFit(frame);
      ok := true;
    }

    /**
      A frame from its descriptor fields and its raster data: the plain LZW symbols painted
      over the cells of the frame, each cell once, until one of the two runs out.
    */
    method DrawFrame(s: seq<byte>, start: nat, width: nat, height: nat, x: nat, y: nat, w: nat, h: nat, lflags: byte)
      returns (ok: bool, pos: nat)
      requires codes.Length == 8192 && out != history && out.Length == 4 * history.Length
      requires history.Length == RowOff(width, height)
      modifies this, out, history, codes
      ensures ok <==> x + w <= width && y + h <= height && RasterSymbols(s, start).Symbols?
      ensures ok ==>
        var f := Frame(width, height, x, y, w, h, lflags / 0x40 % 2 == 1);
        && out == old(out) && history == old(history) && color_table == old(color_table)
        && pos == SubBlocks(s, start + 1).next
        && Paintable(old(Shown()), f, FrameCells(w, h, f.interlaced))
        && Shown() == Paint(old(Shown()), f, FrameCells(w, h, f.interlaced), color_table, RasterSymbols(s, start).text)
    {
      hide CursorOk, Framed, FrameCells, Frame.Holds, Paint, RasterSymbols, SubBlocks;
      pos := start;
      ok := BeginFrame(width, height, x, y, w, h, lflags);
      if ok {
        ReadyFacts();
        ok, pos := ProcessRaster(s, start);
      }
    }

    lemma FrameFacts()
      requires Framed()
      ensures start_x == 4 * frame.x && start_y == RowOff(line_size, frame.y)
    {
    }

    lemma ReadyFacts()
      requires Ready()
      ensures codes.Length == 8192 && frame.Holds(ahead) && frame.Valid() && out.Length == 4 * history.Length
      ensures history.Length == RowOff(frame.width, frame.height)
    {
    }
  }

  lemma OnePainted(cv: Canvas, f: Frame, cells: seq<Cell>, table: Table, symbol: byte)
    requires Paintable(cv, f, cells)
    ensures cells == [] ==> Paint(cv, f, cells, table, [symbol]) == cv
    ensures cells != [] ==> f.Spot(cells[0]) < |cv.history|
    ensures cells != [] ==> Paint(cv, f, cells, table, [symbol]) == Put(cv, f.Spot(cells[0]), Colour(table, symbol))
  {
    if cells != [] {
      SpotInside(f, cells[0]);
      var cv' := Put(cv, f.Spot(cells[0]), Colour(table, symbol));
      assert Paint(cv', f, cells[1..], table, []) == cv';
    }
  }

  lemma TracksFacts(st: Lzw, codesize: nat, avail: nat, oldcode: int, first: bool, codes: seq<Entry>)
    requires Tracks(st, codesize, avail, oldcode, first, codes)
    ensures st.Valid() && codesize == st.size && avail == |st.dict| && first == st.needs_clear
  {
  }

  lemma PaintNone(cv: Canvas, f: Frame, cells: seq<Cell>, table: Table)
    requires Paintable(cv, f, cells)
    ensures Paint(cv, f, cells, table, []) == cv && Drop(cells, 0) == cells
  {
  }

  /** Symbol k of a frame ends up at its k-th cell, whatever else is painted. */
  lemma FrameShows(cv: Canvas, f: Frame, table: Table, text: seq<byte>, k: nat)
    requires Paintable(cv, f, FrameCells(f.w, f.h, f.interlaced))
    requires k < |FrameCells(f.w, f.h, f.interlaced)| && k < |text|
    ensures var cells := FrameCells(f.w, f.h, f.interlaced);
      var s: nat, r, q := text[k], Paint(cv, f, cells, table, text), f.Spot(cells[k]);
      && q < |cv.history| && r.history[q] == 1
      && r.Pixel(q) == if table[4 * s + 3] > 128
           then [table[4 * s + 2], table[4 * s + 1], table[4 * s], table[4 * s + 3]] else cv.Pixel(q)
  {
    hide FrameCells, Paint, Distinct, Frame.Holds, Frame.Spot, Colour;
    FrameCellsFit(f);
    PaintHit(cv, f, FrameCells(f.w, f.h, f.interlaced), table, text, k);
  }

  lemma MulAdd(a: nat, b: nat, c: nat)
    ensures a * (b + c) == b * a + c * a
  {
  }

  lemma CursorStarts(line: nat, f: Frame)
    ensures var p := if f.interlaced then 3 else 0;
      && OnRow(RowOff(line, f.y), if f.interlaced then 8 * line else line, line, f, 0, p)
      && (f.w > 0 ==> FrameCells(f.w, f.h, f.interlaced) == Visits(RowsFrom(0, p, p, f.h), 0, f.w))
    ensures f.w == 0 || f.h == 0 ==> FrameCells(f.w, f.h, f.interlaced) == []
  {
    hide RowOrder, RowsFrom, Visits, RowOff, Shl;
    FirstRows(line, f.h, f.interlaced);
    if f.w > 0 {
      NoVisits(0, f.w);
    }
  }

  lemma FirstRows(line: nat, h: nat, interlaced: bool)
    ensures Shl(line, 3) == 8 * line && Shl(line, 0) == line
    ensures RowOrder(h, interlaced) == if interlaced then RowsFrom(0, 3, 3, h) else RowsFrom(0, 0, 0, h)
    ensures h == 0 ==> RowOrder(h, interlaced) == []
  {
    assert Shl(line, 3) == 2 * Shl(line, 2) == 4 * Shl(line, 1);
    assert Pow2(3) == 8;
  }
}
