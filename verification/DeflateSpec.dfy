/**
  Literals and matches as bits in the fixed code of RFC 1951, section 3.2.6, and the
  theorem that the plain decoder turns those bits back into the bytes they stand for.
*/
module DeflateSpec {
  import opened Bits
  import opened Canonical
  import opened Wrappers
  import opened InflateSpec

  datatype Item = Literal(b: byte) | Match(len: nat, dist: nat)

  /** A literal byte or a match; lengths and distances are those the format can express. */
  type Token = t: Item | t.Match? ==> 3 <= t.len <= 258 && 1 <= t.dist <= 32767 witness Literal(0)

  /** No match reaches back beyond the output it is appended to. */
  predicate Playable(ts: seq<Token>, n: nat)
  {
    ts == [] || (
      (ts[0].Match? ==> ts[0].dist <= n)
      && Playable(ts[1..], n + if ts[0].Match? then ts[0].len else 1))
  }

  function Play(t: Token, out: seq<byte>): seq<byte>
    requires t.Match? ==> t.dist <= |out|
  {
    match t
    case Literal(b) => out + [b]
    case Match(len, dist) => CopyMatch(out, dist, len)
  }

  /** What a token list stands for, appended to out. */
  function PlayAll(ts: seq<Token>, out: seq<byte>): seq<byte>
    requires Playable(ts, |out|)
  {
    if ts == [] then out else PlayAll(ts[1..], Play(ts[0], out))
  }

  // ---- the fixed code ----

  function FixedCode(n: nat): nat
  {
    if n <= 143 then 0x30 + n
    else if n <= 255 then 0x190 + (n - 144)
    else if n <= 279 then n - 256
    else 0xC0 + (n - 280)
  }

  /** A code word, first bit of the code first. */
  function CodeBits(code: nat, n: nat): (s: seq<bool>)
    ensures |s| == n
  {
    BitsOf(Reverse(code, n), n)
  }

  function SymbolBits(n: nat): seq<bool> { CodeBits(FixedCode(n), FixedLength(n)) }

  /** The end of the range of length symbol j. */
  function LengthEnd(j: nat): nat { if j == 28 then 259 else LengthBase(j + 1) }

  function DistEnd(j: nat): nat { if j == 29 then 32768 else DistBase(j + 1) }

  function LengthSymbol(len: nat, j: nat): (k: nat)
    requires len <= 258 && j <= 28 && LengthBase(j) <= len
    ensures j <= k <= 28 && LengthBase(k) <= len < LengthEnd(k)
    decreases 28 - j, len
  {
    if len > LengthEnd(j) - 1 then LengthSymbol(len, j + 1) else j
  }

  function DistSymbol(dist: nat, j: nat): (k: nat)
    requires dist <= 32767 && j <= 29 && DistBase(j) <= dist
    ensures j <= k <= 29 && DistBase(k) <= dist < DistEnd(k)
    decreases 29 - j, dist
  {
    if dist > DistEnd(j) - 1 then DistSymbol(dist, j + 1) else j
  }

  function SymbolOfLength(len: nat): (j: nat)
    requires 3 <= len <= 258
    ensures j <= 28 && LengthBase(j) <= len < LengthEnd(j)
  {
    LengthSymbol(len, 0)
  }

  function SymbolOfDist(dist: nat): (j: nat)
    requires 1 <= dist <= 32767
    ensures j <= 29 && DistBase(j) <= dist < DistEnd(j)
  {
    DistSymbol(dist, 0)
  }

  function LengthBits(len: nat): seq<bool>
    requires 3 <= len <= 258
  {
    var j := SymbolOfLength(len);
    SymbolBits(257 + j) + BitsOf(len - LengthBase(j), LengthExtra(j))
  }

  function DistBits(dist: nat): seq<bool>
    requires 1 <= dist <= 32767
  {
    var j := SymbolOfDist(dist);
    CodeBits(j, 5) + BitsOf(dist - DistBase(j), DistExtra(j))
  }

  function TokenBits(t: Token): seq<bool>
  {
    match t
    case Literal(b) => SymbolBits(b)
    case Match(len, dist) => LengthBits(len) + DistBits(dist)
  }

  function TokensBits(ts: seq<Token>): seq<bool>
  {
    if ts == [] then [] else TokenBits(ts[0]) + TokensBits(ts[1..])
  }

  // ---- appending tokens ----

  lemma {:induction false} PlayAppend(ts: seq<Token>, t: Token, out: seq<byte>)
    requires Playable(ts, |out|)
    requires t.Match? ==> t.dist <= |PlayAll(ts, out)|
    ensures Playable(ts + [t], |out|)
    ensures PlayAll(ts + [t], out) == Play(t, PlayAll(ts, out))
  {
    if ts == [] {
      assert ts + [t] == [t] && [t][1..] == [];
    } else {
      PlayAppend(ts[1..], t, Play(ts[0], out));
      assert (ts + [t])[1..] == ts[1..] + [t];
    }
  }

  lemma {:induction false} TokensBitsAppend(ts: seq<Token>, t: Token)
    ensures TokensBits(ts + [t]) == TokensBits(ts) + TokenBits(t)
  {
    hide TokenBits;
    if ts == [] {
      assert ts + [t] == [t] && [t][1..] == [];
    } else {
      TokensBitsAppend(ts[1..], t);
      assert (ts + [t])[1..] == ts[1..] + [t];
    }
  }

  // ---- size ----

  lemma TokenSize(t: Token)
    ensures |TokenBits(t)| <= 9 * if t.Match? then t.len else 1
  {
    hide CodeBits, LengthBase, DistBase, LengthEnd, DistEnd;
    if t.Match? {
      var j := SymbolOfLength(t.len);
      if t.len <= 10 {
        ShortLength(t.len, j);
      }
    }
  }

  lemma ShortLength(len: nat, j: nat)
    requires 3 <= len <= 10 && j <= 28 && LengthBase(j) <= len
    ensures j < 8
  {
    if j >= 8 {
      hide LengthBase;
      LengthBaseTable(j);
      assert false;
    }
  }

  /** No input grows by more than one bit per byte. */
  lemma {:induction false} TokensSize(ts: seq<Token>, out: seq<byte>)
    requires Playable(ts, |out|)
    ensures |TokensBits(ts)| + 9 * |out| <= 9 * |PlayAll(ts, out)|
    decreases ts
  {
    hide TokenBits;
    if ts != [] {
      TokenSize(ts[0]);
      TokensSize(ts[1..], Play(ts[0], out));
    }
  }

  // ---- the fixed code is the canonical code of its lengths ----

  lemma {:induction false} FixedCounts(n: nat)
    requires n <= 288
    ensures CountTo(FixedLit(), n, 7) == if n <= 256 then 0 else if n <= 280 then n - 256 else 24
    ensures CountTo(FixedLit(), n, 8) == if n <= 144 then n else if n <= 280 then 144 else n - 136
    ensures CountTo(FixedLit(), n, 9) == if n <= 144 then 0 else if n <= 256 then n - 144 else 112
    ensures forall s :: s < 7 ==> CountTo(FixedLit(), n, s) == 0
  {
    hide FixedLit;
    if n > 0 {
      FixedCounts(n - 1);
    }
  }

  lemma {:induction false} NoShortCodes(lens: seq<nat>, s: nat)
    requires 1 <= s && forall t :: 1 <= t < s ==> Count(lens, t) == 0
    ensures FirstCode(lens, s) == 0
  {
    if s > 1 {
      NoShortCodes(lens, s - 1);
    }
  }

  lemma FixedLitCode(n: nat)
    requires n < 288
    ensures Coded(FixedLit(), n) && Code(FixedLit(), n) == FixedCode(n)
  {
    hide FixedLit, CountTo;
    FixedCounts(288);
    FixedCounts(n);
    NoShortCodes(FixedLit(), 7);
  }

  lemma {:induction false} FixedDistCounts(n: nat)
    requires n <= 32
    ensures CountTo(FixedDist(), n, 5) == n
    ensures forall s :: s < 5 ==> CountTo(FixedDist(), n, s) == 0
  {
    hide FixedDist;
    if n > 0 {
      FixedDistCounts(n - 1);
    }
  }

  lemma FixedDistCode(d: nat)
    requires d < 32
    ensures Coded(FixedDist(), d) && Code(FixedDist(), d) == d
  {
    hide FixedDist, CountTo;
    FixedDistCounts(32);
    FixedDistCounts(d);
    NoShortCodes(FixedDist(), 5);
  }

  // ---- decoding ----

  /** A code word on the stream is decoded to its symbol. */
  lemma CodeDecodes(lens: seq<nat>, bits: seq<bool>, pos: nat, i: nat)
    requires ValidLengths(lens) && Coded(lens, i) && Code(lens, i) < Pow2(lens[i])
    requires At(bits, pos, CodeBits(Code(lens, i), lens[i]))
    ensures Decode(lens, bits, pos) == Some(i)
  {
    var s, c := lens[i], Code(lens, i);
    ReverseBound(c, s);
    TakeAt(bits, pos, Reverse(c, s), s);
    ReverseTake(bits, pos, s);
    ReverseTwice(c, s);
    DecodeIs(lens, bits, pos, i);
  }

  lemma FixedCodeBound(n: nat)
    requires n < 288
    ensures FixedCode(n) < Pow2(FixedLength(n))
  {
    assert Pow2(4) == 16;
    assert Pow2(7) == 128 && Pow2(8) == 256 && Pow2(9) == 512;
  }

  lemma SymbolDecodes(bits: seq<bool>, pos: nat, n: nat)
    requires n < 288 && At(bits, pos, SymbolBits(n))
    ensures Decode(FixedLit(), bits, pos) == Some(n) && FixedLit()[n] == FixedLength(n) == |SymbolBits(n)|
  {
    hide FixedLit, Code, Decode;
    FixedLitCode(n);
    FixedCodeBound(n);
    CodeDecodes(FixedLit(), bits, pos, n);
  }

  lemma ExtraDecodes(bits: seq<bool>, pos: nat, base: nat, v: nat, n: nat)
    requires v < Pow2(n) && At(bits, pos, BitsOf(v, n))
    ensures Extra(bits, pos, base, n) == base + v
  {
    TakeAt(bits, pos, v, n);
  }

  /** Every length of a symbol's range fits its extra bits. */
  lemma LengthRange(j: nat)
    requires j <= 28
    ensures LengthEnd(j) <= LengthBase(j) + Pow2(LengthExtra(j))
  {
    hide LengthBase, LengthExtra;
    LengthBaseTable(j);
    LengthBaseTable(j + 1);
    LengthExtraTable(j);
    assert Pow2(1) == 2 && Pow2(2) == 4 && Pow2(3) == 8 && Pow2(4) == 16 && Pow2(5) == 32;
  }

  lemma DistRange(j: nat)
    requires j <= 29
    ensures DistEnd(j) <= DistBase(j) + Pow2(DistExtra(j))
  {
    if j < 4 {
      hide DistBase;
      DistBaseTable(j);
      DistBaseTable(j + 1);
    } else if j == 29 {
      hide DistBase;
      DistBaseTable(29);
      assert Pow2(13) == 8192 by { assert Pow2(6) == 64; }
    } else {
      DistStep(j);
    }
  }

  lemma DistStep(j: nat)
    requires 4 <= j < 29
    ensures DistBase(j + 1) == DistBase(j) + Pow2(DistExtra(j))
  {
    hide Pow2, Shl;
    var q := j / 2 - 1;
    ShlOne(q);
    ShlAdd(2 + j % 2, 1, q);
    if j % 2 == 1 {
      assert j == 2 * (j / 2) + 1;
      assert (j + 1) / 2 - 1 == q + 1 && (j + 1) % 2 == 0;
      ShlShl(2, 1, q);
      ShlOfTwo();
    } else {
      assert j == 2 * (j / 2);
      assert (j + 1) / 2 - 1 == q && (j + 1) % 2 == 1;
    }
  }

  lemma ShlOfTwo()
    ensures Shl(2, 1) == 4
  {
    assert Shl(2, 0) == 2;
  }

  // ---- one token, then all of them ----

  lemma LengthDecodes(bits: seq<bool>, pos: nat, len: nat)
    requires 3 <= len <= 258 && At(bits, pos, LengthBits(len))
    ensures var j := SymbolOfLength(len); var n := FixedLength(257 + j);
      && Decode(FixedLit(), bits, pos) == Some(257 + j) && FixedLit()[257 + j] == n
      && Extra(bits, pos + n, LengthBase(j), LengthExtra(j)) == len
      && |LengthBits(len)| == n + LengthExtra(j)
  {
    hide At, BitsOf, SymbolBits, Decode, FixedLit, LengthBase, LengthExtra, FixedLength, LengthEnd, Extra,
      SymbolOfLength;
    LengthFieldDecodes(bits, pos, len, SymbolOfLength(len));
  }

  lemma LengthFieldDecodes(bits: seq<bool>, pos: nat, len: nat, j: nat)
    requires j <= 28 && LengthBase(j) <= len < LengthEnd(j)
    requires At(bits, pos, SymbolBits(257 + j) + BitsOf(len - LengthBase(j), LengthExtra(j)))
    ensures Decode(FixedLit(), bits, pos) == Some(257 + j)
    ensures FixedLit()[257 + j] == FixedLength(257 + j) == |SymbolBits(257 + j)|
    ensures Extra(bits, pos + FixedLength(257 + j), LengthBase(j), LengthExtra(j)) == len
  {
    hide At, BitsOf, SymbolBits, Decode, FixedLit, LengthBase, LengthExtra, FixedLength, LengthEnd, Extra;
    AtSplit(bits, pos, SymbolBits(257 + j), BitsOf(len - LengthBase(j), LengthExtra(j)));
    SymbolDecodes(bits, pos, 257 + j);
    LengthRange(j);
    ExtraDecodes(bits, pos + FixedLength(257 + j), LengthBase(j), len - LengthBase(j), LengthExtra(j));
  }

  lemma DistDecodes(bits: seq<bool>, pos: nat, dist: nat)
    requires 1 <= dist <= 32767 && At(bits, pos, DistBits(dist))
    ensures var j := SymbolOfDist(dist);
      DistanceAt(bits, pos, FixedDist()) == Some(Distance(j, dist, pos + |DistBits(dist)|))
  {
    hide At, BitsOf, CodeBits, DistanceAt, FixedDist, DistBase, DistExtra, DistEnd, SymbolOfDist;
    DistFieldDecodes(bits, pos, dist, SymbolOfDist(dist));
  }

  lemma DistFieldDecodes(bits: seq<bool>, pos: nat, dist: nat, j: nat)
    requires j <= 29 && DistBase(j) <= dist < DistEnd(j)
    requires At(bits, pos, CodeBits(j, 5) + BitsOf(dist - DistBase(j), DistExtra(j)))
    ensures DistanceAt(bits, pos, FixedDist()) == Some(Distance(j, dist, pos + 5 + DistExtra(j)))
  {
    hide At, BitsOf, CodeBits, Decode, FixedDist, Code, Extra, DistBase, DistExtra, DistEnd, Coded;
    AtSplit(bits, pos, CodeBits(j, 5), BitsOf(dist - DistBase(j), DistExtra(j)));
    FixedDistCode(j);
    Pow2Of5();
    CodeDecodes(FixedDist(), bits, pos, j);
    DistRange(j);
    ExtraDecodes(bits, pos + 5, DistBase(j), dist - DistBase(j), DistExtra(j));
  }

  lemma Pow2Of5()
    ensures Pow2(5) == 32
  {
    assert Pow2(2) == 4;
  }

  /** The decoder plays one encoded token. */
  lemma TokenDecodes(bits: seq<bool>, pos: nat, t: Token, out: seq<byte>)
    requires At(bits, pos, TokenBits(t)) && (t.Match? ==> t.dist <= |out|)
    ensures Step(bits, pos, out, FixedLit(), FixedDist(), None) == Next(Play(t, out), pos + |TokenBits(t)|)
  {
    hide SymbolBits, LengthBits, DistBits, Decode, DistanceAt, LengthBase, LengthExtra, FixedLength, CopyMatch;
    match t
    case Literal(b) => SymbolDecodes(bits, pos, b);
    case Match(len, dist) =>
      AtSplit(bits, pos, LengthBits(len), DistBits(dist));
      LengthDecodes(bits, pos, len);
      DistDecodes(bits, pos + |LengthBits(len)|, dist);
  }

  /** The decoder plays a block of encoded tokens up to its end-of-block symbol. */
  lemma {:induction false} TokensDecode(bits: seq<bool>, pos: nat, ts: seq<Token>, out: seq<byte>)
    requires Playable(ts, |out|) && At(bits, pos, TokensBits(ts) + SymbolBits(256))
    ensures Block(bits, pos, out, FixedLit(), FixedDist(), None)
         == Done(PlayAll(ts, out), pos + |TokensBits(ts)| + 7)
    decreases ts
  {
    hide SymbolBits, TokenBits, FixedLit, FixedDist, Decode, MatchStep, CopyMatch;
    if ts == [] {
      assert TokensBits(ts) + SymbolBits(256) == SymbolBits(256);
      SymbolDecodes(bits, pos, 256);
    } else {
      var u, v := TokenBits(ts[0]), TokensBits(ts[1..]) + SymbolBits(256);
      assert TokensBits(ts) + SymbolBits(256) == u + v;
      AtSplit(bits, pos, u, v);
      hide Step;
      TokenDecodes(bits, pos, ts[0], out);
      TokensDecode(bits, pos + |u|, ts[1..], Play(ts[0], out));
    }
  }

  /** The two zlib header bytes, BFINAL = 1 and BTYPE = 1. */
  function Prologue(): (s: seq<bool>)
    ensures |s| == 19
  {
    Unpack([0x78, 0x5E]) + BitsOf(1, 1) + BitsOf(1, 2)
  }

  lemma PrologueReads(bits: seq<bool>)
    requires At(bits, 0, Prologue())
    ensures ByteAt(bits, 0) == 0x78 && ByteAt(bits, 1) == 0x5E
    ensures Take(bits, 16, 1) == 1 && Take(bits, 17, 2) == 1
  {
    hide BitsOf, Take;
    var h: seq<byte> := [0x78, 0x5E];
    AtSplit(bits, 0, Unpack(h) + BitsOf(1, 1), BitsOf(1, 2));
    AtSplit(bits, 0, Unpack(h), BitsOf(1, 1));
    assert h == [h[0]] + [h[1]];
    UnpackAppend([h[0]], [h[1]]);
    UnpackOne(h[0]);
    UnpackOne(h[1]);
    AtSplit(bits, 0, BitsOf(h[0], 8), BitsOf(h[1], 8));
    Pow2Of8();
    assert Pow2(1) == 2 && Pow2(2) == 4;
    TakeAt(bits, 0, 0x78, 8);
    TakeAt(bits, 8, 0x5E, 8);
    TakeAt(bits, 16, 1, 1);
    TakeAt(bits, 17, 1, 2);
  }

  lemma HeaderBytesAreValid()
    ensures ZlibHeader(0x78, 0x5E)
  {
    assert And(0x5E, 32) == 2 * And(0x2F, 16) == 4 * And(0x17, 8) == 8 * And(0x0B, 4) == 16 * And(0x05, 2);
    assert And(0x78, 15) == 2 * And(0x3C, 7) == 4 * And(0x1E, 3) == 8 * And(0x0F, 1);
  }

  /** A stream made of the prologue, encoded tokens and an end-of-block symbol is inflated to what the tokens play. */
  lemma StreamDecodes(data: seq<byte>, ts: seq<Token>)
    requires Playable(ts, 0)
    requires At(Unpack(data), 0, Prologue() + (TokensBits(ts) + SymbolBits(256)))
    ensures Inflate(data, true, None) == Done(PlayAll(ts, []), 19 + |TokensBits(ts)| + 7)
  {
    hide Prologue, TokensBits, SymbolBits, Block, Take, ZlibHeader, ByteAt, FixedLit, FixedDist, Stored;
    var bits := Unpack(data);
    AtSplit(bits, 0, Prologue(), TokensBits(ts) + SymbolBits(256));
    PrologueReads(bits);
    HeaderBytesAreValid();
    TokensDecode(bits, 19, ts, []);
  }
}
