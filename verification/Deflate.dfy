/**
  stbi_zlib_compress: an LZ77 match finder over hash chains with lazy matching, a bit
  writer, and the fixed Huffman code.  The compressed bytes mean the input again.
*/
module Deflater {
  import opened Bits
  import opened Canonical
  import opened Wrappers
  import opened InflateSpec
  import opened DeflateSpec
  import opened AdlerChecksum

  /** stbiw__zlib_bitrev */
  method BitRev(code: nat, codebits: nat) returns (res: nat)
    ensures res == Reverse(code, codebits)
  {
    res := 0;
    var c, k := code, 0;
    while k < codebits
      invariant k <= codebits && c == Shr(code, k) && res == Reverse(code, k)
    {
      ReverseSplit(code, k, 1);
      ShrShr(code, k, 1);
      NextBit(res, c);
      res := Or(Shl(res, 1), And(c, 1));
      c := Shr(c, 1);
      k := k + 1;
    }
  }

  lemma NextBit(r: nat, c: nat)
    ensures Or(Shl(r, 1), And(c, 1)) == Shl(r, 1) + Reverse(c, 1)
  {
    assert And(c, 1) == c % 2 by { AndMask(c, 1); assert Low(c, 1) == c % 2 + 2 * Low(c / 2, 0); }
    OrDisjoint(c % 2, r, 1);
    assert Reverse(c, 1) == Shl(c % 2, 0) + Reverse(c / 2, 0);
  }

  predicate Agree(data: seq<byte>, a: nat, b: nat, n: nat)
  {
    a + n <= |data| && b + n <= |data| && data[a..a + n] == data[b..b + n]
  }

  lemma AgreeShorter(data: seq<byte>, a: nat, b: nat, m: nat, n: nat)
    requires Agree(data, a, b, n) && m <= n
    ensures Agree(data, a, b, m)
  {
    assert data[a..a + m] == data[a..a + n][..m] == data[b..b + n][..m] == data[b..b + m];
  }

  /** stbiw__zlib_countm: how far two places of the data agree, at most 258 and limit bytes. */
  method CountMatch(data: seq<byte>, a: nat, b: nat, limit: nat) returns (i: nat)
    requires a <= b && b + limit <= |data|
    ensures i <= limit && i <= 258 && Agree(data, a, b, i)
    ensures i < limit && i < 258 ==> !Agree(data, a, b, i + 1)
  {
    i := 0;
    while i < limit && i < 258
      invariant i <= limit && i <= 258 && data[a..a + i] == data[b..b + i]
    {
      if data[a + i] != data[b + i] {
        assert data[a..a + i + 1][i] != data[b..b + i + 1][i];
        break;
      }
      assert data[a..a + i + 1] == data[a..a + i] + [data[a + i]];
      assert data[b..b + i + 1] == data[b..b + i] + [data[b + i]];
      i := i + 1;
    }
  }

  /** stbiw__zhash in 32-bit arithmetic. */
  method Hash(data: seq<byte>, i: nat) returns (hash: nat)
    requires i + 3 <= |data|
    ensures hash < 0x1_0000_0000
  {
    hash := data[i] as int + Shl(data[i + 1], 8) + Shl(data[i + 2], 16);
    hash := Xor(hash, Shl(hash, 3) % 0x1_0000_0000);
    hash := (hash + Shr(hash, 5)) % 0x1_0000_0000;
    hash := Xor(hash, Shl(hash, 4) % 0x1_0000_0000);
    hash := (hash + Shr(hash, 17)) % 0x1_0000_0000;
    hash := Xor(hash, Shl(hash, 25) % 0x1_0000_0000);
    hash := (hash + Shr(hash, 6)) % 0x1_0000_0000;
  }

  const ZHASH := 16384

  method Bucket(data: seq<byte>, i: nat) returns (h: nat)
    requires i + 3 <= |data|
    ensures h < ZHASH
  {
    var hash := Hash(data, i);
    AndMask(hash, 14);
    LowBound(hash, 14);
    assert Pow2(14) == 16384 by { assert Pow2(7) == 128; }
    h := And(hash, ZHASH - 1);
  }

  /** The copy of an earlier, agreeing stretch of the data continues the data. */
  lemma {:induction false} CopyContinues(data: seq<byte>, p: nat, i: nat, n: nat)
    requires p < i && i + n <= |data| && data[p..p + n] == data[i..i + n]
    ensures CopyMatch(data[..i], i - p, n) == data[..i + n]
    decreases n
  {
    if n > 0 {
      assert data[p] == data[p..p + n][0] == data[i..i + n][0] == data[i];
      assert data[..i] + [data[p]] == data[..i + 1];
      assert data[p + 1..p + 1 + (n - 1)] == data[p..p + n][1..] == data[i..i + n][1..] == data[i + 1..i + 1 + (n - 1)];
      CopyContinues(data, p + 1, i + 1, n - 1);
    }
  }

  predicate Earlier(chain: seq<nat>, i: nat) { forall k :: 0 <= k < |chain| ==> chain[k] < i }

  /** No candidate inside the window agrees with place i on n bytes. */
  predicate NoneAgrees(data: seq<byte>, hlist: seq<nat>, i: nat, n: nat, window: nat)
  {
    forall k :: 0 <= k < |hlist| && hlist[k] > i - window ==> !Agree(data, hlist[k], i, n)
  }

  /** The choice after the first j candidates of a chain. */
  ghost predicate Chosen(data: seq<byte>, hlist: seq<nat>, j: nat, i: nat, best: nat, bestloc: Option<nat>)
    requires i <= |data| && j <= |hlist|
  {
    && best >= 3 && (bestloc.None? ==> best == 3)
    && (bestloc.Some? ==>
      && best <= 258 && i + best <= |data| && bestloc.value < i <= bestloc.value + 32767
      && data[bestloc.value..bestloc.value + best] == data[i..i + best]
      && (best < 258 ==> NoneAgrees(data, hlist[..j], i, best + 1, 32768)))
    && (bestloc.None? ==> NoneAgrees(data, hlist[..j], i, 3, 32768))
  }

  lemma NoneChosen(data: seq<byte>, hlist: seq<nat>, i: nat)
    requires i <= |data|
    ensures Chosen(data, hlist, 0, i, 3, None)
  {
  }

  /** Look at one candidate. */
  method TryCandidate(data: seq<byte>, hlist: seq<nat>, j: nat, i: nat, best0: nat, bestloc0: Option<nat>)
    returns (best: nat, bestloc: Option<nat>)
    requires i <= |data| && Earlier(hlist, i) && j < |hlist| && Chosen(data, hlist, j, i, best0, bestloc0)
    ensures Chosen(data, hlist, j + 1, i, best, bestloc)
  {
    best, bestloc := best0, bestloc0;
    assert hlist[..j + 1] == hlist[..j] + [hlist[j]];
    if hlist[j] > i - 32768 {
      var d := CountMatch(data, hlist[j], i, |data| - i);
      if d < 258 {
        CountedOut(data, hlist[j], i, d);
      }
      if d >= best {
        LongerToo(data, hlist[..j], i, if bestloc.Some? then best + 1 else 3, d + 1);
        best, bestloc := d, Some(hlist[j]);
      }
    }
  }

  /** A longest match of at least three bytes among the candidates inside the window. */
  method BestMatch(data: seq<byte>, hlist: seq<nat>, i: nat) returns (best: nat, bestloc: Option<nat>)
    requires i <= |data| && Earlier(hlist, i)
    ensures bestloc.Some? ==> 3 <= best <= 258 && i + best <= |data|
    ensures bestloc.Some? ==> bestloc.value < i <= bestloc.value + 32767
    ensures bestloc.Some? ==> data[bestloc.value..bestloc.value + best] == data[i..i + best]
    ensures bestloc.Some? && best < 258 ==> NoneAgrees(data, hlist, i, best + 1, 32768)
    ensures bestloc.None? ==> NoneAgrees(data, hlist, i, 3, 32768)
  {
    hide Chosen, NoneAgrees;
    best, bestloc := 3, None;
    NoneChosen(data, hlist, i);
    for j := 0 to |hlist|
      invariant Chosen(data, hlist, j, i, best, bestloc)
    {
      best, bestloc := TryCandidate(data, hlist, j, i, best, bestloc);
    }
    ChosenOfAll(data, hlist, i, best, bestloc);
  }

  lemma ChosenOfAll(data: seq<byte>, hlist: seq<nat>, i: nat, best: nat, bestloc: Option<nat>)
    requires i <= |data| && Chosen(data, hlist, |hlist|, i, best, bestloc)
    ensures bestloc.Some? ==> 3 <= best <= 258 && i + best <= |data|
    ensures bestloc.Some? ==> bestloc.value < i <= bestloc.value + 32767
    ensures bestloc.Some? ==> data[bestloc.value..bestloc.value + best] == data[i..i + best]
    ensures bestloc.Some? && best < 258 ==> NoneAgrees(data, hlist, i, best + 1, 32768)
    ensures bestloc.None? ==> NoneAgrees(data, hlist, i, 3, 32768)
  {
    hide NoneAgrees;
    assert hlist[..|hlist|] == hlist;
  }

  lemma CountedOut(data: seq<byte>, a: nat, i: nat, d: nat)
    requires d < 258 && i + d <= |data| && (i + d < |data| ==> !Agree(data, a, i, d + 1))
    ensures forall n :: n > d ==> !Agree(data, a, i, n)
  {
    forall n | n > d ensures !Agree(data, a, i, n) {
      if Agree(data, a, i, n) {
        AgreeShorter(data, a, i, d + 1, n);
      }
    }
  }

  lemma LongerToo(data: seq<byte>, hlist: seq<nat>, i: nat, m: nat, n: nat)
    requires m <= n
    ensures NoneAgrees(data, hlist, i, m, 32768) ==> NoneAgrees(data, hlist, i, n, 32768)
  {
    if NoneAgrees(data, hlist, i, m, 32768) {
      forall k | 0 <= k < |hlist| && hlist[k] > i - 32768 ensures !Agree(data, hlist[k], i, n) {
        if Agree(data, hlist[k], i, n) {
          AgreeShorter(data, hlist[k], i, m, n);
        }
      }
    }
  }

  /** Lazy matching: does some candidate in the window agree longer with the next place? */
  method BetterNext(data: seq<byte>, hlist: seq<nat>, i: nat, best: nat) returns (better: bool)
    requires i + 1 <= |data| && Earlier(hlist, i + 1)
    ensures better <==> best < 258 && !NoneAgrees(data, hlist, i + 1, best + 1, 32768)
  {
    for j := 0 to |hlist|
      invariant best < 258 ==> NoneAgrees(data, hlist[..j], i + 1, best + 1, 32768)
    {
      if hlist[j] > i - 32767 {
        var e := CountMatch(data, hlist[j], i + 1, |data| - i - 1);
        if e > best {
          AgreeShorter(data, hlist[j], i + 1, best + 1, e);
          return true;
        }
        if e < 258 {
          CountedOut(data, hlist[j], i + 1, e);
        }
      }
    }
    assert hlist[..|hlist|] == hlist;
    return false;
  }

  class ZlibWriter {
    var out: seq<byte>
    var bitbuf: nat
    var bitcount: nat

    ghost predicate Valid()
      reads this
    {
      bitcount < 8 && bitbuf < Pow2(bitcount)
    }

    /** Everything written so far, the bits not yet flushed included. */
    ghost function Written(): seq<bool>
      reads this
    {
      Unpack(out) + BitsOf(bitbuf, bitcount)
    }

    constructor ()
      ensures Valid() && out == [] && bitcount == 0 && Written() == []
    {
      out, bitbuf, bitcount := [], 0, 0;
    }

    lemma FlushStep(out: seq<byte>, buf: nat, n: nat)
      requires n >= 8
      ensures buf % 256 == Low(buf, 8) < 256
      ensures Unpack(out + [Low(buf, 8)]) + BitsOf(Shr(buf, 8), n - 8) == Unpack(out) + BitsOf(buf, n)
    {
      hide BitsOf, Unpack, Low, Shr;
      Low8(buf);
      BitsOfSplit(buf, 8, n - 8);
      BitsOfLow(buf, 8);
      UnpackAppend(out, [Low(buf, 8)]);
      UnpackOne(Low(buf, 8));
    }

    /** stbiw__zlib_flushf: move whole bytes to the output. */
    method Flush()
      requires bitbuf < Pow2(bitcount)
      modifies this
      ensures Valid() && Written() == old(Written())
      ensures old(out) <= out && (old(bitcount) < 8 ==> out == old(out))
      ensures |Written()| == 8 * |out| + bitcount
    {
      hide BitsOf, Unpack, Low;
      while bitcount >= 8
        invariant bitbuf < Pow2(bitcount) && Written() == old(Written())
        invariant old(out) <= out && (old(bitcount) < 8 ==> out == old(out))
      {
        FlushStep(out, bitbuf, bitcount);
        ShrPow2(bitbuf, 8, bitcount);
        out := out + [bitbuf % 256];
        bitbuf := Shr(bitbuf, 8);
        bitcount := bitcount - 8;
      }
    }

    /** stbiw__zlib_add: append a field, least significant bit first. */
    method Add(code: nat, codebits: nat)
      requires Valid() && code < Pow2(codebits)
      modifies this
      ensures Valid() && Written() == old(Written()) + BitsOf(code, codebits)
      ensures old(out) <= out
    {
      hide BitsOf, Unpack, Or, Shl;
      BitsOfAppend(bitbuf, bitcount, code, codebits);
      OrDisjoint(bitbuf, code, bitcount);
      FieldFits(bitbuf, bitcount, code, codebits);
      bitbuf := Or(bitbuf, Shl(code, bitcount));
      bitcount := bitcount + codebits;
      Flush();
    }

    /** stbiw__zlib_huffa: append a code word, first bit of the code first. */
    method AddCode(code: nat, codebits: nat)
      requires Valid()
      modifies this
      ensures Valid() && Written() == old(Written()) + CodeBits(code, codebits)
      ensures old(out) <= out
    {
      hide BitsOf, Unpack, Reverse;
      var r := BitRev(code, codebits);
      ReverseBound(code, codebits);
      Add(r, codebits);
    }

    /** stbiw__zlib_huff */
    method Symbol(n: nat)
      requires Valid() && n < 288
      modifies this
      ensures Valid() && Written() == old(Written()) + SymbolBits(n)
      ensures old(out) <= out
    {
      hide CodeBits, Unpack;
      if n <= 143 {
        AddCode(0x30 + n, 8);
      } else if n <= 255 {
        AddCode(0x190 + n - 144, 9);
      } else if n <= 279 {
        AddCode(0 + n - 256, 7);
      } else {
        AddCode(0xC0 + n - 280, 8);
      }
    }

    /** Zero bits up to the next byte boundary. */
    method Pad() returns (ghost pad: seq<bool>)
      requires Valid()
      modifies this
      ensures Valid() && bitcount == 0 && old(out) <= out
      ensures Written() == old(Written()) + pad == Unpack(out) && |pad| < 8
    {
      hide Unpack, BitsOf;
      pad := [];
      while bitcount != 0
        invariant if bitcount == 0 then |pad| < 8 else |pad| + old(bitcount) == bitcount
        invariant Valid() && old(out) <= out && Written() == old(Written()) + pad
        decreases (8 - bitcount) % 8
      {
        pad := pad + BitsOf(0, 1);
        Pow2Of8();
        Add(0, 1);
      }
    }

    /** The length symbol of a match and its extra bits. */
    method WriteLength(best: nat)
      requires Valid() && 3 <= best <= 258
      modifies this
      ensures Valid() && Written() == old(Written()) + LengthBits(best)
      ensures old(out) <= out
    {
      hide SymbolBits, Unpack, BitsOf, LengthBase, LengthExtra;
      LengthStart(best);
      var j := 0;
      while best > LengthEnd(j) - 1
        invariant j <= 28 && LengthBase(j) <= best && LengthSymbol(best, j) == SymbolOfLength(best)
        decreases 28 - j
      {
        j := j + 1;
      }
      ghost var w := Written();
      Symbol(j + 257);
      if LengthExtra(j) != 0 {
        LengthRange(j);
        Add(best - LengthBase(j), LengthExtra(j));
      } else {
        assert BitsOf(best - LengthBase(j), LengthExtra(j)) == [];
      }
      assert Written() == w + (SymbolBits(257 + j) + BitsOf(best - LengthBase(j), LengthExtra(j)));
    }

    /** The distance symbol of a match and its extra bits. */
    method WriteDist(d: nat)
      requires Valid() && 1 <= d <= 32767
      modifies this
      ensures Valid() && Written() == old(Written()) + DistBits(d)
      ensures old(out) <= out
    {
      hide CodeBits, Unpack, BitsOf, DistBase, DistExtra;
      DistStart(d);
      var j := 0;
      while d > DistEnd(j) - 1
        invariant j <= 29 && DistBase(j) <= d && DistSymbol(d, j) == SymbolOfDist(d)
        decreases 29 - j
      {
        j := j + 1;
      }
      ghost var w := Written();
      AddCode(j, 5);
      if DistExtra(j) != 0 {
        DistRange(j);
        Add(d - DistBase(j), DistExtra(j));
      } else {
        assert BitsOf(d - DistBase(j), DistExtra(j)) == [];
      }
      assert Written() == w + (CodeBits(j, 5) + BitsOf(d - DistBase(j), DistExtra(j)));
    }
  }

  lemma LengthStart(best: nat)
    requires 3 <= best <= 258
    ensures LengthBase(0) <= best && LengthSymbol(best, 0) == SymbolOfLength(best)
  {
  }

  lemma DistStart(d: nat)
    requires 1 <= d <= 32767
    ensures DistBase(0) <= d && DistSymbol(d, 0) == SymbolOfDist(d)
  {
  }

  lemma Low8(x: nat)
    ensures Low(x, 8) == x % 256 < 256
  {
    LowShr(x, 8);
    LowBound(x, 8);
    Pow2Of8();
    ShlOf8(Shr(x, 8));
  }

  lemma ShrPow2(x: nat, a: nat, n: nat)
    requires a <= n && x < Pow2(n)
    ensures Shr(x, a) < Pow2(n - a)
  {
    ShlOne(n);
    ShlOne(n - a);
    ShlShl(1, n - a, a);
    ShrBound(x, a, Pow2(n - a));
  }

  lemma FieldFits(x: nat, a: nat, y: nat, b: nat)
    requires x < Pow2(a) && y < Pow2(b)
    ensures x + Shl(y, a) < Pow2(a + b)
  {
    ShlLess(y, Pow2(b), a);
    ShlOne(b);
    ShlShl(1, b, a);
    ShlOne(a + b);
  }

  /** Every chain holds places before i, and never more than twice the quality of them. */
  ghost predicate Chains(table: seq<seq<nat>>, i: nat, quality: nat)
  {
    |table| == ZHASH && forall h :: 0 <= h < ZHASH ==> Earlier(table[h], i) && |table[h]| <= 2 * quality
  }

  lemma ChainsMono(table: seq<seq<nat>>, i: nat, j: nat, quality: nat)
    requires Chains(table, i, quality) && i <= j
    ensures Chains(table, j, quality)
  {
  }

  /** The newer half of a full chain, a chain that is not full as it is. */
  function Kept(chain: seq<nat>, quality: nat): seq<nat>
  {
    if |chain| == 2 * quality then chain[quality..] else chain
  }

  /** Forget the older half of a full chain and enter place i, in chain h only. */
  method Enter(table: array<seq<nat>>, h: nat, i: nat, quality: nat)
    requires quality > 0 && Chains(table[..], i, quality) && h < ZHASH
    modifies table
    ensures Chains(table[..], i + 1, quality)
    ensures table[..] == old(table[..])[h := Kept(old(table[h]), quality) + [i]]
  {
    ChainsMono(table[..], i, i + 1, quality);
    var chain := table[h];
    if |chain| == 2 * quality {
      chain := chain[quality..];
    }
    table[h] := chain + [i];
  }

  /** The match to use at place i, if any: the best one, unless the next place has a better one. */
  method FindMatch(data: seq<byte>, quality: nat, table: array<seq<nat>>, i: nat)
    returns (best: nat, bestloc: Option<nat>)
    requires quality > 0 && i + 3 < |data| && Chains(table[..], i, quality)
    modifies table
    ensures Chains(table[..], i + 1, quality)
    ensures bestloc.Some? ==> 3 <= best <= 258 && i + best <= |data|
    ensures bestloc.Some? ==> bestloc.value < i <= bestloc.value + 32767
    ensures bestloc.Some? ==> data[bestloc.value..bestloc.value + best] == data[i..i + best]
  {
    var h := Bucket(data, i);
    best, bestloc := BestMatch(data, table[h], i);
    Enter(table, h, i, quality);
    if bestloc.Some? {
      h := Bucket(data, i + 1);
      var better := BetterNext(data, table[h], i, best);
      if better {
        bestloc := None;
      }
    }
  }

  /** One round of the main loop: the token written stands for the data it skips. */
  method Round(data: seq<byte>, quality: nat, table: array<seq<nat>>, i: nat, w: ZlibWriter)
    returns (next: nat, ghost t: Token)
    requires quality > 0 && i + 3 < |data| && Chains(table[..], i, quality) && w.Valid()
    modifies table, w
    ensures i < next <= |data| && Chains(table[..], next, quality)
    ensures w.Valid() && w.Written() == old(w.Written()) + TokenBits(t) && old(w.out) <= w.out
    ensures t.Match? ==> t.dist <= i
    ensures Play(t, data[..i]) == data[..next]
  {
    hide LengthBits, DistBits, SymbolBits, Unpack, BitsOf;
    var best, bestloc := FindMatch(data, quality, table, i);
    if bestloc.Some? {
      var d := i - bestloc.value;
      CopyContinues(data, bestloc.value, i, best);
      t := Match(best, d);
      ghost var before := w.Written();
      w.WriteLength(best);
      w.WriteDist(d);
      assert w.Written() == before + (LengthBits(best) + DistBits(d));
      next := i + best;
    } else {
      t := Literal(data[i]);
      w.Symbol(data[i]);
      next := i + 1;
    }
    ChainsMono(table[..], i + 1, next, quality);
  }

  /** All tokens of the data, then the end-of-block symbol, then zero bits up to a byte boundary. */
  method WriteBlock(data: seq<byte>, quality: nat, w: ZlibWriter) returns (ghost ts: seq<Token>, ghost pad: seq<bool>)
    requires quality > 0 && w.Valid()
    modifies w
    ensures w.Valid() && w.bitcount == 0 && old(w.out) <= w.out
    ensures w.Written() == old(w.Written()) + (TokensBits(ts) + SymbolBits(256)) + pad && |pad| < 8
    ensures Playable(ts, 0) && PlayAll(ts, []) == data
  {
    hide SymbolBits, TokenBits, Play, Unpack, BitsOf;
    ghost var start := w.Written();
    ts := WriteTokens(data, quality, w);
    ghost var tokens := w.Written();
    w.Symbol(256);
    assert w.Written() == start + (TokensBits(ts) + SymbolBits(256));
    pad := w.Pad();
  }

  method WriteTokens(data: seq<byte>, quality: nat, w: ZlibWriter) returns (ghost ts: seq<Token>)
    requires quality > 0 && w.Valid()
    modifies w
    ensures w.Valid() && old(w.out) <= w.out
    ensures w.Written() == old(w.Written()) + TokensBits(ts)
    ensures Playable(ts, 0) && PlayAll(ts, []) == data
  {
    hide SymbolBits, TokenBits, Play, Unpack, BitsOf;
    var table := new seq<nat>[ZHASH](_ => []);
    ts := [];
    ghost var start := w.Written();
    var i := 0;
    while i < |data| - 3
      invariant i <= |data| && Chains(table[..], i, quality) && fresh(table)
      invariant w.Valid() && old(w.out) <= w.out && w.Written() == start + TokensBits(ts)
      invariant Playable(ts, 0) && PlayAll(ts, []) == data[..i]
      decreases |data| - i
    {
      ghost var t;
      i, t := Round(data, quality, table, i, w);
      TokensBitsAppend(ts, t);
      PlayAppend(ts, t, []);
      ts := ts + [t];
    }
    while i < |data|
      invariant i <= |data|
      invariant w.Valid() && old(w.out) <= w.out && w.Written() == start + TokensBits(ts)
      invariant Playable(ts, 0) && PlayAll(ts, []) == data[..i]
    {
      w.Symbol(data[i]);
      ghost var t: Token := Literal(data[i]);
      LiteralIs(data, i);
      TokensBitsAppend(ts, t);
      PlayAppend(ts, t, []);
      ts := ts + [t];
      i := i + 1;
    }
    assert data[..i] == data;
  }

  lemma LiteralIs(data: seq<byte>, i: nat)
    requires i < |data|
    ensures Play(Literal(data[i]), data[..i]) == data[..i + 1]
    ensures TokenBits(Literal(data[i])) == SymbolBits(data[i])
  {
  }

  /** The checksum, most significant byte first. */
  function AdlerBytes(data: seq<byte>): seq<byte>
  {
    var r := Adler(data, |data|);
    [Shr(r.s2, 8) % 256, r.s2 % 256, Shr(r.s1, 8) % 256, r.s1 % 256]
  }

  /** The checksum of "abc", high byte first. */
  lemma KnownAdler()
    ensures AdlerBytes([0x61, 0x62, 0x63]) == [0x02, 0x4d, 0x01, 0x27]
  {
    var abc: seq<byte> := [0x61, 0x62, 0x63];
    hide Adler, Shr;
    AdlerStart(abc);
    AdlerNext(abc, 0);
    assert Adler(abc, 1) == Sums(0x62, 0x62);
    AdlerNext(abc, 1);
    assert Adler(abc, 2) == Sums(0xc4, 0x126);
    AdlerNext(abc, 2);
    assert Adler(abc, 3) == Sums(0x127, 0x24d);
    Shr8(0x24d);
    Shr8(0x127);
  }

  lemma WholeStream(bits: seq<bool>, a: seq<bool>, b: seq<bool>, pad: seq<bool>, sum: seq<bool>)
    requires bits == a + b + pad + sum
    ensures At(bits, 0, a + b)
  {
    assert bits[..|a + b|] == a + b;
  }

  /** The header bytes and the block header. */
  method Start(w: ZlibWriter)
    requires w.Valid() && w.out == [] && w.bitcount == 0
    modifies w
    ensures w.Valid() && w.Written() == Prologue()
  {
    hide BitsOf, Unpack;
    w.out := w.out + [0x78];
    w.out := w.out + [0x5E];
    ghost var h: seq<byte> := [0x78, 0x5E];
    assert w.out == h;
    assert w.Written() == Unpack(h);
    assert Pow2(0) == 1 && Pow2(1) == 2 && Pow2(2) == 4;
    w.Add(1, 1);
    w.Add(1, 2);
  }

  /** The zlib header and the single block. */
  method Stream(data: seq<byte>, quality: nat) returns (body: seq<byte>, ghost ts: seq<Token>, ghost pad: seq<bool>)
    requires quality > 0
    ensures Playable(ts, 0) && PlayAll(ts, []) == data && |pad| < 8
    ensures Unpack(body) == Prologue() + (TokensBits(ts) + SymbolBits(256)) + pad
  {
    hide TokensBits, SymbolBits, Playable, PlayAll, Prologue;
    var w := new ZlibWriter();
    Start(w);
    ts, pad := WriteBlock(data, quality, w);
    body := w.out;
    assert BitsOf(w.bitbuf, 0) == [];
  }

  lemma StreamSize(body: seq<byte>, ts: seq<Token>, pad: seq<bool>)
    requires Playable(ts, 0) && |pad| < 8
    requires Unpack(body) == Prologue() + (TokensBits(ts) + SymbolBits(256)) + pad
    ensures 8 * |body| <= 9 * |PlayAll(ts, [])| + 33
  {
    TokensSize(ts, []);
    hide TokensBits, Playable, PlayAll, Prologue;
    assert |SymbolBits(256)| == 7;
  }

  /**
    stbi_zlib_compress: for every input and quality, inflating the result gives the input;
    it ends with the checksum, and grows by at most one bit per byte and a constant.
  */
  method Compress(data: seq<byte>, quality: int) returns (out: seq<byte>)
    ensures Inflate(out, true, None).Done? && Inflate(out, true, None).out == data
    ensures |out| >= 4 && out[|out| - 4..] == AdlerBytes(data)
    ensures 8 * |out| <= 9 * |data| + 65
  {
    hide TokensBits, SymbolBits, Playable, PlayAll, Inflate, Adler, Prologue;
    var body;
    ghost var ts, pad;
    body, ts, pad := Stream(data, if quality < 5 then 5 else quality);
    StreamSize(body, ts, pad);
    var s1, s2 := Checksum(data);
    ghost var sum := AdlerBytes(data);
    out := body + [Shr(s2, 8) % 256, s2 % 256, Shr(s1, 8) % 256, s1 % 256];
    UnpackAppend(body, sum);
    WholeStream(Unpack(out), Prologue(), TokensBits(ts) + SymbolBits(256), pad, Unpack(sum));
    StreamDecodes(out, ts);
  }
}
