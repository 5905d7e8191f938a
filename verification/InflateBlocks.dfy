/**
  Whole zlib streams as RFC 1950 and 1951 have them written: any number of stored, fixed and
  dynamic blocks, and what they stand for.
*/
module InflateBlocks {
  import opened Bits
  import opened Wrappers
  import opened Canonical
  import opened InflateSpec
  import opened DeflateSpec
  import opened InflateDynamic

  // ---- tokens in the codes of a dynamic block ----

  /** All symbols of a token have codes. */
  predicate Sayable(lit: seq<nat>, dist: seq<nat>, t: Token)
  {
    match t
    case Literal(b) => Coded(lit, b)
    case Match(len, d) => Coded(lit, 257 + SymbolOfLength(len)) && Coded(dist, SymbolOfDist(d))
  }

  function LengthWord(lit: seq<nat>, len: nat): seq<bool>
    requires 3 <= len <= 258 && Coded(lit, 257 + SymbolOfLength(len))
  {
    var j := SymbolOfLength(len);
    Word(lit, 257 + j) + BitsOf(len - LengthBase(j), LengthExtra(j))
  }

  function DistWord(dist: seq<nat>, d: nat): seq<bool>
    requires 1 <= d <= 32767 && Coded(dist, SymbolOfDist(d))
  {
    var j := SymbolOfDist(d);
    Word(dist, j) + BitsOf(d - DistBase(j), DistExtra(j))
  }

  function TokenWords(lit: seq<nat>, dist: seq<nat>, t: Token): seq<bool>
    requires Sayable(lit, dist, t)
  {
    match t
    case Literal(b) => Word(lit, b)
    case Match(len, d) => LengthWord(lit, len) + DistWord(dist, d)
  }

  predicate AllSayable(lit: seq<nat>, dist: seq<nat>, ts: seq<Token>)
  {
    forall i :: 0 <= i < |ts| ==> Sayable(lit, dist, ts[i])
  }

  /** The tokens and the end of the block. */
  function TokensWords(lit: seq<nat>, dist: seq<nat>, ts: seq<Token>): seq<bool>
    requires AllSayable(lit, dist, ts) && Coded(lit, 256)
  {
    if ts == [] then Word(lit, 256) else TokenWords(lit, dist, ts[0]) + TokensWords(lit, dist, ts[1..])
  }

  lemma LengthRead(lit: seq<nat>, bits: seq<bool>, pos: nat, len: nat, j: nat)
    requires j <= 28 && LengthBase(j) <= len < LengthEnd(j) && Accepted(lit) && Coded(lit, 257 + j)
    requires At(bits, pos, Word(lit, 257 + j) + BitsOf(len - LengthBase(j), LengthExtra(j)))
    ensures Decode(lit, bits, pos) == Some(257 + j) && lit[257 + j] == |Word(lit, 257 + j)|
    ensures Extra(bits, pos + lit[257 + j], LengthBase(j), LengthExtra(j)) == len
  {
    hide At, BitsOf, Word, Decode, LengthBase, LengthExtra, LengthEnd, Extra, Accepted;
    AtSplit(bits, pos, Word(lit, 257 + j), BitsOf(len - LengthBase(j), LengthExtra(j)));
    WordDecodes(lit, bits, pos, 257 + j);
    LengthRange(j);
    ExtraDecodes(bits, pos + lit[257 + j], LengthBase(j), len - LengthBase(j), LengthExtra(j));
  }

  lemma DistRead(dist: seq<nat>, bits: seq<bool>, pos: nat, d: nat, j: nat)
    requires j <= 29 && DistBase(j) <= d < DistEnd(j) && |dist| <= 32 && Accepted(dist) && Coded(dist, j)
    requires At(bits, pos, Word(dist, j) + BitsOf(d - DistBase(j), DistExtra(j)))
    ensures DistanceAt(bits, pos, dist) == Some(Distance(j, d, pos + |Word(dist, j)| + DistExtra(j)))
  {
    hide At, BitsOf, Word, Decode, Extra, DistBase, DistExtra, DistEnd, Accepted;
    AtSplit(bits, pos, Word(dist, j), BitsOf(d - DistBase(j), DistExtra(j)));
    WordDecodes(dist, bits, pos, j);
    DistRange(j);
    ExtraDecodes(bits, pos + dist[j], DistBase(j), d - DistBase(j), DistExtra(j));
  }

  lemma TokenRead(bits: seq<bool>, pos: nat, t: Token, out: seq<byte>, lit: seq<nat>, dist: seq<nat>)
    requires |dist| <= 32 && Accepted(lit) && Accepted(dist) && Sayable(lit, dist, t)
    requires At(bits, pos, TokenWords(lit, dist, t)) && (t.Match? ==> t.dist <= |out|)
    ensures Step(bits, pos, out, lit, dist, None) == Next(Play(t, out), pos + |TokenWords(lit, dist, t)|)
  {
    hide Word, Decode, DistanceAt, LengthBase, LengthExtra, DistBase, DistExtra, CopyMatch, KraftHolds, At,
      SymbolOfLength, SymbolOfDist, LengthEnd, DistEnd;
    match t
    case Literal(b) => WordDecodes(lit, bits, pos, b);
    case Match(len, d) =>
      AtSplit(bits, pos, LengthWord(lit, len), DistWord(dist, d));
      LengthRead(lit, bits, pos, len, SymbolOfLength(len));
      DistRead(dist, bits, pos + |LengthWord(lit, len)|, d, SymbolOfDist(d));
  }

  lemma {:induction false} TokensRead(bits: seq<bool>, pos: nat, ts: seq<Token>, out: seq<byte>, lit: seq<nat>,
                                      dist: seq<nat>)
    requires |lit| <= 288 && |dist| <= 32 && Accepted(lit) && Accepted(dist) && AllSayable(lit, dist, ts)
    requires Coded(lit, 256) && Playable(ts, |out|) && At(bits, pos, TokensWords(lit, dist, ts))
    ensures Block(bits, pos, out, lit, dist, None)
         == Done(PlayAll(ts, out), pos + |TokensWords(lit, dist, ts)|)
    decreases |ts|
  {
    hide Word, TokenWords, Decode, MatchStep, CopyMatch, At, Sayable, Accepted, Coded;
    if ts == [] {
      WordDecodes(lit, bits, pos, 256);
    } else {
      AtSplit(bits, pos, TokenWords(lit, dist, ts[0]), TokensWords(lit, dist, ts[1..]));
      hide Step;
      TokenRead(bits, pos, ts[0], out, lit, dist);
      TokensRead(bits, pos + |TokenWords(lit, dist, ts[0])|, ts[1..], Play(ts[0], out), lit, dist);
    }
  }

  // ---- blocks ----

  /** A block: bytes as they are behind the rest of a byte, or tokens in the fixed or in given codes. */
  datatype Piece =
    Raw(pad: seq<bool>, data: seq<byte>) | Fixed(ts: seq<Token>) | Dynamic(header: Header, ts: seq<Token>)
  {
    /** What may stand at pos, behind n bytes. */
    predicate Valid(pos: nat, n: nat)
    {
      match this
      case Raw(pad, data) => |pad| < 8 && (pos + |pad|) % 8 == 0 && |data| <= 0xFFFF
      case Fixed(ts) => Playable(ts, n)
      case Dynamic(h, ts) => h.Valid() && Coded(h.lit, 256) && AllSayable(h.lit, h.dist, ts) && Playable(ts, n)
    }

    function Kind(): nat { match this case Raw(_, _) => 0 case Fixed(_) => 1 case Dynamic(_, _) => 2 }

    function Bits(): seq<bool>
      requires Dynamic? ==> header.Valid() && Coded(header.lit, 256) && AllSayable(header.lit, header.dist, ts)
    {
      match this
      case Raw(pad, data) => pad + (Unpack(TwoBytes(|data|) + TwoBytes(0xFFFF - |data|)) + Unpack(data))
      case Fixed(ts) => TokensBits(ts) + SymbolBits(256)
      case Dynamic(h, ts) => h.Bits() + TokensWords(h.lit, h.dist, ts)
    }

    function Apply(out: seq<byte>): seq<byte>
      requires !Raw? ==> Playable(ts, |out|)
    {
      if Raw? then out + data else PlayAll(ts, out)
    }
  }

  /** Low byte first. */
  function TwoBytes(n: int): seq<byte> { [n % 256, n / 256 % 256] }

  lemma {:induction false} BytesRead(bits: seq<bool>, k: nat, data: seq<byte>)
    requires At(bits, 8 * k, Unpack(data))
    ensures BytesAt(bits, k, |data|) == data
    decreases |data|
  {
    hide Take, BitsOf, At;
    if data != [] {
      AtSplit(bits, 8 * k, BitsOf(data[0], 8), Unpack(data[1..]));
      Pow2Of8();
      TakeAt(bits, 8 * k, data[0], 8);
      BytesRead(bits, k + 1, data[1..]);
    }
  }

  lemma LengthBytesRead(bits: seq<bool>, q: nat, n: nat)
    requires n <= 0xFFFF && At(bits, 8 * q, Unpack(TwoBytes(n) + TwoBytes(0xFFFF - n)))
    ensures StoredLength(bits, q) == n && StoredLength(bits, q + 2) == 0xFFFF - n
  {
    hide Take, Unpack, At;
    var s := TwoBytes(n) + TwoBytes(0xFFFF - n);
    BytesRead(bits, q, s);
    FourBytes(bits, q);
    assert s[0] == n % 256 && s[1] == n / 256 && s[2] == (0xFFFF - n) % 256 && s[3] == (0xFFFF - n) / 256;
  }

  lemma FourBytes(bits: seq<bool>, q: nat)
    ensures BytesAt(bits, q, 4) == [ByteAt(bits, q), ByteAt(bits, q + 1), ByteAt(bits, q + 2), ByteAt(bits, q + 3)]
  {
    hide Take;
    assert BytesAt(bits, q + 2, 2) == [ByteAt(bits, q + 2)] + BytesAt(bits, q + 3, 1);
  }

  lemma RawRead(bits: seq<bool>, pos: nat, pad: seq<bool>, data: seq<byte>, out: seq<byte>)
    requires |pad| < 8 && (pos + |pad|) % 8 == 0 && |data| <= 0xFFFF
    requires At(bits, pos, Raw(pad, data).Bits())
    ensures Stored(bits, pos, out, None) == Done(out + data, pos + |Raw(pad, data).Bits()|)
  {
    hide At, Unpack, BytesAt, StoredLength;
    var q, lengths := (pos + |pad|) / 8, TwoBytes(|data|) + TwoBytes(0xFFFF - |data|);
    assert (pos + 7) / 8 == q;
    AtSplit(bits, pos, pad, Unpack(lengths) + Unpack(data));
    AtSplit(bits, 8 * q, Unpack(lengths), Unpack(data));
    LengthBytesRead(bits, q, |data|);
    BytesRead(bits, q + 4, data);
    Inside(bits, 8 * (q + 4), Unpack(data));
  }

  lemma Inside(bits: seq<bool>, pos: nat, w: seq<bool>)
    requires At(bits, pos, w)
    ensures pos + |w| <= |bits|
  {
  }

  lemma PieceRead(bits: seq<bool>, pos: nat, p: Piece, out: seq<byte>)
    requires p.Valid(pos, |out|) && At(bits, pos, p.Bits())
    ensures OneBlock(bits, pos, out, p.Kind(), None) == Done(p.Apply(out), pos + |p.Bits()|)
  {
    hide At, Stored, TokensBits, SymbolBits, TokensWords, Block, DynamicCodes, FixedLit, FixedDist, Codable, InOrder,
      Accepted, Header.Bits;
    match p
    case Raw(pad, data) => RawRead(bits, pos, pad, data, out);
    case Fixed(ts) =>
      TokensDecode(bits, pos, ts, out);
      SymbolLength();
    case Dynamic(h, ts) =>
      AtSplit(bits, pos, h.Bits(), TokensWords(h.lit, h.dist, ts));
      HeaderRead(bits, pos, h);
      TokensRead(bits, pos + |h.Bits()|, ts, out, h.lit, h.dist);
  }

  lemma SymbolLength()
    ensures |SymbolBits(256)| == 7
  {
  }

  lemma OneBit()
    ensures Pow2(1) == 2
  {
  }

  // ---- streams ----

  predicate ValidPieces(ps: seq<Piece>, pos: nat, out: seq<byte>)
  {
    ps == [] || (ps[0].Valid(pos + 3, |out|) && ValidPieces(ps[1..], pos + 3 + |ps[0].Bits()|, ps[0].Apply(out)))
  }

  /** The last block is marked. */
  function PiecesBits(ps: seq<Piece>, pos: nat, out: seq<byte>): seq<bool>
    requires ValidPieces(ps, pos, out)
  {
    if ps == [] then []
    else
      BitsOf(if |ps| == 1 then 1 else 0, 1) + (BitsOf(ps[0].Kind(), 2) + (ps[0].Bits()
        + PiecesBits(ps[1..], pos + 3 + |ps[0].Bits()|, ps[0].Apply(out))))
  }

  function Output(ps: seq<Piece>, pos: nat, out: seq<byte>): seq<byte>
    requires ValidPieces(ps, pos, out)
  {
    if ps == [] then out else Output(ps[1..], pos + 3 + |ps[0].Bits()|, ps[0].Apply(out))
  }

  lemma {:induction false} PiecesRead(bits: seq<bool>, pos: nat, ps: seq<Piece>, out: seq<byte>)
    requires ps != [] && ValidPieces(ps, pos, out) && At(bits, pos, PiecesBits(ps, pos, out))
    ensures InflateSpec.Blocks(bits, pos, out, None)
         == Done(Output(ps, pos, out), pos + |PiecesBits(ps, pos, out)|)
    decreases |ps|
  {
    hide At, BitsOf, Take, OneBlock, Piece.Bits, Piece.Apply, Pow2, Header.Valid, AllSayable, Playable;
    var p, last := ps[0], if |ps| == 1 then 1 else 0;
    var rest := PiecesBits(ps[1..], pos + 3 + |p.Bits()|, p.Apply(out));
    Powers();
    OneBit();
    AtSplit(bits, pos, BitsOf(last, 1), BitsOf(p.Kind(), 2) + (p.Bits() + rest));
    AtSplit(bits, pos + 1, BitsOf(p.Kind(), 2), p.Bits() + rest);
    AtSplit(bits, pos + 3, p.Bits(), rest);
    TakeAt(bits, pos, last, 1);
    TakeAt(bits, pos + 1, p.Kind(), 2);
    PieceRead(bits, pos + 3, p, out);
    if |ps| > 1 {
      PiecesRead(bits, pos + 3 + |p.Bits()|, ps[1..], p.Apply(out));
    }
  }

  /** RFC 1950, section 2.2: deflate, no dictionary, and a check of sixteen bits. */
  lemma ZlibHeaderIs(cmf: byte, flg: byte)
    ensures ZlibHeader(cmf, flg) <==> cmf % 16 == 8 && flg / 32 % 2 == 0 && (cmf * 256 + flg) % 31 == 0
  {
    hide And, Pow2, Shr, Low;
    Powers();
    AndMask(cmf, 4);
    LowIs(cmf);
    FlagIs(flg);
  }

  lemma LowStep(x: nat, n: nat)
    ensures Low(x, n + 1) == x % 2 + 2 * Low(x / 2, n)
    ensures Shr(x, n + 1) == Shr(x / 2, n)
  {
  }

  lemma LowIs(x: nat)
    ensures Low(x, 4) == x % 16
  {
    hide Low, Shr;
    LowStep(x, 3);
    LowStep(x / 2, 2);
    LowStep(x / 2 / 2, 1);
    LowStep(x / 2 / 2 / 2, 0);
    NoShift(x / 16);
  }

  lemma FlagIs(x: nat)
    ensures And(x, 32) == 32 * (x / 32 % 2)
  {
    hide And, Low, Shr, Pow2;
    Powers();
    ShlOne(5);
    AndShl(x, 1, 5);
    LowStep(x, 4);
    LowStep(x / 2, 3);
    LowStep(x / 2 / 2, 2);
    LowStep(x / 2 / 2 / 2, 1);
    LowStep(x / 2 / 2 / 2 / 2, 0);
    NoShift(x / 32);
    LastBit(x / 32);
    ShlTwice(x / 32 % 2);
  }

  lemma NoShift(x: nat)
    ensures Shr(x, 0) == x && Low(x, 0) == 0
  {
  }

  lemma LastBit(x: nat)
    ensures And(x, 1) == x % 2
  {
    AndStep(x, 1);
  }

  lemma ShlTwice(x: nat)
    ensures Shl(x, 5) == 32 * x
  {
    ShlOf4(x);
    assert Shl(x, 5) == 2 * Shl(x, 4);
  }

  function StreamBits(cmf: byte, flg: byte, ps: seq<Piece>): seq<bool>
    requires ValidPieces(ps, 16, [])
  {
    Unpack([cmf, flg]) + PiecesBits(ps, 16, [])
  }

  /** Every stream of blocks has its meaning, whatever follows it. */
  lemma StreamRead(data: seq<byte>, cmf: byte, flg: byte, ps: seq<Piece>)
    requires cmf % 16 == 8 && flg / 32 % 2 == 0 && (cmf * 256 + flg) % 31 == 0
    requires ps != [] && ValidPieces(ps, 16, []) && At(Unpack(data), 0, StreamBits(cmf, flg, ps))
    ensures Inflate(data, true, None) == Done(Output(ps, 16, []), |StreamBits(cmf, flg, ps)|)
  {
    hide At, Unpack, Take, PiecesBits, Output, ZlibHeader, InflateSpec.Blocks;
    var bits, h := Unpack(data), [cmf, flg];
    AtSplit(bits, 0, Unpack(h), PiecesBits(ps, 16, []));
    BytesRead(bits, 0, h);
    TwoRead(bits);
    ZlibHeaderIs(cmf, flg);
    PiecesRead(bits, 16, ps, []);
  }

  lemma TwoRead(bits: seq<bool>)
    ensures BytesAt(bits, 0, 2) == [ByteAt(bits, 0), ByteAt(bits, 1)]
  {
    hide Take;
    assert BytesAt(bits, 0, 2) == [ByteAt(bits, 0)] + BytesAt(bits, 1, 1);
  }
}
