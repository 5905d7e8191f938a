/**
  The input side of stbi__zbuf: bytes are prefetched into a 32-bit buffer, codes and
  fields are taken from its low end.  The abstract state is a position in the plain bit
  sequence of the input; past the end the input reads as zero bits.
*/
module ZReader {
  import opened Bits
  import opened BitReversal
  import opened Canonical
  import opened Wrappers
  import opened ZHuffmanTables

  // ---- the tables on a stream ----

  lemma {:induction false} IntervalOf(lens: seq<nat>, v: nat, n: nat) returns (s: nat)
    requires 1 <= n <= 16 && v < End(lens, n)
    ensures 1 <= s <= n && Start(lens, s) <= v < End(lens, s)
  {
    if Start(lens, n) <= v {
      s := n;
    } else {
      ShlOne(15);
      StartIsEnd(lens, n);
      s := IntervalOf(lens, v, n - 1);
    }
  }

  /** An empty lookup entry means exactly that the word lies at or above the nine-bit codes. */
  lemma FastMissIff(lens: seq<nat>, t: seq<nat>, bits: seq<bool>, pos: nat)
    requires ValidLengths(lens) && KraftHolds(lens) && FastTable(lens, |lens|, t)
    requires Take(bits, pos, 9) < 512
    ensures t[Take(bits, pos, 9)] == 0 <==> End(lens, 9) <= TakeMSB(bits, pos, 16)
  {
    var x := Take(bits, pos, 9);
    if TakeMSB(bits, pos, 16) < End(lens, 9) {
      var s := IntervalOf(lens, TakeMSB(bits, pos, 16), 9);
      var i := SymbolAt(lens, bits, pos, s);
      FastHitIsMatch(lens, bits, pos, i);
      FastEntryParts(lens[i], i);
    } else if t[x] != 0 {
      var i :| 0 <= i < |lens| && FastHit(lens, x, i);
      FastHitIsMatch(lens, bits, pos, i);
      MatchInside(lens, bits, pos, i);
      EndMono(lens, lens[i], 9);
      assert false;
    }
  }

  lemma FastFound(lens: seq<nat>, t: seq<nat>, bits: seq<bool>, pos: nat)
    requires ValidLengths(lens) && KraftHolds(lens) && FastTable(lens, |lens|, t)
    requires Take(bits, pos, 9) < 512 && t[Take(bits, pos, 9)] != 0
    ensures Decode(lens, bits, pos).Some?
    ensures var b := t[Take(bits, pos, 9)]; var i := Decode(lens, bits, pos).value;
      i == And(b, 511) && lens[i] == Shr(b, 9) <= 9
  {
    var x := Take(bits, pos, 9);
    var i :| 0 <= i < |lens| && FastHit(lens, x, i);
    FastHitIsMatch(lens, bits, pos, i);
    DecodeIs(lens, bits, pos, i);
    FastEntryParts(lens[i], i);
  }

  /** The first length whose interval ends above the word is the length of its code. */
  lemma SlowFound(lens: seq<nat>, size: seq<nat>, value: seq<nat>, bits: seq<bool>, pos: nat, s: nat) returns (b: nat)
    requires ValidLengths(lens) && KraftHolds(lens) && SlotTable(lens, |lens|, size, value)
    requires 2 <= s <= 15 && End(lens, s - 1) <= TakeMSB(bits, pos, 16) < End(lens, s)
    ensures b == Shr(TakeMSB(bits, pos, 16), 16 - s) - FirstCode(lens, s) + FirstSymbol(lens, s) < |value|
    ensures size[b] == s && Decode(lens, bits, pos) == Some(value[b]) && value[b] < |lens| && lens[value[b]] == s
  {
    StartIsEnd(lens, s);
    var i := SymbolAt(lens, bits, pos, s);
    DecodeIs(lens, bits, pos, i);
    b := Slot(lens, i);
    assert Coded(lens, i) && SlotIn(lens, i, |size|);
  }

  lemma NoMatchAbove(lens: seq<nat>, bits: seq<bool>, pos: nat)
    requires ValidLengths(lens) && End(lens, 15) <= TakeMSB(bits, pos, 16)
    ensures Decode(lens, bits, pos).None?
  {
    DecodeFinds(lens, bits, pos);
    var d := Decode(lens, bits, pos);
    if d.Some? {
      MatchInside(lens, bits, pos, d.value);
      EndMono(lens, lens[d.value], 15);
      assert false;
    }
  }

  lemma Take9Bound(bits: seq<bool>, pos: nat)
    ensures Take(bits, pos, 9) < 512
  {
    TakeBound(bits, pos, 9);
    Pow2Of8();
  }

  lemma WordBound(bits: seq<bool>, pos: nat)
    ensures TakeMSB(bits, pos, 16) < 0x10000
  {
    TakeMSBBound(bits, pos, 16);
    Pow2Of15();
  }

  lemma AndMask9(x: nat)
    ensures And(x, 511) == Low(x, 9)
  {
    Pow2Of8();
    AndMask(x, 9);
  }

  lemma AndMask8(x: nat)
    ensures And(x, 255) == Low(x, 8) < 256
  {
    Pow2Of8();
    AndMask(x, 8);
    LowBound(x, 8);
  }

  lemma FastIndex(bits: seq<bool>, pos: nat, n: nat)
    requires n >= 9
    ensures And(Take(bits, pos, n), 511) == Take(bits, pos, 9) < 512
  {
    Take9Bound(bits, pos);
    AndMask9(Take(bits, pos, n));
    TakeLowShr(bits, pos, 9, n);
  }

  class BitReader {
    const data: seq<byte>

    var zbuffer: nat
    var num_bits: nat
    var code_buffer: nat

    /** Bytes fetched so far, those read as zero past the end included. */
    ghost var fetched: nat

    ghost function Bits(): seq<bool> { Unpack(data) }

    /** How many bits have been consumed. */
    ghost function Pos(): nat
      reads this
    {
      if num_bits <= 8 * fetched then 8 * fetched - num_bits else 0
    }

    ghost predicate Valid()
      reads this
    {
      && num_bits <= 32 && num_bits <= 8 * fetched
      && zbuffer == (if fetched < |data| then fetched else |data|)
      && code_buffer == Take(Bits(), Pos(), num_bits)
    }

    /** The buffer is a word of num_bits bits. */
    lemma WordWidth()
      requires Valid()
      ensures code_buffer < Pow2(num_bits) <= Pow2(32)
    {
      TakeBound(Bits(), Pos(), num_bits);
      Pow2Mono(num_bits, 32);
    }

    constructor (input: seq<byte>)
      ensures Valid() && data == input && Pos() == 0 && fetched == 0 && num_bits == 0
    {
      data := input;
      zbuffer, num_bits, code_buffer, fetched := 0, 0, 0, 0;
    }

    method Get8() returns (b: byte)
      requires Valid() && num_bits == 0
      modifies this
      ensures Valid() && num_bits == 0 && Pos() == old(Pos()) + 8 && fetched == old(fetched) + 1
      ensures b == Take(Bits(), old(Pos()), 8) == if old(fetched) < |data| then data[old(fetched)] else 0
    {
      TakeByte(data, fetched);
      b := NextByte();
    }

    /** stbi__zget8: the next input byte, or zero past the end. */
    method NextByte() returns (b: byte)
      requires zbuffer == (if fetched < |data| then fetched else |data|)
      modifies this`zbuffer, this`fetched
      ensures zbuffer == (if fetched < |data| then fetched else |data|)
      ensures fetched == old(fetched) + 1
      ensures b == if old(fetched) < |data| then data[old(fetched)] else 0
    {
      fetched := fetched + 1;
      if zbuffer >= |data| {
        return 0;
      }
      b := data[zbuffer];
      zbuffer := zbuffer + 1;
    }

    method FillByte()
      requires Valid() && num_bits <= 24
      modifies this
      ensures Valid() && Pos() == old(Pos()) && num_bits == old(num_bits) + 8
    {
      ghost var bits, pos, n := Bits(), Pos(), num_bits;
      var b := NextByte();
      AppendByte(data, bits, old(fetched), n, b);
      code_buffer := Or(code_buffer, Shl(b, num_bits));
      num_bits := num_bits + 8;
    }

    /** stbi__fill_bits */
    method FillBits()
      requires Valid() && num_bits <= 24
      modifies this
      ensures Valid() && 25 <= num_bits && Pos() == old(Pos())
    {
      var more := true;
      while more
        invariant Valid() && Pos() == old(Pos())
        invariant if more then num_bits <= 24 else num_bits >= 25
        decreases 32 - num_bits
      {
        FillByte();
        more := num_bits <= 24;
      }
    }

    /** Drop the low n bits of the buffer. */
    method Consume(n: nat)
      requires Valid() && n <= num_bits
      modifies this`code_buffer, this`num_bits
      ensures Valid() && Pos() == old(Pos()) + n && num_bits == old(num_bits) - n
    {
      TakeLowShr(Bits(), Pos(), n, num_bits);
      code_buffer := Shr(code_buffer, n);
      num_bits := num_bits - n;
    }

    /** stbi__zreceive: an n-bit field, first bit least significant. */
    method Receive(n: nat) returns (k: nat)
      requires Valid() && n <= 16
      modifies this
      ensures Valid() && Pos() == old(Pos()) + n
      ensures k == Take(Bits(), old(Pos()), n)
      ensures num_bits <= 32 - n
      ensures old(num_bits) >= n ==> num_bits == old(num_bits) - n && fetched == old(fetched)
    {
      if num_bits < n {
        FillBits();
      }
      ShlOne(n);
      AndMask(code_buffer, n);
      TakeLowShr(Bits(), Pos(), n, num_bits);
      k := And(code_buffer, Shl(1, n) - 1);
      Consume(n);
    }

    /** The next sixteen bits, first bit on top. */
    method PeekWord() returns (k: nat)
      requires Valid() && num_bits >= 16
      ensures k == TakeMSB(Bits(), Pos(), 16) < 0x10000
    {
      k := BitReverse(code_buffer, 16);
      ReverseBuffer(Bits(), Pos(), 16, num_bits);
      WordBound(Bits(), Pos());
    }

    /** stbi__zhuffman_decode_slowpath */
    method HuffmanDecodeSlow(z: ZHuffman) returns (r: int)
      requires Valid() && z.Built() && num_bits >= 16
      requires End(z.lens, 9) <= TakeMSB(Bits(), Pos(), 16)
      modifies this`code_buffer, this`num_bits
      ensures Valid()
      ensures match Decode(z.lens, Bits(), old(Pos()))
              case Some(i) => r == i && Pos() == old(Pos()) + z.lens[i]
              case None => r == -1
    {
      ghost var bits, pos, lens := Bits(), Pos(), z.lens;
      var k := PeekWord();
      var s := SlowLength(z, k);
      if s == 16 {
        NoMatchAbove(lens, bits, pos);
        return -1;
      }
      ghost var b' := SlowFound(lens, z.size[..], z.value[..], bits, pos, s);
      var b := Shr(k, 16 - s) - z.firstcode[s] + z.firstsymbol[s];
      assert z.size[b] == s;
      Consume(s);
      r := z.value[b];
    }

    /** The first code length above nine whose codes end above k, or sixteen. */
    method SlowLength(z: ZHuffman, k: nat) returns (s: nat)
      requires z.Built() && End(z.lens, 9) <= k < 0x10000
      ensures 10 <= s <= 16 && End(z.lens, s - 1) <= k
      ensures s < 16 ==> k < End(z.lens, s)
    {
      s := 10;
      while k >= z.maxcode[s]
        invariant 10 <= s <= 16 && End(z.lens, s - 1) <= k
        decreases 16 - s
      {
        s := s + 1;
      }
    }

    /** stbi__zhuffman_decode: the canonical decoder, whichever table answers. */
    method HuffmanDecode(z: ZHuffman) returns (r: int)
      requires Valid() && z.Built()
      modifies this
      ensures Valid()
      ensures match Decode(z.lens, Bits(), old(Pos()))
              case Some(i) => r == i && Pos() == old(Pos()) + z.lens[i]
              case None => r == -1
    {
      if num_bits < 16 {
        FillBits();
      }
      ghost var bits, pos := Bits(), Pos();
      FastIndex(bits, pos, num_bits);
      var b := z.fast[And(code_buffer, 511)];
      FastMissIff(z.lens, z.fast[..], bits, pos);
      if b != 0 {
        FastFound(z.lens, z.fast[..], bits, pos);
        var s := Shr(b, 9);
        Consume(s);
        return And(b, 511);
      }
      r := HuffmanDecodeSlow(z);
    }

    /** One whole prefetched byte. */
    method Drain() returns (b: byte)
      requires Valid() && num_bits >= 8
      modifies this`code_buffer, this`num_bits
      ensures Valid() && Pos() == old(Pos()) + 8 && num_bits == old(num_bits) - 8
      ensures b == Take(Bits(), old(Pos()), 8)
    {
      TakeLowShr(Bits(), Pos(), 8, num_bits);
      AndMask8(code_buffer);
      b := And(code_buffer, 255);
      Consume(8);
    }

    /** The next n input bytes, taken from the input directly. */
    method TakeBytes(n: nat) returns (s: seq<byte>)
      requires Valid() && num_bits == 0 && fetched + n <= |data|
      modifies this
      ensures Valid() && num_bits == 0 && Pos() == old(Pos()) + 8 * n
      ensures s == data[old(Pos()) / 8..old(Pos()) / 8 + n]
    {
      s := data[zbuffer..zbuffer + n];
      zbuffer := zbuffer + n;
      fetched := fetched + n;
    }
  }
}
