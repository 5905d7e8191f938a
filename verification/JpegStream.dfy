/**
  The bit level of the JPEG entropy coder: stbiw__jpg_writeBits, and the reader's buffer
  with stbi__grow_buffer_unsafe, stbi__jpeg_huff_decode and stbi__extend_receive.
*/
module JpegStream {
  import opened Bits
  import opened ByteStream
  import opened JpegHuffman
  import opened JpegTables
  import opened JpegBits

  // ---- shifted words ----

  lemma {:induction false} ShrShl(x: nat, n: nat)
    ensures Shr(Shl(x, n), n) == x
    decreases n
  {
    if n > 0 {
      assert Shl(x, n) / 2 == Shl(x, n - 1);
      ShrShl(x, n - 1);
    }
  }

  lemma {:induction false} LowOfShr(x: nat, a: nat, b: nat)
    ensures Low(Shr(x, a), b) == Shr(Low(x, a + b), a)
    decreases a
  {
    if a > 0 {
      assert Low(x, a + b) / 2 == Low(x / 2, a - 1 + b);
      LowOfShr(x / 2, a - 1, b);
    }
  }

  /** The word holds the c bits of pend from bit 23 down. */
  predicate Holds(bitBuf: nat, c: nat, pend: nat)
  {
    c <= 24 && pend < Pow2(c) && Low(bitBuf, 24) == Shl(pend, 24 - c)
  }

  lemma HoldsMore(bitBuf: nat, c: nat, pend: nat, code: nat, n: nat)
    requires Holds(bitBuf, c, pend) && c + n <= 24 && code < Pow2(n)
    ensures Holds(Or(bitBuf, Shl(code, 24 - (c + n))), c + n, Shl(pend, n) + code)
    ensures Field(Shl(pend, n) + code, c + n) == Field(pend, c) + Field(code, n)
  {
    hide Low, Or;
    var k := 24 - (c + n);
    var high, field := Shl(pend, n), Shl(code, k);
    FieldAppend(pend, c, code, n);
    LowOr(bitBuf, field, 24);
    ShiftBound(code, n, k);
    Pow2Mono(n + k, 24);
    LowSmall(field, 24);
    ShlShl(pend, n, k);
    OrDisjoint(field, pend, n + k);
    ShlAdd(high, code, k);
    FieldsBound(pend, c, code, n);
  }

  lemma ShiftBound(x: nat, n: nat, k: nat)
    requires x < Pow2(n)
    ensures Shl(x, k) < Pow2(n + k)
  {
    ShlLess(x, Pow2(n), k);
    ShlOne(n);
    ShlShl(1, n, k);
    ShlOne(n + k);
  }

  lemma FieldsBound(x: nat, c: nat, y: nat, n: nat)
    requires x < Pow2(c) && y < Pow2(n)
    ensures Shl(x, n) + y < Pow2(c + n)
  {
    ShlLess(x, Pow2(c), n);
    ShlOne(c);
    ShlShl(1, c, n);
    ShlOne(c + n);
  }

  /** Taking the top eight of the held bits off. */
  lemma HoldsLess(bitBuf: nat, c: nat, pend: nat)
    requires Holds(bitBuf, c, pend) && c >= 8
    ensures And(Shr(bitBuf, 16), 255) == Shr(pend, c - 8) < 256
    ensures Holds(Low(Shl(bitBuf, 8), 32), c - 8, Low(pend, c - 8))
    ensures Field(pend, c) == Field(Shr(pend, c - 8), 8) + Field(Low(pend, c - 8), c - 8)
  {
    hide Low, And, Shr;
    var k := 24 - c;
    Pow2Of8();
    AndMask(Shr(bitBuf, 16), 8);
    LowOfShr(bitBuf, 16, 8);
    ShrShl(pend, k);
    ShrShr(Shl(pend, k), k, 16 - k);
    LowBound(Shr(bitBuf, 16), 8);
    LowLow(Shl(bitBuf, 8), 24, 32);
    LowShl(bitBuf, 8, 16);
    LowLow(bitBuf, 16, 24);
    LowShl(pend, k, c - 8);
    ShlShl(Low(pend, c - 8), k, 8);
    LowBound(pend, c - 8);
    FieldSplit(pend, 8, c - 8);
    FieldLow(pend, c - 8);
  }

  lemma HoldsNothing()
    ensures Holds(0, 0, 0) && Stuff([]) == [] && AllBits([]) == [] && Field(0, 0) == []
  {
    LowSmall(0, 24);
    ShlOne(24);
  }

  class JpegWriter {
    var out: seq<byte>
    var bitBuf: nat
    var bitCnt: nat
    /** The bytes before stuffing, and the bits not yet in them. */
    ghost var bytes: seq<byte>
    ghost var pend: nat

    ghost function Bits(): seq<bool>
      reads this
    {
      AllBits(bytes) + Field(pend, bitCnt)
    }

    ghost predicate Held(most: nat)
      reads this
    {
      bitCnt <= most && Holds(bitBuf, bitCnt, pend) && out == Stuff(bytes)
    }

    ghost predicate Valid()
      reads this
    {
      Held(7)
    }

    constructor ()
      ensures Valid() && Bits() == [] && bytes == []
    {
      hide Holds, Stuff, AllBits, Field;
      out, bitBuf, bitCnt, bytes, pend := [], 0, 0, [], 0;
      new;
      HoldsNothing();
    }

    method PutByte()
      requires Held(23) && bitCnt >= 8
      modifies this
      ensures Held(23) && bitCnt == old(bitCnt) - 8 && Bits() == old(Bits())
    {
      hide Holds, Shr, Shl, And, Low, Stuff, AllBits, Field, Pow2;
      HoldsLess(bitBuf, bitCnt, pend);
      var c := And(Shr(bitBuf, 16), 255);
      ghost var before := AllBits(bytes);
      out := out + [c];
      if c == 255 {
        out := out + [0];
      }
      StuffPush(bytes, c);
      AllBitsPush(bytes, c);
      bytes := bytes + [c];
      bitBuf := Low(Shl(bitBuf, 8), 32);
      pend := Low(pend, bitCnt - 8);
      bitCnt := bitCnt - 8;
      assert before + (Field(c, 8) + Field(pend, bitCnt)) == (before + Field(c, 8)) + Field(pend, bitCnt);
    }

    /** stbiw__jpg_writeBits */
    method WriteBits(code: nat, n: nat)
      requires Valid() && n <= 16 && code < Pow2(n)
      modifies this
      ensures Valid() && Bits() == old(Bits()) + Field(code, n)
    {
      hide Holds, Shl, Or, Stuff, AllBits;
      HoldsMore(bitBuf, bitCnt, pend, code, n);
      ghost var front := AllBits(bytes);
      assert front + (Field(pend, bitCnt) + Field(code, n)) == (front + Field(pend, bitCnt)) + Field(code, n);
      bitCnt := bitCnt + n;
      bitBuf := Or(bitBuf, Shl(code, 24 - bitCnt));
      pend := Shl(pend, n) + code;
      while bitCnt >= 8
        invariant Held(23) && Bits() == old(Bits()) + Field(code, n)
        decreases bitCnt
      {
        PutByte();
      }
    }
  }

  // ---- the reader ----

  function Tail<T>(s: seq<T>, n: nat): seq<T> { if n <= |s| then s[n..] else [] }

  lemma TailStep<T>(s: seq<T>, n: nat)
    ensures n < |s| ==> Tail(s, n) != [] && Tail(s, n)[0] == s[n] && Tail(s, n)[1..] == Tail(s, n + 1)
    ensures n >= |s| ==> Tail(s, n) == Tail(s, n + 1) == []
  {
  }

  /** The buffer of a reader: the next n bits from bit 31 down, zeros below them. */
  predicate Buffers(buffer: nat, bits: seq<bool>, pos: nat, n: nat)
  {
    n <= 32 && buffer == Shl(TakeMSB(bits, pos, n), 32 - n)
  }

  lemma BuffersMore(buffer: nat, bits: seq<bool>, pos: nat, n: nat, b: byte)
    requires Buffers(buffer, bits, pos, n) && n <= 24 && b == TakeMSB(bits, pos + n, 8)
    ensures Buffers(Or(buffer, Shl(b, 24 - n)), bits, pos, n + 8)
  {
    hide Or, TakeMSB;
    var t := TakeMSB(bits, pos, n);
    Pow2Of8();
    TakeMSBSplit(bits, pos, n, 8);
    ShiftBound(b, 8, 24 - n);
    OrDisjoint(Shl(b, 24 - n), t, 32 - n);
    ShlShl(t, 8, 24 - n);
    ShlAdd(Shl(t, 8), b, 24 - n);
  }

  lemma BuffersLess(buffer: nat, bits: seq<bool>, pos: nat, n: nat, k: nat)
    requires Buffers(buffer, bits, pos, n) && k <= n
    ensures Buffers(Low(Shl(buffer, k), 32), bits, pos + k, n - k)
  {
    hide Low, TakeMSB;
    var t := TakeMSB(bits, pos, n);
    LowShl(buffer, k, 32 - k);
    LowShl(t, 32 - n, n - k);
    TakeMSBSplit(bits, pos, k, n - k);
    TakeMSBBound(bits, pos + k, n - k);
    LowShrUnique(TakeMSB(bits, pos + k, n - k), TakeMSB(bits, pos, k), n - k);
    ShlShl(Low(t, n - k), 32 - n, k);
  }

  /** The top k bits, also when the buffer ends before them and the stream too. */
  lemma BuffersTop(buffer: nat, bits: seq<bool>, pos: nat, n: nat, k: nat)
    requires Buffers(buffer, bits, pos, n) && k <= 32 && (k <= n || pos + n >= |bits|)
    ensures Shr(buffer, 32 - k) == TakeMSB(bits, pos, k)
  {
    hide Low, Shr, TakeMSB;
    var t := TakeMSB(bits, pos, n);
    if k <= n {
      ShrShl(t, 32 - n);
      ShrShr(buffer, 32 - n, n - k);
      TakeMSBShr(bits, pos, k, n);
    } else {
      TakeMSBSplit(bits, pos, n, k - n);
      TakePastEndMSB(bits, pos + n, k - n);
      ShlShl(t, k - n, 32 - k);
      ShrShl(Shl(t, k - n), 32 - k);
    }
  }

  lemma UnstuffedStep(s: seq<byte>, p: nat)
    ensures p >= |s| ==> Unstuffed(s, p) == Unstuffed(s, p + 1) == []
    ensures p < |s| && s[p] != 255 ==>
      Unstuffed(s, p) != [] && Unstuffed(s, p)[0] == s[p] && Unstuffed(s, p)[1..] == Unstuffed(s, p + 1)
    ensures p < |s| && s[p] == 255 && ByteStream.Get8(s, PastFill(s, p + 1)) == 0 ==>
      Unstuffed(s, p) != [] && Unstuffed(s, p)[0] == 255 && Unstuffed(s, p)[1..] == Unstuffed(s, PastFill(s, p + 1) + 1)
    ensures p < |s| && s[p] == 255 && ByteStream.Get8(s, PastFill(s, p + 1)) != 0 ==> Unstuffed(s, p) == []
  {
  }

  lemma BuffersNothing(bits: seq<bool>)
    ensures Buffers(0, bits, 0, 0)
  {
    ShlOne(32);
    assert TakeMSB(bits, 0, 0) == 0;
  }

  lemma TailOfAll(s: seq<byte>)
    ensures Tail(s, 0) == s
  {
  }

  class JpegReader {
    const data: seq<byte>
    /** Where the entropy-coded segment starts. */
    const start: nat
    var pos: nat
    var code_buffer: nat
    var code_bits: nat
    var marker: byte
    var nomore: bool
    /** Bytes put into the buffer so far, zeros behind the end included. */
    ghost var fetched: nat

    ghost function Bytes(): seq<byte> { Unstuffed(data, start) }

    ghost function Bits(): seq<bool> { AllBits(Bytes()) }

    ghost function Pos(): nat
      reads this
    {
      if code_bits <= 8 * fetched then 8 * fetched - code_bits else 0
    }

    ghost predicate Feeds()
      reads this
    {
      && Tail(Bytes(), fetched) == (if nomore then [] else Unstuffed(data, pos))
      && (fetched > |Bytes()| && !nomore ==> pos >= |data|)
    }

    ghost predicate Valid()
      reads this
    {
      code_bits <= 8 * fetched && Buffers(code_buffer, Bits(), Pos(), code_bits) && Feeds()
    }

    /** n more bits can be looked at. */
    ghost predicate Ready(n: nat)
      reads this
    {
      n <= code_bits || Pos() + code_bits >= |Bits()|
    }

    constructor (data: seq<byte>, start: nat)
      ensures Valid() && this.data == data && this.start == start && Pos() == 0 && code_bits == 0
    {
      hide Buffers, Unstuffed, AllBits, Tail;
      this.data, this.start, pos := data, start, start;
      code_buffer, code_bits, marker, nomore, fetched := 0, 0, 0, false, 0;
      new;
      BuffersNothing(Bits());
      TailOfAll(Bytes());
    }

    method Get8() returns (b: byte)
      modifies this`pos
      ensures b == ByteStream.Get8(data, old(pos)) && pos == old(pos) + 1
    {
      b := ByteStream.Get8(data, pos);
      pos := pos + 1;
    }

    /** The byte behind a run of fill bytes. */
    method SkipFill() returns (c: byte)
      modifies this`pos
      ensures c == ByteStream.Get8(data, PastFill(data, old(pos))) && pos == PastFill(data, old(pos)) + 1
    {
      c := Get8();
      while c == 255
        invariant pos > 0 && c == ByteStream.Get8(data, pos - 1) && PastFill(data, old(pos)) == PastFill(data, pos - 1)
        decreases if pos <= |data| then |data| + 1 - pos else 0
      {
        c := Get8();
      }
    }

    /** The next data byte, or none at a marker. */
    method NextByte() returns (b: byte, more: bool)
      requires Feeds()
      modifies this`pos, this`marker, this`nomore
      ensures more ==> b == (if fetched < |Bytes()| then Bytes()[fetched] else 0)
      ensures more ==> Tail(Bytes(), fetched + 1) == (if nomore then [] else Unstuffed(data, pos))
      ensures more ==> (fetched + 1 > |Bytes()| && !nomore ==> pos >= |data|)
      ensures !more ==> Feeds() && fetched >= |Bytes()|
    {
      hide Unstuffed, PastFill, Tail;
      more := true;
      TailStep(Bytes(), fetched);
      if nomore {
        b := 0;
        return;
      }
      UnstuffedStep(data, pos);
      b := Get8();
      if b == 255 {
        var c := SkipFill();
        if c != 0 {
          marker := c;
          nomore := true;
          more := false;
          return;
        }
      }
    }

    /** One turn of stbi__grow_buffer_unsafe: false at a marker. */
    method GrowByte() returns (more: bool)
      requires Valid() && code_bits <= 24
      modifies this
      ensures Valid() && Pos() == old(Pos())
      ensures if more then code_bits == old(code_bits) + 8
              else code_bits == old(code_bits) && Pos() + code_bits >= |Bits()|
    {
      hide Buffers, Or, Shl, TakeMSB, AllBits, Unstuffed, Tail;
      TakeByteMSB(Bytes(), fetched);
      var b;
      b, more := NextByte();
      if more {
        BuffersMore(code_buffer, Bits(), Pos(), code_bits, b);
        code_buffer := Or(code_buffer, Shl(b, 24 - code_bits));
        code_bits := code_bits + 8;
        fetched := fetched + 1;
      }
    }

    /** stbi__grow_buffer_unsafe */
    method Grow()
      requires Valid() && code_bits <= 24
      modifies this
      ensures Valid() && Pos() == old(Pos()) && (code_bits > 24 || Pos() + code_bits >= |Bits()|)
      ensures code_bits >= old(code_bits)
    {
      hide Buffers, Unstuffed, AllBits, Feeds;
      var again := true;
      while again
        invariant Valid() && Pos() == old(Pos()) && code_bits >= old(code_bits)
        invariant if again then code_bits <= 24 else code_bits > 24
        decreases 32 - code_bits
      {
        var more := GrowByte();
        if !more {
          return;
        }
        again := code_bits <= 24;
      }
    }

    /** The code that keeps sixteen bits in the buffer. */
    method Prepare(n: nat)
      requires Valid() && n <= 16
      modifies this
      ensures Valid() && Pos() == old(Pos()) && Ready(n)
    {
      if code_bits < n {
        Grow();
      }
    }

    /** The top k bits. */
    method Peek(k: nat) returns (v: nat)
      requires Valid() && Ready(k) && k <= 32
      ensures v == TakeMSB(Bits(), Pos(), k)
    {
      BuffersTop(code_buffer, Bits(), Pos(), code_bits, k);
      v := Shr(code_buffer, 32 - k);
    }

    /** Drop the top k bits. */
    method Drop(k: nat)
      requires Valid() && k <= code_bits
      modifies this`code_buffer, this`code_bits
      ensures Valid() && Pos() == old(Pos()) + k && code_bits == old(code_bits) - k
    {
      BuffersLess(code_buffer, Bits(), Pos(), code_bits, k);
      code_buffer := Low(Shl(code_buffer, k), 32);
      code_bits := code_bits - k;
    }
  }
}
