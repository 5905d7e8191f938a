/** The streaming digest: MD5_Init, MD5_Update, MD5_Final and MD5. */
module Md5 {
  import opened Bits
  import opened Md5Spec
  import opened Md5Words
  import opened Md5Block

  /** n bytes already in a context and len more: the bit count's low and high word after MD5_Update. */
  function LowCount(nl: word, len: nat): word { (nl + len % 0x1_0000_0000 * 8 % 0x1_0000_0000) % 0x1_0000_0000 }

  function HighCount(nl: word, nh: word, len: nat): word
  {
    var l := LowCount(nl, len);
    (nh + (if l < nl then 1 else 0) + len / 0x2000_0000) % 0x1_0000_0000
  }

  /** Both words together are the bit count modulo 2^64, for every length. */
  lemma CountAdds(nl: word, nh: word, len: nat)
    ensures (LowCount(nl, len) + 0x1_0000_0000 * HighCount(nl, nh, len)) % 0x1_0000_0000_0000_0000
         == (nl + 0x1_0000_0000 * nh + 8 * len) % 0x1_0000_0000_0000_0000
  {
    var x := len % 0x1_0000_0000 * 8 % 0x1_0000_0000;
    BitsSplit(len);
    Carried(nl, x);
    var l := LowCount(nl, len);
    HighWraps(l, nh + (if l < nl then 1 else 0) + len / 0x2000_0000);
  }

  lemma BitsSplit(len: nat)
    ensures 8 * len == len % 0x1_0000_0000 * 8 % 0x1_0000_0000 + 0x1_0000_0000 * (len / 0x2000_0000)
  {
    var lo, hi := len % 0x2000_0000, len / 0x2000_0000;
    assert len % 0x1_0000_0000 == lo + 0x2000_0000 * (hi % 8);
  }

  lemma Carried(nl: word, x: nat)
    requires x < 0x1_0000_0000
    ensures var l := (nl + x) % 0x1_0000_0000; nl + x == l + 0x1_0000_0000 * (if l < nl then 1 else 0)
  {
  }

  lemma HighWraps(l: word, y: nat)
    ensures (l + 0x1_0000_0000 * (y % 0x1_0000_0000)) % 0x1_0000_0000_0000_0000
      == (l + 0x1_0000_0000 * y) % 0x1_0000_0000_0000_0000
  {
    var q := y / 0x1_0000_0000;
    assert l + 0x1_0000_0000 * y == l + 0x1_0000_0000 * (y % 0x1_0000_0000) + 0x1_0000_0000_0000_0000 * q;
  }

  /** Everything of s but its last, incomplete block. */
  function Whole(s: seq<byte>): (r: seq<byte>)
    ensures r <= s && |r| % 64 == 0 && |s| - |r| == |s| % 64
  {
    s[..|s| - |s| % 64]
  }

  class MD5_CTX {
    var A: word
    var B: word
    var C: word
    var D: word
    var Nl: word
    var Nh: word
    var data: array<byte>
    var num: nat
    /** All bytes given since MD5_Init. */
    ghost var message: seq<byte>

    ghost function Sums(): State
      reads this
    {
      State(A, B, C, D)
    }

    /** What the fields say of the bytes so far, the bit count aside. */
    ghost predicate Buffered()
      reads this, data
    {
      && data.Length == 64 && num == |message| % 64
      && message == Whole(message) + data[..num]
      && Sums() == Blocks(START, Whole(message))
    }

    ghost predicate Valid()
      reads this, data
    {
      Buffered() && Nl as nat + 0x1_0000_0000 * Nh as nat == 8 * |message| % 0x1_0000_0000_0000_0000
    }

    /** MD5_Init */
    constructor ()
      ensures Valid() && message == [] && fresh(data)
    {
      A := 0x67452301;
      B := 0xefcdab89;
      C := 0x98badcfe;
      D := 0x10325476;
      Nl, Nh, num := 0, 0, 0;
      data := new byte[64];
      message := [];
    }

    /** md5_block_data_order */
    method BlockDataOrder(s: seq<byte>, n: nat)
      requires 64 * n <= |s|
      modifies this`A, this`B, this`C, this`D
      ensures Sums() == Blocks(old(Sums()), s[..64 * n])
    {
      hide Compress;
      for i := 0 to n
        invariant Sums() == Blocks(old(Sums()), s[..64 * i])
      {
        ghost var block := s[64 * i..64 * i + 64];
        BlocksAppend(old(Sums()), s[..64 * i], block);
        assert s[..64 * (i + 1)] == s[..64 * i] + block;
        OneBlock(Sums(), block);
        var r := Block(State(A, B, C, D), s, 64 * i);
        A, B, C, D := r.a, r.b, r.c, r.d;
      }
    }

    method CopyIn(at: nat, s: seq<byte>)
      requires at + |s| <= data.Length
      modifies data
      ensures data[..at + |s|] == old(data[..at]) + s
    {
      for i := 0 to |s|
        invariant data[..at + i] == old(data[..at]) + s[..i]
      {
        data[at + i] := s[i];
      }
      assert s[..|s|] == s;
    }

    method Clear()
      modifies data
      ensures forall i :: 0 <= i < data.Length ==> data[i] == 0
    {
      for i := 0 to data.Length
        invariant forall k :: 0 <= k < i ==> data[k] == 0
      {
        data[i] := 0;
      }
    }

    /** The count of bits; the addition is split so that it fits 32 bits. */
    method CountUp(len: nat)
      modifies this`Nl, this`Nh
      ensures Nl == LowCount(old(Nl), len) && Nh == HighCount(old(Nl), old(Nh), len)
      ensures Buffered() == old(Buffered())
    {
      var l := (Nl + len % 0x1_0000_0000 * 8 % 0x1_0000_0000) % 0x1_0000_0000;
      if l < Nl {
        Nh := (Nh + 1) % 0x1_0000_0000;
      }
      Nh := (Nh + len / 0x2000_0000) % 0x1_0000_0000;
      Nl := l;
    }

    /** The buffer has room for all of s. */
    method Append(s: seq<byte>)
      requires Buffered() && num + |s| < 64
      modifies this`num, this`message, data
      ensures Buffered() && message == old(message) + s
    {
      hide Blocks;
      CopyIn(num, s);
      num := num + |s|;
      message := message + s;
      assert Whole(message) == Whole(old(message));
    }

    /** The buffer is filled up and goes through the block function. */
    method Fill(s: seq<byte>) returns (rest: seq<byte>)
      requires Buffered() && 0 < num <= 64 <= num + |s|
      modifies this, data
      ensures Buffered() && num == 0 && Nl == old(Nl) && Nh == old(Nh) && data == old(data)
      ensures exists k :: 0 <= k <= |s| && message == old(message) + s[..k] && rest == s[k..]
    {
      hide Blocks;
      ghost var before, base := message, Whole(message);
      var n := 64 - num;
      CopyIn(num, s[..n]);
      ghost var block := data[..];
      assert data[..64] == block;
      BlockDataOrder(data[..], 1);
      assert block[..64] == block;
      BlocksAppend(START, base, block);
      num := 0;
      Clear();
      rest := s[n..];
      message := message + s[..n];
      assert message == base + block == Whole(message);
      assert message == before + s[..n];
    }

    /** The buffer is empty: whole blocks straight from s. */
    method DirectBlocks(s: seq<byte>, n: nat)
      requires Buffered() && num == 0 && 64 * n <= |s|
      modifies this`A, this`B, this`C, this`D, this`message
      ensures Buffered() && message == old(message) + s[..64 * n]
    {
      hide Blocks;
      ghost var before := message;
      assert data[..0] == [];
      assert Whole(message) == message;
      BlockDataOrder(s, n);
      BlocksAppend(START, before, s[..64 * n]);
      message := before + s[..64 * n];
      assert |message| % 64 == 0;
      assert Whole(message) == message;
    }

    /** The buffer is empty: whole blocks straight from s, the rest into the buffer. */
    method Direct(s: seq<byte>)
      requires Buffered() && num == 0
      modifies this, data
      ensures Buffered() && message == old(message) + s && Nl == old(Nl) && Nh == old(Nh) && data == old(data)
    {
      hide Buffered;
      var n := |s| / 64;
      var rest := s;
      assert s[..0] == [];
      if n > 0 {
        DirectBlocks(s, n);
        rest := s[64 * n..];
      }
      assert old(message) + s == (old(message) + s[..64 * n]) + s[64 * n..];
      if |rest| != 0 {
        Append(rest);
      }
    }

    /** MD5_Update behind the count. */
    method Absorb(input: seq<byte>)
      requires Buffered()
      modifies this, data
      ensures Buffered() && message == old(message) + input && Nl == old(Nl) && Nh == old(Nh) && data == old(data)
    {
      hide Buffered;
      var len := |input|;
      ghost var before := message;
      NumFits();
      if num != 0 {
        if len >= 64 || len + num >= 64 {
          var rest := Fill(input);
          Direct(rest);
          ghost var k :| 0 <= k <= |input| && message == (before + input[..k]) + rest && rest == input[k..];
          assert (before + input[..k]) + input[k..] == before + input;
        } else {
          Append(input);
        }
      } else {
        Direct(input);
      }
    }

    /** MD5_Update */
    method Update(input: seq<byte>)
      requires Valid()
      modifies this, data
      ensures Valid() && message == old(message) + input && data == old(data)
    {
      hide Buffered, LowCount, HighCount;
      if |input| == 0 {
        return;
      }
      CountAdds(Nl, Nh, |input|);
      ghost var before := message;
      CountUp(|input|);
      Absorb(input);
      CountIs(Nl, Nh, |before|, |input|);
    }

    method ZeroFrom(at: nat, end: nat)
      requires at <= end <= data.Length
      modifies data
      ensures data[..end] == old(data[..at]) + Zeros(end - at)
    {
      for i := at to end
        invariant data[..i] == old(data[..at]) + Zeros(i - at)
      {
        data[i] := 0;
      }
    }

    /** The block function on the whole buffer. */
    method BufferBlock()
      requires data.Length == 64
      modifies this`A, this`B, this`C, this`D
      ensures Sums() == Blocks(old(Sums()), data[..])
    {
      assert data[..][..64] == data[..];
      BlockDataOrder(data[..], 1);
    }

    /** The first half of MD5_Final: the 1 bit, and zeros up to the place of the length. */
    method Pad(ghost base: seq<byte>, ghost tail: seq<byte>)
      requires data.Length == 64 && num < 64 && data[..num] == tail && |base| % 64 == 0 && Sums() == Blocks(START, base)
      modifies this`A, this`B, this`C, this`D, data
      ensures data == old(data)
      ensures forall length {:trigger data[..56] + length} :: |length| == 8 ==>
        Blocks(Sums(), data[..56] + length) == Blocks(START, base + (tail + [0x80] + Zeros((55 - num) % 64) + length))
    {
      hide Blocks;
      var n := num;
      data[n] := 0x80;
      n := n + 1;
      assert data[..n] == tail + [0x80];
      ghost var done := base;
      if n > 56 {
        ZeroFrom(n, 64);
        assert data[..64] == data[..];
        BufferBlock();
        done := base + data[..];
        BlocksAppend(START, base, data[..]);
        n := 0;
      }
      ghost var before := data[..n];
      ZeroFrom(n, 56);
      forall length {:trigger data[..56] + length} | |length| == 8
        ensures Blocks(Sums(), data[..56] + length)
          == Blocks(START, base + (tail + [0x80] + Zeros((55 - num) % 64) + length))
      {
        BlocksAppend(START, done, data[..56] + length);
        PadSplits(base, tail, done, data[..56], length);
      }
    }

    /** The bytes of the length. */
    method PutLength()
      requires data.Length == 64
      modifies data
      ensures data[..] == old(data[..56]) + (WordBytes(Nl) + WordBytes(Nh))
    {
      CopyIn(56, WordBytes(Nl) + WordBytes(Nh));
      assert data[..64] == data[..];
    }

    /** MD5_Final */
    method Final() returns (md: seq<byte>)
      requires Valid()
      modifies this, data
      ensures md == Digest(old(message))
    {
      hide Blocks, Compress, Output, LengthBytes, WordBytes;
      ghost var msg, base, tail := message, Whole(message), data[..num];
      Pad(base, tail);
      LengthIs(Nl, Nh, |msg|);
      ghost var length := WordBytes(Nl) + WordBytes(Nh);
      ghost var head := data[..56] + length;
      PutLength();
      BufferBlock();
      PaddedIs(msg, base, tail, length);
      num := 0;
      Clear();
      md := WordBytes(A) + WordBytes(B) + WordBytes(C) + WordBytes(D);
      OutputIs(Sums());
    }

    lemma NumFits()
      requires Buffered()
      ensures num < 64
    {
    }
  }

  lemma LengthIs(nl: word, nh: word, m: nat)
    requires nl as nat + 0x1_0000_0000 * nh as nat == 8 * m % 0x1_0000_0000_0000_0000
    ensures WordBytes(nl) + WordBytes(nh) == LengthBytes(m)
  {
    hide Bytes8, WordBytes;
    Bytes8Is(nl, nh);
  }

  lemma Bytes8Is(nl: word, nh: word)
    ensures Bytes8(nl as nat + 0x1_0000_0000 * nh as nat) == WordBytes(nl) + WordBytes(nh)
  {
    var v := nl as nat + 0x1_0000_0000 * nh as nat;
    ByteOfSum(nl, nh, 0x100, 0x100_0000);
    ByteOfSum(nl, nh, 0x1_0000, 0x1_0000);
    ByteOfSum(nl, nh, 0x100_0000, 0x100);
    UpperBytes(nl, nh);
    assert v % 256 == nl % 256;
    assert nl / 0x100_0000 < 256 && nh / 0x100_0000 < 256;
  }

  lemma ByteOfSum(nl: word, nh: word, d: nat, e: nat)
    requires (d == 0x100 && e == 0x100_0000) || (d == 0x1_0000 && e == 0x1_0000) || (d == 0x100_0000 && e == 0x100)
    ensures (nl as nat + 0x1_0000_0000 * nh as nat) / d % 256 == nl / d % 256
  {
    if d == 0x100 {
      assert (nl as nat + 0x1_0000_0000 * nh as nat) / 0x100 == nl / 0x100 + 256 * (0x1_0000 * nh);
      LowByteOfSum(0x1_0000 * nh, nl / 0x100);
    } else if d == 0x1_0000 {
      assert (nl as nat + 0x1_0000_0000 * nh as nat) / 0x1_0000 == nl / 0x1_0000 + 256 * (0x100 * nh);
      LowByteOfSum(0x100 * nh, nl / 0x1_0000);
    } else {
      assert (nl as nat + 0x1_0000_0000 * nh as nat) / 0x100_0000 == nl / 0x100_0000 + 256 * nh;
      LowByteOfSum(nh, nl / 0x100_0000);
    }
  }

  lemma LowByteOfSum(q: nat, r: nat)
    ensures (r + 256 * q) % 256 == r % 256
  {
  }

  lemma UpperBytes(nl: word, nh: word)
    ensures var v := nl as nat + 0x1_0000_0000 * nh as nat;
      v / 0x1_0000_0000 == nh && v / 0x100_0000_0000 == nh / 0x100
      && v / 0x1_0000_0000_0000 == nh / 0x1_0000 && v / 0x100_0000_0000_0000 == nh / 0x100_0000
  {
    var v := nl as nat + 0x1_0000_0000 * nh as nat;
    assert v / 0x1_0000_0000 == nh;
  }

  lemma PaddedIs(msg: seq<byte>, base: seq<byte>, tail: seq<byte>, length: seq<byte>)
    requires msg == base + tail && |base| % 64 == 0 && |tail| < 64 && length == LengthBytes(|msg|)
    ensures Padded(msg) == base + (tail + [0x80] + Zeros((55 - |tail|) % 64) + length)
  {
    hide LengthBytes;
    assert (55 - |tail|) % 64 == (55 - |msg|) % 64;
  }

  /** The padding, cut where MD5_Final cuts it. */
  lemma PadSplits(base: seq<byte>, tail: seq<byte>, done: seq<byte>, last: seq<byte>, length: seq<byte>)
    requires |tail| < 64
    requires if |tail| < 56 then done == base && last == tail + [0x80] + Zeros(55 - |tail|)
             else done == base + (tail + [0x80] + Zeros(63 - |tail|)) && last == Zeros(56)
    ensures done + (last + length) == base + (tail + [0x80] + Zeros((55 - |tail|) % 64) + length)
  {
    if |tail| < 56 {
      assert (55 - |tail|) % 64 == 55 - |tail|;
    } else {
      assert (55 - |tail|) % 64 == 119 - |tail|;
      assert Zeros(119 - |tail|) == Zeros(63 - |tail|) + Zeros(56);
    }
  }

  lemma CountIs(nl: word, nh: word, m: nat, len: nat)
    requires (nl as nat + 0x1_0000_0000 * nh as nat) % 0x1_0000_0000_0000_0000
          == (8 * m % 0x1_0000_0000_0000_0000 + 8 * len) % 0x1_0000_0000_0000_0000
    ensures nl as nat + 0x1_0000_0000 * nh as nat == 8 * (m + len) % 0x1_0000_0000_0000_0000
  {
    var q, r := 8 * m / 0x1_0000_0000_0000_0000, 8 * m % 0x1_0000_0000_0000_0000;
    assert 8 * (m + len) == 0x1_0000_0000_0000_0000 * q + (r + 8 * len);
    Wraps(q, r + 8 * len);
    Wraps(0, nl as nat + 0x1_0000_0000 * nh as nat);
  }

  lemma Wraps(q: nat, r: nat)
    ensures (0x1_0000_0000_0000_0000 * q + r) % 0x1_0000_0000_0000_0000 == r % 0x1_0000_0000_0000_0000
    ensures r < 0x1_0000_0000_0000_0000 ==> r % 0x1_0000_0000_0000_0000 == r
  {
  }

  /** MD5 */
  method MD5(d: seq<byte>) returns (md: seq<byte>)
    ensures md == Digest(d)
  {
    var c := new MD5_CTX();
    c.Update(d);
    assert [] + d == d;
    md := c.Final();
  }

  function Joined(chunks: seq<seq<byte>>): seq<byte>
  {
    if chunks == [] then [] else Joined(chunks[..|chunks| - 1]) + chunks[|chunks| - 1]
  }

  /** However a message is cut into chunks, the digest is that of the whole. */
  method DigestChunks(chunks: seq<seq<byte>>) returns (md: seq<byte>)
    ensures md == Digest(Joined(chunks))
  {
    var c := new MD5_CTX();
    assert chunks[..0] == [];
    for i := 0 to |chunks|
      invariant c.Valid() && fresh(c) && fresh(c.data) && c.message == Joined(chunks[..i])
    {
      c.Update(chunks[i]);
      assert chunks[..i + 1][..i] == chunks[..i];
    }
    assert chunks[..|chunks|] == chunks;
    md := c.Final();
  }
}
