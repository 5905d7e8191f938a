/**
  The inflater: stbi__zbuf, stbi__parse_huffman_block, stbi__compute_huffman_codes,
  stbi__parse_uncompressed_block, stbi__parse_zlib.  Every method is proved against the
  decoder over plain bits of InflateSpec.
*/
module Inflater {
  import opened Bits
  import opened Canonical
  import opened Wrappers
  import opened ZHuffmanTables
  import opened ZReader
  import opened InflateSpec

  /** The output side of stbi__zbuf: zout_start, zout and zout_end. */
  class OutBuf {
    var data: array<byte>
    var zout: nat
    const expandable: bool

    ghost predicate Valid()
      reads this
    {
      zout <= data.Length && (expandable ==> data.Length > 0)
    }

    ghost function Contents(): seq<byte>
      reads this, data
      requires Valid()
    {
      data[..zout]
    }

    /** The size the output is limited to. */
    ghost function Room(): Option<nat>
      reads this
    {
      if expandable then None else Some(data.Length)
    }

    constructor (obuf: array<byte>, exp: bool)
      requires exp ==> obuf.Length > 0
      ensures Valid() && Contents() == [] && expandable == exp && data == obuf
    {
      data := obuf;
      zout := 0;
      expandable := exp;
    }

    /** stbi__zexpand: double the buffer until n more bytes fit, and move the output over. */
    method Expand(n: nat) returns (ok: bool)
      requires Valid()
      modifies this`data
      ensures Valid() && Contents() == old(Contents()) && Room() == old(Room())
      ensures ok <==> expandable
      ensures ok ==> zout + n <= data.Length && fresh(data)
      ensures !ok ==> data == old(data)
    {
      if !expandable {
        return false;
      }
      var limit := data.Length;
      while zout + n > limit
        invariant data.Length <= limit && limit > 0
        decreases zout + n - limit
      {
        limit := limit * 2;
      }
      var q := new byte[limit](_ => 0);
      forall i | 0 <= i < zout {
        q[i] := data[i];
      }
      assert q[..zout] == data[..zout];
      data := q;
      return true;
    }

    /** Make room for n bytes, or report that the buffer is full. */
    method Reserve(n: nat) returns (ok: bool)
      requires Valid()
      modifies this`data
      ensures Valid() && Contents() == old(Contents()) && Room() == old(Room())
      ensures ok <==> !Overflows(Room(), |Contents()| + n)
      ensures ok ==> zout + n <= data.Length
      ensures data == old(data) || (fresh(data) && expandable)
    {
      ok := true;
      if zout + n > data.Length {
        ok := Expand(n);
      }
    }

    method Put(b: byte)
      requires Valid() && zout < data.Length
      modifies this`zout, data
      ensures Valid() && Contents() == old(Contents()) + [b] && Room() == old(Room())
    {
      data[zout] := b;
      zout := zout + 1;
    }

    /** Copy len bytes from dist back; one repeated byte is special-cased. */
    method Copy(dist: nat, len: nat)
      requires Valid() && 1 <= dist <= zout && zout + len <= data.Length
      modifies this`zout, data
      ensures Valid() && Contents() == CopyMatch(old(Contents()), dist, len) && Room() == old(Room())
    {
      if dist == 1 {
        CopyRun(len);
      } else {
        CopyBack(dist, len);
      }
    }

    method CopyRun(len: nat)
      requires Valid() && 1 <= zout && zout + len <= data.Length
      modifies this`zout, data
      ensures Valid() && Contents() == CopyMatch(old(Contents()), 1, len) && Room() == old(Room())
    {
      ghost var out := CopyMatch(Contents(), 1, len);
      var v := data[zout - 1];
      var n: nat := len;
      while n > 0
        invariant Valid() && zout + n <= data.Length && zout > 0 && data[zout - 1] == v
        invariant Room() == old(Room()) && CopyMatch(Contents(), 1, n) == out
      {
        Put(v);
        n := n - 1;
      }
    }

    method CopyBack(dist: nat, len: nat)
      requires Valid() && 1 <= dist <= zout && zout + len <= data.Length
      modifies this`zout, data
      ensures Valid() && Contents() == CopyMatch(old(Contents()), dist, len) && Room() == old(Room())
    {
      ghost var out := CopyMatch(Contents(), dist, len);
      var p: nat := zout - dist;
      var n: nat := len;
      while n > 0
        invariant Valid() && zout + n <= data.Length && p + dist == zout
        invariant Room() == old(Room()) && CopyMatch(Contents(), dist, n) == out
      {
        assert data[p] == Contents()[|Contents()| - dist];
        Put(data[p]);
        p := p + 1;
        n := n - 1;
      }
    }

    /** memcpy of stored bytes. */
    method Append(s: seq<byte>)
      requires Valid() && zout + |s| <= data.Length
      modifies this`zout, data
      ensures Valid() && Contents() == old(Contents()) + s && Room() == old(Room())
    {
      forall i | zout <= i < zout + |s| {
        data[i] := s[i - zout];
      }
      zout := zout + |s|;
    }
  }

  lemma {:induction false} XorComplement(x: nat, n: nat)
    requires x < Pow2(n)
    ensures Xor(x, Pow2(n) - 1) == Pow2(n) - 1 - x
    decreases n
  {
    if n > 0 {
      assert (Pow2(n) - 1) / 2 == Pow2(n - 1) - 1 && (Pow2(n) - 1) % 2 == 1;
      XorComplement(x / 2, n - 1);
    }
  }

  lemma XorComplement16(x: nat)
    requires x < 0x10000
    ensures Xor(x, 0xFFFF) == 0xFFFF - x
  {
    Pow2Of15();
    XorComplement(x, 16);
  }

  lemma PastEndByte(data: seq<byte>, k: nat)
    ensures k >= |data| ==> ByteAt(Unpack(data), k) == 0
  {
    TakeByte(data, k);
  }

  lemma {:induction false} BytesOfInput(data: seq<byte>, k: nat, n: nat)
    requires k + n <= |data|
    ensures BytesAt(Unpack(data), k, n) == data[k..k + n]
    decreases n
  {
    if n > 0 {
      TakeByte(data, k);
      BytesOfInput(data, k + 1, n - 1);
    }
  }

  lemma TakeBits12(bits: seq<bool>, pos: nat)
    ensures Take(bits, pos, 1) < 2 && Take(bits, pos + 1, 2) < 4
  {
    TakeBound(bits, pos, 1);
    TakeBound(bits, pos + 1, 2);
    assert Pow2(1) == 2 && Pow2(2) == 4;
  }

  lemma FixedKraft()
    ensures KraftHolds(FixedLit()) && KraftHolds(FixedDist())
  {
    hide FixedLit, FixedDist;
    FixedLitKraft(288);
    FixedDistKraft(32);
  }

  /** The Kraft sum of the fixed literal code: 144 eight-bit, 112 nine-bit, 24 seven-bit, 8 eight-bit codes. */
  lemma {:induction false} FixedLitKraft(n: nat)
    requires n <= 288
    ensures Kraft(FixedLit(), n, 15) ==
      if n <= 144 then 128 * n else if n <= 256 then 128 * 144 + 64 * (n - 144)
      else if n <= 280 then 128 * 144 + 64 * 112 + 256 * (n - 256)
      else 128 * 144 + 64 * 112 + 256 * 24 + 128 * (n - 280)
  {
    if n > 0 {
      assert Pow2(4) == 16;
      assert Pow2(6) == 64 && Pow2(7) == 128 && Pow2(8) == 256;
      FixedLitKraft(n - 1);
    }
  }

  lemma {:induction false} FixedDistKraft(n: nat)
    requires n <= 32
    ensures Kraft(FixedDist(), n, 15) == 1024 * n
  {
    if n > 0 {
      assert Pow2(10) == 1024 by { assert Pow2(5) == 32; }
      FixedDistKraft(n - 1);
    }
  }

  class ZBuf {
    const reader: BitReader
    const out: OutBuf
    const z_length: ZHuffman
    const z_distance: ZHuffman

    /** The reader, the output and the tables share no memory. */
    ghost predicate Apart()
    {
      && z_length.Shape() && z_distance.Shape() && z_length.Repr() !! z_distance.Repr()
      && reader !in z_length.Repr() + z_distance.Repr() && out !in z_length.Repr() + z_distance.Repr()
    }

    ghost predicate Valid()
      reads reader, out
    {
      Apart() && reader.Valid() && out.Valid()
    }

    ghost predicate Ready()
      reads z_length.Repr(), z_distance.Repr()
    {
      z_length.Built() && z_distance.Built() && |z_length.lens| <= 288 && |z_distance.lens| <= 32
    }

    constructor (input: seq<byte>, obuf: array<byte>, exp: bool)
      requires exp ==> obuf.Length > 0
      ensures Valid() && reader.data == input && reader.Pos() == 0 && reader.num_bits == 0
      ensures out.Contents() == [] && out.data == obuf
      ensures out.Room() == if exp then None else Some(obuf.Length)
      ensures fresh(reader) && fresh(out) && fresh(z_length.Repr()) && fresh(z_distance.Repr())
    {
      reader := new BitReader(input);
      out := new OutBuf(obuf, exp);
      z_length := new ZHuffman();
      z_distance := new ZHuffman();
    }

    /** A base value plus n extra bits, if there are any. */
    method ReadExtra(base: nat, n: nat) returns (v: nat)
      requires reader.Valid() && n <= 16
      modifies reader
      ensures reader.Valid() && reader.Pos() == old(reader.Pos()) + n
      ensures v == Extra(reader.Bits(), old(reader.Pos()), base, n)
    {
      v := base;
      if n != 0 {
        var k := reader.Receive(n);
        v := v + k;
      }
    }

    method DecodeDistance() returns (ok: bool, ghost symbol: nat, dist: nat)
      requires reader.Valid() && z_distance.Built() && |z_distance.lens| <= 32
      requires reader !in z_distance.Repr()
      modifies reader
      ensures reader.Valid()
      ensures match DistanceAt(reader.Bits(), old(reader.Pos()), z_distance.lens)
              case Some(d) => ok && d == Distance(symbol, dist, reader.Pos())
              case None => !ok
    {
      var d := reader.HuffmanDecode(z_distance);
      if d < 0 {
        return false, 0, 0;
      }
      dist := ReadExtra(DistBase(d), DistExtra(d));
      return true, d, dist;
    }

    /** Check the distance, make room and copy. */
    method EmitCopy(len: nat, ghost d: Distance, dist: nat) returns (ok: bool)
      requires out.Valid() && d.symbol < 30 && d.back == dist >= 1
      modifies out, out.data
      ensures out.Valid() && (out.data == old(out.data) || (out.expandable && fresh(out.data)))
        && out.Room() == old(out.Room())
      ensures match EmitMatch(old(out.Contents()), len, d, out.Room())
              case Next(o, p) => ok && out.Contents() == o
              case Stop(_) => !ok
    {
      if out.zout < dist {
        return false;
      }
      ok := out.Reserve(len);
      if ok {
        out.Copy(dist, len);
      }
    }

    /** The length and distance of a match, and its copy. */
    method MatchSymbol(z: nat) returns (ok: bool)
      requires Valid() && Ready() && z < 31
      requires MatchStep(reader.Bits(), reader.Pos(), out.Contents(), z, z_distance.lens, out.Room()) != Stop(Undefined)
      modifies reader, out, out.data
      ensures Valid() && (out.data == old(out.data) || (out.expandable && fresh(out.data)))
        && out.Room() == old(out.Room())
      ensures match MatchStep(reader.Bits(), old(reader.Pos()), old(out.Contents()), z, z_distance.lens, out.Room())
              case Next(o, p) => ok && out.Contents() == o && reader.Pos() == p
              case Stop(_) => !ok
    {
      hide ZHuffman.Built, Decode, LengthBase, LengthExtra;
      var len := ReadExtra(LengthBase(z), LengthExtra(z));
      ghost var symbol;
      var dist;
      ok, symbol, dist := DecodeDistance();
      if ok {
        ok := EmitCopy(len, Distance(symbol, dist, reader.Pos()), dist);
      }
    }

    method Literal(b: byte) returns (ok: bool)
      requires out.Valid()
      modifies out, out.data
      ensures out.Valid() && (out.data == old(out.data) || (out.expandable && fresh(out.data)))
        && out.Room() == old(out.Room())
      ensures ok <==> !Overflows(out.Room(), |old(out.Contents())| + 1)
      ensures ok ==> out.Contents() == old(out.Contents()) + [b]
    {
      ok := out.Reserve(1);
      if ok {
        out.Put(b);
      }
    }

    /** One round of the loop of stbi__parse_huffman_block. */
    method Symbol() returns (ok: bool, end: bool)
      requires Valid() && Ready()
      requires Step(reader.Bits(), reader.Pos(), out.Contents(), z_length.lens, z_distance.lens, out.Room())
        != Stop(Undefined)
      modifies reader, out, out.data
      ensures Valid() && (out.data == old(out.data) || (out.expandable && fresh(out.data)))
        && out.Room() == old(out.Room())
      ensures match Step(reader.Bits(), old(reader.Pos()), old(out.Contents()), z_length.lens, z_distance.lens,
        out.Room())
              case Next(o, p) => ok && !end && out.Contents() == o && reader.Pos() == p
              case Stop(Done(o, p)) => ok && end && out.Contents() == o && reader.Pos() == p
              case Stop(_) => !ok
    {
      hide ZHuffman.Built, Decode, MatchStep;
      end := false;
      var z := reader.HuffmanDecode(z_length);
      if z < 256 {
        if z < 0 {
          return false, false;
        }
        ok := Literal(z);
      } else if z == 256 {
        return true, true;
      } else {
        ok := MatchSymbol(z - 257);
      }
    }

    /** stbi__parse_huffman_block */
    method ParseHuffmanBlock() returns (ok: bool)
      requires Valid() && Ready()
      requires Block(reader.Bits(), reader.Pos(), out.Contents(), z_length.lens, z_distance.lens, out.Room())
        != Undefined
      modifies reader, out, out.data
      ensures Valid() && (out.data == old(out.data) || (out.expandable && fresh(out.data)))
        && out.Room() == old(out.Room())
      ensures match Block(reader.Bits(), old(reader.Pos()), old(out.Contents()), z_length.lens, z_distance.lens,
        out.Room())
              case Done(o, p) => ok && out.Contents() == o && reader.Pos() == p
              case _ => !ok
    {
      hide ZHuffman.Built, Decode, MatchStep;
      ghost var bits, lit, dist, room := reader.Bits(), z_length.lens, z_distance.lens, out.Room();
      ghost var r := Block(bits, reader.Pos(), out.Contents(), lit, dist, room);
      var end := false;
      while !end
        invariant Valid() && Ready() && z_length.lens == lit && z_distance.lens == dist && out.Room() == room
        invariant out.data == old(out.data) || (out.expandable && fresh(out.data))
        invariant r != Undefined
        invariant if end then r == Done(out.Contents(), reader.Pos())
                  else Block(bits, reader.Pos(), out.Contents(), lit, dist, room) == r
        decreases Unread(bits, reader.Pos()), Missing(room, |out.Contents()|), !end
      {
        ok, end := Symbol();
        if !ok {
          return false;
        }
      }
      return true;
    }

    /** Discard the rest of the current byte; at most three whole bytes stay prefetched. */
    method Align()
      requires reader.Valid() && reader.num_bits < 32
      modifies reader
      ensures reader.Valid() && reader.num_bits % 8 == 0 && reader.num_bits <= 24
      ensures reader.Pos() == 8 * ((old(reader.Pos()) + 7) / 8)
    {
      hide Take;
      if reader.num_bits % 8 != 0 {
        var _ := reader.Receive(reader.num_bits % 8);
      }
    }

    /** Move the prefetched bytes to the header. */
    method DrainHeader(header: array<byte>) returns (k: nat)
      requires reader.Valid() && reader.num_bits % 8 == 0 && reader.num_bits <= 24 && reader.Pos() % 8 == 0
      requires header.Length == 4
      modifies reader, header
      ensures reader.Valid() && reader.num_bits == 0 && k <= 3
      ensures reader.Pos() == old(reader.Pos()) + 8 * k
      ensures forall i :: 0 <= i < k ==> header[i] == ByteAt(reader.Bits(), old(reader.Pos()) / 8 + i)
    {
      hide Take;
      ghost var q, bits := reader.Pos() / 8, reader.Bits();
      k := 0;
      while reader.num_bits > 0
        invariant reader.Valid() && reader.num_bits % 8 == 0 && reader.Pos() == 8 * (q + k)
        invariant k * 8 + reader.num_bits <= 24
        invariant forall i :: 0 <= i < k ==> header[i] == ByteAt(bits, q + i)
        decreases reader.num_bits
      {
        header[k] := reader.Drain();
        k := k + 1;
      }
    }

    method FillHeader(header: array<byte>, have: nat)
      requires reader.Valid() && reader.num_bits == 0 && have <= 4 && header.Length == 4
      requires reader.Pos() >= 8 * have
      requires forall i :: 0 <= i < have ==> header[i] == ByteAt(reader.Bits(), reader.Pos() / 8 - have + i)
      modifies reader, header
      ensures reader.Valid() && reader.num_bits == 0
      ensures reader.Pos() == old(reader.Pos()) + 8 * (4 - have)
      ensures forall i :: 0 <= i < 4 ==> header[i] == ByteAt(reader.Bits(), old(reader.Pos()) / 8 - have + i)
    {
      hide Take;
      ghost var q, bits := reader.Pos() / 8 - have, reader.Bits();
      var k := have;
      while k < 4
        invariant k <= 4 && reader.Valid() && reader.num_bits == 0 && reader.Pos() == 8 * (q + k)
        invariant forall i :: 0 <= i < k ==> header[i] == ByteAt(bits, q + i)
      {
        header[k] := reader.Get8();
        k := k + 1;
      }
    }

    method StoredLengths() returns (len: nat, nlen: nat)
      requires reader.Valid() && reader.num_bits < 32
      modifies reader
      ensures reader.Valid() && reader.num_bits == 0
      ensures reader.Pos() == 8 * ((old(reader.Pos()) + 7) / 8 + 4)
      ensures len == StoredLength(reader.Bits(), (old(reader.Pos()) + 7) / 8) < 0x10000
      ensures nlen == StoredLength(reader.Bits(), (old(reader.Pos()) + 7) / 8 + 2)
    {
      hide Take;
      var header := new byte[4];
      Align();
      var k := DrainHeader(header);
      FillHeader(header, k);
      len := header[1] as int * 256 + header[0] as int;
      nlen := header[3] as int * 256 + header[2] as int;
    }

    /** The payload of a stored block. */
    method StoredBytes(len: nat, ghost q: nat) returns (ok: bool)
      requires Valid() && reader.num_bits == 0 && reader.Pos() == 8 * (q + 4) && q + 4 + len <= |reader.data|
      modifies reader, out, out.data
      ensures Valid() && (out.data == old(out.data) || (out.expandable && fresh(out.data)))
        && out.Room() == old(out.Room())
      ensures ok <==> !Overflows(out.Room(), |old(out.Contents())| + len)
      ensures ok ==> out.Contents() == old(out.Contents()) + BytesAt(reader.Bits(), q + 4, len)
      ensures ok ==> reader.Pos() == 8 * (q + 4 + len)
    {
      hide BytesAt;
      ok := out.Reserve(len);
      if ok {
        var s := reader.TakeBytes(len);
        BytesOfInput(reader.data, q + 4, len);
        out.Append(s);
      }
    }

    /** stbi__parse_uncompressed_block */
    method ParseUncompressedBlock() returns (ok: bool)
      requires Valid() && reader.num_bits < 32
      modifies reader, out, out.data
      ensures Valid() && (out.data == old(out.data) || (out.expandable && fresh(out.data)))
        && out.Room() == old(out.Room())
      ensures match Stored(reader.Bits(), old(reader.Pos()), old(out.Contents()), out.Room())
              case Done(o, p) => ok && out.Contents() == o && reader.Pos() == p
              case _ => !ok
    {
      hide BytesAt, ByteAt, Xor, Overflows, Unpack;
      ghost var q := (reader.Pos() + 7) / 8;
      var len, nlen := StoredLengths();
      XorComplement16(len);
      if nlen != Xor(len, 0xFFFF) {
        return false;
      }
      PastEndByte(reader.data, q + 3);
      if reader.zbuffer + len > |reader.data| {
        return false;
      }
      ok := StoredBytes(len, q);
    }

    /** The three-bit lengths of the code length code. */
    method CodeLengthSizes(hclen: nat) returns (sizes: array<nat>)
      requires reader.Valid() && hclen <= 19
      modifies reader
      ensures reader.Valid() && reader.Pos() == old(reader.Pos()) + 3 * hclen
      ensures fresh(sizes) && sizes[..] == CodeLengthLens(reader.Bits(), old(reader.Pos()), hclen)
    {
      hide Take, Dezigzag;
      ghost var bits, pos := reader.Bits(), reader.Pos();
      sizes := new nat[19](_ => 0);
      assert sizes[..] == CodeLengthLens(bits, pos, 0);
      for i := 0 to hclen
        invariant reader.Valid() && reader.Pos() == pos + 3 * i
        invariant fresh(sizes) && sizes.Length == 19 && sizes[..] == CodeLengthLens(bits, pos, i)
      {
        var s := reader.Receive(3);
        sizes[Dezigzag(i)] := s;
      }
    }

    /** One symbol of the run-length coded list. */
    method LengthSymbol(lencodes: array<nat>, n: nat, ntot: nat, z: ZHuffman) returns (ok: bool, n': nat)
      requires reader.Valid() && z.Built() && reader !in z.Repr() && |z.lens| == 19
      requires n < ntot <= lencodes.Length && lencodes !in z.Repr()
      modifies reader, lencodes
      ensures reader.Valid()
      ensures match LensStep(reader.Bits(), old(reader.Pos()), z.lens, ntot, old(lencodes[..n]))
              case Some(l) => ok && n' <= ntot && lencodes[..n'] == l.lens && reader.Pos() == l.pos
              case None => !ok
    {
      hide Take, Decode, ZHuffman.Built;
      n' := n;
      var c := reader.HuffmanDecode(z);
      if c < 0 || c >= 19 {
        return false, n;
      }
      if c < 16 {
        lencodes[n] := c;
        return true, n + 1;
      }
      var fill, times := 0, 0;
      if c == 16 {
        times := reader.Receive(2);
        times := times + 3;
        if n == 0 {
          return false, n;
        }
        fill := lencodes[n - 1];
      } else if c == 17 {
        times := reader.Receive(3);
        times := times + 3;
      } else {
        times := reader.Receive(7);
        times := times + 11;
      }
      if ntot - n < times {
        return false, n;
      }
      forall i | n <= i < n + times {
        lencodes[i] := fill;
      }
      return true, n + times;
    }

    method CodeLengths(lencodes: array<nat>, ntot: nat, z: ZHuffman) returns (ok: bool)
      requires reader.Valid() && z.Built() && reader !in z.Repr() && |z.lens| == 19
      requires ntot <= lencodes.Length && lencodes !in z.Repr()
      modifies reader, lencodes
      ensures reader.Valid()
      ensures match ReadLens(reader.Bits(), old(reader.Pos()), z.lens, ntot, [])
              case Some(l) => ok && lencodes[..ntot] == l.lens && reader.Pos() == l.pos
              case None => !ok
    {
      hide ZHuffman.Built, LensStep;
      ghost var bits, cl := reader.Bits(), z.lens;
      ghost var r := ReadLens(bits, reader.Pos(), cl, ntot, []);
      var n := 0;
      assert lencodes[..0] == [];
      while n < ntot
        invariant reader.Valid() && z.Built() && z.lens == cl
        invariant n <= ntot && forall i :: 0 <= i < n ==> lencodes[i] <= 15
        invariant ReadLens(bits, reader.Pos(), cl, ntot, lencodes[..n]) == r
      {
        ok, n := LengthSymbol(lencodes, n, ntot, z);
        if !ok {
          return;
        }
      }
      return true;
    }

    method ReadCounts() returns (hlit: nat, hdist: nat, hclen: nat)
      requires reader.Valid()
      modifies reader
      ensures reader.Valid() && reader.Pos() == old(reader.Pos()) + 14
      ensures hlit == Take(reader.Bits(), old(reader.Pos()), 5) + 257 <= 288
      ensures hdist == Take(reader.Bits(), old(reader.Pos()) + 5, 5) + 1 <= 32
      ensures hclen == Take(reader.Bits(), old(reader.Pos()) + 10, 4) + 4 <= 19
    {
      hide Take;
      ghost var bits, pos := reader.Bits(), reader.Pos();
      Take5Bound(bits, pos);
      Take5Bound(bits, pos + 5);
      Take4Bound(bits, pos + 10);
      hlit := reader.Receive(5);
      hlit := hlit + 257;
      hdist := reader.Receive(5);
      hdist := hdist + 1;
      hclen := reader.Receive(4);
      hclen := hclen + 4;
    }

    /** The code in which the code lengths are written. */
    method CodeLengthCode(hclen: nat) returns (ok: bool, z: ZHuffman)
      requires reader.Valid() && hclen <= 19
      modifies reader
      ensures reader.Valid() && reader.Pos() == old(reader.Pos()) + 3 * hclen
      ensures fresh(z.Repr()) && (ok <==> KraftHolds(CodeLengthLens(reader.Bits(), old(reader.Pos()), hclen)))
      ensures ok ==> z.Built() && z.lens == CodeLengthLens(reader.Bits(), old(reader.Pos()), hclen)
    {
      hide ZHuffman.Built, CodeLengthLens, KraftHolds;
      var sizes := CodeLengthSizes(hclen);
      z := new ZHuffman();
      ok := z.Build(sizes[..]);
    }

    /** Both lists of code lengths, and the tables for them. */
    method BothCodes(hlit: nat, hdist: nat, z: ZHuffman) returns (ok: bool)
      requires Valid() && 257 <= hlit <= 288 && 1 <= hdist <= 32
      requires z.Built() && |z.lens| == 19 && z.Repr() !! {reader, out} + z_length.Repr() + z_distance.Repr()
      modifies reader, z_length.Repr(), z_distance.Repr()
      ensures Valid()
      ensures match ReadLens(reader.Bits(), old(reader.Pos()), old(z.lens), hlit + hdist, [])
              case None => !ok
              case Some(l) =>
                && (ok <==> KraftHolds(l.lens[..hlit]) && KraftHolds(l.lens[hlit..]))
                && (ok ==> Ready() && z_length.lens == l.lens[..hlit] && z_distance.lens == l.lens[hlit..]
                           && reader.Pos() == l.pos)
    {
      hide ZHuffman.Built, ReadLens, KraftHolds;
      var ntot := hlit + hdist;
      var lencodes := new nat[286 + 32 + 137];
      ok := CodeLengths(lencodes, ntot, z);
      if ok {
        ok := BuildBoth(lencodes[..ntot], hlit);
      }
    }

    /** stbi__compute_huffman_codes */
    method ComputeHuffmanCodes() returns (ok: bool)
      requires Valid()
      modifies reader, z_length.Repr(), z_distance.Repr()
      ensures Valid()
      ensures match DynamicCodes(reader.Bits(), old(reader.Pos()))
              case Some(c) => ok && Ready() && z_length.lens == c.lit && z_distance.lens == c.dist
                && reader.Pos() == c.pos
              case None => !ok
    {
      hide ZHuffman.Built, Take, CodeLengthLens, ReadLens, KraftHolds;
      var hlit, hdist, hclen := ReadCounts();
      var z_codelength;
      ok, z_codelength := CodeLengthCode(hclen);
      if ok {
        ok := BothCodes(hlit, hdist, z_codelength);
      }
    }

    method BuildBoth(lens: seq<nat>, hlit: nat) returns (ok: bool)
      requires Apart() && 257 <= hlit <= 288 && hlit < |lens| <= hlit + 32
      requires forall i :: 0 <= i < |lens| ==> lens[i] <= 15
      modifies z_length.Repr(), z_distance.Repr()
      ensures ok <==> KraftHolds(lens[..hlit]) && KraftHolds(lens[hlit..])
      ensures ok ==> Ready() && z_length.lens == lens[..hlit] && z_distance.lens == lens[hlit..]
    {
      hide ZHuffman.Built, KraftHolds;
      ok := z_length.Build(lens[..hlit]);
      if ok {
        ok := z_distance.Build(lens[hlit..]);
      }
    }

    method BuildFixed() returns (ok: bool)
      requires Apart()
      modifies z_length.Repr(), z_distance.Repr()
      ensures ok && Ready() && z_length.lens == FixedLit() && z_distance.lens == FixedDist()
    {
      hide ZHuffman.Built, KraftHolds;
      FixedKraft();
      ok := z_length.Build(FixedLit());
      if ok {
        ok := z_distance.Build(FixedDist());
      }
    }

    /** One block of the given kind. */
    method ParseBlock(kind: nat) returns (ok: bool)
      requires Valid() && reader.num_bits < 32 && kind < 4
      requires OneBlock(reader.Bits(), reader.Pos(), out.Contents(), kind, out.Room()) != Undefined
      modifies reader, out, out.data, z_length.Repr(), z_distance.Repr()
      ensures Valid() && (out.data == old(out.data) || (out.expandable && fresh(out.data)))
        && out.Room() == old(out.Room())
      ensures match OneBlock(reader.Bits(), old(reader.Pos()), old(out.Contents()), kind, out.Room())
              case Done(o, p) => ok && out.Contents() == o && reader.Pos() == p
              case _ => !ok
    {
      hide ZHuffman.Built, KraftHolds, Stored, Block, DynamicCodes, FixedLit, FixedDist, Take;
      if kind == 0 {
        ok := ParseUncompressedBlock();
      } else if kind == 3 {
        ok := false;
      } else {
        if kind == 1 {
          ok := BuildFixed();
        } else {
          ok := ComputeHuffmanCodes();
        }
        if ok {
          ok := ParseHuffmanBlock();
        }
      }
    }

    /** The next block, and whether it is marked final. */
    method ParseNext() returns (ok: bool, more: bool)
      requires Valid()
      requires Blocks(reader.Bits(), reader.Pos(), out.Contents(), out.Room()) != Undefined
      modifies reader, out, out.data, z_length.Repr(), z_distance.Repr()
      ensures Valid() && (out.data == old(out.data) || (out.expandable && fresh(out.data)))
        && out.Room() == old(out.Room())
      ensures var r := Blocks(reader.Bits(), old(reader.Pos()), old(out.Contents()), out.Room());
        if !ok then r == Corrupt
        else r == (if more then Blocks(reader.Bits(), reader.Pos(), out.Contents(), out.Room())
                   else Done(out.Contents(), reader.Pos()))
      ensures ok ==> old(reader.Pos()) < reader.Pos() && old(reader.Pos()) < |reader.Bits()|
    {
      hide ZHuffman.Built, Take, OneBlock;
      ghost var bits := reader.Bits();
      PastEndIsCorrupt(bits, reader.Pos(), out.Contents(), out.Room());
      TakeBits12(bits, reader.Pos());
      var final := reader.Receive(1);
      var kind := reader.Receive(2);
      ok := ParseBlock(kind);
      more := final != 1;
    }

    /** The blocks of stbi__parse_zlib. */
    method ParseBlocks() returns (ok: bool)
      requires Valid()
      requires Blocks(reader.Bits(), reader.Pos(), out.Contents(), out.Room()) != Undefined
      modifies reader, out, out.data, z_length.Repr(), z_distance.Repr()
      ensures Valid() && (out.data == old(out.data) || (out.expandable && fresh(out.data)))
        && out.Room() == old(out.Room())
      ensures match Blocks(reader.Bits(), old(reader.Pos()), old(out.Contents()), out.Room())
              case Done(o, p) => ok && out.Contents() == o && reader.Pos() == p
              case _ => !ok
    {
      hide Blocks, Unpack;
      ghost var bits, room := reader.Bits(), out.Room();
      ghost var r := Blocks(bits, reader.Pos(), out.Contents(), room);
      var more := true;
      while more
        invariant Valid() && out.Room() == room && r != Undefined
        invariant out.data == old(out.data) || (out.expandable && fresh(out.data))
        invariant if more then Blocks(bits, reader.Pos(), out.Contents(), room) == r
                  else r == Done(out.Contents(), reader.Pos())
        decreases more, if reader.Pos() < |bits| then |bits| - reader.Pos() else 0
      {
        ok, more := ParseNext();
        if !ok {
          return false;
        }
      }
      return true;
    }

    /** stbi__parse_zlib_header */
    method ParseZlibHeader() returns (ok: bool)
      requires reader.Valid() && reader.num_bits == 0 && reader.Pos() == 0
      modifies reader
      ensures reader.Valid() && reader.num_bits == 0 && reader.Pos() == 16
      ensures ok <==> ZlibHeader(ByteAt(reader.Bits(), 0), ByteAt(reader.Bits(), 1))
    {
      hide Take, And;
      var cmf := reader.Get8();
      var cm := And(cmf, 15);
      var flg := reader.Get8();
      if (cmf as int * 256 + flg as int) % 31 != 0 {
        return false;
      }
      if And(flg, 32) != 0 {
        return false;
      }
      if cm != 8 {
        return false;
      }
      return true;
    }

    /** stbi__parse_zlib */
    method ParseZlib(header: bool) returns (ok: bool)
      requires Valid() && reader.num_bits == 0 && reader.Pos() == 0 && out.Contents() == []
      requires Inflate(reader.data, header, out.Room()) != Undefined
      modifies reader, out, out.data, z_length.Repr(), z_distance.Repr()
      ensures Valid() && (out.data == old(out.data) || (out.expandable && fresh(out.data)))
        && out.Room() == old(out.Room())
      ensures match Inflate(reader.data, header, out.Room())
              case Done(o, p) => ok && out.Contents() == o
              case _ => !ok
    {
      hide Blocks, ZlibHeader, ByteAt;
      if header {
        ok := ParseZlibHeader();
        if !ok {
          return;
        }
      }
      ok := ParseBlocks();
    }
  }

  /**
    stbi_zlib_decode_malloc_guesssize_headerflag: the result is what the stream means,
    whatever the initial size of the growing output buffer.
  */
  method DecodeMalloc(buffer: seq<byte>, initial_size: nat, header: bool) returns (r: Option<seq<byte>>)
    requires initial_size > 0
    requires Inflate(buffer, header, None) != Undefined
    ensures match Inflate(buffer, header, None)
            case Done(o, _) => r == Some(o)
            case _ => r == None
  {
    hide Inflate;
    var p := new byte[initial_size](_ => 0);
    var a := new ZBuf(buffer, p, true);
    var ok := a.ParseZlib(header);
    r := if ok then Some(a.out.data[..a.out.zout]) else None;
  }

  /** stbi_zlib_decode_buffer: decode into a buffer of fixed size. */
  method DecodeBuffer(obuffer: array<byte>, ibuffer: seq<byte>, header: bool) returns (r: int)
    requires Inflate(ibuffer, header, Some(obuffer.Length)) != Undefined
    modifies obuffer
    ensures match Inflate(ibuffer, header, Some(obuffer.Length))
            case Done(o, _) => r == |o| <= obuffer.Length && obuffer[..r] == o
            case _ => r == -1
  {
    hide Inflate;
    var a := new ZBuf(ibuffer, obuffer, false);
    var ok := a.ParseZlib(header);
    r := if ok then a.out.zout else -1;
  }
}
