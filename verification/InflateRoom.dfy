/** Inflating into a buffer of fixed size: the same output, refused exactly when it does not fit. */
module InflateRoom {
  import opened Bits
  import opened Wrappers
  import opened InflateSpec

  /** What becomes of r when only n bytes may be written. */
  function Fitted(r: Outcome, n: nat): Outcome { if r.Done? && |r.out| > n then Corrupt else r }

  lemma StepRoom(bits: seq<bool>, pos: nat, out: seq<byte>, lit: seq<nat>, dist: seq<nat>, n: nat)
    requires |lit| <= 288 && |dist| <= 32
    ensures var r := Step(bits, pos, out, lit, dist, None);
      Step(bits, pos, out, lit, dist, Some(n)) == if r.Next? && |r.out| > n then Stop(Corrupt) else r
  {
    hide Canonical.Decode, Take, CopyMatch, LengthBase, DistBase;
  }

  lemma {:induction false} BlockRoom(bits: seq<bool>, pos: nat, out: seq<byte>, lit: seq<nat>, dist: seq<nat>, n: nat)
    requires |lit| <= 288 && |dist| <= 32 && |out| <= n && Block(bits, pos, out, lit, dist, None).Done?
    ensures |out| <= |Block(bits, pos, out, lit, dist, None).out|
    ensures Block(bits, pos, out, lit, dist, Some(n)) == Fitted(Block(bits, pos, out, lit, dist, None), n)
    decreases Unread(bits, pos)
  {
    hide Step;
    StepRoom(bits, pos, out, lit, dist, n);
    var r := Step(bits, pos, out, lit, dist, None);
    if r.Next? {
      if |r.out| <= n {
        BlockRoom(bits, r.pos, r.out, lit, dist, n);
      } else {
        BlockGrows(bits, r.pos, r.out, lit, dist);
      }
    } else {
      StopKeeps(bits, pos, out, lit, dist);
    }
  }

  lemma StopKeeps(bits: seq<bool>, pos: nat, out: seq<byte>, lit: seq<nat>, dist: seq<nat>)
    requires |lit| <= 288 && |dist| <= 32
    ensures var r := Step(bits, pos, out, lit, dist, None); r.Stop? && r.result.Done? ==> r.result.out == out
  {
    hide Canonical.Decode, MatchStep;
  }

  lemma {:induction false} BlockGrows(bits: seq<bool>, pos: nat, out: seq<byte>, lit: seq<nat>, dist: seq<nat>)
    requires |lit| <= 288 && |dist| <= 32 && Block(bits, pos, out, lit, dist, None).Done?
    ensures |out| <= |Block(bits, pos, out, lit, dist, None).out|
    decreases Unread(bits, pos)
  {
    hide Step;
    var r := Step(bits, pos, out, lit, dist, None);
    if r.Next? {
      BlockGrows(bits, r.pos, r.out, lit, dist);
    } else {
      StopKeeps(bits, pos, out, lit, dist);
    }
  }

  lemma OneRoom(bits: seq<bool>, pos: nat, out: seq<byte>, kind: nat, n: nat)
    requires |out| <= n && OneBlock(bits, pos, out, kind, None).Done?
    ensures |out| <= |OneBlock(bits, pos, out, kind, None).out|
    ensures OneBlock(bits, pos, out, kind, Some(n)) == Fitted(OneBlock(bits, pos, out, kind, None), n)
  {
    hide Block, DynamicCodes, FixedLit, FixedDist, StoredLength, BytesAt;
    if kind == 1 {
      BlockRoom(bits, pos, out, FixedLit(), FixedDist(), n);
    } else if kind != 0 && kind != 3 {
      var c := DynamicCodes(bits, pos);
      if c.Some? {
        BlockRoom(bits, c.value.pos, out, c.value.lit, c.value.dist, n);
      }
    }
  }

  lemma {:induction false} BlocksRoom(bits: seq<bool>, pos: nat, out: seq<byte>, n: nat)
    requires |out| <= n && Blocks(bits, pos, out, None).Done?
    ensures |out| <= |Blocks(bits, pos, out, None).out|
    ensures Blocks(bits, pos, out, Some(n)) == Fitted(Blocks(bits, pos, out, None), n)
    decreases if pos < |bits| then |bits| - pos else 0, 0
  {
    hide OneBlock, Take;
    var kind := Take(bits, pos + 1, 2);
    PastEndIsCorrupt(bits, pos, out, None);
    var r := OneBlock(bits, pos + 3, out, kind, None);
    OneRoom(bits, pos + 3, out, kind, n);
    if Take(bits, pos, 1) != 1 {
      if |r.out| <= n {
        BlocksRoom(bits, r.pos, r.out, n);
      } else {
        BlocksGrow(bits, r.pos, r.out);
      }
    }
  }

  lemma {:induction false} BlocksGrow(bits: seq<bool>, pos: nat, out: seq<byte>)
    requires Blocks(bits, pos, out, None).Done?
    ensures |out| <= |Blocks(bits, pos, out, None).out|
    decreases if pos < |bits| then |bits| - pos else 0, 1
  {
    BlocksRoom(bits, pos, out, |out|);
  }

  /** A stream that has a meaning without limit has the same in n bytes, or none when it is longer. */
  lemma InflateFitted(data: seq<byte>, header: bool, n: nat)
    requires Inflate(data, header, None).Done?
    ensures Inflate(data, header, Some(n)) == Fitted(Inflate(data, header, None), n)
  {
    hide Blocks, ByteAt, Unpack, ZlibHeader;
    BlocksRoom(Unpack(data), if header then 16 else 0, [], n);
  }
}
