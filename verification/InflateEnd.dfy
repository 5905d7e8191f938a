/**
  Compressed blocks without an end symbol: past the end of the input all bits are zero, so the
  inflater repeats one symbol, and exactly then, or at a reserved symbol, a block has no meaning.
*/
module InflateEnd {
  import opened Bits
  import opened Wrappers
  import opened Canonical
  import opened InflateSpec

  /** The lists of code lengths a block is decoded with. */
  predicate BlockLists(lit: seq<nat>, dist: seq<nat>)
  {
    |lit| <= 288 && |dist| <= 32 && ValidLengths(lit) && ValidLengths(dist)
  }

  // ---- past the end all positions are alike ----

  lemma {:induction false} SearchPastEnd(lens: seq<nat>, bits: seq<bool>, pos: nat, pos': nat, n: nat)
    requires n <= |lens| && |bits| <= pos && |bits| <= pos'
    ensures Search(lens, bits, pos, n) == Search(lens, bits, pos', n)
  {
    if n > 0 {
      TakePastEndMSB(bits, pos, lens[n - 1]);
      TakePastEndMSB(bits, pos', lens[n - 1]);
      SearchPastEnd(lens, bits, pos, pos', n - 1);
    }
  }

  lemma DistancePastEnd(dist: seq<nat>, bits: seq<bool>, pos: nat, pos': nat)
    requires |dist| <= 32 && |bits| <= pos && |bits| <= pos'
    ensures var d, d' := DistanceAt(bits, pos, dist), DistanceAt(bits, pos', dist);
      d.Some? == d'.Some? && (d.Some? ==> d.value.symbol == d'.value.symbol && d.value.back == d'.value.back)
  {
    hide Search, Take, DistBase, DistExtra;
    SearchPastEnd(dist, bits, pos, pos', |dist|);
    match Decode(dist, bits, pos)
    case None =>
    case Some(d) =>
      TakePastEnd(bits, pos + dist[d], DistExtra(d));
      TakePastEnd(bits, pos' + dist[d], DistExtra(d));
  }

  /** Output that may still grow by as much as it did from out to o. */
  predicate Roomy(room: Option<nat>, out: seq<byte>, o: seq<byte>) { room.None? || |o| == |out| }

  lemma MatchPastEnd(bits: seq<bool>, pos: nat, pos': nat, out: seq<byte>, out': seq<byte>, z: nat, dist: seq<nat>,
                     room: Option<nat>)
    requires z < 31 && |dist| <= 32 && |bits| <= pos && |bits| <= pos' && |out| <= |out'|
    requires MatchStep(bits, pos, out, z, dist, room).Next?
      && Roomy(room, out, MatchStep(bits, pos, out, z, dist, room).out)
    requires room.Some? ==> |out'| == |out|
    ensures MatchStep(bits, pos', out', z, dist, room).Next?
    ensures Roomy(room, out', MatchStep(bits, pos', out', z, dist, room).out)
  {
    hide DistanceAt, Take, LengthBase, LengthExtra;
    DistancePastEnd(dist, bits, pos + LengthExtra(z), pos' + LengthExtra(z));
    TakePastEnd(bits, pos, LengthExtra(z));
    TakePastEnd(bits, pos', LengthExtra(z));
  }

  /** A symbol that neither ends the block nor fills a fixed buffer does so again. */
  lemma StepPastEnd(bits: seq<bool>, pos: nat, pos': nat, out: seq<byte>, out': seq<byte>, lit: seq<nat>,
                    dist: seq<nat>, room: Option<nat>)
    requires |lit| <= 288 && |dist| <= 32 && |bits| <= pos && |bits| <= pos' && |out| <= |out'|
    requires Step(bits, pos, out, lit, dist, room).Next? && Roomy(room, out, Step(bits, pos, out, lit, dist, room).out)
    requires room.Some? ==> |out'| == |out|
    ensures Step(bits, pos', out', lit, dist, room).Next?
    ensures Roomy(room, out', Step(bits, pos', out', lit, dist, room).out)
  {
    hide Search, MatchStep;
    SearchPastEnd(lit, bits, pos, pos', |lit|);
    match Decode(lit, bits, pos)
    case None =>
    case Some(z) =>
      if z > 256 {
        MatchPastEnd(bits, pos + lit[z], pos' + lit[z], out, out', z - 257, dist, room);
      }
  }

  // ---- many symbols ----

  /** The output and position after t symbols, none of which ends the block. */
  ghost function After(bits: seq<bool>, pos: nat, out: seq<byte>, lit: seq<nat>, dist: seq<nat>, room: Option<nat>,
                       t: nat): StepResult
    requires |lit| <= 288 && |dist| <= 32
    decreases t
  {
    if t == 0 then Next(out, pos)
    else match Step(bits, pos, out, lit, dist, room)
         case Next(o, p) => After(bits, p, o, lit, dist, room, t - 1)
         case Stop(r) => Stop(r)
  }

  /** Beyond the input, at a symbol that goes on without filling a fixed buffer. */
  ghost predicate Spinning(bits: seq<bool>, pos: nat, out: seq<byte>, lit: seq<nat>, dist: seq<nat>, room: Option<nat>)
    requires |lit| <= 288 && |dist| <= 32
  {
    |bits| <= pos && var r := Step(bits, pos, out, lit, dist, room); r.Next? && Roomy(room, out, r.out)
  }

  /** From there the loop never ends: every number of symbols is decoded. */
  lemma {:induction false} SpinsForEver(bits: seq<bool>, pos: nat, out: seq<byte>, lit: seq<nat>, dist: seq<nat>,
                                        room: Option<nat>, t: nat)
    requires |lit| <= 288 && |dist| <= 32 && Spinning(bits, pos, out, lit, dist, room)
    ensures After(bits, pos, out, lit, dist, room, t).Next?
    decreases t
  {
    hide Step;
    if t > 0 {
      var r := Step(bits, pos, out, lit, dist, room);
      StepPastEnd(bits, pos, r.pos, out, r.out, lit, dist, room);
      SpinsForEver(bits, r.pos, r.out, lit, dist, room, t - 1);
    }
  }

  lemma {:induction false} SpinningIsUndefined(bits: seq<bool>, pos: nat, out: seq<byte>, lit: seq<nat>,
                                               dist: seq<nat>, room: Option<nat>)
    requires |lit| <= 288 && |dist| <= 32 && Spinning(bits, pos, out, lit, dist, room)
    ensures Block(bits, pos, out, lit, dist, room) == Undefined
    decreases Unread(bits, pos)
  {
    hide Step;
    var r := Step(bits, pos, out, lit, dist, room);
    if GoesOn(bits, r.pos, room, out, r.out) {
      StepPastEnd(bits, pos, r.pos, out, r.out, lit, dist, room);
      SpinningIsUndefined(bits, r.pos, r.out, lit, dist, room);
    }
  }

  /** At most 15 bits for each of two symbols, 5 and 13 extra bits. */
  lemma StepIsShort(bits: seq<bool>, pos: nat, out: seq<byte>, lit: seq<nat>, dist: seq<nat>, room: Option<nat>)
    requires BlockLists(lit, dist) && Step(bits, pos, out, lit, dist, room).Next?
    ensures Step(bits, pos, out, lit, dist, room).pos <= pos + 48
  {
    hide Search, Take, DistBase, LengthBase;
  }

  /** No meaning has what comes to a reserved symbol, or spins. */
  ghost predicate Stuck(bits: seq<bool>, r: StepResult, lit: seq<nat>, dist: seq<nat>, room: Option<nat>)
    requires |lit| <= 288 && |dist| <= 32
  {
    r.Next? && (Step(bits, r.pos, r.out, lit, dist, room) == Stop(Undefined)
      || Spinning(bits, r.pos, r.out, lit, dist, room))
  }

  lemma SpinningIs(bits: seq<bool>, pos: nat, out: seq<byte>, lit: seq<nat>, dist: seq<nat>, room: Option<nat>)
    requires |lit| <= 288 && |dist| <= 32 && |bits| <= pos
    requires Step(bits, pos, out, lit, dist, room).Next? && Roomy(room, out, Step(bits, pos, out, lit, dist, room).out)
    ensures Spinning(bits, pos, out, lit, dist, room)
  {
  }

  lemma SpinningOrNot(bits: seq<bool>, pos: nat, out: seq<byte>, lit: seq<nat>, dist: seq<nat>, room: Option<nat>)
    requires |lit| <= 288 && |dist| <= 32
    ensures Spinning(bits, pos, out, lit, dist, room) ==> Block(bits, pos, out, lit, dist, room) == Undefined
  {
    hide Spinning, Block;
    if Spinning(bits, pos, out, lit, dist, room) {
      SpinningIsUndefined(bits, pos, out, lit, dist, room);
    }
  }

  /** After some number of symbols the block is stuck. */
  ghost predicate GetsStuck(bits: seq<bool>, pos: nat, out: seq<byte>, lit: seq<nat>, dist: seq<nat>, room: Option<nat>)
    requires |lit| <= 288 && |dist| <= 32
  {
    exists t: nat :: Stuck(bits, After(bits, pos, out, lit, dist, room, t), lit, dist, room)
  }

  lemma StuckNow(bits: seq<bool>, pos: nat, out: seq<byte>, lit: seq<nat>, dist: seq<nat>, room: Option<nat>)
    requires |lit| <= 288 && |dist| <= 32 && Stuck(bits, Next(out, pos), lit, dist, room)
    ensures GetsStuck(bits, pos, out, lit, dist, room)
  {
    hide Step, Stuck;
    assert After(bits, pos, out, lit, dist, room, 0) == Next(out, pos);
  }

  lemma StuckThen(bits: seq<bool>, pos: nat, out: seq<byte>, lit: seq<nat>, dist: seq<nat>, room: Option<nat>)
    requires |lit| <= 288 && |dist| <= 32 && Step(bits, pos, out, lit, dist, room).Next?
    requires var here := Step(bits, pos, out, lit, dist, room); GetsStuck(bits, here.pos, here.out, lit, dist, room)
    ensures GetsStuck(bits, pos, out, lit, dist, room)
  {
    hide Step, Stuck;
    var here := Step(bits, pos, out, lit, dist, room);
    var t: nat :| Stuck(bits, After(bits, here.pos, here.out, lit, dist, room, t), lit, dist, room);
    assert Stuck(bits, After(bits, pos, out, lit, dist, room, t + 1), lit, dist, room);
  }

  lemma NotStuck(bits: seq<bool>, pos: nat, out: seq<byte>, lit: seq<nat>, dist: seq<nat>, room: Option<nat>)
    requires |lit| <= 288 && |dist| <= 32 && !Stuck(bits, Next(out, pos), lit, dist, room)
    requires var here := Step(bits, pos, out, lit, dist, room);
      here.Stop? || !GetsStuck(bits, here.pos, here.out, lit, dist, room)
    ensures !GetsStuck(bits, pos, out, lit, dist, room)
  {
    hide Step, Stuck;
    var here := Step(bits, pos, out, lit, dist, room);
    forall t: nat ensures !Stuck(bits, After(bits, pos, out, lit, dist, room, t), lit, dist, room) {
      if here.Next? && t > 0 {
        assert !Stuck(bits, After(bits, here.pos, here.out, lit, dist, room, t - 1), lit, dist, room);
      } else if t > 0 {
        StoppedNotStuck(bits, After(bits, pos, out, lit, dist, room, t), lit, dist, room);
      }
    }
  }

  lemma StoppedNotStuck(bits: seq<bool>, r: StepResult, lit: seq<nat>, dist: seq<nat>, room: Option<nat>)
    requires |lit| <= 288 && |dist| <= 32 && r.Stop?
    ensures !Stuck(bits, r, lit, dist, room)
  {
  }

  /** A block is without meaning exactly when after some number of symbols it is stuck. */
  lemma {:induction false} UndefinedIff(bits: seq<bool>, pos: nat, out: seq<byte>, lit: seq<nat>, dist: seq<nat>,
                                        room: Option<nat>)
    requires BlockLists(lit, dist)
    ensures Block(bits, pos, out, lit, dist, room) == Undefined <==> GetsStuck(bits, pos, out, lit, dist, room)
    decreases Unread(bits, pos), Missing(room, |out|)
  {
    hide Step, Spinning, GetsStuck;
    var here := Step(bits, pos, out, lit, dist, room);
    if Stuck(bits, Next(out, pos), lit, dist, room) {
      StuckNow(bits, pos, out, lit, dist, room);
      SpinningOrNot(bits, pos, out, lit, dist, room);
    } else if here.Stop? {
      NotStuck(bits, pos, out, lit, dist, room);
    } else {
      StepIsShort(bits, pos, out, lit, dist, room);
      if GoesOn(bits, here.pos, room, out, here.out) {
        UndefinedIff(bits, here.pos, here.out, lit, dist, room);
        if GetsStuck(bits, here.pos, here.out, lit, dist, room) {
          StuckThen(bits, pos, out, lit, dist, room);
        } else {
          NotStuck(bits, pos, out, lit, dist, room);
        }
      } else {
        SpinningIs(bits, pos, out, lit, dist, room);
      }
    }
  }

  /** For one: a code of the literal 0 alone, and no input left. */
  lemma OneLiteral(bits: seq<bool>, pos: nat, out: seq<byte>, lit: seq<nat>, dist: seq<nat>)
    requires |bits| <= pos && BlockLists(lit, dist) && Sparse(lit, 0, 0) && lit != []
    ensures Spinning(bits, pos, out, lit, dist, None)
    ensures GetsStuck(bits, pos, out, lit, dist, None) && Block(bits, pos, out, lit, dist, None) == Undefined
  {
    hide Search, Block, GetsStuck;
    TakePastEndMSB(bits, pos, 1);
    SparseDecodes(lit, 0, 0, bits, pos);
    SearchIsDecode(lit, bits, pos);
    SpinsNow(bits, pos, out, lit, dist, None);
    SpinningIsUndefined(bits, pos, out, lit, dist, None);
  }

  lemma SearchIsDecode(lens: seq<nat>, bits: seq<bool>, pos: nat)
    ensures Decode(lens, bits, pos) == Search(lens, bits, pos, |lens|)
  {
  }

  lemma SpinsNow(bits: seq<bool>, pos: nat, out: seq<byte>, lit: seq<nat>, dist: seq<nat>, room: Option<nat>)
    requires |lit| <= 288 && |dist| <= 32 && Spinning(bits, pos, out, lit, dist, room)
    ensures GetsStuck(bits, pos, out, lit, dist, room)
  {
    hide Spinning, Step;
    StuckNow(bits, pos, out, lit, dist, room);
  }

  // ---- lists with one or two codes, of one bit ----

  /** At most the symbols a and b have codes, of one bit each. */
  predicate Sparse(lens: seq<nat>, a: nat, b: nat)
  {
    a <= b && forall i :: 0 <= i < |lens| ==> lens[i] == if i == a || i == b then 1 else 0
  }

  lemma {:induction false} SparseCount(lens: seq<nat>, a: nat, b: nat, n: nat, s: nat)
    requires Sparse(lens, a, b) && n <= |lens| && s > 0
    ensures CountTo(lens, n, s) == if s > 1 then 0 else (if a < n then 1 else 0) + (if a < b < n then 1 else 0)
    decreases n
  {
    if n > 0 {
      SparseCount(lens, a, b, n - 1, s);
    }
  }

  lemma SparseFits(lens: seq<nat>, a: nat, b: nat)
    requires Sparse(lens, a, b)
    ensures KraftHolds(lens)
  {
    hide KraftHolds, Count;
    FitsIffKraft(lens);
    forall s | 1 <= s <= 15 && Count(lens, s) > 0 ensures FirstCode(lens, s) + Count(lens, s) <= Pow2(s) {
      SparseCount(lens, a, b, |lens|, s);
      CountIs(lens, s);
      assert Pow2(1) == 2 * Pow2(0);
    }
  }

  lemma CountIs(lens: seq<nat>, s: nat)
    ensures Count(lens, s) == CountTo(lens, |lens|, s)
  {
  }

  lemma SparseCode(lens: seq<nat>, a: nat, b: nat, i: nat)
    requires Sparse(lens, a, b) && i < |lens| && (i == a || i == b)
    ensures Coded(lens, i) && Code(lens, i) == if i == a then 0 else 1
  {
    SparseCount(lens, a, b, i, 1);
  }

  lemma SparseDecodes(lens: seq<nat>, a: nat, b: nat, bits: seq<bool>, pos: nat)
    requires Sparse(lens, a, b) && b < |lens|
    ensures a < b ==> Decode(lens, bits, pos) == Some(if TakeMSB(bits, pos, 1) == 0 then a else b)
    ensures a == b && TakeMSB(bits, pos, 1) == 0 ==> Decode(lens, bits, pos) == Some(a)
  {
    hide Decode, Code, Search;
    DecodeFinds(lens, bits, pos);
    SparseCode(lens, a, b, a);
    SparseCode(lens, a, b, b);
    TakeMSBBound(bits, pos, 1);
    assert Pow2(1) == 2 * Pow2(0);
    if TakeMSB(bits, pos, 1) == 0 {
      assert Matches(lens, bits, pos, a);
    } else if a < b {
      assert Matches(lens, bits, pos, b);
    }
  }
}
