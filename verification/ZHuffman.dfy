/**
  The inflater's decoding tables: stbi__zhuffman and stbi__zbuild_huffman.  Codes of up
  to nine bits are found by one lookup in `fast`, longer ones by comparing the next
  sixteen bits, first bit on top, with `maxcode`.
*/
module ZHuffmanTables {
  import opened Bits
  import opened BitReversal
  import opened Canonical

  /** The low bits of the lookup index x are the reversed code of symbol i. */
  predicate FastHit(lens: seq<nat>, x: nat, i: nat)
  {
    Coded(lens, i) && lens[i] <= 9 && Low(x, lens[i]) == Reverse(Code(lens, i), lens[i])
  }

  function FastEntry(s: nat, i: nat): nat { Or(Shl(s, 9), i) }

  /** t is the lookup table for the first n symbols. */
  ghost predicate FastTable(lens: seq<nat>, n: nat, t: seq<nat>)
  {
    && |t| == 512 && n <= |lens|
    && (forall x, i :: 0 <= x < 512 && 0 <= i < n && FastHit(lens, x, i) ==> t[x] == FastEntry(lens[i], i))
    && (forall x :: 0 <= x < 512 && t[x] != 0 ==> exists i :: 0 <= i < n && FastHit(lens, x, i))
  }

  lemma FieldsApart(s: nat, i: nat, n: nat)
    requires 0 < s && i < Pow2(n)
    ensures Or(Shl(s, n), i) != 0
    ensures Shr(Or(Shl(s, n), i), n) == s && And(Or(Shl(s, n), i), Pow2(n) - 1) == i
  {
    OrDisjoint(i, s, n);
    LowShrUnique(i, s, n);
    AndMask(Or(Shl(s, n), i), n);
    ShlLess(0, s, n);
  }

  lemma FastEntryParts(s: nat, i: nat)
    requires 0 < s && i < 288
    ensures FastEntry(s, i) != 0
    ensures Shr(FastEntry(s, i), 9) == s && And(FastEntry(s, i), 511) == i
  {
    Pow2Of8();
    FieldsApart(s, i, 9);
  }

  lemma CodeBound(lens: seq<nat>, i: nat)
    requires ValidLengths(lens) && KraftHolds(lens) && Coded(lens, i)
    ensures Code(lens, i) < Pow2(lens[i])
  {
    RankBelowCount(lens, i);
    FitsIffKraft(lens);
  }

  /** On a stream, a lookup hit is a match. */
  lemma FastHitIsMatch(lens: seq<nat>, bits: seq<bool>, pos: nat, i: nat)
    requires ValidLengths(lens) && KraftHolds(lens) && Coded(lens, i) && lens[i] <= 9
    ensures FastHit(lens, Take(bits, pos, 9), i) <==> Matches(lens, bits, pos, i)
  {
    var s := lens[i];
    TakeLowShr(bits, pos, s, 9);
    TakeBound(bits, pos, s);
    ReverseTake(bits, pos, s);
    CodeBound(lens, i);
    ReverseTwice(Code(lens, i), s);
    ReverseTwice(Take(bits, pos, s), s);
  }

  lemma TakeOfBits(x: nat)
    requires x < 512
    ensures Take(BitsOf(x, 9), 0, 9) == x
  {
    Pow2Of8();
    TakeAt(BitsOf(x, 9), 0, x, 9);
  }

  lemma FastHitUnique(lens: seq<nat>, x: nat, i: nat, j: nat)
    requires ValidLengths(lens) && KraftHolds(lens) && x < 512
    requires FastHit(lens, x, i) && FastHit(lens, x, j)
    ensures i == j
  {
    TakeOfBits(x);
    FastHitIsMatch(lens, BitsOf(x, 9), 0, i);
    FastHitIsMatch(lens, BitsOf(x, 9), 0, j);
    PrefixFree(lens, BitsOf(x, 9), 0, i, j);
  }

  /** Entering one more symbol's codes extends the table. */
  lemma FastTableStep(lens: seq<nat>, n: nat, t: seq<nat>, t': seq<nat>)
    requires ValidLengths(lens) && KraftHolds(lens) && n < |lens|
    requires FastTable(lens, n, t) && |t'| == 512
    requires forall x :: 0 <= x < 512 ==>
      t'[x] == if FastHit(lens, x, n) then FastEntry(lens[n], n) else t[x]
    ensures FastTable(lens, n + 1, t')
  {
    forall x, i | 0 <= x < 512 && 0 <= i < n + 1 && FastHit(lens, x, i)
      ensures t'[x] == FastEntry(lens[i], i)
    {
      if i < n && FastHit(lens, x, n) {
        FastHitUnique(lens, x, i, n);
      }
    }
    forall x | 0 <= x < 512 && t'[x] != 0
      ensures exists i :: 0 <= i < n + 1 && FastHit(lens, x, i)
    {
      if !FastHit(lens, x, n) {
        var i :| 0 <= i < n && FastHit(lens, x, i);
      }
    }
  }

  // ---- stepping through the multiples ----

  lemma LowNext(j: nat, s: nat)
    ensures Low(j + Pow2(s), s) == Low(j, s)
  {
    LowShr(j, s);
    LowBound(j, s);
    ShlAdd(Shr(j, s), 1, s);
    ShlOne(s);
    LowShrUnique(Low(j, s), Shr(j, s) + 1, s);
  }

  lemma LowGap(j: nat, x: nat, s: nat)
    requires j < x < j + Pow2(s)
    ensures Low(x, s) != Low(j, s)
  {
    LowShr(j, s);
    LowShr(x, s);
    if Low(x, s) == Low(j, s) {
      if Shr(j, s) < Shr(x, s) {
        ShlLess(Shr(j, s), Shr(x, s), s);
      } else if Shr(x, s) < Shr(j, s) {
        ShlLess(Shr(x, s), Shr(j, s), s);
      }
      assert false;
    }
  }

  lemma LowAtLeast(x: nat, s: nat)
    ensures Low(x, s) <= x
  {
    LowShr(x, s);
  }

  /** Write v at every index whose low s bits are j. */
  method FillFast(fast: array<nat>, j: nat, s: nat, v: nat)
    requires fast.Length == 512 && j < Pow2(s)
    modifies fast
    ensures forall x :: 0 <= x < 512 ==> fast[x] == if Low(x, s) == j then v else old(fast[x])
  {
    var k := j;
    LowSmall(j, s);
    forall x | 0 <= x < k ensures Low(x, s) != j {
      LowAtLeast(x, s);
      LowSmall(x, s);
    }
    while k < 512
      invariant Low(k, s) == j
      invariant forall x :: 0 <= x < 512 && x < k ==> fast[x] == if Low(x, s) == j then v else old(fast[x])
      invariant forall x :: k <= x < 512 ==> fast[x] == old(fast[x])
      decreases 512 - k
    {
      fast[k] := v;
      forall x | k < x < k + Pow2(s) ensures Low(x, s) != j {
        LowGap(k, x, s);
      }
      LowNext(k, s);
      ShlOne(s);
      k := k + Shl(1, s);
    }
  }

  // ---- building ----

  method CountSizes(sizelist: seq<nat>) returns (sizes: array<nat>)
    requires ValidLengths(sizelist)
    ensures fresh(sizes) && sizes.Length == 17
    ensures forall s :: 1 <= s < 16 ==> sizes[s] == Count(sizelist, s)
  {
    sizes := new nat[17](_ => 0);
    for i := 0 to |sizelist|
      invariant forall s :: 0 <= s < 16 ==> sizes[s] == CountTo(sizelist, i, s)
    {
      sizes[sizelist[i]] := sizes[sizelist[i]] + 1;
    }
    sizes[0] := 0;
  }

  lemma FirstCodeStep(lens: seq<nat>, s: nat)
    ensures s == 0 || FirstCode(lens, s + 1) == Shl(FirstCode(lens, s) + Count(lens, s), 1)
  {
    if s > 0 {
      var c := FirstCode(lens, s) + Count(lens, s);
      assert Shl(c, 1) == 2 * Shl(c, 0);
    }
  }

  lemma CodeFitsWord(lens: seq<nat>, s: nat)
    requires 1 <= s <= 15 && FitsTo(lens, s)
    ensures FirstCode(lens, s) <= Pow2(s) <= 0x8000
  {
    FirstCodeFits(lens, s);
    Pow2Mono(s, 15);
    Pow2Of15();
  }

  predicate CodesFrom(lens: seq<nat>, n: nat, next: seq<nat>, firstcode: seq<nat>, maxcode: seq<nat>,
                      firstsymbol: seq<nat>)
  {
    && |next| == |firstcode| == |firstsymbol| == 16 && |maxcode| == 17 && n <= 16
    && forall s :: 1 <= s < n ==>
         && next[s] == firstcode[s] == FirstCode(lens, s)
         && firstsymbol[s] == FirstSymbol(lens, s)
         && maxcode[s] == End(lens, s)
  }

  method SizesPossible(sizes: array<nat>) returns (ok: bool)
    requires sizes.Length == 17
    ensures ok <==> forall s :: 1 <= s < 16 ==> sizes[s] <= Shl(1, s)
  {
    for i := 1 to 16
      invariant forall s :: 1 <= s < i ==> sizes[s] <= Shl(1, s)
    {
      if sizes[i] > Shl(1, i) {
        return false;
      }
    }
    return true;
  }

  /** Record the first code, first symbol and end of length i. */
  method SetLength(ghost lens: seq<nat>, i: nat, code: nat, k: nat, size: nat, next: array<nat>,
                   firstcode: array<nat>, maxcode: array<nat>, firstsymbol: array<nat>)
    requires 1 <= i < 16 && maxcode.Length == 17
    requires next.Length == firstcode.Length == firstsymbol.Length == 16
    requires next != firstcode && next != firstsymbol && firstcode != firstsymbol
    requires maxcode != next && maxcode != firstcode && maxcode != firstsymbol
    requires CodesFrom(lens, i, next[..], firstcode[..], maxcode[..], firstsymbol[..])
    requires code == FirstCode(lens, i) < 0x10000 && k == FirstSymbol(lens, i) < 0x10000 && size == Count(lens, i)
    modifies next, firstcode, maxcode, firstsymbol
    ensures CodesFrom(lens, i + 1, next[..], firstcode[..], maxcode[..], firstsymbol[..])
  {
    next[i] := code;
    firstcode[i] := code % 0x10000;
    firstsymbol[i] := k % 0x10000;
    maxcode[i] := Shl(code + size, 16 - i);
  }

  /** The first half of stbi__zbuild_huffman: reject impossible lists, number the codes. */
  method AssignCodes(sizelist: seq<nat>, sizes: array<nat>, next: array<nat>,
                     firstcode: array<nat>, maxcode: array<nat>, firstsymbol: array<nat>)
    returns (ok: bool)
    requires ValidLengths(sizelist)
    requires sizes.Length == maxcode.Length == 17
    requires next.Length == firstcode.Length == firstsymbol.Length == 16
    requires sizes != next && sizes != firstcode && sizes != maxcode && sizes != firstsymbol
    requires next != firstcode && next != firstsymbol && firstcode != firstsymbol
    requires maxcode != next && maxcode != firstcode && maxcode != firstsymbol
    requires forall s :: 1 <= s < 16 ==> sizes[s] == Count(sizelist, s)
    modifies next, firstcode, maxcode, firstsymbol
    ensures ok <==> Fits(sizelist)
    ensures ok ==> CodesFrom(sizelist, 16, next[..], firstcode[..], maxcode[..], firstsymbol[..])
    ensures ok ==> maxcode[16] == 0x10000
  {
    hide Count, Shl, FirstCode, FirstSymbol, FitsTo, Fits, CodesFrom;
    ok := SizesPossible(sizes);
    if !ok {
      SizesTooMany(sizelist, sizes[..]);
      return;
    }
    var code, k := 0, 0;
    NoLengths(sizelist, next[..], firstcode[..], maxcode[..], firstsymbol[..]);
    for i := 1 to 16
      invariant FitsTo(sizelist, i)
      invariant code == FirstCode(sizelist, i) && k == FirstSymbol(sizelist, i)
      invariant CodesFrom(sizelist, i, next[..], firstcode[..], maxcode[..], firstsymbol[..])
    {
      CodeFitsWord(sizelist, i);
      FirstSymbolIsCountBelow(sizelist, i);
      SetLength(sizelist, i, code, k, sizes[i], next, firstcode, maxcode, firstsymbol);
      code := code + sizes[i];
      FitsNext(sizelist, i);
      if sizes[i] != 0 && code - 1 >= Shl(1, i) {
        return false;
      }
      FirstCodeStep(sizelist, i);
      code := Shl(code, 1);
      k := k + sizes[i];
    }
    CodesKept(sizelist, next[..], firstcode[..], maxcode[..], firstsymbol[..]);
    ghost var coded := maxcode[..];
    maxcode[16] := 0x10000;
    assert maxcode[..] == coded[16 := 0x10000];
    return true;
  }

  lemma NoLengths(lens: seq<nat>, next: seq<nat>, firstcode: seq<nat>, maxcode: seq<nat>, firstsymbol: seq<nat>)
    requires |next| == |firstcode| == |firstsymbol| == 16 && |maxcode| == 17
    ensures FitsTo(lens, 1) && CodesFrom(lens, 1, next, firstcode, maxcode, firstsymbol)
    ensures FirstCode(lens, 1) == 0 && FirstSymbol(lens, 1) == 0
  {
  }

  /** The overflow test of one length. */
  lemma FitsNext(lens: seq<nat>, i: nat)
    requires 1 <= i < 16 && FitsTo(lens, i)
    ensures var over := Count(lens, i) != 0 && FirstCode(lens, i) + Count(lens, i) - 1 >= Shl(1, i);
      if over then !Fits(lens) else FitsTo(lens, i + 1)
    ensures FirstSymbol(lens, i + 1) == FirstSymbol(lens, i) + Count(lens, i)
  {
    hide Count, FirstCode, Shl;
    ShlOne(i);
  }

  lemma CodesKept(lens: seq<nat>, next: seq<nat>, firstcode: seq<nat>, maxcode: seq<nat>, firstsymbol: seq<nat>)
    requires FitsTo(lens, 16) && CodesFrom(lens, 16, next, firstcode, maxcode, firstsymbol)
    ensures Fits(lens) && |maxcode| == 17 && CodesFrom(lens, 16, next, firstcode, maxcode[16 := 0x10000], firstsymbol)
  {
    hide Count, FirstCode, FirstSymbol;
  }

  lemma SizesTooMany(lens: seq<nat>, sizes: seq<nat>)
    requires |sizes| == 17 && exists s :: 1 <= s < 16 && sizes[s] > Shl(1, s)
    requires forall s :: 1 <= s < 16 ==> sizes[s] == Count(lens, s)
    ensures !Fits(lens)
  {
    var s :| 1 <= s < 16 && sizes[s] > Shl(1, s);
    ShlOne(s);
    assert Count(lens, s) > 0;
  }

  /** Symbols and sizes of the first n symbols, sorted by length and then by symbol. */
  ghost predicate SlotTable(lens: seq<nat>, n: nat, size: seq<nat>, value: seq<nat>)
  {
    && n <= |lens| <= |size| == |value|
    && forall i :: 0 <= i < n && Coded(lens, i) ==>
         && SlotIn(lens, i, |size|)
         && size[Slot(lens, i)] == lens[i] && value[Slot(lens, i)] == i
  }

  predicate SlotIn(lens: seq<nat>, i: nat, n: nat)
    requires Coded(lens, i)
  {
    Slot(lens, i) < n
  }

  lemma SlotTableStep(lens: seq<nat>, n: nat, size: seq<nat>, value: seq<nat>)
    requires n < |lens| && Coded(lens, n) && SlotTable(lens, n, size, value)
    ensures Slot(lens, n) < |size|
    ensures SlotTable(lens, n + 1, size[Slot(lens, n) := lens[n]], value[Slot(lens, n) := n])
  {
    SlotBound(lens, n);
    var c := Slot(lens, n);
    forall i | 0 <= i < n && Coded(lens, i) ensures Slot(lens, i) != c {
      if Slot(lens, i) == c {
        SlotInjective(lens, i, n);
      }
    }
  }

  /** next code of every length after n symbols */
  predicate NextCodes(lens: seq<nat>, n: nat, next: seq<nat>)
  {
    && |next| == 16 && n <= |lens|
    && forall s :: 1 <= s < 16 ==> next[s] == FirstCode(lens, s) + CountTo(lens, n, s)
  }

  /** Enter symbol i of length s in the lookup table, when its code is short enough. */
  method EnterFast(ghost lens: seq<nat>, fast: array<nat>, i: nat, s: nat, code: nat)
    requires ValidLengths(lens) && KraftHolds(lens) && Coded(lens, i) && s == lens[i]
    requires code == Code(lens, i) && fast.Length == 512 && FastTable(lens, i, fast[..])
    modifies fast
    ensures FastTable(lens, i + 1, fast[..])
  {
    ghost var t := fast[..];
    if s <= 9 {
      var fastv := Or(Shl(s, 9), i);
      var j := BitReverse(code, s);
      ReverseBound(code, s);
      FillFast(fast, j, s, fastv);
    }
    FastTableStep(lens, i, t, fast[..]);
  }

  /** The second half of stbi__zbuild_huffman: enter every symbol. */
  method FillSymbols(sizelist: seq<nat>, next: array<nat>, fast: array<nat>, firstcode: array<nat>,
                     firstsymbol: array<nat>, size: array<nat>, value: array<nat>)
    requires ValidLengths(sizelist) && KraftHolds(sizelist)
    requires next.Length == firstcode.Length == firstsymbol.Length == 16
    requires fast.Length == 512 && size.Length == value.Length == 288
    requires firstcode !in {next, fast, size, value} && firstsymbol !in {next, fast, size, value}
    requires next !in {fast, size, value} && fast !in {size, value} && size != value
    requires NextCodes(sizelist, 0, next[..])
    requires forall s :: 1 <= s < 16 ==>
      firstcode[s] == FirstCode(sizelist, s) && firstsymbol[s] == FirstSymbol(sizelist, s)
    requires FastTable(sizelist, 0, fast[..])
    modifies next, fast, size, value
    ensures FastTable(sizelist, |sizelist|, fast[..])
    ensures SlotTable(sizelist, |sizelist|, size[..], value[..])
  {
    for i := 0 to |sizelist|
      invariant NextCodes(sizelist, i, next[..])
      invariant FastTable(sizelist, i, fast[..])
      invariant SlotTable(sizelist, i, size[..], value[..])
    {
      var s := sizelist[i];
      if s != 0 {
        var c := next[s] - firstcode[s] + firstsymbol[s];
        SlotTableStep(sizelist, i, size[..], value[..]);
        size[c], value[c] := s, i;
        EnterFast(sizelist, fast, i, s, next[s]);
        next[s] := next[s] + 1;
      } else {
        FastTableStep(sizelist, i, fast[..], fast[..]);
      }
    }
  }

  class ZHuffman {
    const fast: array<nat>
    const firstcode: array<nat>
    const maxcode: array<nat>
    const firstsymbol: array<nat>
    const size: array<nat>
    const value: array<nat>

    /** The list of code lengths the tables were built from. */
    ghost var lens: seq<nat>

    ghost predicate Shape()
    {
      && fast.Length == 512 && firstcode.Length == firstsymbol.Length == 16 && maxcode.Length == 17
      && size.Length == value.Length == 288
      && fast !in {firstcode, maxcode, firstsymbol, size, value}
      && firstcode !in {maxcode, firstsymbol, size, value}
      && maxcode !in {firstsymbol, size, value}
      && firstsymbol !in {size, value} && size != value
    }

    ghost function Repr(): set<object> { {this, fast, firstcode, maxcode, firstsymbol, size, value} }

    /** The tables describe the canonical code of `lens`. */
    ghost predicate Built()
      reads Repr()
    {
      && Shape() && ValidLengths(lens) && KraftHolds(lens)
      && FastTable(lens, |lens|, fast[..])
      && SlotTable(lens, |lens|, size[..], value[..])
      && CodeTables()
    }

    ghost predicate CodeTables()
      reads this, firstcode, maxcode, firstsymbol
    {
      && Shape() && maxcode[16] == 0x10000
      && forall s :: 1 <= s < 16 ==>
           && firstcode[s] == FirstCode(lens, s) && firstsymbol[s] == FirstSymbol(lens, s)
           && maxcode[s] == End(lens, s)
    }

    constructor ()
      ensures Shape() && fresh(Repr())
    {
      fast := new nat[512](_ => 0);
      firstcode := new nat[16](_ => 0);
      maxcode := new nat[17](_ => 0);
      firstsymbol := new nat[16](_ => 0);
      size := new nat[288](_ => 0);
      value := new nat[288](_ => 0);
    }

    /** stbi__zbuild_huffman: a list is accepted exactly when the Kraft inequality holds. */
    method Build(sizelist: seq<nat>) returns (ok: bool)
      requires Shape() && ValidLengths(sizelist)
      modifies Repr()
      ensures ok <==> KraftHolds(sizelist)
      ensures ok ==> Built() && lens == sizelist
    {
      lens := sizelist;
      FitsIffKraft(sizelist);
      var next := new nat[16](_ => 0);
      var sizes := CountSizes(sizelist);
      forall x | 0 <= x < 512 { fast[x] := 0; }
      ok := AssignCodes(sizelist, sizes, next, firstcode, maxcode, firstsymbol);
      if ok {
        FillSymbols(sizelist, next, fast, firstcode, firstsymbol, size, value);
      }
    }
  }
}
