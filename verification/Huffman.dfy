/**
  Canonical prefix codes from a list of code lengths (RFC 1951, section 3.2.2): which
  lists are accepted, that the codes are prefix-free, and how a code word is located
  from the next sixteen bits of a stream.
*/
module Canonical {
  import opened Bits
  import opened Wrappers

  /** Code lengths of at most 288 symbols; 0 means the symbol has no code. */
  type Lengths = l: seq<nat> | ValidLengths(l)

  predicate ValidLengths(l: seq<nat>)
  {
    |l| <= 288 && forall i :: 0 <= i < |l| ==> l[i] <= 15
  }

  /** How many of the first n symbols have length s. */
  function CountTo(lens: seq<nat>, n: nat, s: nat): (c: nat)
    requires n <= |lens|
    ensures c <= n
  {
    if n == 0 then 0 else CountTo(lens, n - 1, s) + if lens[n - 1] == s then 1 else 0
  }

  function Count(lens: seq<nat>, s: nat): nat { CountTo(lens, |lens|, s) }

  /** The first code of length s: bl_count and next_code of the RFC. */
  function FirstCode(lens: seq<nat>, s: nat): nat
    requires s >= 1
  {
    if s == 1 then 0 else 2 * (FirstCode(lens, s - 1) + Count(lens, s - 1))
  }

  /** How many symbols have a code shorter than s. */
  function FirstSymbol(lens: seq<nat>, s: nat): nat
    requires s >= 1
  {
    if s == 1 then 0 else FirstSymbol(lens, s - 1) + Count(lens, s - 1)
  }

  function Rank(lens: seq<nat>, i: nat): nat
    requires i < |lens|
  {
    CountTo(lens, i, lens[i])
  }

  predicate Coded(lens: seq<nat>, i: nat) { i < |lens| && lens[i] > 0 }

  function Code(lens: seq<nat>, i: nat): nat
    requires Coded(lens, i)
  {
    FirstCode(lens, lens[i]) + Rank(lens, i)
  }

  /** The codes of every used length fit that length. */
  predicate Fits(lens: seq<nat>)
  {
    forall s :: 1 <= s <= 15 && Count(lens, s) > 0 ==> FirstCode(lens, s) + Count(lens, s) <= Pow2(s)
  }

  /** The stream at pos begins with the code of symbol i. */
  predicate Matches(lens: seq<nat>, bits: seq<bool>, pos: nat, i: nat)
  {
    Coded(lens, i) && TakeMSB(bits, pos, lens[i]) == Code(lens, i)
  }

  /** Plain canonical decoding: the symbol among the first n whose code comes next. */
  function Search(lens: seq<nat>, bits: seq<bool>, pos: nat, n: nat): (r: Option<nat>)
    requires n <= |lens|
    ensures r.Some? ==> r.value < |lens| && lens[r.value] > 0
  {
    if n == 0 then None
    else if Matches(lens, bits, pos, n - 1) then Some(n - 1)
    else Search(lens, bits, pos, n - 1)
  }

  function Decode(lens: seq<nat>, bits: seq<bool>, pos: nat): (r: Option<nat>)
    ensures r.Some? ==> r.value < |lens| && lens[r.value] > 0
  {
    Search(lens, bits, pos, |lens|)
  }

  lemma {:induction false} SearchFinds(lens: seq<nat>, bits: seq<bool>, pos: nat, n: nat)
    requires n <= |lens|
    ensures match Search(lens, bits, pos, n)
            case Some(i) => i < n && Matches(lens, bits, pos, i)
            case None => forall i :: 0 <= i < n ==> !Matches(lens, bits, pos, i)
  {
    if n > 0 {
      SearchFinds(lens, bits, pos, n - 1);
    }
  }

  /** Decoding finds a matching symbol exactly when there is one. */
  lemma DecodeFinds(lens: seq<nat>, bits: seq<bool>, pos: nat)
    ensures match Decode(lens, bits, pos)
            case Some(i) => Matches(lens, bits, pos, i)
            case None => forall i :: !Matches(lens, bits, pos, i)
  {
    SearchFinds(lens, bits, pos, |lens|);
  }

  // ---- counting ----

  lemma {:induction false} CountMono(lens: seq<nat>, m: nat, n: nat, s: nat)
    requires m <= n <= |lens|
    ensures CountTo(lens, m, s) <= CountTo(lens, n, s)
  {
    if m < n {
      CountMono(lens, m, n - 1, s);
    }
  }

  lemma RankBelowCount(lens: seq<nat>, i: nat)
    requires i < |lens|
    ensures Rank(lens, i) < Count(lens, lens[i])
  {
    CountMono(lens, i + 1, |lens|, lens[i]);
  }

  lemma RankInjective(lens: seq<nat>, i: nat, j: nat)
    requires i < |lens| && j < |lens| && lens[i] == lens[j] && Rank(lens, i) == Rank(lens, j)
    ensures i == j
  {
    if i < j {
      CountMono(lens, i + 1, j, lens[i]);
    } else if j < i {
      CountMono(lens, j + 1, i, lens[i]);
    }
  }

  /** Every rank below the count belongs to a symbol. */
  lemma {:induction false} SymbolOfRank(lens: seq<nat>, n: nat, s: nat, r: nat) returns (i: nat)
    requires n <= |lens| && r < CountTo(lens, n, s)
    ensures i < n && lens[i] == s && Rank(lens, i) == r
  {
    if CountTo(lens, n - 1, s) > r {
      i := SymbolOfRank(lens, n - 1, s, r);
    } else {
      i := n - 1;
    }
  }

  lemma {:induction false} CountDisjoint(lens: seq<nat>, n: nat, s: nat, t: nat)
    requires n <= |lens| && s != t
    ensures CountTo(lens, n, s) + CountTo(lens, n, t) <= n
  {
    if n > 0 {
      CountDisjoint(lens, n - 1, s, t);
    }
  }

  function CountBelow(lens: seq<nat>, n: nat, s: nat): nat
    requires n <= |lens|
  {
    if n == 0 then 0 else CountBelow(lens, n - 1, s) + if 0 < lens[n - 1] < s then 1 else 0
  }

  lemma {:induction false} CountBelowStep(lens: seq<nat>, n: nat, s: nat)
    requires n <= |lens| && s >= 1
    ensures CountBelow(lens, n, s + 1) == CountBelow(lens, n, s) + CountTo(lens, n, s)
    ensures CountBelow(lens, n, s + 1) <= n
    ensures CountBelow(lens, n, 1) == 0
  {
    if n > 0 {
      CountBelowStep(lens, n - 1, s);
    }
  }

  lemma {:induction false} FirstSymbolIsCountBelow(lens: seq<nat>, s: nat)
    requires s >= 1
    ensures FirstSymbol(lens, s) == CountBelow(lens, |lens|, s)
    ensures FirstSymbol(lens, s) + Count(lens, s) <= |lens|
  {
    CountBelowStep(lens, |lens|, s);
    if s > 1 {
      FirstSymbolIsCountBelow(lens, s - 1);
      CountBelowStep(lens, |lens|, s - 1);
    }
  }

  lemma {:induction false} FirstSymbolMono(lens: seq<nat>, s: nat, t: nat)
    requires 1 <= s < t
    ensures FirstSymbol(lens, s) + Count(lens, s) <= FirstSymbol(lens, t)
  {
    if s + 1 < t {
      FirstSymbolMono(lens, s, t - 1);
    }
  }

  /** The place of symbol i in the tables sorted by length and then by symbol. */
  function Slot(lens: seq<nat>, i: nat): nat
    requires Coded(lens, i)
  {
    FirstSymbol(lens, lens[i]) + Rank(lens, i)
  }

  lemma SlotBound(lens: seq<nat>, i: nat)
    requires Coded(lens, i)
    ensures Slot(lens, i) < |lens|
  {
    RankBelowCount(lens, i);
    FirstSymbolIsCountBelow(lens, lens[i]);
  }

  lemma SlotInjective(lens: seq<nat>, i: nat, j: nat)
    requires Coded(lens, i) && Coded(lens, j) && Slot(lens, i) == Slot(lens, j)
    ensures i == j
  {
    RankBelowCount(lens, i);
    RankBelowCount(lens, j);
    if lens[i] < lens[j] {
      FirstSymbolMono(lens, lens[i], lens[j]);
    } else if lens[j] < lens[i] {
      FirstSymbolMono(lens, lens[j], lens[i]);
    } else {
      RankInjective(lens, i, j);
    }
  }

  // ---- where the codes lie among the sixteen-bit words ----

  function Start(lens: seq<nat>, s: nat): nat
    requires 1 <= s <= 16
  {
    Shl(FirstCode(lens, s), 16 - s)
  }

  /** One past the last sixteen-bit word that begins with a code of length s. */
  function End(lens: seq<nat>, s: nat): nat
    requires 1 <= s <= 16
  {
    Shl(FirstCode(lens, s) + Count(lens, s), 16 - s)
  }

  lemma StartIsEnd(lens: seq<nat>, s: nat)
    requires 2 <= s <= 16
    ensures Start(lens, s) == End(lens, s - 1)
  {
    var c := FirstCode(lens, s - 1) + Count(lens, s - 1);
    ShlShl(c, 1, 16 - s);
    assert Shl(c, 1) == 2 * c;
  }

  lemma StartBelowEnd(lens: seq<nat>, s: nat)
    requires 1 <= s <= 16
    ensures Start(lens, s) <= End(lens, s)
  {
    ShlAdd(FirstCode(lens, s), Count(lens, s), 16 - s);
  }

  lemma {:induction false} EndMono(lens: seq<nat>, s: nat, t: nat)
    requires 1 <= s <= t <= 16
    ensures End(lens, s) <= End(lens, t)
  {
    if s < t {
      EndMono(lens, s, t - 1);
      StartIsEnd(lens, t);
      StartBelowEnd(lens, t);
    }
  }

  /** A code word begins the stream exactly when the next sixteen bits lie in its interval. */
  lemma MatchesInterval(lens: seq<nat>, bits: seq<bool>, pos: nat, i: nat)
    requires Coded(lens, i) && lens[i] <= 15
    ensures Matches(lens, bits, pos, i) <==>
      Shr(TakeMSB(bits, pos, 16), 16 - lens[i]) == Code(lens, i)
  {
    TakeMSBShr(bits, pos, lens[i], 16);
  }

  lemma WordInterval(lens: seq<nat>, v: nat, s: nat)
    requires 1 <= s <= 15
    ensures Start(lens, s) <= v < End(lens, s) <==>
      FirstCode(lens, s) <= Shr(v, 16 - s) < FirstCode(lens, s) + Count(lens, s)
  {
    var n, a, b := 16 - s, FirstCode(lens, s), FirstCode(lens, s) + Count(lens, s);
    if Shl(a, n) <= v { ShrLower(v, n, a); }
    if v < Shl(b, n) { ShrBound(v, n, b); }
    LowShr(v, n);
    if a <= Shr(v, n) { ShlAdd(a, Shr(v, n) - a, n); }
    if Shr(v, n) < b { ShlLess(Shr(v, n), b, n); LowBound(v, n); }
  }

  lemma MatchInside(lens: seq<nat>, bits: seq<bool>, pos: nat, i: nat)
    requires Matches(lens, bits, pos, i) && lens[i] <= 15
    ensures Start(lens, lens[i]) <= TakeMSB(bits, pos, 16) < End(lens, lens[i])
  {
    MatchesInterval(lens, bits, pos, i);
    RankBelowCount(lens, i);
    WordInterval(lens, TakeMSB(bits, pos, 16), lens[i]);
  }

  lemma IntervalsDisjoint(lens: seq<nat>, v: nat, s: nat, t: nat)
    requires 1 <= s <= 16 && 1 <= t <= 16
    requires Start(lens, s) <= v < End(lens, s) && Start(lens, t) <= v < End(lens, t)
    ensures s == t
  {
    if s < t {
      StartIsEnd(lens, t);
      EndMono(lens, s, t - 1);
    } else if t < s {
      StartIsEnd(lens, s);
      EndMono(lens, t, s - 1);
    }
  }

  /** At most one code begins a stream: the code is prefix-free. */
  lemma PrefixFree(lens: seq<nat>, bits: seq<bool>, pos: nat, i: nat, j: nat)
    requires ValidLengths(lens) && Matches(lens, bits, pos, i) && Matches(lens, bits, pos, j)
    ensures i == j
  {
    MatchInside(lens, bits, pos, i);
    MatchInside(lens, bits, pos, j);
    IntervalsDisjoint(lens, TakeMSB(bits, pos, 16), lens[i], lens[j]);
    RankInjective(lens, i, j);
  }

  /** The word falls in the interval of length s: exactly one symbol of that length matches. */
  lemma SymbolAt(lens: seq<nat>, bits: seq<bool>, pos: nat, s: nat) returns (i: nat)
    requires ValidLengths(lens) && 1 <= s <= 15
    requires Start(lens, s) <= TakeMSB(bits, pos, 16) < End(lens, s)
    ensures Matches(lens, bits, pos, i) && lens[i] == s
    ensures Slot(lens, i) == Shr(TakeMSB(bits, pos, 16), 16 - s) - FirstCode(lens, s) + FirstSymbol(lens, s)
  {
    var v := TakeMSB(bits, pos, 16);
    WordInterval(lens, v, s);
    i := SymbolOfRank(lens, |lens|, s, Shr(v, 16 - s) - FirstCode(lens, s));
    MatchesInterval(lens, bits, pos, i);
  }

  lemma DecodeIs(lens: seq<nat>, bits: seq<bool>, pos: nat, i: nat)
    requires ValidLengths(lens) && Matches(lens, bits, pos, i)
    ensures Decode(lens, bits, pos) == Some(i)
  {
    DecodeFinds(lens, bits, pos);
    PrefixFree(lens, bits, pos, i, Decode(lens, bits, pos).value);
  }

  // ---- which length lists are accepted ----

  /** The Kraft sum of the list, in units of 2^-15. */
  function Kraft(lens: seq<nat>, n: nat, s: nat): nat
    requires n <= |lens| && s <= 15
  {
    if n == 0 then 0
    else Kraft(lens, n - 1, s) + if 0 < lens[n - 1] <= s then Pow2(15 - lens[n - 1]) else 0
  }

  lemma {:induction false} KraftStep(lens: seq<nat>, n: nat, s: nat)
    requires n <= |lens| && 1 <= s <= 15
    ensures Kraft(lens, n, s) == Kraft(lens, n, s - 1) + Shl(CountTo(lens, n, s), 15 - s)
    ensures Kraft(lens, n, 0) == 0
  {
    ShlOne(15 - s);
    if n > 0 {
      KraftStep(lens, n - 1, s);
      ShlAdd(CountTo(lens, n - 1, s), 1, 15 - s);
    }
  }

  lemma {:induction false} KraftIsFirstCode(lens: seq<nat>, s: nat)
    requires 1 <= s <= 15
    ensures Kraft(lens, |lens|, s) == Shl(FirstCode(lens, s) + Count(lens, s), 15 - s)
  {
    KraftStep(lens, |lens|, s);
    ShlOne(15 - s);
    ShlAdd(FirstCode(lens, s), Count(lens, s), 15 - s);
    if s > 1 {
      KraftIsFirstCode(lens, s - 1);
      var c := FirstCode(lens, s - 1) + Count(lens, s - 1);
      ShlShl(c, 1, 15 - s);
      assert Shl(c, 1) == 2 * c;
    }
  }

  lemma {:induction false} KraftMono(lens: seq<nat>, n: nat, s: nat, t: nat)
    requires n <= |lens| && s <= t <= 15
    ensures Kraft(lens, n, s) <= Kraft(lens, n, t)
  {
    if n > 0 {
      KraftMono(lens, n - 1, s, t);
    }
  }

  predicate KraftHolds(lens: seq<nat>) { Kraft(lens, |lens|, 15) <= 0x8000 }

  predicate FitsTo(lens: seq<nat>, n: nat)
  {
    forall s :: 1 <= s < n && Count(lens, s) > 0 ==> FirstCode(lens, s) + Count(lens, s) <= Pow2(s)
  }

  lemma {:induction false} FirstCodeFits(lens: seq<nat>, s: nat)
    requires 1 <= s && FitsTo(lens, s)
    ensures FirstCode(lens, s) <= Pow2(s)
  {
    if s > 1 {
      FirstCodeFits(lens, s - 1);
    }
  }

  /** The code of every length fits exactly when the Kraft inequality holds. */
  lemma FitsIffKraft(lens: seq<nat>)
    ensures Fits(lens) <==> KraftHolds(lens)
  {
    Pow2Of15();
    KraftIsFirstCode(lens, 15);
    if Fits(lens) {
      FirstCodeFits(lens, 15);
      assert FirstCode(lens, 15) + Count(lens, 15) <= Pow2(15);
    }
    if KraftHolds(lens) {
      forall s | 1 <= s <= 15 ensures FirstCode(lens, s) + Count(lens, s) <= Pow2(s) {
        KraftFits(lens, s);
      }
    }
  }

  lemma KraftFits(lens: seq<nat>, s: nat)
    requires KraftHolds(lens) && 1 <= s <= 15
    ensures FirstCode(lens, s) + Count(lens, s) <= Pow2(s)
  {
    hide FirstCode, Count, Shl, Pow2;
    var c := FirstCode(lens, s) + Count(lens, s);
    Pow2Of15();
    KraftMono(lens, |lens|, s, 15);
    KraftIsFirstCode(lens, s);
    ShlOne(s);
    ShlShl(1, s, 15 - s);
    ShlOne(15);
    if Pow2(s) < c {
      ShlLess(Pow2(s), c, 15 - s);
      assert false;
    }
  }
}
