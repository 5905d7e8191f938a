/**
  JPEG Huffman tables: the code words of ITU-T T.81 Annex C, and stbi__build_huffman with
  its nine-bit lookup table and its table of largest codes.
*/
module JpegHuffman {
  import opened Bits
  import opened Wrappers

  // ---- code words ----

  /** Code lengths by symbol number, as Annex C lists them. */
  predicate SizesOk(sizes: seq<nat>)
  {
    && |sizes| <= 255
    && (forall i :: 0 <= i < |sizes| ==> 1 <= sizes[i] <= 16)
    && (forall i :: 0 < i < |sizes| ==> sizes[i - 1] <= sizes[i])
  }

  /** Annex C, figure C.2: count up, and append zeros whenever the length grows. */
  function CodeWord(sizes: seq<nat>, i: nat): nat
    requires SizesOk(sizes) && i < |sizes|
  {
    if i == 0 then 0 else Shl(CodeWord(sizes, i - 1) + 1, sizes[i] - sizes[i - 1])
  }

  /** Where the sixteen-bit words that begin with code i start: the codes before it, left-aligned. */
  function Edge(sizes: seq<nat>, i: nat): nat
    requires SizesOk(sizes) && i <= |sizes|
  {
    if i == 0 then 0 else Edge(sizes, i - 1) + Pow2(16 - sizes[i - 1])
  }

  predicate Fitting(sizes: seq<nat>)
    requires SizesOk(sizes)
  {
    Edge(sizes, |sizes|) <= 0x1_0000
  }

  lemma {:induction false} EdgeMono(sizes: seq<nat>, i: nat, j: nat)
    requires SizesOk(sizes) && i <= j <= |sizes|
    ensures Edge(sizes, i) <= Edge(sizes, j)
    ensures i < j ==> Edge(sizes, i) < Edge(sizes, j)
  {
    if i < j {
      EdgeMono(sizes, i, j - 1);
    }
  }

  lemma {:induction false} EdgeIsCode(sizes: seq<nat>, i: nat)
    requires SizesOk(sizes) && i < |sizes|
    ensures Edge(sizes, i) == Shl(CodeWord(sizes, i), 16 - sizes[i])
    ensures Edge(sizes, i + 1) == Shl(CodeWord(sizes, i) + 1, 16 - sizes[i])
  {
    var n := 16 - sizes[i];
    if i > 0 {
      EdgeIsCode(sizes, i - 1);
      ShlShl(CodeWord(sizes, i - 1) + 1, sizes[i] - sizes[i - 1], n);
    } else {
      ShlOne(n);
    }
    ShlAdd(CodeWord(sizes, i), 1, n);
    ShlOne(n);
  }

  /** The stream at pos begins with code word i. */
  predicate Begins(sizes: seq<nat>, bits: seq<bool>, pos: nat, i: nat)
    requires SizesOk(sizes)
  {
    i < |sizes| && TakeMSB(bits, pos, sizes[i]) == CodeWord(sizes, i)
  }

  lemma BeginsIff(sizes: seq<nat>, bits: seq<bool>, pos: nat, i: nat)
    requires SizesOk(sizes) && i < |sizes|
    ensures Begins(sizes, bits, pos, i) <==> Edge(sizes, i) <= TakeMSB(bits, pos, 16) < Edge(sizes, i + 1)
  {
    var v, s, c := TakeMSB(bits, pos, 16), sizes[i], CodeWord(sizes, i);
    var n := 16 - s;
    EdgeIsCode(sizes, i);
    TakeMSBShr(bits, pos, s, 16);
    if Shl(c, n) <= v { ShrLower(v, n, c); }
    if v < Shl(c + 1, n) { ShrBound(v, n, c + 1); }
    LowShr(v, n);
    LowBound(v, n);
    ShlAdd(c, 1, n);
    ShlOne(n);
  }

  /** No code word begins with another. */
  lemma OneBegins(sizes: seq<nat>, bits: seq<bool>, pos: nat, i: nat, j: nat)
    requires SizesOk(sizes) && Begins(sizes, bits, pos, i) && Begins(sizes, bits, pos, j)
    ensures i == j
  {
    BeginsIff(sizes, bits, pos, i);
    BeginsIff(sizes, bits, pos, j);
    if i < j {
      EdgeMono(sizes, i + 1, j);
    } else if j < i {
      EdgeMono(sizes, j + 1, i);
    }
  }

  /** Plain decoding: the symbol number below n whose code word comes next. */
  function Find(sizes: seq<nat>, bits: seq<bool>, pos: nat, n: nat): (r: Option<nat>)
    requires SizesOk(sizes) && n <= |sizes|
    ensures r.Some? ==> r.value < n && Begins(sizes, bits, pos, r.value)
  {
    if n == 0 then None
    else if Begins(sizes, bits, pos, n - 1) then Some(n - 1)
    else Find(sizes, bits, pos, n - 1)
  }

  function Symbol(sizes: seq<nat>, bits: seq<bool>, pos: nat): (r: Option<nat>)
    requires SizesOk(sizes)
    ensures r.Some? ==> Begins(sizes, bits, pos, r.value)
  {
    Find(sizes, bits, pos, |sizes|)
  }

  lemma {:induction false} FindIs(sizes: seq<nat>, bits: seq<bool>, pos: nat, n: nat, i: nat)
    requires SizesOk(sizes) && i < n <= |sizes| && Begins(sizes, bits, pos, i)
    ensures Find(sizes, bits, pos, n) == Some(i)
  {
    if Begins(sizes, bits, pos, n - 1) {
      OneBegins(sizes, bits, pos, i, n - 1);
    } else {
      FindIs(sizes, bits, pos, n - 1, i);
    }
  }

  lemma SymbolIs(sizes: seq<nat>, bits: seq<bool>, pos: nat, i: nat)
    requires SizesOk(sizes) && Begins(sizes, bits, pos, i)
    ensures Symbol(sizes, bits, pos) == Some(i)
  {
    FindIs(sizes, bits, pos, |sizes|, i);
  }

  /** A word below all edges up to n lies between two of them. */
  lemma {:induction false} Between(sizes: seq<nat>, v: nat, n: nat) returns (i: nat)
    requires SizesOk(sizes) && n <= |sizes| && v < Edge(sizes, n)
    ensures i < n && Edge(sizes, i) <= v < Edge(sizes, i + 1)
  {
    if Edge(sizes, n - 1) <= v {
      i := n - 1;
    } else {
      i := Between(sizes, v, n - 1);
    }
  }

  lemma NoSymbol(sizes: seq<nat>, bits: seq<bool>, pos: nat)
    requires SizesOk(sizes) && Edge(sizes, |sizes|) <= TakeMSB(bits, pos, 16)
    ensures Symbol(sizes, bits, pos).None?
  {
    var r := Symbol(sizes, bits, pos);
    if r.Some? {
      BeginsIff(sizes, bits, pos, r.value);
      EdgeMono(sizes, r.value + 1, |sizes|);
      assert false;
    }
  }

  // ---- the tables ----

  /** How many symbols have at most j bits. */
  ghost predicate UpTo(sizes: seq<nat>, j: nat, k: nat)
  {
    k <= |sizes| && (forall i :: 0 <= i < k ==> sizes[i] <= j) && (forall i :: k <= i < |sizes| ==> sizes[i] > j)
  }

  /** maxcode and delta of length j. */
  ghost predicate LengthRow(sizes: seq<nat>, j: nat, maxcode: nat, delta: int)
    requires SizesOk(sizes)
  {
    && (exists k :: UpTo(sizes, j, k) && maxcode == Edge(sizes, k))
    && forall i :: 0 <= i < |sizes| && sizes[i] == j ==> CodeWord(sizes, i) + delta == i
  }

  /** The nine-bit lookups below the first n codes; all n of them short. */
  predicate FastFilled(sizes: seq<nat>, t: seq<byte>, n: nat)
    requires SizesOk(sizes) && n <= |sizes|
  {
    |t| == 512 && forall x :: 0 <= x < 512 ==> FastRight(sizes, t[x], n, x)
  }

  predicate FastRight(sizes: seq<nat>, e: byte, n: nat, x: nat)
    requires SizesOk(sizes) && n <= |sizes|
  {
    if 128 * x < Edge(sizes, n) then e < n && Edge(sizes, e) <= 128 * x < Edge(sizes, e + 1) else e == 255
  }

  /** Edges of short codes are multiples of 128. */
  lemma {:induction false} ShortEdge(sizes: seq<nat>, n: nat)
    requires SizesOk(sizes) && n <= |sizes| && forall i :: 0 <= i < n ==> sizes[i] <= 9
    ensures Edge(sizes, n) % 128 == 0
  {
    hide Pow2, Shl;
    if n > 0 {
      ShortEdge(sizes, n - 1);
      ShlOne(9 - sizes[n - 1]);
      ShlOne(16 - sizes[n - 1]);
      ShlShl(1, 9 - sizes[n - 1], 7);
      ShlSeven(Pow2(9 - sizes[n - 1]));
    }
  }

  lemma ShlSeven(x: nat)
    ensures Shl(x, 7) == 128 * x
  {
    assert Shl(x, 1) == 2 * Shl(x, 0);
    assert Shl(x, 2) == 2 * Shl(x, 1);
    assert Shl(x, 3) == 2 * Shl(x, 2);
    assert Shl(x, 4) == 2 * Shl(x, 3);
    assert Shl(x, 5) == 2 * Shl(x, 4);
    assert Shl(x, 6) == 2 * Shl(x, 5);
  }

  lemma SameOf128(v: nat, e: nat)
    requires e % 128 == 0
    ensures 128 * (v / 128) < e <==> v < e
  {
  }

  /** A lookup finds the symbol, and an empty one means a longer code or none. */
  lemma FastLookup(sizes: seq<nat>, t: seq<byte>, n: nat, bits: seq<bool>, pos: nat)
    requires SizesOk(sizes) && UpTo(sizes, 9, n) && FastFilled(sizes, t, n) && TakeMSB(bits, pos, 16) / 128 < 512
    ensures var v := TakeMSB(bits, pos, 16); var e := t[v / 128];
      if e < 255 then Symbol(sizes, bits, pos) == Some(e as nat) && e < n else Edge(sizes, n) <= v
  {
    hide SizesOk, Edge, Begins, Symbol;
    var v := TakeMSB(bits, pos, 16);
    var x := v / 128;
    var e := t[x];
    assert FastRight(sizes, e, n, x);
    ShortEdge(sizes, n);
    SameOf128(v, Edge(sizes, n));
    AtMost255(sizes);
    if e < 255 {
      assert e < n;
      ShortEdge(sizes, e + 1);
      SameOf128(v, Edge(sizes, e + 1));
      BeginsIff(sizes, bits, pos, e);
      SymbolIs(sizes, bits, pos, e);
    }
  }

  lemma AtMost255(sizes: seq<nat>)
    requires SizesOk(sizes)
    ensures |sizes| <= 255
  {
  }

  /** The search through maxcode ends at the length of the code. */
  lemma SlowLookup(sizes: seq<nat>, bits: seq<bool>, pos: nat, k: nat, m: nat, n: nat, maxcode: nat, delta: int)
    requires SizesOk(sizes) && 1 <= k <= 16 && UpTo(sizes, k - 1, m) && UpTo(sizes, k, n)
    requires Edge(sizes, m) <= TakeMSB(bits, pos, 16) < Edge(sizes, n)
    requires LengthRow(sizes, k, maxcode, delta)
    ensures var c := TakeMSB(bits, pos, k) + delta;
      0 <= c < |sizes| && sizes[c] == k && Symbol(sizes, bits, pos) == Some(c as nat)
  {
    hide SizesOk, Edge, Symbol, CodeWord;
    var i := Between(sizes, TakeMSB(bits, pos, 16), n);
    if i < m {
      EdgeMono(sizes, i + 1, m);
    }
    BeginsIff(sizes, bits, pos, i);
    SymbolIs(sizes, bits, pos, i);
  }
}
