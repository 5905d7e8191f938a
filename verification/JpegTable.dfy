/** stbi__huffman and stbi__build_huffman. */
module JpegTables {
  import opened Bits
  import opened JpegHuffman

  function Rep(s: nat, n: nat): (r: seq<nat>)
    ensures |r| == n && forall i :: 0 <= i < n ==> r[i] == s
  {
    seq(n, _ => s)
  }

  /** The code lengths in order, count[s - 1] of each length s up to n. */
  function Sizes(count: seq<nat>, n: nat): (r: seq<nat>)
    requires n <= |count|
  {
    if n == 0 then [] else Sizes(count, n - 1) + Rep(n, count[n - 1])
  }

  lemma {:induction false} SizesBound(count: seq<nat>, m: nat, n: nat)
    requires m <= n <= |count|
    ensures |Sizes(count, m)| <= |Sizes(count, n)|
  {
    if m < n {
      SizesBound(count, m, n - 1);
    }
  }

  lemma {:induction false} SizesSorted(count: seq<nat>, n: nat)
    requires n <= |count|
    ensures forall i :: 0 <= i < |Sizes(count, n)| ==> 1 <= Sizes(count, n)[i] <= n
    ensures forall i :: 0 < i < |Sizes(count, n)| ==> Sizes(count, n)[i - 1] <= Sizes(count, n)[i]
  {
    if n > 0 {
      SizesSorted(count, n - 1);
    }
  }

  lemma SizesAreOk(count: seq<nat>)
    requires |count| == 16 && |Sizes(count, 16)| <= 255
    ensures SizesOk(Sizes(count, 16))
  {
    SizesSorted(count, 16);
  }

  /** Symbols k and up are longer than j, those before it are not. */
  lemma UpToIs(sizes: seq<nat>, j: nat, k: nat)
    requires SizesOk(sizes) && k <= |sizes| && (k < |sizes| ==> sizes[k] > j) && (k > 0 ==> sizes[k - 1] <= j)
    ensures UpTo(sizes, j, k)
  {
    SortedMono(sizes);
  }

  lemma SortedMono(sizes: seq<nat>)
    requires SizesOk(sizes)
    ensures forall i, j :: 0 <= i <= j < |sizes| ==> sizes[i] <= sizes[j]
  {
    forall i, j | 0 <= i <= j < |sizes| ensures sizes[i] <= sizes[j] {
      SortedPair(sizes, i, j);
    }
  }

  lemma {:induction false} SortedPair(sizes: seq<nat>, i: nat, j: nat)
    requires SizesOk(sizes) && i <= j < |sizes|
    ensures sizes[i] <= sizes[j]
  {
    if i < j {
      SortedPair(sizes, i, j - 1);
    }
  }

  /** Codes of equal length count up by one. */
  lemma {:induction false} SameLength(sizes: seq<nat>, i: nat, j: nat)
    requires SizesOk(sizes) && i <= j < |sizes| && sizes[i] == sizes[j]
    ensures CodeWord(sizes, j) == CodeWord(sizes, i) + (j - i)
  {
    SortedMono(sizes);
    if i < j {
      SameLength(sizes, i, j - 1);
      assert Shl(CodeWord(sizes, j - 1) + 1, 0) == CodeWord(sizes, j - 1) + 1;
    }
  }

  /** The counter at length j is the code word of the next symbol of that length. */
  lemma CounterIsCode(sizes: seq<nat>, j: nat, k: nat, code: nat)
    requires SizesOk(sizes) && 1 <= j <= 16 && k < |sizes| && sizes[k] == j && Shl(code, 16 - j) == Edge(sizes, k)
    ensures code == CodeWord(sizes, k) && Shl(code + 1, 16 - j) == Edge(sizes, k + 1)
  {
    EdgeIsCode(sizes, k);
    var c := CodeWord(sizes, k);
    if code < c {
      ShlLess(code, c, 16 - j);
    } else if c < code {
      ShlLess(c, code, 16 - j);
    }
  }

  /** The counter fits its length exactly while the codes so far fit sixteen bits. */
  lemma CounterFits(sizes: seq<nat>, j: nat, k: nat, code: nat)
    requires SizesOk(sizes) && 1 <= j <= 16 && k <= |sizes| && Shl(code, 16 - j) == Edge(sizes, k)
    ensures code <= Shl(1, j) <==> Edge(sizes, k) <= 0x1_0000
  {
    Pow2Of15();
    ShlOne(j);
    ShlShl(1, j, 16 - j);
    ShlOne(16);
    if code <= Shl(1, j) {
      ShlAdd(code, Shl(1, j) - code, 16 - j);
    } else {
      ShlLess(Shl(1, j), code, 16 - j);
    }
  }

  lemma CounterDoubles(code: nat, n: nat)
    requires n > 0
    ensures Shl(Shl(code, 1), n - 1) == Shl(code, n)
  {
    ShlShl(code, 1, n - 1);
  }

  ghost predicate Apart(s: set<object>, o: object) { o !in s }

  class JpegTable {
    const fast: array<byte>
    const code: array<nat>
    const values: array<byte>
    const size: array<nat>
    const maxcode: array<nat>
    const delta: array<int>
    /** The lengths the tables are built for. */
    ghost var sizes: seq<nat>

    ghost predicate Shape()
    {
      && fast.Length == 512 && code.Length == 256 && values.Length == 256 && size.Length == 257
      && maxcode.Length == 18 && delta.Length == 17
      && fast != values && code != size && code != maxcode && size != maxcode && Apart({code, size, maxcode}, delta)
    }

    ghost function Repr(): set<object> { {this, fast, code, values, size, maxcode, delta} }

    ghost predicate SizesListed()
      reads this, size
    {
      Shape() && SizesOk(sizes) && size[..|sizes|] == sizes && size[|sizes|] == 0
    }

    /** The rows of lengths below n are right. */
    ghost predicate RowsBelow(n: nat)
      reads this, maxcode, delta
    {
      && Shape() && n <= 17 && SizesOk(sizes)
      && forall j :: 1 <= j < n ==> LengthRow(sizes, j, maxcode[j], delta[j])
    }

    ghost predicate CodesBelow(n: nat)
      reads this, code
    {
      && Shape() && SizesOk(sizes) && n <= |sizes|
      && forall i :: 0 <= i < n ==> code[i] == CodeWord(sizes, i)
    }

    ghost predicate FastBuilt()
      reads this, fast
    {
      Shape() && SizesOk(sizes) && exists n :: UpTo(sizes, 9, n) && FastFilled(sizes, fast[..], n)
    }

    /** The tables describe the code of `sizes`. */
    ghost predicate Built()
      reads Repr()
    {
      SizesListed() && Fitting(sizes) && RowsBelow(17) && maxcode[17] == 0xffff_ffff && FastBuilt()
    }

    constructor ()
      ensures Shape() && fresh(Repr())
    {
      fast := new byte[512](_ => 0);
      code := new nat[256](_ => 0);
      values := new byte[256](_ => 0);
      size := new nat[257](_ => 0);
      maxcode := new nat[18](_ => 0);
      delta := new int[17](_ => 0);
    }

    method ListSizes(count: seq<nat>)
      requires Shape() && |count| == 16 && |Sizes(count, 16)| <= 255
      modifies this`sizes, size
      ensures SizesListed() && sizes == Sizes(count, 16)
    {
      var k: nat := 0;
      for i := 0 to 16
        invariant k == |Sizes(count, i)| <= 255 && size[..k] == Sizes(count, i)
      {
        SizesBound(count, i, 16);
        SizesBound(count, i + 1, 16);
        for j := 0 to count[i]
          invariant k == |Sizes(count, i)| + j <= 255 && size[..k] == Sizes(count, i) + Rep(i + 1, j)
        {
          assert Rep(i + 1, j + 1) == Rep(i + 1, j) + [i + 1];
          size[k] := i + 1;
          k := k + 1;
        }
      }
      size[k] := 0;
      sizes := Sizes(count, 16);
      SizesAreOk(count);
    }

    lemma SizeIs(k: nat)
      requires SizesListed() && k <= |sizes|
      ensures k < size.Length && size[k] == (if k < |sizes| then sizes[k] else 0) && k <= 255
      ensures k < |sizes| ==> sizes[k] > 0
    {
      if k < |sizes| {
        assert size[k] == size[..|sizes|][k];
      }
    }

    /** Symbols k0 to k have length j and code words that count up from code0. */
    ghost predicate Counted(j: nat, k0: nat, k: nat, code0: nat)
      reads this
    {
      && SizesOk(sizes) && k <= |sizes|
      && forall i :: k0 <= i < k ==> sizes[i] == j && CodeWord(sizes, i) + (k0 - code0) == i
    }

    method CountUp(j: nat, k0: nat, code0: nat) returns (k: nat, next: nat)
      requires SizesListed() && CodesBelow(k0) && 1 <= j <= 16 && k0 <= |sizes| && Shl(code0, 16 - j) == Edge(sizes, k0)
      modifies code
      ensures SizesListed() && CodesBelow(k) && k0 <= k <= |sizes| && Shl(next, 16 - j) == Edge(sizes, k)
      ensures Counted(j, k0, k, code0) && (k < |sizes| ==> sizes[k] != j) && next - code0 == k - k0
    {
      hide SizesListed, Edge, CodeWord, Shl, SizesOk;
      k, next := k0, code0;
      SizeIs(k);
      OkSizes();
      while size[k] == j
        invariant k0 <= k <= |sizes| && SizesListed() && CodesBelow(k) && Shl(next, 16 - j) == Edge(sizes, k)
        invariant next - code0 == k - k0 && Counted(j, k0, k, code0)
        invariant k < 256 && size[k] == if k < |sizes| then sizes[k] else 0
        decreases |sizes| - k
      {
        CounterIsCode(sizes, j, k, next);
        code[k] := next;
        k := k + 1;
        next := next + 1;
        SizeIs(k);
      }
    }

    lemma OkSizes()
      requires SizesListed()
      ensures SizesOk(sizes)
    {
    }

    /** The codes of length j; ok unless they need more than j bits. */
    method AssignLength(j: nat, k0: nat, code0: nat) returns (ok: bool, k: nat, next: nat)
      requires SizesListed() && CodesBelow(k0) && 1 <= j <= 16 && k0 <= |sizes| && Shl(code0, 16 - j) == Edge(sizes, k0)
      requires UpTo(sizes, j - 1, k0) && Edge(sizes, k0) <= 0x1_0000
      modifies code
      ensures SizesListed() && k0 <= k <= |sizes| && CodesBelow(k) && UpTo(sizes, j, k)
      ensures Shl(next, 16 - j) == Edge(sizes, k) && (ok <==> Edge(sizes, k) <= 0x1_0000)
      ensures Counted(j, k0, k, code0)
    {
      hide SizesListed, Edge, CodeWord, Shl, CodesBelow;
      ok, k, next := true, k0, code0;
      SizeIs(k0);
      OkSizes();
      if size[k] == j {
        k, next := CountUp(j, k0, code0);
        CounterFits(sizes, j, k, next);
        ok := next - 1 < Shl(1, j);
      }
      SortedMono(sizes);
      UpToIs(sizes, j, k);
    }

    lemma RowIs(j: nat, k0: nat, k: nat, code0: nat)
      requires j > 0 && k0 <= k && Counted(j, k0, k, code0) && UpTo(sizes, j - 1, k0) && UpTo(sizes, j, k)
      ensures LengthRow(sizes, j, Edge(sizes, k), k0 - code0)
    {
      hide Edge, CodeWord;
    }

    /** One length: its largest code and the distance from codes to symbols. */
    method SetRow(j: nat, k0: nat, code0: nat) returns (ok: bool, k: nat, next: nat)
      requires SizesListed() && CodesBelow(k0) && 1 <= j <= 16 && k0 <= |sizes| && Shl(code0, 16 - j) == Edge(sizes, k0)
      requires UpTo(sizes, j - 1, k0) && Edge(sizes, k0) <= 0x1_0000 && RowsBelow(j)
      modifies code, maxcode, delta
      ensures SizesListed() && k0 <= k <= |sizes| && CodesBelow(k) && UpTo(sizes, j, k)
      ensures ok <==> Edge(sizes, k) <= 0x1_0000
      ensures ok ==> RowsBelow(j + 1) && (j < 16 ==> Shl(next, 16 - (j + 1)) == Edge(sizes, k))
    {
      hide SizesListed, Edge, CodeWord, Shl, CodesBelow, UpTo, Counted, LengthRow, SizesOk;
      ghost var rows, deltas := maxcode[..], delta[..];
      delta[j] := k0 - code0;
      var code1;
      ok, k, code1 := AssignLength(j, k0, code0);
      OkSizes();
      next := Shl(code1, 1);
      if ok {
        maxcode[j] := Shl(code1, 16 - j);
        RowIs(j, k0, k, code0);
        if j < 16 {
          CounterDoubles(code1, 16 - j);
        }
      }
    }

    /** The loop over the lengths: ok exactly when the codes fit. */
    method AssignCodes() returns (ok: bool, k: nat)
      requires SizesListed()
      modifies code, maxcode, delta
      ensures SizesListed() && (ok <==> Fitting(sizes))
      ensures ok ==> RowsBelow(17) && maxcode[17] == 0xffff_ffff && k == |sizes| && CodesBelow(k)
    {
      hide SizesListed, CodesBelow, RowsBelow, SizesOk;
      var next: nat := 0;
      k := 0;
      OkSizes();
      Nothing();
      for j := 1 to 17
        invariant SizesListed() && CodesBelow(k) && RowsBelow(j) && k <= |sizes| && UpTo(sizes, j - 1, k)
        invariant Edge(sizes, k) <= 0x1_0000 && (j <= 16 ==> Shl(next, 16 - j) == Edge(sizes, k))
      {
        var fits;
        fits, k, next := SetRow(j, k, next);
        if !fits {
          EdgeMono(sizes, k, |sizes|);
          return false, k;
        }
      }
      AllSymbols(k);
      SetTop();
      ok := true;
    }

    method SetTop()
      requires RowsBelow(17) && SizesListed() && CodesBelow(|sizes|)
      modifies maxcode
      ensures RowsBelow(17) && maxcode[17] == 0xffff_ffff && SizesListed() && CodesBelow(|sizes|)
    {
      hide LengthRow, CodeWord, SizesOk;
      maxcode[17] := 0xffff_ffff;
    }

    lemma Nothing()
      requires SizesListed()
      ensures CodesBelow(0) && RowsBelow(1) && UpTo(sizes, 0, 0) && Edge(sizes, 0) == Shl(0, 15) == 0
    {
      ShlOne(15);
    }

    lemma AllSymbols(k: nat)
      requires SizesListed() && UpTo(sizes, 16, k)
      ensures k == |sizes|
    {
      SizesAtMost16(sizes);
    }

    /** The lookups of one symbol with a short code. */
    method FillOne(i: nat)
      requires SizesListed() && Fitting(sizes) && i < |sizes| && sizes[i] <= 9 && code[i] == CodeWord(sizes, i)
      requires FastFilled(sizes, fast[..], i)
      modifies fast
      ensures FastFilled(sizes, fast[..], i + 1)
    {
      hide SizesOk, Edge, CodeWord, Shl;
      SizeIs(i);
      OkSizes();
      var s := size[i];
      var c := Shl(code[i], 9 - s);
      var m := Shl(1, 9 - s);
      ShortCode(sizes, i);
      EdgeMono(sizes, i + 1, |sizes|);
      ghost var t := fast[..];
      for j := 0 to m
        invariant forall x :: 0 <= x < 512 ==> fast[x] == if c <= x < c + j then i as byte else t[x]
      {
        fast[c + j] := i;
      }
      forall x | 0 <= x < 512 ensures FastRight(sizes, fast[x], i + 1, x) {
        assert FastRight(sizes, t[x], i, x);
      }
    }

    /** The lookup table: symbols come by length, so the short ones are a prefix. */
    method FillFast(k: nat)
      requires SizesListed() && Fitting(sizes) && k == |sizes| && CodesBelow(k)
      modifies fast
      ensures FastBuilt()
    {
      hide Edge, CodeWord, SizesOk;
      OkSizes();
      forall x | 0 <= x < 512 { fast[x] := 255; }
      Unfilled(sizes, fast[..]);
      ghost var n := 0;
      for i := 0 to k
        invariant n <= i && FastFilled(sizes, fast[..], n) && (forall m :: 0 <= m < n ==> sizes[m] <= 9)
        invariant n < i ==> sizes[n] > 9
      {
        SizeIs(i);
        SortedMono(sizes);
        if size[i] <= 9 {
          FillOne(i);
          n := i + 1;
        }
      }
      SortedMono(sizes);
      assert UpTo(sizes, 9, n);
    }

    /** stbi__build_huffman: accepted exactly when the code words fit sixteen bits. */
    method Build(count: seq<nat>) returns (ok: bool)
      requires Shape() && |count| == 16 && |Sizes(count, 16)| <= 255
      modifies this`sizes, fast, code, size, maxcode, delta
      ensures SizesOk(Sizes(count, 16))
      ensures ok <==> Fitting(Sizes(count, 16))
      ensures ok ==> Built() && sizes == Sizes(count, 16)
    {
      hide SizesOk, Edge, FastBuilt, RowsBelow, CodesBelow;
      ListSizes(count);
      OkSizes();
      var k;
      ok, k := AssignCodes();
      if ok {
        FillFast(k);
      }
    }
  }

  lemma SizesAtMost16(sizes: seq<nat>)
    requires SizesOk(sizes)
    ensures forall i {:trigger sizes[i]} :: 0 <= i < |sizes| ==> sizes[i] <= 16
    ensures sizes == [] || sizes[|sizes| - 1] <= 16
  {
  }

  lemma Unfilled(sizes: seq<nat>, t: seq<byte>)
    requires SizesOk(sizes) && |t| == 512 && forall x :: 0 <= x < 512 ==> t[x] == 255
    ensures FastFilled(sizes, t, 0)
  {
  }

  /** Where a short code starts and ends among the lookups. */
  lemma ShortCode(sizes: seq<nat>, i: nat)
    requires SizesOk(sizes) && i < |sizes| && sizes[i] <= 9
    ensures Edge(sizes, i) == 128 * Shl(CodeWord(sizes, i), 9 - sizes[i])
    ensures Edge(sizes, i + 1) == 128 * (Shl(CodeWord(sizes, i), 9 - sizes[i]) + Shl(1, 9 - sizes[i]))
  {
    hide SizesOk, Edge, CodeWord, Shl;
    var c, n := CodeWord(sizes, i), 9 - sizes[i];
    EdgeIsCode(sizes, i);
    ShlShl(c, n, 7);
    ShlShl(c + 1, n, 7);
    ShlSeven(Shl(c, n));
    ShlSeven(Shl(c + 1, n));
    ShlAdd(c, 1, n);
  }
}
