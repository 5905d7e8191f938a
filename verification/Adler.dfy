/**
  The Adler-32 checksum of stbi_zlib_compress: the modulo is taken only once per block
  of 5552 bytes, in 32-bit words.
*/
module AdlerChecksum {
  import opened Bits

  const BASE := 65521

  datatype Sums = Sums(s1: nat, s2: nat)

  /** RFC 1950, section 8.2: both sums reduced after every byte. */
  function Adler(data: seq<byte>, n: nat): (r: Sums)
    requires n <= |data|
    ensures r.s1 < BASE && r.s2 < BASE
  {
    if n == 0 then Sums(1, 0)
    else
      var r := Adler(data, n - 1);
      var a := (r.s1 + data[n - 1]) % BASE;
      Sums(a, (r.s2 + a) % BASE)
  }

  /** The sum of the first n bytes. */
  function Sum(data: seq<byte>, n: nat): nat
    requires n <= |data|
  {
    if n == 0 then 0 else Sum(data, n - 1) + data[n - 1]
  }

  /** The sum of the n first values of the first sum. */
  function SumOfSums(data: seq<byte>, n: nat): nat
    requires n <= |data|
  {
    if n == 0 then 0 else SumOfSums(data, n - 1) + (1 + Sum(data, n))
  }

  /** In other words: one and the bytes, and the sum of the sums, modulo the largest prime below 2^16. */
  lemma {:induction false} AdlerIs(data: seq<byte>, n: nat)
    requires n <= |data|
    ensures Adler(data, n).s1 == (1 + Sum(data, n)) % 65521 && Adler(data, n).s2 == SumOfSums(data, n) % 65521
  {
    hide Adler;
    if n == 0 {
      AdlerStart(data);
    } else {
      AdlerIs(data, n - 1);
      AdlerNext(data, n - 1);
      FirstSum(1 + Sum(data, n - 1), data[n - 1]);
      SecondSum(SumOfSums(data, n - 1), 1 + Sum(data, n));
    }
  }

  lemma FirstSum(x: nat, d: byte)
    ensures (x % BASE + d) % BASE == (x + d) % 65521
  {
    ModAdd(x, x % BASE, d);
  }

  lemma SecondSum(x: nat, y: nat)
    ensures (x % BASE + y % BASE) % BASE == (x + y) % 65521
  {
    ModAddBoth(x, x % BASE, y, y % BASE);
  }

  /** How large the second sum can get in i bytes without reduction. */
  function Bound(i: nat): nat
  {
    if i == 0 then BASE - 1 else Bound(i - 1) + (BASE - 1) + 255 * i
  }

  lemma {:induction false} BoundClosed(i: nat)
    ensures 2 * Bound(i) == (2 * (BASE - 1) + 255 * i) * (i + 1)
  {
    if i > 0 {
      BoundClosed(i - 1);
    }
  }

  lemma {:induction false} BoundMono(i: nat, j: nat)
    requires i <= j
    ensures Bound(i) <= Bound(j)
    decreases j
  {
    if i < j {
      BoundMono(i, j - 1);
    }
  }

  /** 5552 is the largest block for which neither sum can overflow a 32-bit word. */
  lemma BlockIsLargest(i: nat)
    ensures Bound(i) < 0x1_0000_0000 <==> i <= 5552
  {
    BoundClosed(5552);
    BoundClosed(5553);
    if i <= 5552 {
      BoundMono(i, 5552);
    } else {
      BoundMono(5553, i);
    }
  }

  lemma ModAdd(x: nat, r: nat, y: nat)
    requires x % BASE == r % BASE
    ensures (x + y) % BASE == (r + y) % BASE
  {
  }

  lemma ModAddBoth(x: nat, r: nat, y: nat, t: nat)
    requires x % BASE == r % BASE && y % BASE == t % BASE
    ensures (x + y) % BASE == (r + t) % BASE
  {
    ModAdd(x, r, y);
    ModAdd(y, t, r);
  }

  lemma AdlerNext(data: seq<byte>, k: nat)
    requires k < |data|
    ensures var r := Adler(data, k); var s1 := (r.s1 + data[k]) % BASE;
      Adler(data, k + 1).s1 == s1 && Adler(data, k + 1).s2 == (r.s2 + s1) % BASE
  {
  }

  lemma SumStep(data: seq<byte>, k: nat, s1: nat, s2: nat)
    requires k < |data|
    requires s1 % BASE == Adler(data, k).s1 && s2 % BASE == Adler(data, k).s2
    ensures (s1 + data[k]) % BASE == Adler(data, k + 1).s1
    ensures (s2 + (s1 + data[k])) % BASE == Adler(data, k + 1).s2
  {
    hide Adler;
    var r := Adler(data, k);
    AdlerNext(data, k);
    ModAdd(s1, r.s1, data[k]);
    ModAddBoth(s2, r.s2, s1 + data[k], (r.s1 + data[k]) % BASE);
  }

  lemma BoundStart()
    ensures Bound(0) == BASE - 1
  {
  }

  lemma BlockBounds(i: nat, s1: nat, s2: nat, d: byte)
    requires i < 5552 && s1 <= BASE - 1 + 255 * i && s2 <= Bound(i)
    ensures (s1 + d) % 0x1_0000_0000 == s1 + d <= BASE - 1 + 255 * (i + 1)
    ensures (s2 + (s1 + d)) % 0x1_0000_0000 == s2 + (s1 + d) <= Bound(i + 1)
  {
    BlockIsLargest(i + 1);
  }

  /** Sum n bytes from j without reduction; nothing wraps. */
  method SumBlock(data: seq<byte>, j: nat, n: nat, a: nat, b: nat) returns (s1: nat, s2: nat)
    requires j + n <= |data| && n <= 5552
    requires Adler(data, j) == Sums(a, b)
    ensures s1 % BASE == Adler(data, j + n).s1 && s2 % BASE == Adler(data, j + n).s2
    ensures s1 < 0x1_0000_0000 && s2 < 0x1_0000_0000
  {
    hide Adler, Bound;
    s1, s2 := a, b;
    BoundStart();
    for i := 0 to n
      invariant s1 % BASE == Adler(data, j + i).s1 && s2 % BASE == Adler(data, j + i).s2
      invariant s1 <= BASE - 1 + 255 * i && s2 <= Bound(i)
    {
      BlockBounds(i, s1, s2, data[j + i]);
      SumStep(data, j + i, s1, s2);
      s1 := (s1 + data[j + i]) % 0x1_0000_0000;
      s2 := (s2 + s1) % 0x1_0000_0000;
    }
    BlockIsLargest(n);
  }

  lemma AdlerStart(data: seq<byte>)
    ensures Adler(data, 0) == Sums(1, 0)
  {
  }

  /** The checksum loop, with its short first block that may be empty. */
  method Checksum(data: seq<byte>) returns (s1: nat, s2: nat)
    ensures Sums(s1, s2) == Adler(data, |data|)
  {
    hide Adler;
    AdlerStart(data);
    s1, s2 := 1, 0;
    var blocklen: nat := |data| % 5552;
    var j: nat := 0;
    ghost var k := |data| / 5552;
    while j < |data|
      invariant j <= |data| && blocklen <= 5552
      invariant j < |data| ==> |data| - j == blocklen + 5552 * k && k >= 0
      invariant Sums(s1, s2) == Adler(data, j)
      decreases |data| - j, blocklen == 0
    {
      s1, s2 := SumBlock(data, j, blocklen, s1, s2);
      s1 := s1 % 65521;
      s2 := s2 % 65521;
      j := j + blocklen;
      blocklen := 5552;
      k := k - 1;
    }
  }
}
