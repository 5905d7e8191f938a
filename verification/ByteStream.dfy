/** The byte input of the decoders: stbi__get8 and its fixed-width forms. */
module ByteStream {
  import opened Bits

  /** Past the end the input reads as zero. */
  function Get8(s: seq<byte>, p: nat): byte { if p < |s| then s[p] else 0 }

  /** stbi__get16le */
  function Get16le(s: seq<byte>, p: nat): nat { Get8(s, p) as int + 256 * Get8(s, p + 1) as int }

  /** n bytes. */
  function Read(s: seq<byte>, p: nat, n: nat): (r: seq<byte>)
    ensures |r| == n
    decreases n, |s|
  {
    if n == 0 then [] else [Get8(s, p)] + Read(s, p + 1, n - 1)
  }

  lemma {:induction false} ReadAt(s: seq<byte>, p: nat, w: seq<byte>)
    requires At(s, p, w)
    ensures Read(s, p, |w|) == w
    decreases |w|
  {
    if w != [] {
      assert w == [w[0]] + w[1..];
      AtSplit(s, p, [w[0]], w[1..]);
      assert s[p] == s[p..p + 1][0];
      ReadAt(s, p + 1, w[1..]);
    }
  }

  lemma Get8At(s: seq<byte>, p: nat, w: seq<byte>, i: nat)
    requires At(s, p, w) && i < |w|
    ensures Get8(s, p + i) == w[i]
  {
    assert s[p + i] == s[p..p + |w|][i];
  }
}
