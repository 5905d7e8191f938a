/** The MD5 message digest as RFC 1321 defines it, sections 3.1 to 3.5. */
module Md5Spec {

  import opened Bits

  type word = x: nat | x < 0x1_0000_0000

  /** Addition of words, section 2. */
  function Plus(x: nat, y: nat): word { (x + y) % 0x1_0000_0000 }

  function Complement(x: word): word { 0xffff_ffff - x }

  /** x <<< n: the bits pushed out on the left come back in on the right. */
  function Rotl(x: word, n: nat): nat
    requires n <= 32
  {
    Shl(x, n) % 0x1_0000_0000 + Shr(x, 32 - n)
  }

  // ---- section 3.4, the auxiliary functions and the steps ----

  function F(x: word, y: word, z: word): nat { Or(And(x, y), And(Complement(x), z)) }
  function G(x: word, y: word, z: word): nat { Or(And(x, z), And(y, Complement(z))) }
  function H(x: word, y: word, z: word): nat { Xor(Xor(x, y), z) }
  function I(x: word, y: word, z: word): nat { Xor(y, Or(x, Complement(z))) }

  function Fun(round: nat, x: word, y: word, z: word): nat
  {
    if round == 0 then F(x, y, z) else if round == 1 then G(x, y, z) else if round == 2 then H(x, y, z) else I(x, y, z)
  }

  /** Which word of the block step i takes. */
  function K(i: nat): (k: nat)
    ensures k < 16
  {
    if i < 16 then i % 16 else if i < 32 then (5 * i + 1) % 16 else if i < 48 then (3 * i + 5) % 16 else 7 * i % 16
  }

  /** How far step j of four rotates. */
  function S(round: nat, j: nat): (s: nat)
    ensures s <= 32
  {
    if round == 0 then (if j == 0 then 7 else if j == 1 then 12 else if j == 2 then 17 else 22)
    else if round == 1 then (if j == 0 then 5 else if j == 1 then 9 else if j == 2 then 14 else 20)
    else if round == 2 then (if j == 0 then 4 else if j == 1 then 11 else if j == 2 then 16 else 23)
    else if j == 0 then 6 else if j == 1 then 10 else if j == 2 then 15 else 21
  }

  datatype Four = Four(t0: word, t1: word, t2: word, t3: word)

  /** The constants of steps 4q to 4q + 3. */
  function T(q: nat): Four
  {
    match q
    case 0 => Four(0xd76aa478, 0xe8c7b756, 0x242070db, 0xc1bdceee)
    case 1 => Four(0xf57c0faf, 0x4787c62a, 0xa8304613, 0xfd469501)
    case 2 => Four(0x698098d8, 0x8b44f7af, 0xffff5bb1, 0x895cd7be)
    case 3 => Four(0x6b901122, 0xfd987193, 0xa679438e, 0x49b40821)
    case 4 => Four(0xf61e2562, 0xc040b340, 0x265e5a51, 0xe9b6c7aa)
    case 5 => Four(0xd62f105d, 0x02441453, 0xd8a1e681, 0xe7d3fbc8)
    case 6 => Four(0x21e1cde6, 0xc33707d6, 0xf4d50d87, 0x455a14ed)
    case 7 => Four(0xa9e3e905, 0xfcefa3f8, 0x676f02d9, 0x8d2a4c8a)
    case 8 => Four(0xfffa3942, 0x8771f681, 0x6d9d6122, 0xfde5380c)
    case 9 => Four(0xa4beea44, 0x4bdecfa9, 0xf6bb4b60, 0xbebfbc70)
    case 10 => Four(0x289b7ec6, 0xeaa127fa, 0xd4ef3085, 0x04881d05)
    case 11 => Four(0xd9d4d039, 0xe6db99e5, 0x1fa27cf8, 0xc4ac5665)
    case 12 => Four(0xf4292244, 0x432aff97, 0xab9423a7, 0xfc93a039)
    case 13 => Four(0x655b59c3, 0x8f0ccc92, 0xffeff47d, 0x85845dd1)
    case 14 => Four(0x6fa87e4f, 0xfe2ce6e0, 0xa3014314, 0x4e0811a1)
    case _ => Four(0xf7537e82, 0xbd3af235, 0x2ad7d2bb, 0xeb86d391)
  }

  datatype State = State(a: word, b: word, c: word, d: word)

  const START := State(0x67452301, 0xefcdab89, 0x98badcfe, 0x10325476)

  /** One step: a = b + ((a + Fun(b, c, d) + x + t) <<< s), and the registers change places. */
  function Step(round: nat, st: State, x: word, t: word, s: nat): State
    requires s <= 32
  {
    var sum := Plus(Plus(Plus(st.a, Fun(round, st.b, st.c, st.d)), x), t);
    State(st.d, Plus(st.b, Rotl(sum, s)), st.b, st.c)
  }

  /** Steps 4q to 4q + 3. */
  function FourSteps(st: State, q: nat, x: seq<word>): State
    requires |x| == 16
  {
    var r, t := q / 4, T(q);
    var s0 := Step(r, st, x[K(4 * q)], t.t0, S(r, 0));
    var s1 := Step(r, s0, x[K(4 * q + 1)], t.t1, S(r, 1));
    var s2 := Step(r, s1, x[K(4 * q + 2)], t.t2, S(r, 2));
    Step(r, s2, x[K(4 * q + 3)], t.t3, S(r, 3))
  }

  /** The sixteen steps of round r. */
  function Round(st: State, r: nat, x: seq<word>): State
    requires |x| == 16
  {
    FourSteps(FourSteps(FourSteps(FourSteps(st, 4 * r, x), 4 * r + 1, x), 4 * r + 2, x), 4 * r + 3, x)
  }

  function Word(b0: byte, b1: byte, b2: byte, b3: byte): word
  {
    b0 as nat + 0x100 * b1 as nat + 0x1_0000 * b2 as nat + 0x100_0000 * b3 as nat
  }

  /** A block of 64 bytes as words, low byte first. */
  function Words(block: seq<byte>): (x: seq<word>)
    requires |block| == 64
    ensures |x| == 16
  {
    seq(16, i requires 0 <= i < 16 => Word(block[4 * i], block[4 * i + 1], block[4 * i + 2], block[4 * i + 3]))
  }

  function Compress(h: State, block: seq<byte>): State
    requires |block| == 64
  {
    var x := Words(block);
    var r := Round(Round(Round(Round(h, 0, x), 1, x), 2, x), 3, x);
    State(Plus(h.a, r.a), Plus(h.b, r.b), Plus(h.c, r.c), Plus(h.d, r.d))
  }

  /** All whole blocks of s. */
  function Blocks(h: State, s: seq<byte>): State
    decreases |s|
  {
    if |s| < 64 then h else Blocks(Compress(h, s[..64]), s[64..])
  }

  lemma {:induction false} BlocksAppend(h: State, s: seq<byte>, t: seq<byte>)
    requires |s| % 64 == 0
    ensures Blocks(h, s + t) == Blocks(Blocks(h, s), t)
    decreases |s|
  {
    hide Compress;
    if s == [] {
      assert s + t == t;
    } else {
      assert (s + t)[..64] == s[..64] && (s + t)[64..] == s[64..] + t;
      BlocksAppend(Compress(h, s[..64]), s[64..], t);
    }
  }

  lemma OneBlock(h: State, block: seq<byte>)
    requires |block| == 64
    ensures Blocks(h, block) == Compress(h, block)
  {
    assert block[..64] == block && block[64..] == [];
    assert Blocks(Compress(h, block), []) == Compress(h, block);
  }

  // ---- sections 3.1 and 3.2, padding and length ----

  /** Eight bytes, low byte first. */
  function Bytes8(v: nat): (r: seq<byte>)
    ensures |r| == 8
  {
    [v % 256, v / 0x100 % 256, v / 0x1_0000 % 256, v / 0x100_0000 % 256,
     v / 0x1_0000_0000 % 256, v / 0x100_0000_0000 % 256, v / 0x1_0000_0000_0000 % 256,
     v / 0x100_0000_0000_0000 % 256]
  }

  /** The bit count of n bytes modulo 2^64. */
  function LengthBytes(n: nat): (r: seq<byte>)
    ensures |r| == 8
  {
    Bytes8(8 * n % 0x1_0000_0000_0000_0000)
  }

  /** One 1 bit, then zeros up to eight bytes short of a whole block, then the length. */
  function Padded(msg: seq<byte>): (r: seq<byte>)
    ensures |r| % 64 == 0
  {
    assert (|msg| + (1 + (55 - |msg|) % 64 + 8)) % 64 == 0;
    msg + ([0x80] + Zeros((55 - |msg|) % 64) + LengthBytes(|msg|))
  }

  /** The value of bytes, low one first. */
  function Value(s: seq<byte>): nat
  {
    if s == [] then 0 else s[0] + 0x100 * Value(s[1..])
  }

  lemma ValueStep(s: seq<byte>, b: byte, t: seq<byte>, v: nat)
    requires s == [b] + t && Value(t) == v / 0x100 && b == v % 0x100
    ensures Value(s) == v
  {
    assert s[1..] == t;
  }

  lemma NoValue()
    ensures Value([]) == 0
  {
  }

  lemma Bytes8Is(v: nat)
    requires v < 0x1_0000_0000_0000_0000
    ensures Value(Bytes8(v)) == v
  {
    hide Value;
    var b := Bytes8(v);
    assert v / 0x1_0000 == v / 0x100 / 0x100 && v / 0x100_0000 == v / 0x1_0000 / 0x100;
    assert v / 0x1_0000_0000 == v / 0x100_0000 / 0x100 && v / 0x100_0000_0000 == v / 0x1_0000_0000 / 0x100;
    assert v / 0x1_0000_0000_0000 == v / 0x100_0000_0000 / 0x100;
    assert v / 0x100_0000_0000_0000 == v / 0x1_0000_0000_0000 / 0x100 < 0x100;
    NoValue();
    ValueStep(b[7..], b[7], [], v / 0x100_0000_0000_0000);
    ValueStep(b[6..], b[6], b[7..], v / 0x1_0000_0000_0000);
    ValueStep(b[5..], b[5], b[6..], v / 0x100_0000_0000);
    ValueStep(b[4..], b[4], b[5..], v / 0x1_0000_0000);
    ValueStep(b[3..], b[3], b[4..], v / 0x100_0000);
    ValueStep(b[2..], b[2], b[3..], v / 0x1_0000);
    ValueStep(b[1..], b[1], b[2..], v / 0x100);
    ValueStep(b, b[0], b[1..], v);
  }

  /** The message, a byte 0x80, as few zeros as fill a block, and the number of bits in eight bytes. */
  lemma PaddingIs(msg: seq<byte>)
    ensures var p, n := Padded(msg), |msg|;
      && n + 9 <= |p| < n + 73 && |p| % 64 == 0 && p[..n] == msg && p[n] == 0x80
      && (forall i :: n < i < |p| - 8 ==> p[i] == 0)
      && Value(p[|p| - 8..]) == 8 * n % 0x1_0000_0000_0000_0000
  {
    hide Bytes8, Value;
    var n := |msg|;
    var length := LengthBytes(n);
    Bytes8Is(8 * n % 0x1_0000_0000_0000_0000);
    var p := msg + ([0x80] + Zeros((55 - n) % 64) + length);
    assert p[|p| - 8..] == length;
  }

  // ---- section 3.5, output ----

  function WordBytes(w: word): (r: seq<byte>)
    ensures |r| == 4
  {
    [w % 256, w / 0x100 % 256, w / 0x1_0000 % 256, w / 0x100_0000]
  }

  function Output(st: State): (r: seq<byte>)
    ensures |r| == 16
  {
    WordBytes(st.a) + WordBytes(st.b) + WordBytes(st.c) + WordBytes(st.d)
  }

  lemma OutputIs(st: State)
    ensures Output(st) == WordBytes(st.a) + WordBytes(st.b) + WordBytes(st.c) + WordBytes(st.d)
  {
    hide WordBytes;
  }

  function Digest(msg: seq<byte>): (r: seq<byte>)
    ensures |r| == 16
  {
    Output(Blocks(START, Padded(msg)))
  }
}
