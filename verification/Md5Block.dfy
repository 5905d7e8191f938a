/** md5_block_data_order: the block function, on registers that carry more than a word. */
module Md5Block {
  import opened Bits
  import opened Md5Spec
  import opened Md5Words

  function Halves(A: reg, B: reg, C: reg, D: reg): State { State(Half(A), Half(B), Half(C), Half(D)) }

  function HalfAll(X: seq<reg>): (r: seq<word>)
    ensures |r| == |X| && forall i :: 0 <= i < |X| ==> r[i] == Half(X[i])
  {
    seq(|X|, i requires 0 <= i < |X| => Half(X[i]))
  }

  /** Four macros in a row: the registers take turns as the one that changes. */
  method R4(round: nat, A0: reg, B0: reg, C0: reg, D0: reg, k0: reg, k1: reg, k2: reg, k3: reg,
            s0: nat, s1: nat, s2: nat, s3: nat, t0: word, t1: word, t2: word, t3: word)
    returns (A: reg, B: reg, C: reg, D: reg)
    requires s0 <= 32 && s1 <= 32 && s2 <= 32 && s3 <= 32
    ensures var u := Step(round, Halves(A0, B0, C0, D0), Half(k0), t0, s0);
      var v := Step(round, u, Half(k1), t1, s1);
      var w := Step(round, v, Half(k2), t2, s2);
      Halves(A, B, C, D) == Step(round, w, Half(k3), t3, s3)
  {
    hide Step, Half, R;
    HalfWord(t0);
    HalfWord(t1);
    HalfWord(t2);
    HalfWord(t3);
    A, B, C, D := A0, B0, C0, D0;
    HalfR(round, A, B, C, D, k0, s0, t0);
    A := R(round, A, B, C, D, k0, s0, t0);
    HalfR(round, D, A, B, C, k1, s1, t1);
    D := R(round, D, A, B, C, k1, s1, t1);
    HalfR(round, C, D, A, B, k2, s2, t2);
    C := R(round, C, D, A, B, k2, s2, t2);
    HalfR(round, B, C, D, A, k3, s3, t3);
    B := R(round, B, C, D, A, k3, s3, t3);
  }

  lemma HalfWord(t: word)
    ensures Half(t) == t
  {
  }

  /** Round 0. */
  method Round0(A0: reg, B0: reg, C0: reg, D0: reg, X: seq<reg>) returns (A: reg, B: reg, C: reg, D: reg)
    requires |X| == 16
    ensures Halves(A, B, C, D) == Round(Halves(A0, B0, C0, D0), 0, HalfAll(X))
  {
    hide Step, Half, Halves;
    A, B, C, D := A0, B0, C0, D0;
    A, B, C, D := R4(0, A, B, C, D, X[0], X[1], X[2], X[3], 7, 12, 17, 22,
      0xd76aa478, 0xe8c7b756, 0x242070db, 0xc1bdceee);
    A, B, C, D := R4(0, A, B, C, D, X[4], X[5], X[6], X[7], 7, 12, 17, 22,
      0xf57c0faf, 0x4787c62a, 0xa8304613, 0xfd469501);
    A, B, C, D := R4(0, A, B, C, D, X[8], X[9], X[10], X[11], 7, 12, 17, 22,
      0x698098d8, 0x8b44f7af, 0xffff5bb1, 0x895cd7be);
    A, B, C, D := R4(0, A, B, C, D, X[12], X[13], X[14], X[15], 7, 12, 17, 22,
      0x6b901122, 0xfd987193, 0xa679438e, 0x49b40821);
  }

  /** Round 1. */
  method Round1(A0: reg, B0: reg, C0: reg, D0: reg, X: seq<reg>) returns (A: reg, B: reg, C: reg, D: reg)
    requires |X| == 16
    ensures Halves(A, B, C, D) == Round(Halves(A0, B0, C0, D0), 1, HalfAll(X))
  {
    hide Step, Half, Halves;
    A, B, C, D := A0, B0, C0, D0;
    A, B, C, D := R4(1, A, B, C, D, X[1], X[6], X[11], X[0], 5, 9, 14, 20,
      0xf61e2562, 0xc040b340, 0x265e5a51, 0xe9b6c7aa);
    A, B, C, D := R4(1, A, B, C, D, X[5], X[10], X[15], X[4], 5, 9, 14, 20,
      0xd62f105d, 0x02441453, 0xd8a1e681, 0xe7d3fbc8);
    A, B, C, D := R4(1, A, B, C, D, X[9], X[14], X[3], X[8], 5, 9, 14, 20,
      0x21e1cde6, 0xc33707d6, 0xf4d50d87, 0x455a14ed);
    A, B, C, D := R4(1, A, B, C, D, X[13], X[2], X[7], X[12], 5, 9, 14, 20,
      0xa9e3e905, 0xfcefa3f8, 0x676f02d9, 0x8d2a4c8a);
  }

  /** Round 2. */
  method Round2(A0: reg, B0: reg, C0: reg, D0: reg, X: seq<reg>) returns (A: reg, B: reg, C: reg, D: reg)
    requires |X| == 16
    ensures Halves(A, B, C, D) == Round(Halves(A0, B0, C0, D0), 2, HalfAll(X))
  {
    hide Step, Half, Halves;
    A, B, C, D := A0, B0, C0, D0;
    A, B, C, D := R4(2, A, B, C, D, X[5], X[8], X[11], X[14], 4, 11, 16, 23,
      0xfffa3942, 0x8771f681, 0x6d9d6122, 0xfde5380c);
    A, B, C, D := R4(2, A, B, C, D, X[1], X[4], X[7], X[10], 4, 11, 16, 23,
      0xa4beea44, 0x4bdecfa9, 0xf6bb4b60, 0xbebfbc70);
    A, B, C, D := R4(2, A, B, C, D, X[13], X[0], X[3], X[6], 4, 11, 16, 23,
      0x289b7ec6, 0xeaa127fa, 0xd4ef3085, 0x04881d05);
    A, B, C, D := R4(2, A, B, C, D, X[9], X[12], X[15], X[2], 4, 11, 16, 23,
      0xd9d4d039, 0xe6db99e5, 0x1fa27cf8, 0xc4ac5665);
  }

  /** Round 3. */
  method Round3(A0: reg, B0: reg, C0: reg, D0: reg, X: seq<reg>) returns (A: reg, B: reg, C: reg, D: reg)
    requires |X| == 16
    ensures Halves(A, B, C, D) == Round(Halves(A0, B0, C0, D0), 3, HalfAll(X))
  {
    hide Step, Half, Halves;
    A, B, C, D := A0, B0, C0, D0;
    A, B, C, D := R4(3, A, B, C, D, X[0], X[7], X[14], X[5], 6, 10, 15, 21,
      0xf4292244, 0x432aff97, 0xab9423a7, 0xfc93a039);
    A, B, C, D := R4(3, A, B, C, D, X[12], X[3], X[10], X[1], 6, 10, 15, 21,
      0x655b59c3, 0x8f0ccc92, 0xffeff47d, 0x85845dd1);
    A, B, C, D := R4(3, A, B, C, D, X[8], X[15], X[6], X[13], 6, 10, 15, 21,
      0x6fa87e4f, 0xfe2ce6e0, 0xa3014314, 0x4e0811a1);
    A, B, C, D := R4(3, A, B, C, D, X[4], X[11], X[2], X[9], 6, 10, 15, 21,
      0xf7537e82, 0xbd3af235, 0x2ad7d2bb, 0xeb86d391);
  }

  /** The macro HOST_c2l. */
  function HostC2L(data: seq<byte>, p: nat): reg
    requires p + 4 <= |data|
  {
    WordIsOr(data[p], data[p + 1], data[p + 2], data[p + 3]);
    Or(Or(Or(data[p], Shl(data[p + 1], 8)), Shl(data[p + 2], 16)), Shl(data[p + 3], 24))
  }

  lemma WordIsOr(b0: byte, b1: byte, b2: byte, b3: byte)
    ensures Or(Or(Or(b0, Shl(b1, 8)), Shl(b2, 16)), Shl(b3, 24)) == Word(b0, b1, b2, b3)
  {
    hide Or, Shl, Pow2;
    var w1: nat, w2: nat := b0 as nat + 0x100 * b1 as nat, b0 as nat + 0x100 * b1 as nat + 0x1_0000 * b2 as nat;
    Pow2Of32();
    Pow2Of8();
    ShlOf8(b1);
    ShlOf16(b2);
    ShlOf16(b3);
    OrDisjoint(b0, b1, 8);
    OrDisjoint(w1, b2, 16);
    OrDisjoint(w2, b3, 24);
  }

  /** The sixteen words of a block. */
  method LoadWords(data: seq<byte>, at: nat) returns (X: seq<reg>)
    requires at + 64 <= |data|
    ensures |X| == 16 && HalfAll(X) == Words(data[at..at + 64])
  {
    X := [];
    var block := data[at..at + 64];
    for i := 0 to 16
      invariant |X| == i && forall j :: 0 <= j < i ==> Half(X[j]) == Words(block)[j]
    {
      hide Or, Shl, Half, Word;
      var l := HostC2L(block, 4 * i);
      WordIsOr(block[4 * i], block[4 * i + 1], block[4 * i + 2], block[4 * i + 3]);
      HalfWord(l);
      X := X + [l];
    }
  }

  /** One turn of the loop: the words of the context are added to by registers that hold more. */
  method Block(h: State, data: seq<byte>, at: nat) returns (r: State)
    requires at + 64 <= |data|
    ensures r == Compress(h, data[at..at + 64])
  {
    hide Round, Words, HalfAll, Half, Plus;
    HalfWord(h.a);
    HalfWord(h.b);
    HalfWord(h.c);
    HalfWord(h.d);
    var X := LoadWords(data, at);
    var A: reg, B: reg, C: reg, D: reg := h.a, h.b, h.c, h.d;
    A, B, C, D := Round0(A, B, C, D, X);
    A, B, C, D := Round1(A, B, C, D, X);
    A, B, C, D := Round2(A, B, C, D, X);
    A, B, C, D := Round3(A, B, C, D, X);
    PlusHalf(h.a, A);
    PlusHalf(h.b, B);
    PlusHalf(h.c, C);
    PlusHalf(h.d, D);
    r := State(Plus(h.a, A), Plus(h.b, B), Plus(h.c, C), Plus(h.d, D));
  }
}
