/**
  The order of the coefficients, and a scan of two blocks worked out by hand with the tables of
  ITU-T T.81, Annex K.
*/
module JpegKnown {
  import opened Bits
  import opened JpegBits
  import opened JpegDecode
  import opened JpegBlocks
  import opened JpegEncode
  import opened JpegScan
  import opened JpegStandard

  // ---- the zigzag (figure A.6) ----

  /** Row and column behind row r and column c: up the even diagonals and down the odd ones. */
  function Behind(r: nat, c: nat): nat
    requires r < 8 && c < 8
  {
    if (r + c) % 2 == 0 then
      if c == 7 then 8 * (r + 1) + c else if r == 0 then 8 * r + c + 1 else 8 * (r - 1) + c + 1
    else if r == 7 then 8 * r + c + 1
    else if c == 0 then 8 * (r + 1) + c
    else 8 * (r + 1) + c - 1
  }

  /** The places of the coefficients follow the diagonals from the upper left corner. */
  lemma ZigZagWalk(k: nat)
    requires k < 63
    ensures Dezigzag(0) == 0 && Dezigzag(k + 1) == Behind(Dezigzag(k) / 8, Dezigzag(k) % 8)
  {
    if k < 31 {
      WalkLower(k);
    } else if k > 31 {
      WalkUpper(k);
    }
  }

  lemma WalkLower(k: nat)
    requires k < 31
    ensures DezigzagLower(k + 1) == Behind(DezigzagLower(k) / 8, DezigzagLower(k) % 8)
  {
  }

  lemma WalkUpper(k: nat)
    requires 32 <= k < 63
    ensures DezigzagUpper(k + 1) == Behind(DezigzagUpper(k) / 8, DezigzagUpper(k) % 8)
  {
  }

  // ---- a scan ----

  /** DC value 5, and -3 behind two zeros. */
  function FirstUnit(): (du: seq<int>)
    ensures |du| == 64 && forall i :: 0 <= i < 64 ==> du[i] == if i == 0 then 5 else if i == 3 then -3 else 0
  {
    seq(64, i => if i == 0 then 5 else if i == 3 then -3 else 0)
  }

  /** DC value 7 and nothing else. */
  function SecondUnit(): (du: seq<int>)
    ensures |du| == 64 && forall i :: 0 <= i < 64 ==> du[i] == if i == 0 then 7 else 0
  {
    seq(64, i => if i == 0 then 7 else 0)
  }

  function Ones(s: seq<nat>): (b: seq<bool>)
    ensures |b| == |s| && forall i :: 0 <= i < |s| ==> b[i] == (s[i] == 1)
  {
    seq(|s|, i requires 0 <= i < |s| => s[i] == 1)
  }

  lemma Sizes()
    ensures SizeOf(0) == 0 && SizeOf(2) == 2 && SizeOf(3) == 2 && SizeOf(5) == 3
    ensures Magnitude(5) == 5 && Magnitude(2) == 2 && Magnitude(-3) == 0
  {
    assert SizeOf(1) == 1 + SizeOf(0) && SizeOf(2) == 1 + SizeOf(1) && SizeOf(5) == 1 + SizeOf(2);
    assert Pow2(2) == 4;
  }

  lemma Fields()
    ensures Field(4, 3) == Ones([1, 0, 0]) && Field(5, 3) == Ones([1, 0, 1]) && Field(3, 3) == Ones([0, 1, 1])
    ensures Field(2, 2) == Ones([1, 0]) && Field(0, 2) == Ones([0, 0]) && Field(10, 4) == Ones([1, 0, 1, 0])
  {
    assert Field(2, 2) == Field(1, 1) + [false];
    assert Field(5, 3) == Field(2, 2) + [true] && Field(10, 4) == Field(5, 3) + [false];
    assert Field(4, 3) == Field(2, 2) + [false];
    assert Field(1, 2) == Field(0, 1) + [true] && Field(3, 3) == Field(1, 2) + [true];
  }

  lemma LongField()
    ensures Field(249, 8) == Ones([1, 1, 1, 1, 1, 0, 0, 1])
  {
    hide Field;
    FieldNext(0, 1, 0);
    FieldNext(1, 1, 1);
    FieldNext(3, 1, 2);
    FieldNext(7, 1, 3);
    FieldNext(15, 1, 4);
    FieldNext(31, 0, 5);
    FieldNext(62, 0, 6);
    FieldNext(124, 1, 7);
  }

  function Standard(): Codes { Codes(YdcCodes(), YacCodes(), UvdcCodes(), UvacCodes()) }

  lemma CodesUsed()
    ensures YdcCodes()[2] == Code(3, 3) && YdcCodes()[3] == Code(4, 3)
    ensures YacCodes()[0] == Code(10, 4) && YacCodes()[0x22] == Code(249, 8)
  {
  }

  lemma FirstEnd()
    ensures AcSmall(FirstUnit()) && AcBits(YacCodes(), FirstUnit(), 4) == Ones([1, 0, 1, 0])
  {
    hide Field, YacCodes, FirstUnit, NextNonzero, Ones;
    Fields();
    CodesUsed();
    assert forall i :: 4 <= i < 64 ==> FirstUnit()[i] == 0;
  }

  lemma FirstAc()
    ensures AcBits(YacCodes(), FirstUnit(), 1)
      == Ones([1, 1, 1, 1, 1, 0, 0, 1]) + Ones([0, 0]) + Ones([1, 0, 1, 0])
  {
    hide Field, Magnitude, SizeOf, YacCodes, FirstUnit, NextNonzero, Ones;
    var du := FirstUnit();
    Sizes();
    Fields();
    LongField();
    CodesUsed();
    FirstEnd();
    assert du[1] == 0 && du[2] == 0 && du[3] == -3;
    assert NextNonzero(du, 1) == 3;
    NothingRepeated(CodeBits(YacCodes(), 0xf0));
    var u := CodeBits(YacCodes(), 0x22);
    assert [] + u == u;
  }

  lemma FirstBits()
    ensures Encodable(FirstUnit(), 0)
    ensures BlockBits(YdcCodes(), YacCodes(), FirstUnit(), 0)
      == Ones([1, 0, 0, 1, 0, 1, 1, 1, 1, 1, 1, 0, 0, 1, 0, 0, 1, 0, 1, 0])
  {
    hide Field, Magnitude, SizeOf, YdcCodes, YacCodes, FirstUnit, AcBits;
    Sizes();
    Fields();
    CodesUsed();
    FirstEnd();
    FirstAc();
  }

  lemma NothingRepeated(s: seq<bool>)
    ensures Repeat(s, 0) == []
  {
  }

  lemma SecondBits()
    ensures Encodable(SecondUnit(), 5)
    ensures BlockBits(YdcCodes(), YacCodes(), SecondUnit(), 5) == Ones([0, 1, 1, 1, 0, 1, 0, 1, 0])
  {
    hide Field, Magnitude, SizeOf, YdcCodes, YacCodes, SecondUnit;
    var du := SecondUnit();
    Sizes();
    Fields();
    CodesUsed();
    assert NextNonzero(du, 1) == 64;
    assert AcBits(YacCodes(), du, 1) == Ones([1, 0, 1, 0]);
  }

  /**
    DC size 3 and 101, run 2 of size 2 and 00, end of block; then DC size 2 and 10 for the
    difference, and the end of the block.
  */
  lemma KnownScan()
    ensures var units := [Unit(0, FirstUnit()), Unit(0, SecondUnit())];
      && Standard().Sized() && ScanOk(units, [0, 0, 0])
      && ScanBits(Standard(), units, [0, 0, 0])
         == Ones([1, 0, 0, 1, 0, 1, 1, 1, 1, 1, 1, 0, 0, 1, 0, 0, 1, 0, 1, 0]) + Ones([0, 1, 1, 1, 0, 1, 0, 1, 0])
  {
    hide BlockBits, FirstUnit, SecondUnit, Ones, Encodable, YdcCodes, YacCodes, UvdcCodes, UvacCodes;
    var units := [Unit(0, FirstUnit()), Unit(0, SecondUnit())];
    FirstBits();
    SecondBits();
    assert units[1..] == [Unit(0, SecondUnit())] && units[1..][1..] == [];
    assert ScanOk([], [7, 0, 0]);
    var second := BlockBits(YdcCodes(), YacCodes(), SecondUnit(), 5);
    assert ScanBits(Standard(), units[1..], [5, 0, 0]) == second + ScanBits(Standard(), [], [7, 0, 0]) == second;
  }
}
