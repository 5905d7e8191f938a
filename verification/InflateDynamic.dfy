/**
  Dynamic blocks as RFC 1951, section 3.2.7, has them written: two lists of code lengths,
  run-length coded, behind the code of that coding; and tokens in the two codes.
*/
module InflateDynamic {
  import opened Bits
  import opened Wrappers
  import opened Canonical
  import opened InflateSpec
  import opened DeflateSpec

  // ---- the order of the code length codes ----

  /** Where the length of code length symbol k stands. */
  function Place(k: nat): (j: nat)
    requires k < 19
    ensures j < 19
  {
    [3, 17, 15, 13, 11, 9, 7, 5, 4, 6, 8, 10, 12, 14, 16, 18, 0, 1, 2][k]
  }

  lemma PlaceOfDezigzag(j: nat)
    requires j < 19
    ensures Place(Dezigzag(j)) == j
  {
  }

  lemma DezigzagOfPlace(k: nat)
    requires k < 19
    ensures Dezigzag(Place(k)) == k
  {
  }

  lemma PlaceTable()
    ensures Place(0) == 3 && Place(1) == 17 && Place(2) == 15 && Place(3) == 13 && Place(4) == 11 && Place(5) == 9
    ensures Place(6) == 7 && Place(7) == 5 && Place(8) == 4 && Place(9) == 6 && Place(10) == 8 && Place(11) == 10
    ensures Place(12) == 12 && Place(13) == 14 && Place(14) == 16 && Place(15) == 18
    ensures Place(16) == 0 && Place(17) == 1 && Place(18) == 2
  {
  }

  /** The field at place j, of n there are. */
  function Field(bits: seq<bool>, pos: nat, n: nat, j: nat): nat { if j < n then Take(bits, pos + 3 * j, 3) else 0 }

  lemma {:induction false} CodeLengthAt(bits: seq<bool>, pos: nat, n: nat, k: nat)
    requires n <= 19 && k < 19
    ensures CodeLengthLens(bits, pos, n)[k] == Field(bits, pos, n, Place(k))
    decreases n
  {
    hide Take, Place, Dezigzag;
    if n > 0 {
      CodeLengthAt(bits, pos, n - 1, k);
      PlaceOfDezigzag(n - 1);
      DezigzagOfPlace(k);
    }
  }

  /** The fields of three bits, sorted into the places of the symbols 0 to 18. */
  lemma CodeLengthPlaces(bits: seq<bool>, pos: nat, n: nat)
    requires n <= 19
    ensures CodeLengthLens(bits, pos, n) == [
      Field(bits, pos, n, 3), Field(bits, pos, n, 17), Field(bits, pos, n, 15), Field(bits, pos, n, 13),
      Field(bits, pos, n, 11), Field(bits, pos, n, 9), Field(bits, pos, n, 7), Field(bits, pos, n, 5),
      Field(bits, pos, n, 4), Field(bits, pos, n, 6), Field(bits, pos, n, 8), Field(bits, pos, n, 10),
      Field(bits, pos, n, 12), Field(bits, pos, n, 14), Field(bits, pos, n, 16), Field(bits, pos, n, 18),
      Field(bits, pos, n, 0), Field(bits, pos, n, 1), Field(bits, pos, n, 2)]
  {
    hide Field, CodeLengthLens, Dezigzag, Place;
    PlaceTable();
    forall k | 0 <= k < 19 ensures CodeLengthLens(bits, pos, n)[k] == Field(bits, pos, n, Place(k)) {
      CodeLengthAt(bits, pos, n, k);
    }
  }

  // ---- code words of any code ----

  /** A list of code lengths that the reader accepts. */
  predicate Accepted(lens: seq<nat>) { ValidLengths(lens) && KraftHolds(lens) }

  /** The code word of symbol i. */
  function Word(lens: seq<nat>, i: nat): seq<bool>
    requires Coded(lens, i)
  {
    CodeBits(Code(lens, i), lens[i])
  }

  lemma WordDecodes(lens: seq<nat>, bits: seq<bool>, pos: nat, i: nat)
    requires Accepted(lens) && Coded(lens, i) && At(bits, pos, Word(lens, i))
    ensures Decode(lens, bits, pos) == Some(i) && |Word(lens, i)| == lens[i]
  {
    hide FirstCode, Decode, At, CodeBits, CountTo, KraftHolds;
    RankBelowCount(lens, i);
    KraftFits(lens, lens[i]);
    CodeDecodes(lens, bits, pos, i);
  }

  // ---- the two lists, run-length coded ----

  /** One length, the length before 3 to 6 times more, or 3 to 138 zeros. */
  datatype Run = One(len: nat) | Again(times: nat) | Blank(times: nat)
  {
    predicate Valid(acc: seq<nat>)
    {
      match this
      case One(len) => len <= 15
      case Again(n) => 3 <= n <= 6 && acc != []
      case Blank(n) => 3 <= n <= 138
    }

    /** The symbol of the code length alphabet and the extra bits behind it. */
    function Symbol(): nat
    {
      match this
      case One(len) => len
      case Again(_) => 16
      case Blank(n) => if n <= 10 then 17 else 18
    }

    function ExtraBits(acc: seq<nat>): seq<bool>
      requires Valid(acc)
    {
      match this
      case One(_) => []
      case Again(n) => BitsOf(n - 3, 2)
      case Blank(n) => if n <= 10 then BitsOf(n - 3, 3) else BitsOf(n - 11, 7)
    }

    function Apply(acc: seq<nat>): (r: seq<nat>)
      requires Valid(acc)
      ensures |acc| < |r|
    {
      match this
      case One(len) => acc + [len]
      case Again(n) => acc + seq(n, _ => acc[|acc| - 1])
      case Blank(n) => acc + seq(n, _ => 0)
    }
  }

  /** Runs whose symbols all have codes. */
  predicate Codable(cl: seq<nat>, runs: seq<Run>, acc: seq<nat>)
  {
    runs == [] || (runs[0].Valid(acc) && Coded(cl, runs[0].Symbol()) && Codable(cl, runs[1..], runs[0].Apply(acc)))
  }

  function Spelled(cl: seq<nat>, runs: seq<Run>, acc: seq<nat>): (r: seq<nat>)
    requires Codable(cl, runs, acc)
    ensures |acc| <= |r|
  {
    if runs == [] then acc else Spelled(cl, runs[1..], runs[0].Apply(acc))
  }

  function RunBits(cl: seq<nat>, run: Run, acc: seq<nat>): seq<bool>
    requires run.Valid(acc) && Coded(cl, run.Symbol())
  {
    Word(cl, run.Symbol()) + run.ExtraBits(acc)
  }

  function RunsBits(cl: seq<nat>, runs: seq<Run>, acc: seq<nat>): seq<bool>
    requires Codable(cl, runs, acc)
  {
    if runs == [] then [] else RunBits(cl, runs[0], acc) + RunsBits(cl, runs[1..], runs[0].Apply(acc))
  }

  lemma RunReads(bits: seq<bool>, pos: nat, cl: seq<nat>, total: nat, run: Run, acc: seq<nat>)
    requires |cl| == 19 && Accepted(cl) && run.Valid(acc) && Coded(cl, run.Symbol())
    requires At(bits, pos, RunBits(cl, run, acc)) && |run.Apply(acc)| <= total
    ensures LensStep(bits, pos, cl, total, acc) == Some(Lens(run.Apply(acc), pos + |RunBits(cl, run, acc)|))
  {
    hide At, BitsOf, Decode, Take, Code, KraftHolds, Word, Pow2;
    AtSplit(bits, pos, Word(cl, run.Symbol()), run.ExtraBits(acc));
    WordDecodes(cl, bits, pos, run.Symbol());
    var p := pos + cl[run.Symbol()];
    match run
    case One(_) =>
    case Again(n) =>
      Powers();
      TakeAt(bits, p, n - 3, 2);
    case Blank(n) =>
      Powers();
      if n <= 10 {
        TakeAt(bits, p, n - 3, 3);
      } else {
        TakeAt(bits, p, n - 11, 7);
      }
  }

  lemma Powers()
    ensures Pow2(2) == 4 && Pow2(3) == 8 && Pow2(4) == 16 && Pow2(5) == 32 && Pow2(7) == 128
  {
    assert Pow2(4) == 16 && Pow2(5) == 32;
  }

  lemma ApplyInRange(run: Run, acc: seq<nat>)
    requires run.Valid(acc) && forall i :: 0 <= i < |acc| ==> acc[i] <= 15
    ensures forall i :: 0 <= i < |run.Apply(acc)| ==> run.Apply(acc)[i] <= 15
  {
  }

  lemma {:induction false} RunsRead(bits: seq<bool>, pos: nat, cl: seq<nat>, total: nat, runs: seq<Run>, acc: seq<nat>)
    requires |cl| == 19 && Accepted(cl) && Codable(cl, runs, acc) && At(bits, pos, RunsBits(cl, runs, acc))
    requires |Spelled(cl, runs, acc)| == total && forall i :: 0 <= i < |acc| ==> acc[i] <= 15
    ensures ReadLens(bits, pos, cl, total, acc) == Some(Lens(Spelled(cl, runs, acc), pos + |RunsBits(cl, runs, acc)|))
    decreases |runs|
  {
    hide At, Accepted, LensStep, Run.Apply, Run.Valid, RunBits, Run.Symbol;
    if runs != [] {
      var next := runs[0].Apply(acc);
      AtSplit(bits, pos, RunBits(cl, runs[0], acc), RunsBits(cl, runs[1..], next));
      RunReads(bits, pos, cl, total, runs[0], acc);
      ApplyInRange(runs[0], acc);
      RunsRead(bits, pos + |RunBits(cl, runs[0], acc)|, cl, total, runs[1..], next);
    }
  }

  // ---- the whole header ----

  /** The code length lengths in the order they are written. */
  function InOrder(cl: seq<nat>): (r: seq<nat>)
    requires |cl| == 19
    ensures |r| == 19
  {
    [cl[16], cl[17], cl[18], cl[0], cl[8], cl[7], cl[9], cl[6], cl[10], cl[5], cl[11], cl[4], cl[12], cl[3], cl[13],
     cl[2], cl[14], cl[1], cl[15]]
  }

  lemma InOrderAt(cl: seq<nat>, k: nat)
    requires |cl| == 19 && k < 19
    ensures InOrder(cl)[Place(k)] == cl[k]
  {
  }

  function Threes(lens: seq<nat>, n: nat): (s: seq<bool>)
    requires n <= |lens|
    ensures |s| == 3 * n
  {
    if n == 0 then [] else Threes(lens, n - 1) + BitsOf(lens[n - 1], 3)
  }

  /** Literal and distance code, the code length code and how many of its lengths are written, and the runs. */
  datatype Header = Header(lit: seq<nat>, dist: seq<nat>, cl: seq<nat>, count: nat, runs: seq<Run>)
  {
    predicate Valid()
    {
      && 257 <= |lit| <= 288 && 1 <= |dist| <= 32 && Accepted(lit) && Accepted(dist)
      && |cl| == 19 && Accepted(cl) && (forall i :: 0 <= i < 19 ==> cl[i] <= 7)
      && 4 <= count <= 19 && (forall j :: count <= j < 19 ==> InOrder(cl)[j] == 0)
      && Codable(cl, runs, []) && Spelled(cl, runs, []) == lit + dist
    }

    function Counts(): seq<bool>
      requires 257 <= |lit| && 1 <= |dist| && 4 <= count
    {
      BitsOf(|lit| - 257, 5) + BitsOf(|dist| - 1, 5) + BitsOf(count - 4, 4)
    }

    function Bits(): seq<bool>
      requires Valid()
    {
      Counts() + (Threes(InOrder(cl), count) + RunsBits(cl, runs, []))
    }
  }

  lemma {:induction false} ThreesRead(bits: seq<bool>, pos: nat, lens: seq<nat>, n: nat, j: nat)
    requires n <= |lens| && At(bits, pos, Threes(lens, n)) && j < n && lens[j] < 8
    ensures Take(bits, pos + 3 * j, 3) == lens[j]
  {
    hide BitsOf, Take, Pow2;
    AtSplit(bits, pos, Threes(lens, n - 1), BitsOf(lens[n - 1], 3));
    if j == n - 1 {
      Powers();
      TakeAt(bits, pos + 3 * j, lens[j], 3);
    } else {
      ThreesRead(bits, pos, lens, n - 1, j);
    }
  }

  lemma CodeLengthsRead(bits: seq<bool>, pos: nat, cl: seq<nat>, n: nat)
    requires |cl| == 19 && n <= 19 && At(bits, pos, Threes(InOrder(cl), n))
    requires (forall i :: 0 <= i < 19 ==> cl[i] <= 7) && (forall j :: n <= j < 19 ==> InOrder(cl)[j] == 0)
    ensures CodeLengthLens(bits, pos, n) == cl
  {
    hide At, Threes, Place, CodeLengthLens, InOrder, Take;
    forall k | 0 <= k < 19 ensures CodeLengthLens(bits, pos, n)[k] == cl[k] {
      CodeLengthAt(bits, pos, n, k);
      InOrderAt(cl, k);
      if Place(k) < n {
        ThreesRead(bits, pos, InOrder(cl), n, Place(k));
      }
    }
  }

  lemma CountsRead(bits: seq<bool>, pos: nat, h: Header)
    requires h.Valid() && At(bits, pos, h.Counts())
    ensures Take(bits, pos, 5) == |h.lit| - 257 && Take(bits, pos + 5, 5) == |h.dist| - 1
    ensures Take(bits, pos + 10, 4) == h.count - 4
  {
    hide At, BitsOf, Take, Pow2, Accepted, Codable, InOrder;
    Powers();
    AtSplit(bits, pos, BitsOf(|h.lit| - 257, 5) + BitsOf(|h.dist| - 1, 5), BitsOf(h.count - 4, 4));
    AtSplit(bits, pos, BitsOf(|h.lit| - 257, 5), BitsOf(|h.dist| - 1, 5));
    TakeAt(bits, pos, |h.lit| - 257, 5);
    TakeAt(bits, pos + 5, |h.dist| - 1, 5);
    TakeAt(bits, pos + 10, h.count - 4, 4);
  }

  /** A written header is read as its two lists, however they are coded. */
  lemma HeaderRead(bits: seq<bool>, pos: nat, h: Header)
    requires h.Valid() && At(bits, pos, h.Bits())
    ensures DynamicCodes(bits, pos) == Some(Codes(h.lit, h.dist, pos + |h.Bits()|))
  {
    hide At, BitsOf, Take, Codable, InOrder, Threes, CodeLengthLens, KraftHolds, ValidLengths, ReadLens,
      RunsBits, Spelled;
    AtSplit(bits, pos, h.Counts(), Threes(InOrder(h.cl), h.count) + RunsBits(h.cl, h.runs, []));
    AtSplit(bits, pos + 14, Threes(InOrder(h.cl), h.count), RunsBits(h.cl, h.runs, []));
    CountsRead(bits, pos, h);
    CodeLengthsRead(bits, pos + 14, h.cl, h.count);
    RunsRead(bits, pos + 14 + 3 * h.count, h.cl, |h.lit| + |h.dist|, h.runs, []);
    assert (h.lit + h.dist)[..|h.lit|] == h.lit && (h.lit + h.dist)[|h.lit|..] == h.dist;
  }
}
