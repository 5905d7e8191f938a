/**
  Deferred clear codes (GIF89a, appendix F): a table of 4096 strings that stays as it is until
  the next clear code, and how far the decoder, whose table takes 8192, agrees with it.
*/
module GifDeferred {
  import opened Bits
  import opened Wrappers
  import opened GifLzw

  /** A decoder whose table is frozen at 4096 strings, and how many strings it has not entered since. */
  datatype Deferred = Deferred(table: Lzw, missed: nat)
  {
    ghost predicate Valid()
    {
      && table.Valid() && table.cs <= 11 && table.size <= 12 && |table.dict| <= 4096
      && (missed > 0 ==> |table.dict| == 4096 && table.prior.Some?)
    }

    /** The table is full and has missed 4096 strings. */
    predicate Spent() { |table.dict| == 4096 && missed >= 4096 && table.prior.Some? }
  }

  /** What one code does when the table is full: it is written, and no string is entered. */
  ghost function OnFull(st: Lzw, code: nat): Action
    requires st.Valid()
  {
    if code == Pow2(st.cs) then Emit([], Cleared(st.cs))
    else if code == Pow2(st.cs) + 1 then End
    else if code >= |st.dict| || st.needs_clear then Reject
    else Emit(st.dict[code], st.(prior := Some(code)))
  }

  ghost predicate Frozen(d: Deferred) { |d.table.dict| == 4096 && d.table.prior.Some? }

  ghost function OnDeferred(d: Deferred, code: nat): Action
    requires d.Valid()
  {
    if Frozen(d) then OnFull(d.table, code) else OnCode(d.table, code)
  }

  ghost function After(d: Deferred, code: nat): (r: Deferred)
    requires d.Valid() && OnDeferred(d, code).Emit?
  {
    var missed := if code == Pow2(d.table.cs) then 0 else if Frozen(d) then d.missed + 1 else d.missed;
    Deferred(OnDeferred(d, code).next, missed)
  }

  /** The decoder's state: the frozen strings, and behind them those the frozen table has missed. */
  ghost predicate Relates(st: Lzw, d: Deferred)
  {
    && st.Valid() && d.Valid() && d.table.dict <= st.dict && |st.dict| == |d.table.dict| + d.missed
    && st == d.table.(dict := st.dict)
    && (st.prior.Some? ==> st.prior.value < 4096)
  }

  lemma SizeStays(n: nat, size: nat)
    requires 0 < n && size <= 12
    ensures Grow(n, size) <= 12 && (n >= 4096 ==> Grow(n, size) == size)
  {
    if size == 12 && n <= 0xFFF {
      Pow2Of12();
      LowSmall(n, 12);
    }
  }

  lemma ClearedRelates(cs: nat, due: bool)
    requires cs <= 11
    ensures Relates(Cleared(cs).(needs_clear := due), Deferred(Cleared(cs).(needs_clear := due), 0))
  {
    ClearedIsValid(cs);
    Pow2Of12();
    Pow2Mono(cs, 11);
  }

  /** One code, of at most twelve bits, while the table is not spent. */
  lemma CodeAgrees(st: Lzw, d: Deferred, code: nat)
    requires Relates(st, d) && code < 4096 && !d.Spent()
    ensures match OnCode(st, code)
      case End => OnDeferred(d, code).End?
      case Reject => OnDeferred(d, code).Reject?
      case Emit(text, next) =>
        OnDeferred(d, code).Emit? && OnDeferred(d, code).text == text && Relates(next, After(d, code))
  {
    hide Pow2, Grow, Initial;
    var n := |st.dict|;
    SizeStays(n, st.size);
    SizeStays(n + 1, st.size);
    if code == Pow2(st.cs) {
      ClearedRelates(st.cs, false);
    } else if OnCode(st, code).Emit? {
      OnCodeIsValid(st, code);
      if Frozen(d) {
        FullAgrees(st, d, code);
      } else {
        OnCodeIsValid(d.table, code);
        GrowingAgrees(st, d, code);
      }
    }
  }

  lemma FullAgrees(st: Lzw, d: Deferred, code: nat)
    requires Relates(st, d) && code < 4096 && !d.Spent() && Frozen(d)
    requires OnCode(st, code).Emit? && code != Pow2(st.cs) && OnCode(st, code).next.Valid()
    ensures OnDeferred(d, code).Emit? && OnDeferred(d, code).text == OnCode(st, code).text
    ensures Relates(OnCode(st, code).next, After(d, code))
  {
    hide Pow2, Grow, Initial;
    SizeStays(|st.dict| + 1, st.size);
    assert d.table.dict[code] == st.dict[code];
  }

  /** A table with room left, or no string due: both do the same. */
  lemma GrowingAgrees(st: Lzw, d: Deferred, code: nat)
    requires Relates(st, d) && code < 4096 && !Frozen(d)
    requires OnCode(st, code).Emit? && code != Pow2(st.cs)
    requires OnCode(st, code).next.Valid() && (OnCode(d.table, code).Emit? ==> OnCode(d.table, code).next.Valid())
    ensures OnDeferred(d, code).Emit? && OnDeferred(d, code).text == OnCode(st, code).text
    ensures Relates(OnCode(st, code).next, After(d, code))
  {
    hide Pow2, Grow, Initial;
    SizeStays(|st.dict|, st.size);
    SizeStays(|st.dict| + 1, st.size);
    assert d.missed == 0 && st.dict == d.table.dict;
  }

  lemma AfterIsValid(d: Deferred, code: nat)
    requires d.Valid() && code < 4096 && OnDeferred(d, code).Emit?
    ensures After(d, code).Valid()
  {
    hide Pow2, Grow, Initial;
    SizeStays(|d.table.dict|, d.table.size);
    SizeStays(|d.table.dict| + 1, d.table.size);
    if code == Pow2(d.table.cs) {
      ClearedRelates(d.table.cs, false);
    } else if !Frozen(d) {
      OnCodeIsValid(d.table, code);
    }
  }

  lemma CodeIsShort(bits: seq<bool>, pos: nat, size: nat)
    requires size <= 12
    ensures Take(bits, pos, size) < 4096
  {
    TakeBound(bits, pos, size);
    Pow2Mono(size, 12);
    Pow2Of12();
  }

  /** The symbols the codes from pos on stand for when full tables are frozen. */
  ghost function DecodeDeferred(bits: seq<bool>, pos: nat, d: Deferred): Decoded
    requires d.Valid()
    decreases if pos < |bits| then |bits| - pos else 0
  {
    if pos + d.table.size > |bits| then Symbols([])
    else
      var code := Take(bits, pos, d.table.size);
      CodeIsShort(bits, pos, d.table.size);
      match OnDeferred(d, code)
      case End => Symbols([])
      case Reject => Failed
      case Emit(text, next) =>
        AfterIsValid(d, code);
        DecodeDeferred(bits, pos + d.table.size, After(d, code)).Prepend(text)
  }

  /** Some full table misses more than 4096 strings before it is cleared. */
  ghost predicate Overruns(bits: seq<bool>, pos: nat, d: Deferred)
    requires d.Valid()
    decreases if pos < |bits| then |bits| - pos else 0
  {
    pos + d.table.size <= |bits| &&
    (var code := Take(bits, pos, d.table.size);
     CodeIsShort(bits, pos, d.table.size);
     OnDeferred(d, code).Emit? &&
     (AfterIsValid(d, code);
      (d.Spent() && code != Pow2(d.table.cs)) || Overruns(bits, pos + d.table.size, After(d, code))))
  }

  /** A spent table: the decoder refuses what the frozen one takes, all but a clear code. */
  lemma SpentRefuses(st: Lzw, d: Deferred, code: nat)
    requires Relates(st, d) && d.Spent()
    ensures code != Pow2(st.cs) && OnDeferred(d, code).Emit? ==> OnCode(st, code).Reject?
    ensures OnDeferred(d, code).End? ==> OnCode(st, code).End?
    ensures OnDeferred(d, code).Reject? ==> OnCode(st, code).Reject?
    ensures code == Pow2(st.cs) ==>
      OnCode(st, code) == OnDeferred(d, code) == Emit([], Cleared(st.cs)) && Relates(Cleared(st.cs), After(d, code))
  {
    hide Pow2, Grow, Initial;
    ClearedRelates(st.cs, false);
  }

  /**
    The decoder gives what a decoder with frozen tables gives on every stream that clears each
    full table in time, and refuses every other.
  */
  lemma {:induction false} DeferredAgrees(bits: seq<bool>, pos: nat, st: Lzw, d: Deferred)
    requires Relates(st, d)
    ensures Decode(bits, pos, st) == if Overruns(bits, pos, d) then Failed else DecodeDeferred(bits, pos, d)
    decreases if pos < |bits| then |bits| - pos else 0
  {
    hide OnCode, OnFull, Pow2, Initial, Grow, After, Take;
    if pos + st.size <= |bits| {
      var code := Take(bits, pos, st.size);
      CodeIsShort(bits, pos, st.size);
      if d.Spent() {
        SpentRefuses(st, d, code);
      } else {
        CodeAgrees(st, d, code);
      }
      if OnCode(st, code).Emit? {
        DeferredAgrees(bits, pos + st.size, OnCode(st, code).next, After(d, code));
      }
    }
  }

  /** The same for the codes of a whole frame. */
  lemma FrameAgrees(bits: seq<bool>, cs: nat)
    requires cs <= 11
    ensures var st := Cleared(cs).(needs_clear := true); var d := Deferred(st, 0);
      && st.Valid() && d.Valid()
      && Decode(bits, 0, st) == if Overruns(bits, 0, d) then Failed else DecodeDeferred(bits, 0, d)
  {
    hide Pow2, Initial, Decode, DecodeDeferred, Overruns;
    ClearedRelates(cs, true);
    DeferredAgrees(bits, 0, Cleared(cs).(needs_clear := true), Deferred(Cleared(cs).(needs_clear := true), 0));
  }

  // ---- a stream that overruns ----

  predicate ZerosFrom(bits: seq<bool>, pos: nat) { forall i :: pos <= i < |bits| ==> !bits[i] }

  lemma {:induction false} TakeZeros(bits: seq<bool>, pos: nat, n: nat)
    requires ZerosFrom(bits, pos)
    ensures Take(bits, pos, n) == 0
    decreases n
  {
    if n > 0 {
      TakeZeros(bits, pos + 1, n - 1);
    }
  }

  /** How many more codes a table takes until it has missed more than 4096 strings. */
  function Left(d: Deferred): int
  {
    8193 - |d.table.dict| - d.missed + if d.table.prior.None? then 1 else 0
  }

  /** Code 0 is a root: it is written, and brings the table one string nearer to its end. */
  lemma ZeroIsTaken(d: Deferred)
    requires d.Valid() && !d.table.needs_clear
    ensures 0 != Pow2(d.table.cs) && OnDeferred(d, 0).Emit?
    ensures After(d, 0).Valid() && !After(d, 0).table.needs_clear && Left(After(d, 0)) == Left(d) - 1
  {
    AfterIsValid(d, 0);
  }

  /** Zeros for ever are a stream the frozen table reads to the end ... */
  lemma {:induction false} ZerosAreRead(bits: seq<bool>, pos: nat, d: Deferred)
    requires d.Valid() && !d.table.needs_clear && ZerosFrom(bits, pos)
    ensures DecodeDeferred(bits, pos, d).Symbols?
    decreases if pos < |bits| then |bits| - pos else 0
  {
    hide OnDeferred, After, Take, Pow2;
    if pos + d.table.size <= |bits| {
      TakeZeros(bits, pos, d.table.size);
      ZeroIsTaken(d);
      ZerosAreRead(bits, pos + d.table.size, After(d, 0));
    }
  }

  /** ... and that overruns it, when there are enough of them. */
  lemma {:induction false} ZerosOverrun(bits: seq<bool>, pos: nat, d: Deferred)
    requires d.Valid() && !d.table.needs_clear && ZerosFrom(bits, pos)
    requires Left(d) >= 1 && pos + 12 * Left(d) <= |bits|
    ensures Overruns(bits, pos, d)
    decreases Left(d)
  {
    hide OnDeferred, After, Take, Pow2;
    TakeZeros(bits, pos, d.table.size);
    ZeroIsTaken(d);
    if Left(d) > 1 {
      ZerosOverrun(bits, pos + d.table.size, After(d, 0));
    }
  }

  /**
    A clear code and then zeros, enough to fill the table twice: the decoder refuses the frame,
    a decoder with frozen tables reads it.
  */
  lemma OverrunIsRefused(bits: seq<bool>, cs: nat)
    requires cs <= 11 && At(bits, 0, BitsOf(Pow2(cs), cs + 1)) && ZerosFrom(bits, cs + 1)
    requires cs + 1 + 12 * (8192 - Pow2(cs)) <= |bits|
    ensures var st := Cleared(cs).(needs_clear := true); var d := Deferred(st, 0);
      && st.Valid() && d.Valid()
      && Overruns(bits, 0, d) && Decode(bits, 0, st).Failed? && DecodeDeferred(bits, 0, d).Symbols?
  {
    hide Pow2, Decode, Take, Initial, At;
    var d := Deferred(Cleared(cs).(needs_clear := true), 0);
    FrameAgrees(bits, cs);
    ClearComes(bits, cs);
    ClearedRelates(cs, false);
    RootsFew(cs);
    assert After(d, Pow2(cs)) == Deferred(Cleared(cs), 0);
    ZerosAreRead(bits, cs + 1, Deferred(Cleared(cs), 0));
    ZerosOverrun(bits, cs + 1, Deferred(Cleared(cs), 0));
  }

  lemma ClearComes(bits: seq<bool>, cs: nat)
    requires At(bits, 0, BitsOf(Pow2(cs), cs + 1))
    ensures Take(bits, 0, cs + 1) == Pow2(cs)
  {
    TakeAt(bits, 0, Pow2(cs), cs + 1);
  }

  lemma RootsFew(cs: nat)
    requires cs <= 11
    ensures Pow2(cs) <= 2048
  {
    Pow2Mono(cs, 11);
    Pow2Of12();
  }

  /** In bytes: roots of two bits, 4 for the clear code, and zeros. */
  lemma ZeroBytesRefused(k: nat)
    requires k >= 12282
    ensures var st := Cleared(2).(needs_clear := true); var bits := Unpack([4] + Zeros(k));
      && st.Valid() && Deferred(st, 0).Valid()
      && Decode(bits, 0, st).Failed? && DecodeDeferred(bits, 0, Deferred(st, 0)).Symbols?
  {
    hide Decode, DecodeDeferred, Overruns, Initial;
    var bits := Unpack([4] + Zeros(k));
    UnpackAppend([4], Zeros(k));
    UnpackOne(4);
    UnpackZeros(k);
    BitsOfFour();
    assert Pow2(2) == 4;
    OverrunIsRefused(bits, 2);
  }

  lemma BitsOfFour()
    ensures BitsOf(4, 3) == [false, false, true]
    ensures BitsOf(4, 8) == [false, false, true, false, false, false, false, false]
  {
    BitsOfSplit(4, 3, 5);
    assert BitsOf(2, 2) == [false] + BitsOf(1, 1) == [false, true];
    assert BitsOf(4, 3) == [false] + BitsOf(2, 2);
    assert Shr(4, 3) == Shr(2, 2) == Shr(1, 1) == 0;
    BitsOfZero(5);
  }

  lemma {:induction false} BitsOfZero(n: nat)
    ensures BitsOf(0, n) == seq(n, _ => false)
    decreases n
  {
    if n > 0 {
      BitsOfZero(n - 1);
    }
  }

  lemma {:induction false} UnpackZeros(k: nat)
    ensures Unpack(Zeros(k)) == seq(8 * k, _ => false)
    decreases k
  {
    if k > 0 {
      assert Zeros(k)[1..] == Zeros(k - 1);
      UnpackZeros(k - 1);
      BitsOfZero(8);
    }
  }
}
