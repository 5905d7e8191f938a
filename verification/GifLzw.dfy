/**
  LZW as GIF uses it, on a dictionary of strings: what a stream of codes means, and the
  table of prefixes that represents the dictionary.
*/
module GifLzw {
  import opened Bits
  import opened Wrappers

  // ---- the dictionary of strings ----

  /** The root strings; the two codes after them are reserved. */
  function Initial(cs: nat): (d: seq<seq<byte>>)
    ensures |d| == Pow2(cs) + 2
    ensures forall i :: 0 <= i < Pow2(cs) ==> d[i] == [(i % 256) as byte]
  {
    seq(Pow2(cs) + 2, i requires 0 <= i => if i < Pow2(cs) then [(i % 256) as byte] else [])
  }

  predicate Live(cs: nat, n: nat, code: nat)
  {
    code < n && code != Pow2(cs) && code != Pow2(cs) + 1
  }

  /** The next code is wider once the entries do not fit the present width, up to twelve bits. */
  function Grow(n: nat, size: nat): nat
  {
    if Low(n, size) == 0 && n <= 0xFFF then size + 1 else size
  }

  /** Root width, strings by code, code width, the code before, and whether a clear code is due. */
  datatype Lzw = Lzw(cs: nat, dict: seq<seq<byte>>, size: nat, prior: Option<nat>, needs_clear: bool)
  {
    ghost predicate Valid()
    {
      && cs <= 12 && 0 < size <= 13 && Pow2(cs) + 2 <= |dict| <= 8192
      && (forall i: nat {:trigger dict[i]} :: Live(cs, |dict|, i) ==> dict[i] != [])
      && (prior.Some? ==> Live(cs, |dict|, prior.value))
    }
  }

  function Cleared(cs: nat): Lzw { Lzw(cs, Initial(cs), cs + 1, None, false) }

  lemma ClearedIsValid(cs: nat)
    requires cs <= 12
    ensures Cleared(cs).Valid() && Cleared(cs).(needs_clear := true).Valid()
  {
    RootsFit(cs);
  }

  lemma RootsFit(cs: nat)
    requires cs <= 12
    ensures Pow2(cs) + 2 <= 8192
  {
    Pow2Mono(cs, 12);
    Pow2Of12();
  }

  lemma Pow2Of12()
    ensures Pow2(12) == 4096 && Pow2(13) == 8192 && Pow2(11) == 2048
  {
    assert Pow2(4) == 16;
    assert Pow2(8) == 256 by { assert Pow2(6) == 64; }
  }

  datatype Action = Emit(text: seq<byte>, next: Lzw) | End | Reject

  /** What one code does. */
  ghost function OnCode(st: Lzw, code: nat): (r: Action)
    requires st.Valid()
  {
    var n := |st.dict|;
    if code == Pow2(st.cs) then Emit([], Cleared(st.cs))
    else if code == Pow2(st.cs) + 1 then End
    else if code > n || st.needs_clear then Reject
    else match st.prior
      case None =>
        if code == n then Reject
        else Emit(st.dict[code], st.(size := Grow(n, st.size), prior := Some(code)))
      case Some(o) =>
        if n == 8192 then Reject
        else
          var stem := st.dict[o];
          var start := if code < n then st.dict[code][0] else stem[0];
          var d := st.dict + [stem + [start]];
          Emit(d[code], Lzw(st.cs, d, Grow(n + 1, st.size), Some(code), false))
  }

  /**
    A code behind another enters a new string: the text emitted before and the first symbol of the
    text emitted now, which may be that string itself.
  */
  lemma NewString(st: Lzw, c: nat, d: nat)
    requires st.Valid() && c != Pow2(st.cs) && OnCode(st, c).Emit? && OnCode(st, c).next.Valid()
    requires d != Pow2(st.cs) && OnCode(OnCode(st, c).next, d).Emit?
    ensures var before, now := OnCode(st, c), OnCode(OnCode(st, c).next, d);
      && before.text != [] && now.text != []
      && now.next.dict == before.next.dict + [before.text + [now.text[0]]]
      && d < |now.next.dict| && now.text == now.next.dict[d] && now.next.prior == Some(d)
      && Grow(|now.next.dict|, before.next.size) == now.next.size
  {
    hide Pow2, Grow;
  }

  /** A clear code has to come first; then codes up to the entry being created, which needs one before it. */
  lemma RejectIff(st: Lzw, code: nat)
    requires st.Valid()
    ensures OnCode(st, code) == Reject <==>
      && code !in {Pow2(st.cs), Pow2(st.cs) + 1}
      && (st.needs_clear || code > |st.dict| - (if st.prior.None? then 1 else 0)
          || (st.prior.Some? && |st.dict| == 8192))
  {
    hide Pow2, Grow;
  }

  lemma GrowBound(n: nat, size: nat)
    requires n > 0 && size <= 13
    ensures Grow(n, size) <= 13
  {
    if Low(n, size) == 0 && n <= 0xFFF && size >= 12 {
      Pow2Of12();
      Pow2Mono(12, size);
      LowSmall(n, size);
      assert false;
    }
  }

  lemma OnCodeIsValid(st: Lzw, code: nat)
    requires st.Valid()
    ensures OnCode(st, code).Emit? ==> OnCode(st, code).next.Valid()
  {
    hide Grow, Pow2;
    GrowBound(|st.dict|, st.size);
    GrowBound(|st.dict| + 1, st.size);
    ClearedIsValid(st.cs);
    GrowPositive(|st.dict|, st.size);
    GrowPositive(|st.dict| + 1, st.size);
  }

  lemma GrowPositive(n: nat, size: nat)
    ensures size <= Grow(n, size)
  {
  }

  datatype Decoded = Failed | Symbols(text: seq<byte>)
  {
    function Prepend(head: seq<byte>): Decoded
    {
      if Symbols? then Symbols(head + text) else this
    }
  }

  /** The symbols the codes from pos on stand for; the data may also end without an end code. */
  ghost function Decode(bits: seq<bool>, pos: nat, st: Lzw): Decoded
    requires st.Valid()
    decreases if pos < |bits| then |bits| - pos else 0
  {
    if pos + st.size > |bits| then Symbols([])
    else
      OnCodeIsValid(st, Take(bits, pos, st.size));
      match OnCode(st, Take(bits, pos, st.size))
      case End => Symbols([])
      case Reject => Failed
      case Emit(text, next) => Decode(bits, pos + st.size, next).Prepend(text)
  }

  lemma PrependTwice(d: Decoded, u: seq<byte>, v: seq<byte>)
    ensures d.Prepend(v).Prepend(u) == d.Prepend(u + v)
  {
    if d.Symbols? {
      assert u + (v + d.text) == (u + v) + d.text;
    }
  }

  // ---- the width of a code ----

  /**
    All codes that may come next fit the width, or the width is at its limit.  The code of the
    entry being created may come only when there is a code before.
  */
  ghost predicate WideEnough(st: Lzw)
  {
    || st.size == 12 || st.size == st.cs + 1 == 13
    || (st.size < 12 && (|st.dict| < Pow2(st.size) || (|st.dict| == Pow2(st.size) && st.prior.None?)))
  }

  lemma ClearedIsWide(cs: nat)
    requires 1 <= cs <= 12
    ensures WideEnough(Cleared(cs))
  {
    Pow2Of12();
    assert Pow2(1) == 2;
    Pow2Mono(1, cs);
  }

  /**
    With roots of one bit or more, widths grow exactly when the table has filled the present
    width below twelve bits, although the decoder only looks at the low bits of the count.
  */
  lemma GrowsWhenFull(st: Lzw, code: nat)
    requires st.Valid() && st.cs >= 1 && WideEnough(st) && OnCode(st, code).Emit?
    ensures var next := OnCode(st, code).next;
      && WideEnough(next)
      && (code != Pow2(st.cs) ==>
            next.size == if st.size < 12 && |next.dict| == Pow2(st.size) then st.size + 1 else st.size)
  {
    if code == Pow2(st.cs) {
      ClearedIsWide(st.cs);
    } else {
      var n := |OnCode(st, code).next.dict|;
      GrowIs(n, st.size);
      if st.size == 11 {
        Pow2Of12();
      }
    }
  }

  /**
    With a root of no bits the end code 2 does not fit the first width, and after two codes
    the next entry, 4, does not fit the second.
  */
  lemma NoRootBits()
    ensures var st := Cleared(0);
      && OnCode(st, 0).Emit? && OnCode(st, 0).next.Valid() && OnCode(OnCode(st, 0).next, 0).Emit?
      && st.size == 1 && !WideEnough(st)
      && (var after := OnCode(OnCode(st, 0).next, 0).next;
          after.size == 2 && |after.dict| == 4 && after.prior == Some(0) && !WideEnough(after))
  {
    assert Pow2(0) == 1 && Pow2(1) == 2 && Pow2(2) == 4;
    ClearedIsValid(0);
    OnCodeIsValid(Cleared(0), 0);
    GrowIsOdd(3);
    GrowIsOdd(4);
  }

  lemma GrowIsOdd(n: nat)
    requires 0 < n <= 0xFFF
    ensures Grow(n, 1) == if n % 2 == 0 then 2 else 1
  {
    assert Low(n, 1) == n % 2 + 2 * Low(n / 2, 0);
  }

  lemma GrowIs(n: nat, size: nat)
    requires 0 < size <= 13 && n > 0 && (size < 12 ==> n <= Pow2(size))
    ensures Grow(n, size) == if size < 12 && n == Pow2(size) then size + 1 else size
  {
    Pow2Of12();
    if size < 12 {
      Pow2Mono(size, 11);
      if n == Pow2(size) {
        ShlOne(size);
        LowShrUnique(0, 1, size);
      } else {
        LowSmall(n, size);
      }
    } else if n <= 0xFFF {
      Pow2Mono(12, size);
      LowSmall(n, size);
    }
  }

  // ---- the table ----

  /** stbi__gif_lzw */
  datatype Entry = Entry(prefix: int, first: byte, suffix: byte)

  /** One entry: its string is that of a smaller live entry and one more symbol. */
  ghost predicate Spells(cs: nat, codes: seq<Entry>, dict: seq<seq<byte>>, i: nat)
    requires i < |codes| && i < |dict|
  {
    var e := codes[i];
    && dict[i] != [] && e.first == dict[i][0]
    && (if e.prefix < 0 then dict[i] == [e.suffix]
        else e.prefix < i && Live(cs, |dict|, e.prefix) && dict[i] == dict[e.prefix] + [e.suffix])
  }

  ghost predicate Represents(cs: nat, codes: seq<Entry>, dict: seq<seq<byte>>)
  {
    |dict| <= |codes| && forall i: nat :: Live(cs, |dict|, i) ==> Spells(cs, codes, dict, i)
  }

  lemma RepresentsMore(cs: nat, codes: seq<Entry>, dict: seq<seq<byte>>, o: nat, c: byte)
    requires Represents(cs, codes, dict) && |dict| < |codes| && Live(cs, |dict|, o)
    ensures Represents(cs, codes[|dict| := Entry(o, codes[o].first, c)], dict + [dict[o] + [c]])
  {
    var n := |dict|;
    var cs', d := codes[n := Entry(o, codes[o].first, c)], dict + [dict[o] + [c]];
    hide Pow2;
    assert Spells(cs, codes, dict, o);
    forall i: nat | Live(cs, |d|, i) ensures Spells(cs, cs', d, i) {
      if i < n {
        assert Spells(cs, codes, dict, i);
      }
    }
  }

  lemma RepresentsRoots(cs: nat, codes: seq<Entry>)
    requires Pow2(cs) + 2 <= |codes|
    requires forall i :: 0 <= i < Pow2(cs) ==> codes[i] == Entry(-1, i % 256, i % 256)
    ensures Represents(cs, codes, Initial(cs))
  {
    hide Pow2;
    var d := Initial(cs);
    forall i: nat | Live(cs, |d|, i) ensures Spells(cs, codes, d, i) {
      assert d[i] == [(i % 256) as byte];
    }
  }

  lemma RepresentsFewer(cs: nat, codes: seq<Entry>, dict: seq<seq<byte>>)
    requires Represents(cs, codes, dict) && Initial(cs) <= dict
    ensures Represents(cs, codes, Initial(cs))
  {
    hide Pow2, Initial;
    var d := Initial(cs);
    forall i: nat | Live(cs, |d|, i) ensures Spells(cs, codes, d, i) {
      assert Spells(cs, codes, dict, i);
    }
  }

  /** The variables of the decoder, and the dictionary they stand for. */
  ghost predicate Tracks(st: Lzw, codesize: nat, avail: nat, oldcode: int, first: bool, codes: seq<Entry>)
  {
    && st.Valid() && Initial(st.cs) <= st.dict && |codes| == 8192 && Represents(st.cs, codes, st.dict)
    && st.size == codesize && |st.dict| == avail && st.needs_clear == first
    && oldcode == (if st.prior.Some? then st.prior.value else -1)
  }

  lemma TracksCleared(st: Lzw, codesize: nat, avail: nat, oldcode: int, first: bool, codes: seq<Entry>)
    requires Tracks(st, codesize, avail, oldcode, first, codes)
    ensures Tracks(Cleared(st.cs), st.cs + 1, Pow2(st.cs) + 2, -1, false, codes)
  {
    hide Represents, Pow2;
    ClearedIsValid(st.cs);
    RepresentsFewer(st.cs, codes, st.dict);
  }

  lemma TracksRoots(cs: nat, codes: seq<Entry>)
    requires cs <= 12 && Pow2(cs) + 2 <= |codes| == 8192
    requires forall i :: 0 <= i < Pow2(cs) ==> codes[i] == Entry(-1, i % 256, i % 256)
    ensures Tracks(Cleared(cs).(needs_clear := true), cs + 1, Pow2(cs) + 2, -1, true, codes)
  {
    hide Represents, Pow2;
    ClearedIsValid(cs);
    RootsFit(cs);
    RepresentsRoots(cs, codes);
  }

  /** The symbol a new entry ends with: the first of the string its code stands for. */
  function LastSymbol(st: Lzw, code: nat): byte
    requires st.prior.Some? && st.prior.value < |st.dict| && st.dict[st.prior.value] != []
    requires code < |st.dict| ==> st.dict[code] != []
  {
    if code < |st.dict| then st.dict[code][0] else st.dict[st.prior.value][0]
  }
}
