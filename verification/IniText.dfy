/** Strings as inih handles them: trimming, scanning, and C strings in a buffer. */
module IniText {
  import opened Bits

  type Text = seq<byte>

  /** What a C string can hold. */
  predicate NoZero(t: Text) { forall i :: 0 <= i < |t| ==> t[i] != 0 }

  const NEWLINE: byte := 10
  const SEMICOLON: byte := 59
  const HASH: byte := 35
  const OPEN: byte := 91
  const CLOSE: byte := 93
  const EQUALS: byte := 61
  const COLON: byte := 58

  /** isspace in the C locale */
  predicate Space(c: byte) { c == 32 || 9 <= c <= 13 }

  function TrimRight(t: Text): (r: Text)
    ensures r <= t && (r == [] || !Space(r[|r| - 1]))
  {
    if t != [] && Space(t[|t| - 1]) then TrimRight(t[..|t| - 1]) else t
  }

  function TrimLeft(t: Text): (r: Text)
    ensures |r| <= |t| && r == t[|t| - |r|..] && (r == [] || !Space(r[0]))
    ensures |r| < |t| ==> Space(t[0])
  {
    if t != [] && Space(t[0]) then TrimLeft(t[1..]) else t
  }

  /** Where a scan from i on stops: at one of the characters, at an inline comment, or at the end. */
  function Scan(t: Text, i: nat, chars: set<byte>): (e: nat)
    requires i <= |t|
    ensures i <= e <= |t|
    decreases |t| - i
  {
    if i == |t| || t[i] in chars || (i > 0 && Space(t[i - 1]) && t[i] == SEMICOLON) then i else Scan(t, i + 1, chars)
  }

  /** No character before e stops a scan, and e does. */
  lemma {:induction false} ScanIs(t: Text, i: nat, chars: set<byte>, e: nat)
    requires i <= e <= |t|
    requires forall k :: i <= k < e ==> t[k] !in chars && !(k > 0 && Space(t[k - 1]) && t[k] == SEMICOLON)
    requires e == |t| || t[e] in chars || (e > 0 && Space(t[e - 1]) && t[e] == SEMICOLON)
    ensures Scan(t, i, chars) == e
    decreases e - i
  {
    if i < e {
      ScanIs(t, i + 1, chars, e);
    }
  }

  lemma TrimmedRight(t: Text)
    requires t == [] || !Space(t[|t| - 1])
    ensures TrimRight(t) == t
  {
  }

  lemma TrimRightDrops(t: Text, c: byte)
    requires Space(c)
    ensures TrimRight(t + [c]) == TrimRight(t)
  {
    assert (t + [c])[..|t|] == t;
  }

  function Cut(t: Text, n: nat): Text { if |t| <= n then t else t[..n] }

  // ---- in a buffer ----

  /** The C string at p is t. */
  predicate Str(s: seq<byte>, p: nat, t: Text)
  {
    p + |t| < |s| && s[p..p + |t|] == t && s[p + |t|] == 0 && NoZero(t)
  }

  lemma StrAt(s: seq<byte>, p: nat, t: Text, i: nat)
    requires Str(s, p, t) && i <= |t|
    ensures s[p + i] == if i < |t| then t[i] else 0
    ensures s[p + i] == 0 <==> i == |t|
  {
    if i < |t| {
      assert s[p + i] == s[p..p + |t|][i] == t[i];
    }
  }

  lemma StrTail(s: seq<byte>, p: nat, t: Text, i: nat)
    requires Str(s, p, t) && i <= |t|
    ensures Str(s, p + i, t[i..])
  {
    assert s[p + i..p + |t|] == s[p..p + |t|][i..];
  }

  /** Cutting a string by writing a zero into it. */
  lemma StrCut(s: seq<byte>, s': seq<byte>, p: nat, t: Text, i: nat)
    requires Str(s, p, t) && i <= |t| && s' == s[p + i := 0]
    ensures Str(s', p, t[..i])
  {
    assert s'[p..p + i] == s[p..p + |t|][..i];
  }

  /** rstrip */
  method RStrip(line: array<byte>, s: nat, ghost t: Text)
    requires Str(line[..], s, t)
    modifies line
    ensures Str(line[..], s, TrimRight(t))
    ensures line[..s] == old(line[..s]) && line[s + |t| + 1..] == old(line[s + |t| + 1..])
  {
    hide Str;
    StrFits(line[..], s, t);
    var p := s;
    while line[p] != 0
      invariant s <= p <= s + |t| && p < line.Length && line[..] == old(line[..])
      decreases s + |t| - p
    {
      StrAt(line[..], s, t, p - s);
      p := p + 1;
    }
    StrAt(line[..], s, t, p - s);
    ghost var u := t;
    assert t[..|t|] == t;
    var more := p > s;
    while more
      invariant s <= p == s + |u| <= s + |t| && Str(line[..], s, u) && TrimRight(u) == TrimRight(t) && u <= t
      invariant if more then p > s else u == TrimRight(u)
      invariant line[..s] == old(line[..s]) && line[s + |t| + 1..] == old(line[s + |t| + 1..])
      decreases p, more
    {
      p := p - 1;
      StrAt(line[..], s, u, p - s);
      if Space(line[p]) {
        StrCut(line[..], line[..][p := 0], s, u, p - s);
        line[p] := 0;
        u := u[..|u| - 1];
        more := p > s;
      } else {
        p := p + 1;
        more := false;
      }
    }
  }

  lemma StrFits(s: seq<byte>, p: nat, t: Text)
    requires Str(s, p, t)
    ensures p + |t| < |s| && NoZero(t)
  {
  }

  /** lskip */
  method LSkip(line: array<byte>, s: nat, ghost t: Text) returns (q: nat)
    requires Str(line[..], s, t)
    ensures q == s + (|t| - |TrimLeft(t)|) && Str(line[..], q, TrimLeft(t))
  {
    hide Str, TrimLeft, Space;
    q := s;
    ghost var u := t;
    StrFits(line[..], s, t);
    StrAt(line[..], s, t, 0);
    while line[q] != 0 && Space(line[q])
      invariant s <= q < line.Length && q == s + (|t| - |u|) && |u| <= |t| && Str(line[..], q, u)
        && TrimLeft(u) == TrimLeft(t)
      decreases |u|
    {
      StrAt(line[..], q, u, 0);
      TrimOne(u);
      StrTail(line[..], q, u, 1);
      u := u[1..];
      q := q + 1;
      StrFits(line[..], q, u);
    }
    StrAt(line[..], q, u, 0);
    TrimOne(u);
  }

  lemma TrimOne(t: Text)
    ensures TrimLeft(t) == if t != [] && Space(t[0]) then TrimLeft(t[1..]) else t
  {
  }

  /** find_chars_or_comment; no characters means none to look for. */
  method FindCharsOrComment(line: array<byte>, s: nat, chars: set<byte>, ghost t: Text) returns (q: nat)
    requires Str(line[..], s, t) && 0 !in chars
    ensures q == s + Scan(t, 0, chars)
  {
    hide Str;
    q := s;
    var was_space := false;
    StrFits(line[..], s, t);
    StrAt(line[..], s, t, 0);
    while line[q] != 0 && line[q] !in chars && !(was_space && line[q] == SEMICOLON)
      invariant s <= q <= s + |t| && line[q] == (if q - s < |t| then t[q - s] else 0)
      invariant was_space <==> q > s && Space(t[q - s - 1])
      invariant Scan(t, 0, chars) == Scan(t, q - s, chars)
      decreases s + |t| - q
    {
      StrAt(line[..], s, t, q - s);
      was_space := Space(line[q]);
      q := q + 1;
      StrAt(line[..], s, t, q - s);
    }
    StrAt(line[..], s, t, q - s);
  }

  /** strncpy0: a copy cut to the size of the destination. */
  method Strncpy0(dest: array<byte>, line: array<byte>, s: nat, ghost t: Text)
    requires Str(line[..], s, t) && dest.Length > 0 && dest != line
    modifies dest
    ensures Str(dest[..], 0, Cut(t, dest.Length - 1))
  {
    hide Str;
    var n := 0;
    StrFits(line[..], s, t);
    StrAt(line[..], s, t, 0);
    while n < dest.Length - 1 && line[s + n] != 0
      invariant n <= dest.Length - 1 && n <= |t| && line[s + n] == (if n < |t| then t[n] else 0)
      invariant dest[..n] == t[..n]
      decreases dest.Length - n
    {
      StrAt(line[..], s, t, n);
      dest[n] := line[s + n];
      n := n + 1;
      StrAt(line[..], s, t, n);
    }
    StrAt(line[..], s, t, n);
    for i := n to dest.Length - 1
      invariant dest[..n] == t[..n] && (i > n ==> dest[n] == 0)
    {
      dest[i] := 0;
    }
    dest[dest.Length - 1] := 0;
    CopyIsStr(dest[..], t, n);
  }

  lemma CopyIsStr(d: seq<byte>, t: Text, n: nat)
    requires NoZero(t) && n < |d| && n <= |t| && d[..n] == t[..n] && d[n] == 0 && (n == |t| || n == |d| - 1)
    ensures Str(d, 0, Cut(t, |d| - 1))
  {
    assert d[0..n] == t[..n];
    assert n == |t| ==> t[..n] == t;
  }
}
