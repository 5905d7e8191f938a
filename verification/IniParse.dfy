/** ini_parse_stream over ini_reader_string: lines, calls of the handler, and the result. */
module IniParse {
  import opened Bits
  import opened Wrappers
  import opened IniText

  const MAX_LINE: nat := 200
  const MAX_SECTION: nat := 50
  const MAX_NAME: nat := 50

  // ---- lines ----

  /** How much of s one call of the reader takes: up to a newline, at most 199 characters. */
  function TakeLine(s: Text, i: nat): (n: nat)
    requires i <= |s|
    ensures i <= n <= |s|
    decreases |s| - i
  {
    if i == |s| || i == MAX_LINE - 1 then i else if s[i] == NEWLINE then i + 1 else TakeLine(s, i + 1)
  }

  lemma TakeSome(s: Text)
    requires s != []
    ensures 0 < TakeLine(s, 0) <= MAX_LINE - 1
  {
    TakeBounded(s, 0);
  }

  lemma {:induction false} TakeBounded(s: Text, i: nat)
    requires i <= |s| && i <= MAX_LINE - 1
    ensures TakeLine(s, i) <= MAX_LINE - 1
    ensures forall k :: i <= k < TakeLine(s, i) - 1 ==> s[k] != NEWLINE
    ensures TakeLine(s, i) < |s| && TakeLine(s, i) < MAX_LINE - 1 ==>
      i < TakeLine(s, i) && s[TakeLine(s, i) - 1] == NEWLINE
    decreases |s| - i
  {
    if i < |s| && i < MAX_LINE - 1 && s[i] != NEWLINE {
      TakeBounded(s, i + 1);
    }
  }

  /** The lines the parser sees. */
  function Lines(s: Text): (r: seq<Text>)
    decreases |s|
  {
    if s == [] then [] else (TakeSome(s); [s[..TakeLine(s, 0)]] + Lines(s[TakeLine(s, 0)..]))
  }

  function Concat(ls: seq<Text>): Text
  {
    if ls == [] then [] else ls[0] + Concat(ls[1..])
  }

  /** The lines put together are the input. */
  lemma {:induction false} LinesConcat(s: Text)
    ensures Concat(Lines(s)) == s
    decreases |s|
  {
    if s != [] {
      TakeSome(s);
      LinesConcat(s[TakeLine(s, 0)..]);
      assert s == s[..TakeLine(s, 0)] + s[TakeLine(s, 0)..];
    }
  }

  /** Every line fits the buffer and has a newline at its end only. */
  lemma {:induction false} LinesFit(s: Text, i: nat)
    requires i < |Lines(s)|
    ensures 0 < |Lines(s)[i]| <= MAX_LINE - 1
    ensures forall k :: 0 <= k < |Lines(s)[i]| - 1 ==> Lines(s)[i][k] != NEWLINE
    ensures |Lines(s)[i]| == MAX_LINE - 1 || i == |Lines(s)| - 1 || Lines(s)[i][|Lines(s)[i]| - 1] == NEWLINE
    decreases i
  {
    TakeSome(s);
    TakeBounded(s, 0);
    if i > 0 {
      LinesFit(s[TakeLine(s, 0)..], i - 1);
    }
  }

  // ---- what a line means ----

  datatype Call = Call(section: Text, name: Text, value: Text)

  /** Section and name a line leaves behind, the call it makes, and whether it is malformed. */
  datatype Effect = Effect(section: Text, prev: Text, call: Option<Call>, bad: bool)

  predicate Bom(t: Text) { |t| >= 3 && t[0] == 0xEF && t[1] == 0xBB && t[2] == 0xBF }

  function SectionLine(t: Text, section: Text, prev: Text): Effect
    requires t != []
  {
    var rest := t[1..];
    var e := Scan(rest, 0, {CLOSE});
    if e < |rest| && rest[e] == CLOSE then Effect(Cut(rest[..e], MAX_SECTION - 1), [], None, false)
    else Effect(section, prev, None, true)
  }

  /** The value without an inline comment, trimmed. */
  function ValueOf(t: Text): Text { TrimRight(TrimLeft(t[..Scan(t, 0, {})])) }

  function PairLine(t: Text, section: Text, prev: Text): Effect
  {
    var e := Scan(t, 0, {EQUALS, COLON});
    if e < |t| && t[e] in {EQUALS, COLON} then
      var name := TrimRight(t[..e]);
      Effect(section, Cut(name, MAX_NAME - 1), Some(Call(section, name, ValueOf(t[e + 1..]))), false)
    else Effect(section, prev, None, true)
  }

  /** One line without what is in front of its first visible character. */
  function Body(t: Text, indented: bool, section: Text, prev: Text): Effect
  {
    if t == [] || t[0] in {SEMICOLON, HASH} then Effect(section, prev, None, false)
    else if prev != [] && indented then Effect(section, prev, Some(Call(section, prev, t)), false)
    else if t[0] == OPEN then SectionLine(t, section, prev)
    else PairLine(t, section, prev)
  }

  function LineEffect(text: Text, first: bool, section: Text, prev: Text): Effect
  {
    var offset := if first && Bom(text) then 3 else 0;
    var t := TrimLeft(TrimRight(text[offset..]));
    Body(t, offset + (|TrimRight(text[offset..])| - |t|) > 0, section, prev)
  }

  /** The C string at p. */
  function CString(s: seq<byte>, p: nat): (t: Text)
    decreases if p < |s| then |s| - p else 0
  {
    if p >= |s| || s[p] == 0 then [] else [s[p]] + CString(s, p + 1)
  }

  lemma {:induction false} CStringIs(s: seq<byte>, p: nat, t: Text)
    requires Str(s, p, t)
    ensures CString(s, p) == t
    decreases |t|
  {
    StrAt(s, p, t, 0);
    if t != [] {
      StrTail(s, p, t, 1);
      CStringIs(s, p + 1, t[1..]);
    }
  }

  class IniParser {
    const line: array<byte>
    const section: array<byte>
    const prev_name: array<byte>
    ghost var sec: Text
    ghost var prev: Text

    ghost predicate Valid()
      reads this, section, prev_name
    {
      && line.Length == MAX_LINE && section.Length == MAX_SECTION && prev_name.Length == MAX_NAME
      && line != section && line != prev_name && section != prev_name
      && Str(section[..], 0, sec) && Str(prev_name[..], 0, prev)
    }

    constructor ()
      ensures Valid() && sec == prev == [] && fresh(line) && fresh(section) && fresh(prev_name)
    {
      line := new byte[MAX_LINE](_ => 0);
      section := new byte[MAX_SECTION](_ => 0);
      prev_name := new byte[MAX_NAME](_ => 0);
      sec, prev := [], [];
    }

    lemma LineFits()
      requires Valid()
      ensures line.Length == MAX_LINE && line != section && line != prev_name
    {
    }
    /** A line that begins with a bracket. */
    method ParseSection(start: nat, ghost t: Text) returns (bad: bool)
      requires Valid() && t != [] && Str(line[..], start, t)
      modifies this, line, section, prev_name
      ensures Valid() && SectionLine(t, old(sec), old(prev)) == Effect(sec, prev, None, bad)
    {
      hide Str, Scan;
      StrTail(line[..], start, t, 1);
      ghost var rest := t[1..];
      StrFits(line[..], start + 1, rest);
      var end := FindCharsOrComment(line, start + 1, {CLOSE}, rest);
      ghost var e := end - (start + 1);
      StrAt(line[..], start + 1, rest, e);
      bad := true;
      if line[end] == CLOSE {
        StrCut(line[..], line[..][end := 0], start + 1, rest, e);
        line[end] := 0;
        Strncpy0(section, line, start + 1, rest[..e]);
        sec := Cut(rest[..e], MAX_SECTION - 1);
        prev_name[0] := 0;
        prev := [];
        EmptyStr(prev_name[..]);
        bad := false;
      }
    }

    /** The value behind the delimiter, cut and trimmed in place. */
    method ParseValue(value: nat, ghost t: Text) returns (q: nat)
      requires Valid() && Str(line[..], value, t)
      modifies line
      ensures Valid() && q >= value && Str(line[..], q, ValueOf(t)) && line[..value] == old(line[..value])
    {
      hide Str, Scan;
      StrFits(line[..], value, t);
      var end := FindCharsOrComment(line, value, {}, t);
      ghost var e := end - value;
      StrAt(line[..], value, t, e);
      StrCut(line[..], line[..][end := 0], value, t, e);
      if line[end] != 0 {
        line[end] := 0;
      } else {
        assert line[..][end := 0] == line[..];
      }
      assert line[..value] == old(line[..value]);
      q := LSkip(line, value, t[..e]);
      ghost var before := line[..];
      RStrip(line, q, TrimLeft(t[..e]));
      PrefixKept(line[..], before, value, q);
    }

    /** Cut the line at the delimiter and trim the name in front of it. */
    method CutName(start: nat, end: nat, ghost t: Text)
      requires Valid() && Str(line[..], start, t) && start <= end < start + |t|
      modifies line
      ensures Valid() && Str(line[..], start, TrimRight(t[..end - start]))
        && Str(line[..], end + 1, t[end - start + 1..])
    {
      hide Str, TrimRight;
      ghost var e := end - start;
      StrFits(line[..], start, t);
      StrTail(line[..], start, t, e + 1);
      StrCut(line[..], line[..][end := 0], start, t, e);
      ghost var before := line[..];
      line[end] := 0;
      StrKeptAbove(before, line[..], end + 1, t[e + 1..]);
      before := line[..];
      RStrip(line, start, t[..e]);
      StrKeptAbove(before, line[..], end + 1, t[e + 1..]);
    }

    /** Name and value in place: remember the name, make the call. */
    method MakeCall(start: nat, value: nat, ghost name: Text, ghost v: Text) returns (call: Option<Call>)
      requires Valid() && Str(line[..], start, name) && Str(line[..], value, v)
      modifies this`prev, prev_name
      ensures Valid() && prev == Cut(name, MAX_NAME - 1) && call == Some(Call(sec, name, v))
    {
      hide Str, Cut;
      Strncpy0(prev_name, line, start, name);
      prev := Cut(name, MAX_NAME - 1);
      CStringIs(section[..], 0, sec);
      CStringIs(line[..], start, name);
      CStringIs(line[..], value, v);
      call := Some(Call(CString(section[..], 0), CString(line[..], start), CString(line[..], value)));
    }

    /** A line that should be name, delimiter, value. */
    method ParsePair(start: nat, ghost t: Text) returns (bad: bool, call: Option<Call>)
      requires Valid() && Str(line[..], start, t)
      modifies this, line, prev_name
      ensures Valid() && PairLine(t, old(sec), old(prev)) == Effect(sec, prev, call, bad)
    {
      hide Str, Scan, TrimRight, ValueOf, Cut;
      var end := FindCharsOrComment(line, start, {EQUALS, COLON}, t);
      ghost var e := end - start;
      StrAt(line[..], start, t, e);
      StrFits(line[..], start, t);
      if line[end] != EQUALS && line[end] != COLON {
        return true, None;
      }
      CutName(start, end, t);
      ghost var before, name := line[..], TrimRight(t[..e]);
      var value := ParseValue(end + 1, t[e + 1..]);
      StrKeptBelow(before, line[..], start, name, end + 1);
      call := MakeCall(start, value, name, ValueOf(t[e + 1..]));
      bad := false;
    }

    /** The line from its first visible character on. */
    method ParseBody(start: nat, ghost t: Text) returns (bad: bool, call: Option<Call>)
      requires Valid() && Str(line[..], start, t)
      modifies this, line, section, prev_name
      ensures Valid() && Body(t, start > 0, old(sec), old(prev)) == Effect(sec, prev, call, bad)
    {
      hide Str, SectionLine, PairLine;
      StrFits(line[..], start, t);
      StrAt(line[..], start, t, 0);
      StrAt(prev_name[..], 0, prev, 0);
      bad, call := false, None;
      if line[start] == 0 || line[start] == SEMICOLON || line[start] == HASH {
        return;
      }
      if prev_name[0] != 0 && start > 0 {
        CStringIs(section[..], 0, sec);
        CStringIs(prev_name[..], 0, prev);
        CStringIs(line[..], start, t);
        call := Some(Call(CString(section[..], 0), CString(prev_name[..], 0), CString(line[..], start)));
      } else if line[start] == OPEN {
        bad := ParseSection(start, t);
      } else {
        bad, call := ParsePair(start, t);
      }
    }

    /** Past a byte order mark on the first line. */
    method SkipBom(lineno: nat, ghost text: Text) returns (start: nat)
      requires Valid() && Str(line[..], 0, text)
      ensures start == (if lineno == 1 && Bom(text) then 3 else 0) <= |text| && Str(line[..], start, text[start..])
    {
      hide Str;
      start := 0;
      BomAt(line[..], text);
      if lineno == 1 && line[0] == 0xEF && line[1] == 0xBB && line[2] == 0xBF {
        start := 3;
      }
      StrTail(line[..], 0, text, start);
    }

    /** The line from offset on: trimmed, then parsed. */
    method ParseFrom(offset: nat, ghost t: Text) returns (bad: bool, call: Option<Call>)
      requires Valid() && Str(line[..], offset, t)
      modifies this, line, section, prev_name
      ensures Valid()
      ensures Body(TrimLeft(TrimRight(t)), offset + (|TrimRight(t)| - |TrimLeft(TrimRight(t))|) > 0, old(sec),
        old(prev))
           == Effect(sec, prev, call, bad)
    {
      hide Str, Body, TrimRight, TrimLeft;
      RStrip(line, offset, t);
      assert Valid();
      hide Valid;
      var start := LSkip(line, offset, TrimRight(t));
      bad, call := ParseBody(start, TrimLeft(TrimRight(t)));
    }

    /** A line in the buffer. */
    method ParseLine(lineno: nat, ghost text: Text) returns (bad: bool, call: Option<Call>)
      requires Valid() && Str(line[..], 0, text)
      modifies this, line, section, prev_name
      ensures Valid() && LineEffect(text, lineno == 1, old(sec), old(prev)) == Effect(sec, prev, call, bad)
    {
      hide Str, Body, TrimRight, TrimLeft, Valid;
      var start := SkipBom(lineno, text);
      bad, call := ParseFrom(start, text[start..]);
    }
  }

  lemma BomAt(s: seq<byte>, t: Text)
    requires Str(s, 0, t) && |s| >= 3
    ensures Bom(t) <==> s[0] == 0xEF && s[1] == 0xBB && s[2] == 0xBF
  {
    hide Str;
    StrAt(s, 0, t, 0);
    if |t| >= 1 { StrAt(s, 0, t, 1); }
    if |t| >= 2 { StrAt(s, 0, t, 2); }
  }

  lemma StrKeptAbove(s: seq<byte>, s': seq<byte>, p: nat, t: Text)
    requires Str(s, p, t) && |s'| == |s| && s[p..] == s'[p..]
    ensures Str(s', p, t)
  {
    assert s'[p..p + |t|] == s'[p..][..|t|];
    assert s[p..p + |t|] == s[p..][..|t|];
    assert s'[p + |t|] == s'[p..][|t|] && s[p + |t|] == s[p..][|t|];
  }

  lemma StrKeptBelow(s: seq<byte>, s': seq<byte>, p: nat, t: Text, n: nat)
    requires Str(s, p, t) && |s'| == |s| && p + |t| < n <= |s| && s[..n] == s'[..n]
    ensures Str(s', p, t)
  {
    forall i | 0 <= i < n ensures s[i] == s'[i] {
      assert s[i] == s[..n][i] && s'[i] == s'[..n][i];
    }
  }

  lemma EmptyStr(s: seq<byte>)
    requires s != [] && s[0] == 0
    ensures Str(s, 0, [])
  {
  }

  lemma PrefixKept(s: seq<byte>, s': seq<byte>, n: nat, m: nat)
    requires n <= m <= |s| && |s'| == |s| && s[..m] == s'[..m]
    ensures s[..n] == s'[..n]
  {
    assert s[..n] == s[..m][..n] && s'[..n] == s'[..m][..n];
  }

  // ---- the reader ----

  /** ini_parse_string_ctx */
  class StringReader {
    const input: Text
    var ptr: nat
    var num_left: nat

    ghost predicate Valid()
      reads this
    {
      ptr + num_left == |input| && NoZero(input)
    }

    /** What is still to be read. */
    ghost function Rest(): Text
      reads this
    {
      if ptr <= |input| then input[ptr..] else []
    }

    constructor (input: Text)
      requires NoZero(input)
      ensures Valid() && Rest() == input && this.input == input
    {
      this.input, ptr, num_left := input, 0, |input|;
    }

    /** ini_reader_string: at most num - 1 characters, up to a newline. */
    method Read(str: array<byte>, num: nat) returns (ok: bool)
      requires Valid() && num == MAX_LINE == str.Length
      modifies this, str
      ensures Valid() && (ok <==> old(Rest()) != []) && (!ok ==> Rest() == [])
      ensures ok ==> var n := TakeLine(old(Rest()), 0);
        Str(str[..], 0, old(Rest())[..n]) && Rest() == old(Rest())[n..]
    {
      if num_left == 0 || num < 2 {
        return false;
      }
      ghost var rest := Rest();
      var ctx_ptr, ctx_num_left, left := ptr, num_left, num;
      var strp: nat := 0;
      ghost var more := true;
      while left > 1 && ctx_num_left != 0
        invariant ptr == old(ptr) && num_left == old(num_left)
        invariant ctx_ptr == ptr + strp && strp <= |rest| && ctx_num_left == |rest| - strp && left + strp == MAX_LINE
          && left >= 1
        invariant str[..strp] == rest[..strp] && TakeLine(rest, strp) == TakeLine(rest, 0)
        decreases left
      {
        var c := input[ctx_ptr];
        assert c == rest[strp];
        ctx_ptr := ctx_ptr + 1;
        ctx_num_left := ctx_num_left - 1;
        str[strp] := c;
        strp := strp + 1;
        assert str[..strp] == rest[..strp];
        if c == NEWLINE {
          assert TakeLine(rest, 0) == strp;
          break;
        }
        left := left - 1;
      }
      assert TakeLine(rest, 0) == strp;
      str[strp] := 0;
      assert str[0..strp] == rest[..strp];
      ptr, num_left := ctx_ptr, ctx_num_left;
      ok := true;
    }
  }

  // ---- the stream ----

  /** What the lines so far have led to; error is the first failing line, or 0. */
  datatype State = State(section: Text, prev: Text, calls: seq<Call>, error: nat)

  /** The handler sees the call and all calls before it, and accepts or not. */
  type Handler = seq<Call> -> bool

  predicate Fails(st: State, text: Text, lineno: nat, h: Handler)
  {
    var e := LineEffect(text, lineno == 1, st.section, st.prev);
    e.bad || (e.call.Some? && !h(st.calls + [e.call.value]))
  }

  function AfterLine(st: State, text: Text, lineno: nat, h: Handler): State
  {
    var e := LineEffect(text, lineno == 1, st.section, st.prev);
    State(e.section, e.prev, if e.call.Some? then st.calls + [e.call.value] else st.calls,
          if st.error == 0 && Fails(st, text, lineno, h) then lineno else st.error)
  }

  function AfterLines(ls: seq<Text>, k: nat, h: Handler): State
    requires k <= |ls|
  {
    if k == 0 then State([], [], [], 0) else AfterLine(AfterLines(ls, k - 1, h), ls[k - 1], k, h)
  }

  /** Line i, the first being 0, is malformed or rejected by the handler. */
  predicate FailsAt(ls: seq<Text>, i: nat, h: Handler)
    requires i < |ls|
  {
    Fails(AfterLines(ls, i, h), ls[i], i + 1, h)
  }

  lemma NoError(ls: seq<Text>, h: Handler)
    ensures AfterLines(ls, 0, h).error == 0
  {
  }

  lemma ErrorStep(ls: seq<Text>, k: nat, h: Handler)
    requires k < |ls|
    ensures var e := AfterLines(ls, k, h).error;
      AfterLines(ls, k + 1, h).error == if e == 0 && FailsAt(ls, k, h) then k + 1 else e
  {
    hide Fails, LineEffect;
  }

  /** The result is 0 when no line fails, and otherwise the number of the first that does. */
  lemma {:induction false} ErrorIsFirst(ls: seq<Text>, k: nat, h: Handler)
    requires k <= |ls|
    ensures var e := AfterLines(ls, k, h).error;
      if e == 0 then forall i :: 0 <= i < k ==> !FailsAt(ls, i, h)
      else e <= k && FailsAt(ls, e - 1, h) && forall i :: 0 <= i < e - 1 ==> !FailsAt(ls, i, h)
  {
    hide FailsAt, AfterLines;
    if k == 0 {
      NoError(ls, h);
    } else {
      ErrorIsFirst(ls, k - 1, h);
      ErrorStep(ls, k - 1, h);
    }
  }

  function Parse(input: Text, h: Handler): State
  {
    AfterLines(Lines(input), |Lines(input)|, h)
  }

  lemma LinesStep(rest: Text, ls: seq<Text>, k: nat)
    requires k <= |ls| && Lines(rest) == ls[k..]
    ensures rest == [] <==> k == |ls|
    ensures rest != [] ==> var n := TakeLine(rest, 0); ls[k] == rest[..n] && Lines(rest[n..]) == ls[k + 1..]
  {
    if rest != [] {
      TakeSome(rest);
      assert ls[k] == ls[k..][0] && ls[k + 1..] == ls[k..][1..];
    }
  }

  lemma AfterLineIs(st: State, text: Text, lineno: nat, h: Handler, e: Effect)
    requires LineEffect(text, lineno == 1, st.section, st.prev) == e
    ensures var calls := if e.call.Some? then st.calls + [e.call.value] else st.calls;
      AfterLine(st, text, lineno, h) == State(e.section, e.prev, calls,
        if st.error == 0 && (e.bad || (e.call.Some? && !h(calls))) then lineno else st.error)
  {
    hide LineEffect;
  }

  /** One turn of the loop: parse the line, call the handler, note the first failure. */
  method HandleLine(p: IniParser, lineno: nat, h: Handler, calls0: seq<Call>, error0: nat, ghost text: Text)
    returns (calls: seq<Call>, error: nat)
    requires p.Valid() && Str(p.line[..], 0, text)
    modifies p, p.line, p.section, p.prev_name
    ensures p.Valid()
    ensures State(p.sec, p.prev, calls, error)
      == AfterLine(State(old(p.sec), old(p.prev), calls0, error0), text, lineno, h)
  {
    hide Str, LineEffect, IniParser.Valid, AfterLine;
    ghost var before := State(p.sec, p.prev, calls0, error0);
    calls, error := calls0, error0;
    var bad, call := p.ParseLine(lineno, text);
    var failed := bad;
    if call.Some? {
      calls := calls + [call.value];
      failed := bad || !h(calls);
    }
    AfterLineIs(before, text, lineno, h, Effect(p.sec, p.prev, call, bad));
    if failed && error == 0 {
      error := lineno;
    }
  }

  /** Read a line and handle it. */
  method Turn(ctx: StringReader, p: IniParser, lineno: nat, h: Handler, calls0: seq<Call>, error0: nat)
    returns (more: bool, calls: seq<Call>, error: nat)
    requires ctx.Valid() && p.Valid()
    modifies ctx, p, p.line, p.section, p.prev_name
    ensures ctx.Valid() && p.Valid() && (more <==> old(ctx.Rest()) != [])
    ensures !more ==>
      ctx.Rest() == [] && State(p.sec, p.prev, calls, error) == State(old(p.sec), old(p.prev), calls0, error0)
    ensures more ==> var n := TakeLine(old(ctx.Rest()), 0);
      && ctx.Rest() == old(ctx.Rest())[n..]
      && State(p.sec, p.prev, calls, error)
         == AfterLine(State(old(p.sec), old(p.prev), calls0, error0), old(ctx.Rest())[..n], lineno + 1, h)
  {
    hide Str, IniParser.Valid, AfterLine, TakeLine;
    calls, error := calls0, error0;
    p.LineFits();
    ghost var rest := ctx.Rest();
    more := ctx.Read(p.line, MAX_LINE);
    if more {
      calls, error := HandleLine(p, lineno + 1, h, calls, error, rest[..TakeLine(rest, 0)]);
    }
  }

  /** ini_parse_string */
  method ParseString(input: Text, h: Handler) returns (error: nat, calls: seq<Call>)
    requires NoZero(input)
    ensures error == Parse(input, h).error && calls == Parse(input, h).calls
  {
    hide IniParser.Valid, AfterLine, Lines, TakeLine, StringReader.Valid, StringReader.Rest;
    var ctx := new StringReader(input);
    var p := new IniParser();
    ghost var ls := Lines(input);
    error, calls := 0, [];
    var lineno: nat := 0;
    assert ls[0..] == ls;
    var more := true;
    while more
      invariant ctx.Valid() && p.Valid() && fresh(p) && fresh(ctx) && fresh(p.line) && fresh(p.section)
        && fresh(p.prev_name)
      invariant lineno <= |ls| && Lines(ctx.Rest()) == ls[lineno..] && (!more ==> lineno == |ls|)
      invariant AfterLines(ls, lineno, h) == State(p.sec, p.prev, calls, error)
      decreases |ls| - lineno, more
    {
      LinesStep(ctx.Rest(), ls, lineno);
      more, calls, error := Turn(ctx, p, lineno, h, calls, error);
      if more {
        lineno := lineno + 1;
      }
    }
  }
}
