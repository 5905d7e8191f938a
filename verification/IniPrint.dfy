/**
  Files laid out in any of the ways the parser allows: headings, settings, continued values,
  comments, blank and malformed lines, and a byte order mark.
*/
module IniPrint {
  import opened Bits
  import opened Wrappers
  import opened IniText
  import opened IniParse

  /** The part of a line between the white space at its two ends; 59 is ';', 35 '#', 58 ':', 61 '=', 91 '[', 93 ']'. */
  datatype Core =
    | Heading(name: Text, rest: Text)
    | Setting(name: Text, gap: Text, colon: bool, value: Value)
    | More(text: Text)
    | Note(hash: bool, text: Text)
    | Blank
    | Faulty(text: Text)
  {
    function Bytes(): Text
    {
      match this
      case Heading(name, rest) => [91] + name + [93] + rest
      case Setting(name, gap, colon, value) => name + gap + [if colon then 58 else 61] + value.Bytes()
      case More(text) => text
      case Note(hash, text) => [if hash then 35 else 59] + text
      case Blank => []
      case Faulty(text) => text
    }

    /** What the parser tells apart. */
    predicate Valid()
    {
      match this
      case Heading(name, rest) => Clean(name) && Free(name, {93}) && TrimmedEnd(rest)
      case Setting(name, gap, _, value) =>
        && Clean(name) && Trimmed(name) && Free(name, {61, 58}) && Gap(gap) && value.Valid()
        && if name == [] then gap == [] else name[0] !in {59, 35, 91}
      case More(text) => text != [] && Trimmed(text) && text[0] !in {59, 35}
      case Note(_, text) => TrimmedEnd(text)
      case Blank => true
      case Faulty(text) =>
        && text != [] && Trimmed(text) && Clean(text) && text[0] !in {59, 35}
        && if text[0] == 91 then Free(text, {93}) else Free(text, {61, 58})
    }
  }

  /** A value between white space, and perhaps a comment behind it. */
  datatype Value = Value(gap: Text, text: Text, note: Option<Comment>)
  {
    function Bytes(): Text
    {
      gap + text + match note { case None => [] case Some(n) => n.gap + [59] + n.text }
    }

    predicate Valid()
    {
      && Gap(gap) && Clean(text) && Trimmed(text) && (gap != [] && text != [] ==> text[0] != 59)
      && match note
         case None => text == [] ==> gap == []
         case Some(n) => Gap(n.gap) && n.gap != [] && TrimmedEnd(n.text)
    }
  }

  datatype Comment = Comment(gap: Text, text: Text)

  datatype Item = Item(lead: Text, core: Core, end: Text)
  {
    function Line(): Text { lead + core.Bytes() + end + [10] }

    /** Indented lines are continuations when there is a name to continue. */
    predicate Valid(prev: Text)
    {
      && Gap(lead) && Gap(end) && core.Valid() && |Line()| <= 199
      && (forall i :: 0 <= i < |core.Bytes()| ==> core.Bytes()[i] != 10 && core.Bytes()[i] != 0)
      && match core
         case More(_) => lead != [] && prev != []
         case Note(_, _) => true
         case Blank => true
         case _ => lead == [] || prev == []
    }
  }

  predicate White(c: byte) { c in {9, 10, 11, 12, 13, 32} }

  /** White space other than the end of a line. */
  predicate Gap(t: Text) { forall i :: 0 <= i < |t| ==> t[i] in {9, 11, 12, 13, 32} }

  /** No inline comment in it. */
  predicate Clean(t: Text) { forall i :: 0 < i < |t| ==> !(White(t[i - 1]) && t[i] == 59) }

  predicate TrimmedEnd(t: Text) { t == [] || !White(t[|t| - 1]) }

  predicate Trimmed(t: Text) { TrimmedEnd(t) && (t == [] || !White(t[0])) }

  predicate Free(t: Text, chars: set<byte>) { forall i :: 0 <= i < |t| ==> t[i] !in chars }

  // ---- white space at the ends ----

  lemma {:induction false} GapEnd(t: Text, g: Text)
    requires Gap(g) && TrimmedEnd(t)
    ensures TrimRight(t + g) == t
    decreases |g|
  {
    if g == [] {
      assert t + g == t;
    } else {
      assert (t + g)[..|t + g| - 1] == t + g[..|g| - 1];
      GapEnd(t, g[..|g| - 1]);
    }
  }

  lemma {:induction false} GapStart(g: Text, t: Text)
    requires Gap(g) && (t == [] || !White(t[0]))
    ensures TrimLeft(g + t) == t
    decreases |g|
  {
    hide TrimLeft;
    TrimOne(g + t);
    if g == [] {
      assert g + t == t;
    } else {
      assert (g + t)[1..] == g[1..] + t;
      GapStart(g[1..], t);
    }
  }

  /** The line without its ends. */
  lemma LineTrimmed(lead: Text, t: Text, end: Text)
    requires Gap(lead) && Gap(end) && Trimmed(t)
    ensures t != [] ==> TrimRight(lead + t + end + [10]) == lead + t && TrimLeft(lead + t) == t
    ensures t == [] ==> TrimRight(lead + t + end + [10]) == []
  {
    hide TrimRight, TrimLeft;
    TrimRightDrops(lead + t + end, 10);
    if t == [] {
      assert lead + t + end == [] + (lead + end);
      GapEnd([], lead + end);
    } else {
      GapEnd(lead + t, end);
      GapStart(lead, t);
    }
  }

  // ---- one line ----

  lemma HeadingMeans(name: Text, rest: Text, section: Text, prev: Text)
    requires Heading(name, rest).Valid()
    ensures SectionLine(Heading(name, rest).Bytes(), section, prev) == Effect(Cut(name, 49), [], None, false)
  {
    hide Cut;
    var t := Heading(name, rest).Bytes();
    assert t[1..] == name + [93] + rest;
    ScanIs(t[1..], 0, {CLOSE}, |name|);
    assert t[1..][..|name|] == name;
  }

  lemma ValueMeans(v: Value)
    requires v.Valid()
    ensures ValueOf(v.Bytes()) == v.text
  {
    hide TrimLeft, TrimRight, Scan, Gap, Clean;
    var end := if v.note.Some? then v.note.value.gap else [];
    ValueEnds(v, end);
    ValueTrimmed(v.gap, v.text, end);
  }

  lemma ValueEnds(v: Value, end: Text)
    requires v.Valid() && end == if v.note.Some? then v.note.value.gap else []
    ensures var e := Scan(v.Bytes(), 0, {});
      v.Bytes()[..e] == v.gap + (v.text + end) && Gap(end) && Gap(v.gap) && Trimmed(v.text)
  {
    var t, e := v.Bytes(), |v.gap + v.text + end|;
    assert t[..e] == v.gap + v.text + end == v.gap + (v.text + end);
    ValueClean(v.gap, v.text, end);
    ScanIs(t, 0, {}, e);
  }

  lemma ValueTrimmed(gap: Text, text: Text, end: Text)
    requires Gap(gap) && Gap(end) && Trimmed(text)
    ensures TrimRight(TrimLeft(gap + (text + end))) == text
  {
    hide TrimLeft, TrimRight;
    if text == [] {
      assert text + end == end && gap + end == (gap + end) + [];
      GapStart(gap + end, []);
      TrimmedRight([]);
    } else {
      GapStart(gap, text + end);
      GapEnd(text, end);
    }
  }

  /** No comment starts before the white space behind the value. */
  lemma ValueClean(gap: Text, text: Text, end: Text)
    requires Gap(gap) && Gap(end) && Clean(text) && (gap != [] && text != [] ==> text[0] != 59)
    ensures Clean(gap + text + end)
  {
    var t := gap + text + end;
    forall i | 0 < i < |t| ensures !(White(t[i - 1]) && t[i] == 59) {
      if |gap| < i < |gap| + |text| {
        assert t[i - 1] == text[i - |gap| - 1] && t[i] == text[i - |gap|];
      }
    }
  }

  lemma SettingMeans(c: Core, section: Text, prev: Text)
    requires c.Setting? && c.Valid()
    ensures PairLine(c.Bytes(), section, prev)
         == Effect(section, Cut(c.name, 49), Some(Call(section, c.name, c.value.text)), false)
  {
    hide TrimLeft, TrimRight, Cut, Value.Bytes, Value.Valid, ValueOf;
    var t, e := c.Bytes(), |c.name + c.gap|;
    ValueClean([], c.name, c.gap);
    assert [] + c.name + c.gap == c.name + c.gap == t[..e] && t[e + 1..] == c.value.Bytes();
    ScanIs(t, 0, {EQUALS, COLON}, e);
    GapEnd(c.name, c.gap);
    ValueMeans(c.value);
  }

  lemma FaultyMeans(text: Text, section: Text, prev: Text)
    requires Faulty(text).Valid()
    ensures text[0] == 91 ==> SectionLine(text, section, prev) == Effect(section, prev, None, true)
    ensures text[0] != 91 ==> PairLine(text, section, prev) == Effect(section, prev, None, true)
  {
    if text[0] == 91 {
      ScanIs(text[1..], 0, {CLOSE}, |text| - 1);
    } else {
      ScanIs(text, 0, {EQUALS, COLON}, |text|);
    }
  }

  /** What a line leaves behind: section and remembered name, its call, and whether it is malformed. */
  function Means(core: Core, section: Text, prev: Text): Effect
  {
    match core
    case Heading(name, _) => Effect(Cut(name, 49), [], None, false)
    case Setting(name, _, _, value) => Effect(section, Cut(name, 49), Some(Call(section, name, value.text)), false)
    case More(text) => Effect(section, prev, Some(Call(section, prev, text)), false)
    case Note(_, _) => Effect(section, prev, None, false)
    case Blank => Effect(section, prev, None, false)
    case Faulty(_) => Effect(section, prev, None, true)
  }

  lemma CoreShape(core: Core)
    requires core.Valid()
    ensures Trimmed(core.Bytes()) && (core.Bytes() == [] <==> core.Blank?)
    ensures core.Note? ==> core.Bytes()[0] in {59, 35}
    ensures !core.Note? && !core.Blank? ==> core.Bytes()[0] !in {59, 35}
    ensures core.Heading? ==> core.Bytes()[0] == 91
    ensures core.Setting? ==> core.Bytes()[0] != 91
  {
    match core
    case Heading(name, rest) => LastOf([91] + name + [93], rest);
    case Setting(name, gap, colon, value) =>
      var d: byte := if colon then 58 else 61;
      ValueEnd(value);
      LastOf(name + gap + [d], value.Bytes());
      assert core.Bytes() == name + gap + [d] + value.Bytes();
      assert core.Bytes()[0] == if name == [] then d else name[0];
    case _ =>
  }

  lemma ValueEnd(v: Value)
    requires v.Valid()
    ensures TrimmedEnd(v.Bytes())
  {
    match v.note
    case None => LastOf(v.gap, v.text);
    case Some(n) => LastOf(v.gap + v.text + (n.gap + [59]), n.text);
      assert v.Bytes() == v.gap + v.text + (n.gap + [59]) + n.text;
  }

  lemma LastOf(a: Text, b: Text)
    requires TrimmedEnd(b) && (b == [] ==> TrimmedEnd(a))
    ensures TrimmedEnd(a + b)
  {
  }

  lemma CoreMeans(core: Core, indented: bool, section: Text, prev: Text)
    requires core.Valid() && (core.More? ==> indented && prev != [])
    requires core.Heading? || core.Setting? || core.Faulty? ==> !indented || prev == []
    ensures Body(core.Bytes(), indented, section, prev) == Means(core, section, prev)
  {
    hide SectionLine, PairLine, Cut, Core.Bytes;
    CoreShape(core);
    match core
    case Heading(name, rest) => HeadingMeans(name, rest, section, prev);
    case Setting(_, _, _, _) => SettingMeans(core, section, prev);
    case Faulty(text) =>
      FaultyIs(text);
      FaultyMeans(text, section, prev);
    case More(text) => FaultyIs(text);
    case _ =>
  }

  lemma FaultyIs(text: Text)
    ensures Faulty(text).Bytes() == text && More(text).Bytes() == text
  {
  }

  const BOM: Text := [0xEF, 0xBB, 0xBF]

  /** A line, behind a byte order mark if it is the first one and has one. */
  lemma LineMeans(item: Item, marked: bool, first: bool, section: Text, prev: Text)
    requires item.Valid(prev) && (if marked then first && prev == [] else first ==> !Bom(item.Line()))
    ensures LineEffect((if marked then BOM else []) + item.Line(), first, section, prev)
      == Means(item.core, section, prev)
  {
    hide TrimLeft, TrimRight, LineEffect, Means, Core.Valid, Core.Bytes, Gap;
    var text, t := (if marked then BOM else []) + item.Line(), item.core.Bytes();
    CoreShape(item.core);
    LineTrimmed(item.lead, t, item.end);
    BomIs(item.Line(), marked, first);
    EffectIs(text, first, if marked then 3 else 0, if t == [] then [] else item.lead, t, section, prev);
    CoreMeans(item.core, (if marked then 3 else 0) + (if t == [] then 0 else |item.lead|) > 0, section, prev);
  }

  lemma BomIs(line: Text, marked: bool, first: bool)
    requires if marked then first else first ==> !Bom(line)
    ensures var text := (if marked then BOM else []) + line;
      (first && Bom(text) <==> marked) && text[if marked then 3 else 0..] == line
  {
  }

  lemma EffectIs(text: Text, first: bool, offset: nat, lead: Text, t: Text, section: Text, prev: Text)
    requires offset <= |text| && offset == if first && Bom(text) then 3 else 0
    requires TrimRight(text[offset..]) == lead + t && (t != [] ==> TrimLeft(lead + t) == t) && (t == [] ==> lead == [])
    ensures LineEffect(text, first, section, prev) == Body(t, offset + |lead| > 0, section, prev)
  {
    hide TrimRight, TrimLeft, Bom, Body, LineEffect;
    var u := lead + t;
    if t == [] {
      TrimmedLeftNothing();
      assert u == [];
    }
    LineEffectIs(text, first, offset, u, t, section, prev);
  }

  lemma LineEffectIs(text: Text, first: bool, offset: nat, u: Text, t: Text, section: Text, prev: Text)
    requires offset <= |text| && offset == if first && Bom(text) then 3 else 0
    requires TrimRight(text[offset..]) == u && TrimLeft(u) == t && |t| <= |u|
    ensures LineEffect(text, first, section, prev) == Body(t, offset + (|u| - |t|) > 0, section, prev)
  {
    hide TrimRight, TrimLeft, Bom, Body;
  }

  lemma TrimmedLeftNothing()
    ensures TrimLeft([]) == []
  {
  }

  // ---- the whole file ----

  function TextOf(items: seq<Item>): Text
  {
    if items == [] then [] else items[0].Line() + TextOf(items[1..])
  }

  function Print(marked: bool, items: seq<Item>): Text { (if marked then BOM else []) + TextOf(items) }

  /** The section behind the first k items: the last heading. */
  function SectionAt(items: seq<Item>, k: nat): Text
    requires k <= |items|
  {
    if k == 0 then []
    else match items[k - 1].core { case Heading(name, _) => Cut(name, 49) case _ => SectionAt(items, k - 1) }
  }

  /** The name a continuation behind the first k items belongs to: the last one set since the last heading. */
  function PrevAt(items: seq<Item>, k: nat): Text
    requires k <= |items|
  {
    if k == 0 then []
    else match items[k - 1].core
         case Heading(_, _) => []
         case Setting(name, _, _, _) => Cut(name, 49)
         case _ => PrevAt(items, k - 1)
  }

  predicate AllValid(items: seq<Item>) { forall k :: 0 <= k < |items| ==> items[k].Valid(PrevAt(items, k)) }

  predicate Printable(marked: bool, items: seq<Item>)
  {
    && AllValid(items)
    && if marked then items != [] && |items[0].Line()| <= 196 else items != [] ==> !Bom(items[0].Line())
  }

  /** The calls of the first k items. */
  function Triples(items: seq<Item>, k: nat): seq<Call>
    requires k <= |items|
  {
    if k == 0 then []
    else Triples(items, k - 1) + Made(items[k - 1].core, SectionAt(items, k - 1), PrevAt(items, k - 1))
  }

  function Made(core: Core, section: Text, prev: Text): seq<Call>
  {
    match core
    case Setting(name, _, _, value) => [Call(section, name, value.text)]
    case More(text) => [Call(section, prev, text)]
    case _ => []
  }

  /** Line k, the first being 1, is malformed or its call is not accepted. */
  predicate ItemFails(items: seq<Item>, k: nat, h: Handler)
    requires 0 < k <= |items|
  {
    var core := items[k - 1].core;
    core.Faulty? || ((core.Setting? || core.More?) && !h(Triples(items, k)))
  }

  /** The number of the first line that fails among the first k, or 0. */
  function FirstError(items: seq<Item>, k: nat, h: Handler): nat
    requires k <= |items|
  {
    if k == 0 then 0
    else if FirstError(items, k - 1, h) != 0 then FirstError(items, k - 1, h)
    else if ItemFails(items, k, h) then k else 0
  }

  lemma {:induction false} TakeLineIs(s: Text, i: nat, n: nat)
    requires i < n <= |s| && n <= MAX_LINE - 1 && s[n - 1] == NEWLINE && forall k :: i <= k < n - 1 ==> s[k] != NEWLINE
    ensures TakeLine(s, i) == n
    decreases n - i
  {
    if i < n - 1 {
      TakeLineIs(s, i + 1, n);
    }
  }

  /** One line: a newline at its end only, and short enough for the buffer. */
  predicate OneLine(l: Text)
  {
    0 < |l| <= 199 && l[|l| - 1] == NEWLINE && NoZero(l) && forall k :: 0 <= k < |l| - 1 ==> l[k] != NEWLINE
  }

  lemma LineShape(item: Item, prev: Text)
    requires item.Valid(prev)
    ensures OneLine(item.Line())
  {
    hide Core.Bytes, Core.Valid;
  }

  lemma FirstLine(l: Text, rest: Text)
    requires OneLine(l)
    ensures Lines(l + rest) == [l] + Lines(rest)
  {
    TakeLineIs(l + rest, 0, |l|);
    assert (l + rest)[..|l|] == l && (l + rest)[|l|..] == rest;
  }

  predicate AllLines(items: seq<Item>) { forall k :: 0 <= k < |items| ==> OneLine(items[k].Line()) }

  function LinesIn(items: seq<Item>): (r: seq<Text>)
    ensures |r| == |items| && forall k :: 0 <= k < |r| ==> r[k] == items[k].Line()
  {
    seq(|items|, k requires 0 <= k < |items| => items[k].Line())
  }

  lemma {:induction false} LinesOf(items: seq<Item>)
    requires AllLines(items)
    ensures Lines(TextOf(items)) == LinesIn(items) && NoZero(TextOf(items))
  {
    hide Item.Line, Lines, OneLine;
    if items == [] {
      NoLines();
    } else {
      var l, rest := items[0].Line(), TextOf(items[1..]);
      assert OneLine(l);
      LinesOf(items[1..]);
      FirstLine(l, rest);
      assert LinesIn(items) == [l] + LinesIn(items[1..]);
      NoZeroAppend(l, rest);
    }
  }

  lemma NoLines()
    ensures Lines([]) == []
  {
  }

  lemma NoZeroAppend(a: Text, b: Text)
    requires OneLine(a) && NoZero(b)
    ensures NoZero(a + b)
  {
  }

  lemma ValidLines(items: seq<Item>)
    requires AllValid(items)
    ensures AllLines(items)
  {
    hide OneLine, Item.Valid, Item.Line;
    forall k | 0 <= k < |items| ensures OneLine(items[k].Line()) {
      LineShape(items[k], PrevAt(items, k));
    }
  }

  /** The lines of a printed file are those of its items, the first one behind the mark. */
  lemma PrintLines(marked: bool, items: seq<Item>)
    requires Printable(marked, items)
    ensures NoZero(Print(marked, items))
    ensures Lines(Print(marked, items))
      == if marked then [BOM + items[0].Line()] + LinesIn(items[1..]) else LinesIn(items)
  {
    hide Item.Valid, Item.Line, Bom, Lines, OneLine;
    ValidLines(items);
    if marked {
      var l, rest := items[0].Line(), TextOf(items[1..]);
      LinesOf(items[1..]);
      MarkedLine(l);
      FirstLine(BOM + l, rest);
      NoZeroAppend(BOM + l, rest);
      assert BOM + (l + rest) == (BOM + l) + rest;
    } else {
      LinesOf(items);
      assert [] + TextOf(items) == TextOf(items);
    }
  }

  lemma LinesCount(marked: bool, items: seq<Item>)
    requires Printable(marked, items)
    ensures |Lines(Print(marked, items))| == |items|
  {
    hide Item.Valid, Item.Line, Bom, Lines, Print;
    PrintLines(marked, items);
  }

  lemma LineAt(marked: bool, items: seq<Item>, k: nat)
    requires Printable(marked, items) && k < |items|
    ensures |Lines(Print(marked, items))| == |items|
    ensures Lines(Print(marked, items))[k] == (if marked && k == 0 then BOM else []) + items[k].Line()
  {
    hide Item.Valid, Item.Line, Bom, Lines, Print;
    PrintLines(marked, items);
    assert [] + items[k].Line() == items[k].Line();
    if marked && k > 0 {
      assert LinesIn(items[1..])[k - 1] == items[1..][k - 1].Line();
    }
  }

  lemma MarkedLine(l: Text)
    requires OneLine(l) && |l| <= 196
    ensures OneLine(BOM + l)
  {
  }

  lemma {:induction false} AfterItems(marked: bool, items: seq<Item>, k: nat, h: Handler)
    requires Printable(marked, items) && k <= |items|
    ensures |Lines(Print(marked, items))| == |items|
    ensures AfterLines(Lines(Print(marked, items)), k, h)
      == State(SectionAt(items, k), PrevAt(items, k), Triples(items, k), FirstError(items, k, h))
  {
    hide Item.Valid, Item.Line, LineEffect, AfterLine, Lines, Cut, Bom, Print, LinesIn, Means, SectionAt, PrevAt,
      Triples, FirstError;
    LinesCount(marked, items);
    if k == 0 {
      NoItems(items, h);
    } else {
      AfterItems(marked, items, k - 1, h);
      LineAt(marked, items, k - 1);
      var st := AfterLines(Lines(Print(marked, items)), k - 1, h);
      var e := Means(items[k - 1].core, st.section, st.prev);
      LineMeans(items[k - 1], marked && k == 1, k == 1, st.section, st.prev);
      AfterLineIs(st, Lines(Print(marked, items))[k - 1], k, h, e);
      ItemStep(items, k, h, st);
    }
  }

  lemma NoItems(items: seq<Item>, h: Handler)
    ensures State(SectionAt(items, 0), PrevAt(items, 0), Triples(items, 0), FirstError(items, 0, h))
      == State([], [], [], 0)
  {
  }

  lemma ItemStep(items: seq<Item>, k: nat, h: Handler, st: State)
    requires 0 < k <= |items|
    requires st == State(SectionAt(items, k - 1), PrevAt(items, k - 1), Triples(items, k - 1),
                         FirstError(items, k - 1, h))
    ensures var e := Means(items[k - 1].core, st.section, st.prev);
      var calls := if e.call.Some? then st.calls + [e.call.value] else st.calls;
      State(e.section, e.prev, calls,
            if st.error == 0 && (e.bad || (e.call.Some? && !h(calls))) then k else st.error)
      == State(SectionAt(items, k), PrevAt(items, k), Triples(items, k), FirstError(items, k, h))
  {
    hide Cut;
    assert Triples(items, k) == st.calls + Made(items[k - 1].core, st.section, st.prev);
    assert st.calls + [] == st.calls;
  }

  /**
    Laying out and parsing: the handler gets exactly the triples the lines stand for, in order,
    whatever it answers, and the result is the number of the first line that fails.
  */
  lemma PrintParse(marked: bool, items: seq<Item>, h: Handler)
    requires Printable(marked, items)
    ensures NoZero(Print(marked, items))
    ensures Parse(Print(marked, items), h).calls == Triples(items, |items|)
    ensures Parse(Print(marked, items), h).error == FirstError(items, |items|, h)
  {
    hide Item.Valid, AfterLines, Lines;
    PrintLines(marked, items);
    AfterItems(marked, items, |items|, h);
  }
}
