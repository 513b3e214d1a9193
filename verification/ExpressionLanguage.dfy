/** The language of the parser: every text it accepts is a phrase that spells the tree it returns. */
module ExpressionLanguage {
  import opened Options
  import opened Expressions
  import opened ExpressionGrammar

  predicate ReadsPrefix(strtod: Strtod, s: string) {
    0 < strtod(s).0 <= |s| ==> strtod(s[..strtod(s).0]) == strtod(s)
  }

  /** What `strtod` reads of a text it also reads alone. */
  ghost predicate Prefixed(strtod: Strtod) {
    forall s :: ReadsPrefix(strtod, s)
  }

  /** The cursor is not at a space. */
  predicate Begins(s: string) {
    s == "" || !IsSpace(s[0])
  }

  // ----- tokens -----

  lemma {:induction false} GapOf(s: string) returns (gap: string)
    ensures Spaces(gap) && s == gap + SkipSpaces(s) && Begins(SkipSpaces(s))
    decreases s
  {
    gap := "";
    if s != "" && IsSpace(s[0]) {
      gap := GapOf(s[1..]);
      gap := [s[0]] + gap;
      assert s == [s[0]] + s[1..];
    }
  }

  lemma {:induction false} IdSpanIs(s: string)
    ensures forall i | 0 <= i < IdSpan(s) :: IsIdChar(s[i])
    decreases s
  {
    if s != "" && IsIdChar(s[0]) {
      IdSpanIs(s[1..]);
      assert forall i | 1 <= i < IdSpan(s) :: s[i] == s[1..][i - 1];
    }
  }

  lemma IdOf(s: string)
    requires ParseId(s).Ok?
    ensures var r := ParseId(s);
      IsId(r.value) && s == r.value + r.rest
  {
    IdSpanIs(s[1..]);
    var id := ParseId(s).value;
    forall i | 0 <= i < |id|
      ensures IsIdChar(id[i])
    {
      if i > 0 { assert id[i] == s[1..][i - 1]; }
    }
  }

  lemma {:induction false} FormatSpanIs(s: string)
    ensures '}' !in s[..FormatSpan(s)] && (FormatSpan(s) < |s| ==> s[FormatSpan(s)] == '}')
    decreases s
  {
    if s != "" && s[0] != '}' {
      FormatSpanIs(s[1..]);
      assert s[..FormatSpan(s)] == [s[0]] + s[1..][..FormatSpan(s[1..])];
    }
  }

  lemma FormatIs(s: string)
    requires Begins(s)
    ensures var n := FormatOf(s);
      && IsFormat(s[..n]) && s == s[..n] + s[n..] && Begins(s[n..])
      && (s[..n] != "" ==> s[n..] == "" || s[n..][0] == '}')
  {
    FormatSpanIs(s);
  }

  lemma {:induction false} DigitSpanPrefix(s: string, base: nat, n: nat)
    requires DigitSpan(s, base) <= n <= |s|
    ensures DigitSpan(s[..n], base) == DigitSpan(s, base)
    decreases s
  {
    if s != "" && Digit(s[0]) < base {
      assert s[..n][1..] == s[1..][..n - 1];
      DigitSpanPrefix(s[1..], base, n - 1);
    }
  }

  lemma UnsignedPrefix(s: string)
    requires Unsigned(s).Some?
    ensures Unsigned(s[..Unsigned(s).value.1]) == Unsigned(s)
  {
    hide DigitSpan, DigitsValue;
    var (base, skip) := BaseOf(s);
    var n := DigitSpan(s[skip..], base);
    var t := s[..skip + n];
    assert BaseOf(t) == (base, skip) by { SpanStarts(s[skip..], base); }
    assert t[skip..] == s[skip..][..n];
    DigitSpanPrefix(s[skip..], base, n);
    SliceOfPrefix(s, skip, n);
  }

  lemma SliceOfPrefix(s: string, skip: nat, n: nat)
    requires skip + n <= |s|
    ensures s[..skip + n][skip..skip + n] == s[skip..skip + n]
  {
  }

  lemma SpanStarts(s: string, base: nat)
    ensures DigitSpan(s, base) > 0 <==> s != "" && Digit(s[0]) < base
  {
  }

  /** What `strtol` reads of a text it also reads alone. */
  lemma NumberOf(s: string)
    requires Begins(s) && Strtol(s).Scanned?
    ensures var text := s[..Strtol(s).length];
      IsNumber(text) && Strtol(text) == Strtol(s)
  {
    hide Unsigned;
    var n := Strtol(s).length;
    var text := s[..n];
    assert SkipSpaces(s) == s && SkipSpaces(text) == text;
    var sign := SignLength(s);
    UnsignedPrefix(s[sign..]);
    assert SignLength(text) == sign;
    assert text[sign..] == s[sign..][..n - sign];
  }

  // ----- the parser -----

  ghost predicate Spells(strtod: Strtod, s: string, level: nat, p: Phrase, e: Expr, rest: string) {
    IsPhrase(p, level) && Tree(p) == e && s == Text(p) + rest && Legible(strtod, p, rest) && Begins(rest)
  }

  ghost predicate SpellsOperands(strtod: Strtod, s: string, level: nat, l: Links, o: Operands, rest: string) {
    && IsLinks(l, level) && LinksTree(l) == o && s == LinksText(l) + rest && LegibleLinks(strtod, l, rest)
    && Begins(rest)
    && (OpLevel(s) == level ==> l.Link? && l.op == s[0])
  }

  ghost predicate SpellsSubs(strtod: Strtod, s: string, t: SubTexts, subs: Subs, rest: string) {
    IsSubs(t) && SubsTree(t) == subs && s == SubsText(t) + rest && LegibleSubs(strtod, t, rest) && Begins(rest)
  }

  lemma {:induction false} LevelSpelled(strtod: Strtod, s: string, level: nat) returns (p: Phrase)
    requires 1 <= level <= 7 && Prefixed(strtod) && Begins(s) && ParseLevel(strtod, s, level).Ok?
    ensures var r := ParseLevel(strtod, s, level); Spells(strtod, s, level, p, r.value, r.rest)
    decreases |s|, 10 - level
  {
    hide ParseTerm, ParseOperands, Prefixed, OpLevel, Spells, SpellsOperands;
    if level == 7 {
      p := TermSpelled(strtod, s);
    } else {
      p := LevelSpelled(strtod, s, level + 1);
      var Ok(e, rest) := ParseLevel(strtod, s, level + 1);
      if OpLevel(rest) != level {
        LowerSpells(strtod, s, level, p, e, rest);
      } else {
        SpellsBegins(strtod, s, level + 1, p, e, rest);
        var l := OperandsSpelled(strtod, rest, level);
        var Ok(o, rest') := ParseOperands(strtod, rest, level);
        ChainSpells(strtod, s, level, p, e, rest, l, o, rest');
        p := Chain(p, l);
      }
    }
  }

  lemma SpellsBegins(strtod: Strtod, s: string, level: nat, p: Phrase, e: Expr, rest: string)
    requires Spells(strtod, s, level, p, e, rest)
    ensures Begins(rest)
  {
  }

  lemma LowerSpells(strtod: Strtod, s: string, level: nat, p: Phrase, e: Expr, rest: string)
    requires Spells(strtod, s, level + 1, p, e, rest)
    ensures Spells(strtod, s, level, p, e, rest)
  {
    hide IsPhrase, Text, Tree, Legible;
    PhraseLower(p, level);
  }

  lemma FirstLevel(s: string)
    requires s != ""
    ensures OpLevel([s[0]]) == OpLevel(s)
  {
  }

  lemma ChainSpells(strtod: Strtod, s: string, level: nat, p: Phrase, e: Expr, rest: string, l: Links, o: Operands,
                    rest': string)
    requires 1 <= level <= 6 && OpLevel(rest) == level
    requires Spells(strtod, s, level + 1, p, e, rest) && SpellsOperands(strtod, rest, level, l, o, rest')
    ensures Spells(strtod, s, level, Chain(p, l), Operation(e, o), rest')
  {
    hide OpLevel, IsPhrase, Text, Tree, Legible, IsLinks, LinksTree, LinksText, LegibleLinks;
    FirstLevel(rest);
    ChainIs(p, l, level);
    ChainLegible(strtod, p, l, rest');
    assert Text(p) + LinksText(l) + rest' == Text(p) + rest;
  }

  lemma ChainLegible(strtod: Strtod, head: Phrase, links: Links, post: string)
    ensures Legible(strtod, Chain(head, links), post) <==>
      Legible(strtod, head, LinksText(links) + post) && LegibleLinks(strtod, links, post)
  {
    hide LinksText, LegibleLinks;
  }

  lemma {:induction false} OperandsSpelled(strtod: Strtod, s: string, level: nat) returns (l: Links)
    requires 1 <= level <= 6 && Prefixed(strtod) && Begins(s) && ParseOperands(strtod, s, level).Ok?
    ensures var r := ParseOperands(strtod, s, level); SpellsOperands(strtod, s, level, l, r.value, r.rest)
    decreases |s|, 1
  {
    hide ParseLevel, Prefixed, OpLevel, Spells, SkipSpaces;
    if OpLevel(s) != level {
      l := NoLink;
      assert s == "" + s;
    } else {
      var gap := GapOf(s[1..]);
      var t := SkipSpaces(s[1..]);
      var p := LevelSpelled(strtod, t, level + 1);
      var Ok(e, rest) := ParseLevel(strtod, t, level + 1);
      SpellsBegins(strtod, t, level + 1, p, e, rest);
      var more := OperandsSpelled(strtod, rest, level);
      var Ok(o, rest') := ParseOperands(strtod, rest, level);
      l := Link(s[0], gap, p, more);
      LinkSpells(strtod, s, level, gap, p, e, t, rest, more, o, rest');
    }
  }

  lemma LinkSpells(strtod: Strtod, s: string, level: nat, gap: string, p: Phrase, e: Expr, t: string, rest: string,
                   more: Links, o: Operands, rest': string)
    requires 1 <= level <= 6 && s != "" && OpLevel(s) == level && Spaces(gap) && s[1..] == gap + t
    requires Spells(strtod, t, level + 1, p, e, rest) && SpellsOperands(strtod, rest, level, more, o, rest')
    ensures SpellsOperands(strtod, s, level, Link(s[0], gap, p, more), Operand(s[0], e, o), rest')
  {
    hide OpLevel, Spaces, IsPhrase, Text, Tree, Legible;
    FirstLevel(s);
    assert s == [s[0]] + s[1..];
    assert [s[0]] + gap + Text(p) + LinksText(more) + rest' == [s[0]] + (gap + (Text(p) + (LinksText(more) + rest')));
  }

  lemma {:induction false} TermSpelled(strtod: Strtod, s: string) returns (p: Phrase)
    requires Prefixed(strtod) && Begins(s) && ParseTerm(strtod, s).Ok?
    ensures var r := ParseTerm(strtod, s); Spells(strtod, s, 7, p, r.value, r.rest)
    decreases |s|, 2
  {
    hide ParseLevel, ParseReference, Spells, SkipSpaces, Strtol, Prefixed;
    if Peek(s) == '(' {
      var open := GapOf(s[1..]);
      var t := SkipSpaces(s[1..]);
      var inner := LevelSpelled(strtod, t, 1);
      var Ok(e, rest) := ParseLevel(strtod, t, 1);
      var close := GapOf(rest[1..]);
      p := Paren(open, inner, close);
      ParenSpells(strtod, s, open, inner, e, t, rest, close);
    } else if Peek(s) == '$' {
      p := ReferenceSpelled(strtod, s);
    } else if '.' in s {
      p := FloatSpelled(strtod, s);
    } else {
      p := NumberSpelled(strtod, s);
    }
  }

  lemma ParenSpells(strtod: Strtod, s: string, open: string, inner: Phrase, e: Expr, t: string, rest: string,
                    close: string)
    requires s != "" && s[0] == '(' && Spaces(open) && s[1..] == open + t && Spells(strtod, t, 1, inner, e, rest)
    requires rest != "" && rest[0] == ')' && Spaces(close) && rest[1..] == close + SkipSpaces(rest[1..])
    requires Begins(SkipSpaces(rest[1..]))
    ensures Spells(strtod, s, 7, Paren(open, inner, close), e, SkipSpaces(rest[1..]))
  {
    hide Spaces, SkipSpaces, IsPhrase, Text, Tree, Legible;
    var end := SkipSpaces(rest[1..]);
    ParenIs(strtod, open, inner, close, end);
    assert rest == ")" + close + end;
    assert s == "(" + s[1..];
    var a, b := Text(inner), ")" + close;
    assert "(" + open + a + ")" + close + end == "(" + (open + (a + (b + end)));
  }

  lemma ParenIs(strtod: Strtod, open: string, inner: Phrase, close: string, post: string)
    requires Spaces(open) && Spaces(close) && IsPhrase(inner, 1)
    ensures var p := Paren(open, inner, close);
      && IsPhrase(p, 7) && Tree(p) == Tree(inner) && Text(p) == "(" + open + Text(inner) + ")" + close
      && (Legible(strtod, p, post) <==> Legible(strtod, inner, ")" + close + post))
  {
    hide Spaces;
  }

  lemma NumberSpelled(strtod: Strtod, s: string) returns (p: Phrase)
    requires Begins(s) && '.' !in s && ParseInt(s).Ok?
    ensures var r := ParseInt(s); Spells(strtod, s, 7, p, r.value, r.rest)
  {
    hide Strtol, SkipSpaces, Spaces;
    var n := Strtol(s).length;
    NumberOf(s);
    var gap := GapOf(s[n..]);
    p := Number(s[..n], gap);
    assert s == s[..n] + (gap + SkipSpaces(s[n..]));
  }

  lemma FloatSpelled(strtod: Strtod, s: string) returns (p: Phrase)
    requires Prefixed(strtod) && Begins(s) && '.' in s && Peek(s) != '(' && Peek(s) != '$' && ParseFloat(strtod, s).Ok?
    ensures var r := ParseFloat(strtod, s); Spells(strtod, s, 7, p, r.value, r.rest)
  {
    hide SkipSpaces, Spaces;
    var (n, x) := strtod(s);
    assert ReadsPrefix(strtod, s);
    var gap := GapOf(s[n..]);
    p := FloatText(s[..n], gap, x);
    NoDotInGap(gap);
    assert s == s[..n] + (gap + SkipSpaces(s[n..]));
  }

  /** Where the identifier of a reference starts. */
  function IdStart(s: string): string
    requires Peek(s) == '$'
  {
    if Peek(s[1..]) == '{' then SkipSpaces(s[2..]) else s[1..]
  }

  /** The parts of a reference that is accepted. */
  lemma ReferenceParts(strtod: Strtod, s: string)
    requires Peek(s) == '$' && ParseReference(strtod, s).Ok?
    ensures var id := ParseId(IdStart(s));
      && id.Ok? && |SkipSpaces(id.rest)| < |s|
      && var subs := ParseSubs(strtod, SkipSpaces(id.rest));
      && subs.Ok?
      && var n := FormatOf(subs.rest);
      var tree, end := Reference(id.value, subs.value, subs.rest[..n]), subs.rest[n..];
      if Peek(s[1..]) == '{' then Peek(end) == '}' && ParseReference(strtod, s) == Ok(tree, SkipSpaces(end[1..]))
      else ParseReference(strtod, s) == Ok(tree, end)
  {
    hide ParseSubs, ParseId, SkipSpaces, FormatOf;
  }

  lemma {:induction false} ReferenceSpelled(strtod: Strtod, s: string) returns (p: Phrase)
    requires Prefixed(strtod) && Peek(s) == '$' && ParseReference(strtod, s).Ok?
    ensures var r := ParseReference(strtod, s); Spells(strtod, s, 7, p, r.value, r.rest)
    decreases |s|, 1
  {
    hide ParseReference, ParseSubs, ParseId, Spells, SkipSpaces, FormatOf, SpellsSubs, Prefixed, IsId, Spaces,
      IsFormat, IdStart;
    ReferenceParts(strtod, s);
    var t := IdStart(s);
    var Ok(id, after) := ParseId(t);
    IdOf(t);
    var gap := GapOf(after);
    var u := SkipSpaces(after);
    var subs := SubsSpelled(strtod, u);
    var Ok(tree, rest) := ParseSubs(strtod, u);
    SubsBegin(strtod, u, subs, tree, rest);
    FormatIs(rest);
    var n := FormatOf(rest);
    if Peek(s[1..]) == '{' {
      var open := GapOf(s[2..]);
      var close := GapOf(rest[n..][1..]);
      StartBraced(s);
      p := Ref(Some((open, close)), id, gap, subs, rest[..n]);
      BracedSpells(strtod, s, open, t, id, after, gap, u, subs, tree, rest, n, close);
    } else {
      StartOpen(s);
      p := Ref(None, id, gap, subs, rest[..n]);
      OpenSpells(strtod, s, t, id, after, gap, u, subs, tree, rest, n);
    }
  }

  lemma StartBraced(s: string)
    requires Peek(s) == '$' && Peek(s[1..]) == '{'
    ensures |s| > 1 && s[0] == '$' && s[1] == '{' && IdStart(s) == SkipSpaces(s[2..])
  {
    hide SkipSpaces;
  }

  lemma StartOpen(s: string)
    requires Peek(s) == '$' && Peek(s[1..]) != '{'
    ensures s != "" && s[0] == '$' && IdStart(s) == s[1..]
  {
  }

  lemma SubsBegin(strtod: Strtod, s: string, t: SubTexts, subs: Subs, rest: string)
    requires SpellsSubs(strtod, s, t, subs, rest)
    ensures Begins(rest)
  {
  }

  lemma OpenSpells(strtod: Strtod, s: string, t: string, id: string, after: string, gap: string, u: string,
                   subs: SubTexts, tree: Subs, rest: string, n: nat)
    requires s != "" && s[0] == '$' && s[1..] == t && IsId(id) && t == id + after && Spaces(gap) && after == gap + u
    requires SpellsSubs(strtod, u, subs, tree, rest) && n <= |rest| && IsFormat(rest[..n]) && Begins(rest[n..])
    requires rest[..n] != "" ==> rest[n..] == "" || rest[n..][0] == '}'
    ensures Spells(strtod, s, 7, Ref(None, id, gap, subs, rest[..n]), Reference(id, tree, rest[..n]), rest[n..])
  {
    hide IsId, Spaces, SubsText, IsSubs, SubsTree, LegibleSubs, IsFormat;
    var format, end := rest[..n], rest[n..];
    assert rest == format + end;
    assert s == "$" + (id + (gap + (SubsText(subs) + rest)));
    assert "$" + id + gap + SubsText(subs) + format + end == "$" + (id + (gap + (SubsText(subs) + (format + end))));
  }

  lemma BracedSpells(strtod: Strtod, s: string, open: string, t: string, id: string, after: string, gap: string,
                     u: string, subs: SubTexts, tree: Subs, rest: string, n: nat, close: string)
    requires |s| > 1 && s[0] == '$' && s[1] == '{' && Spaces(open) && s[2..] == open + t
    requires IsId(id) && t == id + after && Spaces(gap) && after == gap + u && SpellsSubs(strtod, u, subs, tree, rest)
    requires n < |rest| && IsFormat(rest[..n]) && rest[n..][0] == '}' && Spaces(close)
    requires rest[n..][1..] == close + SkipSpaces(rest[n..][1..]) && Begins(SkipSpaces(rest[n..][1..]))
    ensures Spells(strtod, s, 7, Ref(Some((open, close)), id, gap, subs, rest[..n]), Reference(id, tree, rest[..n]),
                   SkipSpaces(rest[n..][1..]))
  {
    hide IsId, Spaces, SubsText, IsSubs, SubsTree, LegibleSubs, IsFormat, SkipSpaces, IsPhrase, Text, Tree, Legible;
    var format, end := rest[..n], SkipSpaces(rest[n..][1..]);
    BracedIs(strtod, open, close, id, gap, subs, format, end);
    assert rest[n..] == "}" + close + end;
    assert rest == format + ("}" + close + end);
    assert s == "${" + s[2..];
    BracedText(open, id, gap, SubsText(subs), format, close, end);
  }

  lemma BracedText(open: string, id: string, gap: string, subs: string, format: string, close: string, end: string)
    ensures "${" + open + id + gap + subs + format + "}" + close + end
         == "${" + (open + (id + (gap + (subs + (format + ("}" + close + end))))))
  {
  }

  lemma BracedIs(strtod: Strtod, open: string, close: string, id: string, gap: string, subs: SubTexts, format: string,
                 post: string)
    requires Spaces(open) && Spaces(close) && IsId(id) && Spaces(gap) && IsSubs(subs) && IsFormat(format)
    ensures var p := Ref(Some((open, close)), id, gap, subs, format);
      && IsPhrase(p, 7) && Tree(p) == Reference(id, SubsTree(subs), format)
      && Text(p) == "${" + open + id + gap + SubsText(subs) + format + "}" + close
      && (Legible(strtod, p, post) <==> LegibleSubs(strtod, subs, format + ("}" + close + post)))
  {
    hide Spaces, IsId, IsSubs, IsFormat, SubsTree, SubsText, LegibleSubs;
  }

  lemma {:induction false} SubsSpelled(strtod: Strtod, s: string) returns (t: SubTexts)
    requires Prefixed(strtod) && Begins(s) && ParseSubs(strtod, s).Ok?
    ensures var r := ParseSubs(strtod, s); SpellsSubs(strtod, s, t, r.value, r.rest)
    decreases |s|, 1
  {
    hide ParseLevel, ParseId, Spells, SkipSpaces, Prefixed;
    if Peek(s) == '[' {
      var open := GapOf(s[1..]);
      var u := SkipSpaces(s[1..]);
      var index := LevelSpelled(strtod, u, 1);
      var Ok(e, rest) := ParseLevel(strtod, u, 1);
      var close := GapOf(rest[1..]);
      var v := SkipSpaces(rest[1..]);
      var tail := SubsSpelled(strtod, v);
      var Ok(more, rest') := ParseSubs(strtod, v);
      t := IndexText(open, index, close, tail);
      IndexSpells(strtod, s, open, u, index, e, rest, close, v, tail, more, rest');
    } else if Peek(s) == '.' {
      var open := GapOf(s[1..]);
      var u := SkipSpaces(s[1..]);
      IdOf(u);
      var Ok(name, rest) := ParseId(u);
      var close := GapOf(rest);
      var v := SkipSpaces(rest);
      var tail := SubsSpelled(strtod, v);
      var Ok(more, rest') := ParseSubs(strtod, v);
      t := MemberText(open, name, close, tail);
      MemberSpells(strtod, s, open, u, name, rest, close, v, tail, more, rest');
    } else {
      t := NoText;
      assert s == "" + s;
    }
  }

  lemma IndexSpells(strtod: Strtod, s: string, open: string, u: string, index: Phrase, e: Expr, rest: string,
                    close: string, v: string, tail: SubTexts, more: Subs, rest': string)
    requires s != "" && s[0] == '[' && Spaces(open) && s[1..] == open + u && Spells(strtod, u, 1, index, e, rest)
    requires rest != "" && rest[0] == ']' && Spaces(close) && rest[1..] == close + v
    requires SpellsSubs(strtod, v, tail, more, rest')
    ensures SpellsSubs(strtod, s, IndexText(open, index, close, tail), Index(e, more), rest')
  {
    hide Spaces, IsPhrase, Text, Tree, Legible, IsSubs, SubsTree, SubsText, LegibleSubs;
    IndexIs(strtod, open, index, close, tail, rest');
    assert rest == "]" + close + (SubsText(tail) + rest');
    assert s == "[" + s[1..];
    IndexTexts(open, Text(index), close, SubsText(tail), rest');
  }

  lemma IndexTexts(open: string, index: string, close: string, tail: string, rest: string)
    ensures "[" + open + index + "]" + close + tail + rest == "[" + (open + (index + ("]" + close + (tail + rest))))
  {
  }

  lemma IndexIs(strtod: Strtod, open: string, index: Phrase, close: string, tail: SubTexts, post: string)
    requires Spaces(open) && Spaces(close) && IsPhrase(index, 1) && IsSubs(tail)
    ensures var t := IndexText(open, index, close, tail);
      && IsSubs(t) && SubsTree(t) == Index(Tree(index), SubsTree(tail))
      && SubsText(t) == "[" + open + Text(index) + "]" + close + SubsText(tail)
      && (LegibleSubs(strtod, t, post) <==>
            Legible(strtod, index, "]" + close + (SubsText(tail) + post)) && LegibleSubs(strtod, tail, post))
  {
    hide Spaces, IsPhrase, Text, Tree, Legible;
  }

  lemma MemberSpells(strtod: Strtod, s: string, open: string, u: string, name: string, rest: string, close: string,
                     v: string, tail: SubTexts, more: Subs, rest': string)
    requires s != "" && s[0] == '.' && Spaces(open) && s[1..] == open + u && IsId(name) && u == name + rest
    requires Spaces(close) && rest == close + v && SpellsSubs(strtod, v, tail, more, rest')
    ensures SpellsSubs(strtod, s, MemberText(open, name, close, tail), Member(name, more), rest')
  {
    hide Spaces, IsId, IsSubs, SubsTree, SubsText, LegibleSubs;
    MemberIs(strtod, open, name, close, tail, rest');
    assert s == "." + s[1..];
    MemberTexts(open, name, close, SubsText(tail), rest');
  }

  lemma MemberTexts(open: string, name: string, close: string, tail: string, rest: string)
    ensures "." + open + name + close + tail + rest == "." + (open + (name + (close + (tail + rest))))
  {
  }

  lemma MemberIs(strtod: Strtod, open: string, name: string, close: string, tail: SubTexts, post: string)
    requires Spaces(open) && Spaces(close) && IsId(name) && IsSubs(tail)
    ensures var t := MemberText(open, name, close, tail);
      && IsSubs(t) && SubsTree(t) == Member(name, SubsTree(tail))
      && SubsText(t) == "." + open + name + close + SubsText(tail)
      && (LegibleSubs(strtod, t, post) <==> LegibleSubs(strtod, tail, post))
  {
    hide Spaces, IsId;
  }

  // ----- the language -----

  /** A text that spells the tree, with spaces in front. */
  ghost predicate SpeltBy(strtod: Strtod, s: string, e: Expr, front: string, p: Phrase) {
    Spaces(front) && IsPhrase(p, 1) && Legible(strtod, p, "") && s == front + Text(p) && Tree(p) == e
  }

  /** The parser accepts exactly the phrases that can be read at the end of a text, and gives the trees they spell. Any
      other text is a literal as it stands. */
  lemma AcceptedIff(strtod: Strtod, s: string, e: Expr)
    requires Delimited(strtod) && Prefixed(strtod)
    ensures ParseValue(strtod, s) == Expression(e) <==> exists front, p :: SpeltBy(strtod, s, e, front, p)
    ensures ParseValue(strtod, s).StringLiteral? ==> ParseValue(strtod, s).text == s
  {
    hide Delimited, Prefixed, ParseLevel, IsPhrase, Text, Tree, Legible, SkipSpaces, Spaces;
    if ParseValue(strtod, s) == Expression(e) {
      var front := GapOf(s);
      var p := LevelSpelled(strtod, SkipSpaces(s), 1);
      var rest := ParseLevel(strtod, SkipSpaces(s), 1).rest;
      AtEnd(rest);
      assert Text(p) + "" == Text(p);
      assert SpeltBy(strtod, s, e, front, p);
    }
    if exists front, p :: SpeltBy(strtod, s, e, front, p) {
      var front, p :| SpeltBy(strtod, s, e, front, p);
      ParseText(strtod, front, p);
    }
  }

  lemma AtEnd(rest: string)
    requires Begins(rest) && SkipSpaces(rest) == ""
    ensures rest == ""
  {
  }
}
