/** Printing a tree with as few parentheses as possible, and exactly when parsing gives it back. */
module ExpressionPrinting {
  import opened Options
  import opened Expressions
  import opened ExpressionGrammar

  // ----- printing -----

  function DigitChar(n: nat): char
    requires n < 10
  {
    '0' + n as char
  }

  function Decimal(n: nat): (s: string)
    ensures s != ""
  {
    if n < 10 then [DigitChar(n)] else Decimal(n / 10) + [DigitChar(n % 10)]
  }

  function Spell(v: int): string {
    if v < 0 then "-" + Decimal(-v) else Decimal(v)
  }

  /** A way to write floating-point numbers. */
  type Spelling = real -> string

  /** The spelling is of a number, has a dot, and is read back. */
  predicate Spelled(strtod: Strtod, spell: Spelling, x: real) {
    StartsNumber(spell(x)) && '.' in spell(x) && strtod(spell(x)) == (|spell(x)|, x)
  }

  /** The trees that can be printed. */
  predicate Printable(strtod: Strtod, spell: Spelling, e: Expr) {
    match e
    case Int(v) => LONG_MIN <= v <= LONG_MAX
    case Float(x) => Spelled(strtod, spell, x)
    case Reference(id, subs, format) => IsId(id) && PrintableSubs(strtod, spell, subs) && IsFormat(format)
    case Operation(first, operands) =>
      && operands.Operand? && Printable(strtod, spell, first)
      && PrintableOperands(strtod, spell, operands, OpLevel([operands.op]))
  }

  predicate PrintableOperands(strtod: Strtod, spell: Spelling, o: Operands, level: nat) {
    match o
    case NoOperand => true
    case Operand(op, e, more) =>
      && level > 0 && OpLevel([op]) == level
      && Printable(strtod, spell, e) && PrintableOperands(strtod, spell, more, level)
  }

  predicate PrintableSubs(strtod: Strtod, spell: Spelling, s: Subs) {
    match s
    case NoSub => true
    case Index(e, tail) => Printable(strtod, spell, e) && PrintableSubs(strtod, spell, tail)
    case Member(name, tail) => IsId(name) && PrintableSubs(strtod, spell, tail)
  }

  /** Parentheses only around an operation of too low a level, braces only around a format. */
  function PhraseOf(strtod: Strtod, spell: Spelling, e: Expr, level: nat): Phrase
    requires Printable(strtod, spell, e)
  {
    match e
    case Int(v) => Number(Spell(v), "")
    case Float(x) => FloatText(spell(x), "", x)
    case Reference(id, subs, format) =>
      Ref(if format == "" then None else Some(("", "")), id, "", SubTextsOf(strtod, spell, subs), format)
    case Operation(first, operands) =>
      var own := OpLevel([operands.op]);
      var chain := Chain(PhraseOf(strtod, spell, first, own + 1), LinksOf(strtod, spell, operands, own));
      if own < level then Paren("", chain, "") else chain
  }

  function LinksOf(strtod: Strtod, spell: Spelling, o: Operands, level: nat): Links
    requires PrintableOperands(strtod, spell, o, level)
  {
    match o
    case NoOperand => NoLink
    case Operand(op, e, more) =>
      Link(op, "", PhraseOf(strtod, spell, e, level + 1), LinksOf(strtod, spell, more, level))
  }

  function SubTextsOf(strtod: Strtod, spell: Spelling, s: Subs): SubTexts
    requires PrintableSubs(strtod, spell, s)
  {
    match s
    case NoSub => NoText
    case Index(e, tail) => IndexText("", PhraseOf(strtod, spell, e, 1), "", SubTextsOf(strtod, spell, tail))
    case Member(name, tail) => MemberText("", name, "", SubTextsOf(strtod, spell, tail))
  }

  function Print(strtod: Strtod, spell: Spelling, e: Expr): string
    requires Printable(strtod, spell, e)
  {
    Text(PhraseOf(strtod, spell, e, 1))
  }

  // ----- numbers -----

  lemma {:induction false} DigitSpanPush(s: string, c: char, base: nat)
    requires DigitSpan(s, base) == |s| && Digit(c) < base
    ensures DigitSpan(s + [c], base) == |s| + 1
    decreases s
  {
    if s == "" {
      assert s + [c] == [c];
    } else {
      assert (s + [c])[1..] == s[1..] + [c];
      DigitSpanPush(s[1..], c, base);
    }
  }

  lemma {:induction false} DecimalIs(n: nat)
    ensures var s := Decimal(n);
      DigitSpan(s, 10) == |s| && DigitsValue(s, 10) == n && (n > 0 ==> s[0] != '0') && Digit(s[0]) < 10
    decreases n
  {
    if n >= 10 {
      DecimalIs(n / 10);
      DigitSpanPush(Decimal(n / 10), DigitChar(n % 10), 10);
      assert Decimal(n)[..|Decimal(n)| - 1] == Decimal(n / 10);
    } else {
      assert DigitSpan(Decimal(n), 10) == 1;
      assert Decimal(n)[..0] == "";
    }
  }

  lemma DecimalUnsigned(n: nat)
    ensures Unsigned(Decimal(n)) == Some((n, |Decimal(n)|))
  {
    hide Decimal, DigitSpan, DigitsValue;
    DecimalIs(n);
    var s := Decimal(n);
    if n == 0 {
      ZeroUnsigned();
    } else {
      assert BaseOf(s) == (10, 0);
      assert s[0..] == s && s[0..|s|] == s;
    }
  }

  lemma ZeroUnsigned()
    ensures Unsigned(Decimal(0)) == Some((0, 1)) && |Decimal(0)| == 1
  {
    var s := "0";
    assert Decimal(0) == s;
    assert s[0..] == s && DigitSpan(s, 8) == 1 && s[0..1] == s && s[..0] == "" && DigitsValue(s, 8) == 0;
  }

  lemma SpellIsNumber(v: int)
    requires LONG_MIN <= v <= LONG_MAX
    ensures IsNumber(Spell(v)) && Strtol(Spell(v)).number == v
  {
    hide Decimal, Unsigned;
    var n: nat := if v < 0 then -v else v;
    DecimalIs(n);
    DecimalUnsigned(n);
    var s, d := Spell(v), Decimal(n);
    assert Digit(d[0]) < 10 ==> !IsSpace(d[0]) && d[0] != '-' && d[0] != '+';
    assert SkipSpaces(s) == s;
    if v < 0 {
      assert s[1..] == d;
    } else {
      assert s[0..] == d;
    }
  }

  // ----- a printed tree is a phrase that spells it -----

  lemma {:induction false} PhraseOfTree(strtod: Strtod, spell: Spelling, e: Expr, level: nat)
    requires Printable(strtod, spell, e) && 1 <= level <= 7
    ensures var p := PhraseOf(strtod, spell, e, level);
      IsPhrase(p, level) && Tree(p) == e && Neat(strtod, p)
    decreases e, 1
  {
    hide IsNumber, Strtol, Spell, IsId, IsFormat;
    match e
    case Int(v) =>
      SpellIsNumber(v);
      assert Strtol(Spell(v)).Scanned? by { NumberScans(Spell(v)); }
    case Float(_) =>
    case Reference(_, subs, _) => SubTextsOfTree(strtod, spell, subs);
    case Operation(first, operands) =>
      var own := OpLevel([operands.op]);
      PhraseOfTree(strtod, spell, first, own + 1);
      LinksOfTree(strtod, spell, operands, own);
  }

  lemma NumberScans(s: string)
    requires IsNumber(s)
    ensures Strtol(s).Scanned?
  {
  }

  lemma {:induction false} LinksOfTree(strtod: Strtod, spell: Spelling, o: Operands, level: nat)
    requires PrintableOperands(strtod, spell, o, level) && level <= 6
    ensures var l := LinksOf(strtod, spell, o, level);
      IsLinks(l, level) && LinksTree(l) == o && NeatLinks(strtod, l)
    decreases o
  {
    match o
    case NoOperand =>
    case Operand(_, e, more) =>
      PhraseOfTree(strtod, spell, e, level + 1);
      LinksOfTree(strtod, spell, more, level);
  }

  lemma {:induction false} SubTextsOfTree(strtod: Strtod, spell: Spelling, s: Subs)
    requires PrintableSubs(strtod, spell, s)
    ensures var t := SubTextsOf(strtod, spell, s);
      IsSubs(t) && SubsTree(t) == s && NeatSubs(strtod, t)
    decreases s
  {
    match s
    case NoSub =>
    case Index(e, tail) =>
      PhraseOfTree(strtod, spell, e, 1);
      SubTextsOfTree(strtod, spell, tail);
    case Member(_, tail) => SubTextsOfTree(strtod, spell, tail);
  }

  // ----- no phrase has fewer parentheses -----

  function Parens(p: Phrase): nat {
    match p
    case Number(_, _) => 0
    case FloatText(_, _, _) => 0
    case Paren(_, inner, _) => 1 + Parens(inner)
    case Ref(_, _, _, subs, _) => ParensSubs(subs)
    case Chain(head, links) => Parens(head) + ParensLinks(links)
  }

  function ParensLinks(l: Links): nat {
    match l
    case NoLink => 0
    case Link(_, _, operand, more) => Parens(operand) + ParensLinks(more)
  }

  function ParensSubs(s: SubTexts): nat {
    match s
    case NoText => 0
    case IndexText(_, index, _, tail) => Parens(index) + ParensSubs(tail)
    case MemberText(_, _, _, tail) => ParensSubs(tail)
  }

  /** Of all the phrases that spell a tree, the printed one has the fewest parentheses. */
  lemma {:induction false} FewestParens(strtod: Strtod, spell: Spelling, p: Phrase, level: nat)
    requires IsPhrase(p, level) && Printable(strtod, spell, Tree(p))
    ensures Parens(PhraseOf(strtod, spell, Tree(p), level)) <= Parens(p)
    decreases p
  {
    hide IsNumber, Strtol, IsId, IsFormat, Spell;
    match p
    case Number(_, _) =>
    case FloatText(_, _, _) =>
    case Paren(_, inner, _) => FewestParens(strtod, spell, inner, 1);
    case Ref(_, _, _, subs, _) => FewestSubs(strtod, spell, subs);
    case Chain(head, links) =>
      FewestParens(strtod, spell, head, OpLevel([links.op]) + 1);
      FewestLinks(strtod, spell, links, OpLevel([links.op]));
  }

  lemma {:induction false} FewestLinks(strtod: Strtod, spell: Spelling, l: Links, level: nat)
    requires IsLinks(l, level) && PrintableOperands(strtod, spell, LinksTree(l), level)
    ensures ParensLinks(LinksOf(strtod, spell, LinksTree(l), level)) <= ParensLinks(l)
    decreases l
  {
    match l
    case NoLink =>
    case Link(_, _, operand, more) =>
      FewestParens(strtod, spell, operand, level + 1);
      FewestLinks(strtod, spell, more, level);
  }

  lemma {:induction false} FewestSubs(strtod: Strtod, spell: Spelling, s: SubTexts)
    requires IsSubs(s) && PrintableSubs(strtod, spell, SubsTree(s))
    ensures ParensSubs(SubTextsOf(strtod, spell, SubsTree(s))) <= ParensSubs(s)
    decreases s
  {
    match s
    case NoText =>
    case IndexText(_, index, _, tail) =>
      FewestParens(strtod, spell, index, 1);
      FewestSubs(strtod, spell, tail);
    case MemberText(_, _, _, tail) => FewestSubs(strtod, spell, tail);
  }

  // ----- what the parser returns is orderly -----

  lemma {:induction false} OrderlyWeaken(e: Expr)
    requires Orderly(e, true)
    ensures Orderly(e, false)
    decreases e
  {
    match e
    case Int(_) =>
    case Float(_) =>
    case Reference(_, subs, format) => if '.' !in format { OrderlySubsWeaken(subs); }
    case Operation(first, operands) =>
      if !DottedOperands(operands) { OrderlyWeaken(first); }
      OrderlyOperandsWeaken(operands);
  }

  lemma {:induction false} OrderlyOperandsWeaken(o: Operands)
    requires OrderlyOperands(o, true)
    ensures OrderlyOperands(o, false)
    decreases o
  {
    match o
    case NoOperand =>
    case Operand(_, e, more) =>
      if !DottedOperands(more) { OrderlyWeaken(e); }
      OrderlyOperandsWeaken(more);
  }

  lemma {:induction false} OrderlySubsWeaken(s: Subs)
    requires OrderlySubs(s, true)
    ensures OrderlySubs(s, false)
    decreases s
  {
    match s
    case NoSub =>
    case Index(e, tail) =>
      if !DottedSubs(tail) { OrderlyWeaken(e); }
      OrderlySubsWeaken(tail);
    case Member(_, tail) => OrderlySubsWeaken(tail);
  }

  lemma {:induction false} SkipDots(s: string)
    ensures '.' in SkipSpaces(s) ==> '.' in s
    decreases s
  {
    if s != "" && IsSpace(s[0]) { SkipDots(s[1..]); }
  }

  /** Dots of a later cursor are dots of an earlier one. */
  lemma TailDots(s: string, n: nat)
    requires n <= |s|
    ensures '.' in s[n..] ==> '.' in s
    ensures '.' in SkipSpaces(s[n..]) ==> '.' in s
  {
    SkipDots(s[n..]);
  }

  /** What is parsed is orderly with respect to the rest, and its dots were in the text. */
  ghost predicate Sound(e: Expr, s: string, rest: string) {
    Orderly(e, '.' in rest) && (Dotted(e) || '.' in rest ==> '.' in s)
  }

  ghost predicate SoundOperands(o: Operands, s: string, rest: string) {
    OrderlyOperands(o, '.' in rest) && (DottedOperands(o) || '.' in rest ==> '.' in s)
  }

  ghost predicate SoundSubs(t: Subs, s: string, rest: string) {
    OrderlySubs(t, '.' in rest) && (DottedSubs(t) || '.' in rest ==> '.' in s)
  }

  lemma {:induction false} LevelSound(strtod: Strtod, s: string, level: nat)
    requires 1 <= level <= 7
    ensures var r := ParseLevel(strtod, s, level); r.Ok? ==> Sound(r.value, s, r.rest)
    decreases |s|, 10 - level
  {
    hide ParseTerm, ParseOperands, Orderly, Dotted, OrderlyOperands, DottedOperands, OpLevel;
    if level == 7 {
      TermSound(strtod, s);
    } else {
      LevelSound(strtod, s, level + 1);
      match ParseLevel(strtod, s, level + 1)
      case Error =>
      case Ok(e, rest) =>
        if OpLevel(rest) == level {
          OperandsSound(strtod, rest, level);
          match ParseOperands(strtod, rest, level)
          case Error =>
          case Ok(operands, rest') => JoinOperands(e, operands, s, rest, rest');
        }
    }
  }

  lemma JoinOperands(e: Expr, o: Operands, s: string, rest: string, rest': string)
    requires Sound(e, s, rest) && SoundOperands(o, rest, rest')
    ensures Sound(Operation(e, o), s, rest')
  {
    if Orderly(e, true) { OrderlyWeaken(e); }
  }

  lemma JoinMore(op: char, e: Expr, o: Operands, s: string, rest: string, rest': string)
    requires Sound(e, s, rest) && SoundOperands(o, rest, rest')
    ensures SoundOperands(Operand(op, e, o), s, rest')
  {
    if Orderly(e, true) { OrderlyWeaken(e); }
  }

  lemma JoinIndex(e: Expr, t: Subs, s: string, rest: string, rest': string)
    requires Sound(e, s, rest) && SoundSubs(t, rest, rest')
    ensures SoundSubs(Index(e, t), s, rest')
  {
    if Orderly(e, true) { OrderlyWeaken(e); }
  }

  /** The same from an earlier cursor. */
  lemma Earlier(e: Expr, s: string, t: string, rest: string)
    requires Sound(e, t, rest) && ('.' in t ==> '.' in s)
    ensures Sound(e, s, rest)
  {
  }

  lemma {:induction false} OperandsSound(strtod: Strtod, s: string, level: nat)
    requires 1 <= level <= 6
    ensures var r := ParseOperands(strtod, s, level); r.Ok? ==> SoundOperands(r.value, s, r.rest)
    decreases |s|, 1
  {
    hide ParseLevel, Orderly, Dotted, OpLevel;
    if OpLevel(s) == level {
      TailDots(s, 1);
      var t := SkipSpaces(s[1..]);
      LevelSound(strtod, t, level + 1);
      match ParseLevel(strtod, t, level + 1)
      case Error =>
      case Ok(e, rest) =>
        Earlier(e, s, t, rest);
        OperandsSound(strtod, rest, level);
        match ParseOperands(strtod, rest, level)
        case Error =>
        case Ok(more, rest') => JoinMore(s[0], e, more, s, rest, rest');
    }
  }

  lemma {:induction false} TermSound(strtod: Strtod, s: string)
    ensures var r := ParseTerm(strtod, s); r.Ok? ==> Sound(r.value, s, r.rest)
    decreases |s|, 2
  {
    hide ParseLevel, ParseReference, Strtol, ParseSubs;
    if Peek(s) == '(' {
      TailDots(s, 1);
      LevelSound(strtod, SkipSpaces(s[1..]), 1);
      match ParseLevel(strtod, SkipSpaces(s[1..]), 1)
      case Error =>
      case Ok(e, rest) => if Peek(rest) == ')' { CloseSound(e, s, SkipSpaces(s[1..]), rest); }
    } else if Peek(s) == '$' {
      ReferenceSound(strtod, s);
    } else if '.' in s {
    } else {
      match Strtol(s)
      case NoInt =>
      case OutOfRange =>
      case Scanned(_, length) => TailDots(s, length);
    }
  }

  /** A closing character is passed. */
  lemma CloseSound(e: Expr, s: string, t: string, rest: string)
    requires Sound(e, t, rest) && ('.' in t ==> '.' in s) && rest != ""
    ensures Sound(e, s, SkipSpaces(rest[1..]))
  {
    TailDots(rest, 1);
    if Orderly(e, true) { OrderlyWeaken(e); }
  }

  lemma {:induction false} ReferenceSound(strtod: Strtod, s: string)
    requires Peek(s) == '$'
    ensures var r := ParseReference(strtod, s); r.Ok? ==> Sound(r.value, s, r.rest)
    decreases |s|, 1
  {
    hide ParseSubs, ParseId, SkipSpaces, FormatOf;
    var braced := Peek(s[1..]) == '{';
    var t := if braced then SkipSpaces(s[2..]) else s[1..];
    match ParseId(t)
    case Error =>
    case Ok(id, rest) =>
      IdDots(t);
      if braced { TailDots(s, 2); } else { TailDots(s, 1); }
      SkipDots(rest);
      SubsSound(strtod, SkipSpaces(rest));
      match ParseSubs(strtod, SkipSpaces(rest))
      case Error =>
      case Ok(subs, rest') =>
        FormatSound(id, subs, s, SkipSpaces(rest), rest', FormatOf(rest'));
  }

  lemma IdDots(s: string)
    ensures ParseId(s).Ok? ==> ('.' in ParseId(s).rest ==> '.' in s)
  {
  }

  lemma FormatSound(id: string, subs: Subs, s: string, t: string, rest: string, n: nat)
    requires SoundSubs(subs, t, rest) && ('.' in t ==> '.' in s) && n <= |rest|
    ensures var e := Reference(id, subs, rest[..n]);
      Sound(e, s, rest[n..]) && (n < |rest| ==> Sound(e, s, SkipSpaces(rest[n..][1..])))
  {
    TailDots(rest, n);
    if n < |rest| {
      assert rest[n..][1..] == rest[n + 1..];
      TailDots(rest, n + 1);
      SkipDots(rest[n + 1..]);
    }
    if OrderlySubs(subs, true) { OrderlySubsWeaken(subs); }
  }

  lemma {:induction false} SubsSound(strtod: Strtod, s: string)
    ensures var r := ParseSubs(strtod, s); r.Ok? ==> SoundSubs(r.value, s, r.rest)
    decreases |s|, 1
  {
    hide ParseLevel, Orderly, Dotted, ParseId, SkipSpaces;
    if Peek(s) == '[' {
      TailDots(s, 1);
      var t := SkipSpaces(s[1..]);
      LevelSound(strtod, t, 1);
      match ParseLevel(strtod, t, 1)
      case Error =>
      case Ok(e, rest) =>
        if Peek(rest) == ']' {
          var rest1 := SkipSpaces(rest[1..]);
          CloseSound(e, s, t, rest);
          SubsSound(strtod, rest1);
          match ParseSubs(strtod, rest1)
          case Error =>
          case Ok(tail, rest') => JoinIndex(e, tail, s, rest1, rest');
        }
    } else if Peek(s) == '.' {
      var t := SkipSpaces(s[1..]);
      match ParseId(t)
      case Error =>
      case Ok(_, rest) => SubsSound(strtod, SkipSpaces(rest));
    }
  }

  // ----- the round trip -----

  /** No integer comes before a dot in any tree that is read. */
  lemma ReadIsOrderly(strtod: Strtod, s: string)
    ensures var r := ParseValue(strtod, s);
      r.Expression? ==> Orderly(r.expr, false)
  {
    hide ParseLevel, Orderly, Dotted, SkipSpaces;
    LevelSound(strtod, SkipSpaces(s), 1);
    match ParseLevel(strtod, SkipSpaces(s), 1)
    case Error =>
    case Ok(e, rest) => if Orderly(e, true) { OrderlyWeaken(e); }
  }

  /** Any neat spelling of a tree, with spaces in front, is read as the tree exactly when no integer comes before a dot
      in it: an integer with a dot anywhere behind it is read as a floating-point number. */
  lemma ReadIff(strtod: Strtod, front: string, p: Phrase)
    requires Delimited(strtod) && Spaces(front) && IsPhrase(p, 1) && Neat(strtod, p)
    ensures ParseValue(strtod, front + Text(p)) == Expression(Tree(p)) <==> Orderly(Tree(p), false)
  {
    hide Delimited, ParseValue, Orderly, Neat, Text, Tree, IsPhrase, Spaces, Legible;
    LegibleIff(strtod, p, 1, "");
    if Orderly(Tree(p), false) { ParseText(strtod, front, p); }
    ReadIsOrderly(strtod, front + Text(p));
  }

  /** Parsing a printed tree gives the tree back exactly when no integer comes before a dot in it. */
  lemma RoundTripIff(strtod: Strtod, spell: Spelling, e: Expr)
    requires Delimited(strtod) && Printable(strtod, spell, e)
    ensures ParseValue(strtod, Print(strtod, spell, e)) == Expression(e) <==> Orderly(e, false)
  {
    hide Delimited, ParseValue, Orderly, PhraseOf, Text, Tree, IsPhrase, Printable, Neat;
    PhraseOfTree(strtod, spell, e, 1);
    ReadIff(strtod, "", PhraseOf(strtod, spell, e, 1));
    assert "" + Print(strtod, spell, e) == Print(strtod, spell, e);
  }

  /** The smallest such tree: an integer plus a member. */
  lemma IntegerBeforeDot(strtod: Strtod, spell: Spelling, e: Expr)
    requires e == Operation(Int(1), Operand('+', Reference("a", Member("b", NoSub), ""), NoOperand))
    ensures Printable(strtod, spell, e) && ParseValue(strtod, Print(strtod, spell, e)) != Expression(e)
  {
    hide ParseValue, Print;
    var last := e.operands.operand;
    assert PrintableSubs(strtod, spell, NoSub) && Printable(strtod, spell, last);
    assert PrintableOperands(strtod, spell, NoOperand, 5);
    assert Dotted(last) && DottedOperands(e.operands) && !Orderly(e.first, true);
    ReadIsOrderly(strtod, Print(strtod, spell, e));
  }

  /** Two neat spellings of one tree are parsed alike, whatever their spaces, parentheses and braces. */
  lemma SpellingDoesNotMatter(strtod: Strtod, front: string, p: Phrase, front': string, p': Phrase)
    requires Delimited(strtod) && Spaces(front) && Spaces(front') && IsPhrase(p, 1) && IsPhrase(p', 1)
    requires Neat(strtod, p) && Neat(strtod, p') && Tree(p) == Tree(p') && Orderly(Tree(p), false)
    ensures ParseValue(strtod, front + Text(p)) == ParseValue(strtod, front' + Text(p')) == Expression(Tree(p))
  {
    hide Delimited, ParseValue, Orderly, Neat, Text, Tree, IsPhrase, Spaces;
    ReadIff(strtod, front, p);
    ReadIff(strtod, front', p');
  }
}
