/** The texts of expressions: any spelling of the numbers, any parentheses and braces around what needs
    none, any spaces after the tokens. Parsing such a text gives the tree it spells. */
module ExpressionGrammar {
  import opened Options
  import opened Expressions

  /** Phrases; each token carries the spaces after it. */
  datatype Phrase =
    | Number(text: string, gap: string)
    | FloatText(text: string, gap: string, number: real)
    | Paren(open: string, inner: Phrase, close: string)
    | Ref(braces: Option<(string, string)>, id: string, gap: string, subs: SubTexts, format: string)
    | Chain(head: Phrase, links: Links)

  datatype Links = NoLink | Link(op: char, gap: string, operand: Phrase, more: Links)

  datatype SubTexts =
    | NoText
    | IndexText(open: string, index: Phrase, close: string, tail: SubTexts)
    | MemberText(open: string, name: string, close: string, tail: SubTexts)

  // ----- text -----

  function Text(p: Phrase): string {
    match p
    case Number(text, gap) => text + gap
    case FloatText(text, gap, _) => text + gap
    case Paren(open, inner, close) => "(" + open + Text(inner) + ")" + close
    case Ref(None, id, gap, subs, format) => "$" + id + gap + SubsText(subs) + format
    case Ref(Some((open, close)), id, gap, subs, format) =>
      "${" + open + id + gap + SubsText(subs) + format + "}" + close
    case Chain(head, links) => Text(head) + LinksText(links)
  }

  function LinksText(l: Links): string {
    match l
    case NoLink => ""
    case Link(op, gap, operand, more) => [op] + gap + Text(operand) + LinksText(more)
  }

  function SubsText(s: SubTexts): string {
    match s
    case NoText => ""
    case IndexText(open, index, close, tail) => "[" + open + Text(index) + "]" + close + SubsText(tail)
    case MemberText(open, name, close, tail) => "." + open + name + close + SubsText(tail)
  }

  // ----- the tree a phrase spells -----

  function Tree(p: Phrase): Expr {
    match p
    case Number(text, _) => (match Strtol(text) case Scanned(value, _) => Int(value) case _ => Int(0))
    case FloatText(_, _, number) => Float(number)
    case Paren(_, inner, _) => Tree(inner)
    case Ref(_, id, _, subs, format) => Reference(id, SubsTree(subs), format)
    case Chain(head, links) => Operation(Tree(head), LinksTree(links))
  }

  function LinksTree(l: Links): Operands {
    match l
    case NoLink => NoOperand
    case Link(op, _, operand, more) => Operand(op, Tree(operand), LinksTree(more))
  }

  function SubsTree(s: SubTexts): Subs {
    match s
    case NoText => NoSub
    case IndexText(_, index, _, tail) => Index(Tree(index), SubsTree(tail))
    case MemberText(_, name, _, tail) => Member(name, SubsTree(tail))
  }

  // ----- the grammar -----

  predicate Spaces(s: string) {
    forall i | 0 <= i < |s| :: IsSpace(s[i])
  }

  predicate IsId(s: string) {
    s != "" && IsLetter(s[0]) && forall i | 0 <= i < |s| :: IsIdChar(s[i])
  }

  /** Any spelling `strtol` reads whole: decimal, octal or hexadecimal, with or without a sign. */
  predicate IsNumber(s: string) {
    s != "" && !IsSpace(s[0]) && Strtol(s).Scanned? && Strtol(s).length == |s|
  }

  /** Nothing else than a number can start like this. */
  predicate StartsNumber(s: string) {
    s != "" && !IsSpace(s[0]) && s[0] != '(' && s[0] != '$'
  }

  predicate IsFormat(s: string) {
    s == "" || (s[0] == ':' && '}' !in s)
  }

  /** A phrase of the given level: a term at level 7, or a chain of operators of one level whose
      operands are of the next. */
  predicate IsPhrase(p: Phrase, level: nat)
    decreases p
  {
    match p
    case Number(text, gap) => IsNumber(text) && Spaces(gap)
    case FloatText(text, gap, _) => StartsNumber(text) && Spaces(gap)
    case Paren(open, inner, close) => Spaces(open) && Spaces(close) && IsPhrase(inner, 1)
    case Ref(braces, id, gap, subs, format) =>
      && IsId(id) && Spaces(gap) && IsSubs(subs) && IsFormat(format)
      && (braces.Some? ==> Spaces(braces.value.0) && Spaces(braces.value.1))
    case Chain(head, links) =>
      && links.Link? && level <= OpLevel([links.op])
      && IsPhrase(head, OpLevel([links.op]) + 1) && IsLinks(links, OpLevel([links.op]))
  }

  predicate IsLinks(l: Links, level: nat)
    decreases l
  {
    match l
    case NoLink => true
    case Link(op, gap, operand, more) =>
      level > 0 && OpLevel([op]) == level && Spaces(gap) && IsPhrase(operand, level + 1) && IsLinks(more, level)
  }

  predicate IsSubs(s: SubTexts)
    decreases s
  {
    match s
    case NoText => true
    case IndexText(open, index, close, tail) => Spaces(open) && Spaces(close) && IsPhrase(index, 1) && IsSubs(tail)
    case MemberText(open, name, close, tail) => Spaces(open) && Spaces(close) && IsId(name) && IsSubs(tail)
  }

  lemma PhraseLower(p: Phrase, level: nat)
    requires IsPhrase(p, level + 1)
    ensures IsPhrase(p, level)
  {
    hide OpLevel, Spaces, IsNumber, IsId, IsFormat;
  }

  lemma ChainIs(head: Phrase, links: Links, level: nat)
    requires links.Link? && OpLevel([links.op]) == level && IsPhrase(head, level + 1) && IsLinks(links, level)
    ensures var p := Chain(head, links);
      && IsPhrase(p, level) && Tree(p) == Operation(Tree(head), LinksTree(links))
      && Text(p) == Text(head) + LinksText(links)
  {
    hide OpLevel;
  }

  // ----- what a phrase needs of what comes after it -----

  /** What may come after a phrase of a level: the end, a closing character, an operator of a lower level. */
  predicate Follows(post: string, level: nat) {
    post == "" || post[0] == ')' || post[0] == ']' || 0 < OpLevel(post) < level
  }

  /** What comes after a number: a gap, or what may come after a term. */
  predicate Delimits(post: string) {
    Follows(post, 7) || IsSpace(post[0])
  }

  predicate ReadsAlone(strtod: Strtod, t: string, post: string) {
    t != "" && strtod(t).0 == |t| && Delimits(post) ==> strtod(t + post) == strtod(t)
  }

  /** What `strtod` reads whole, it reads whole in front of anything that comes after a number. An opening parenthesis
      never does, so that reading `nan` there as the start of `nan(1)` is allowed. */
  ghost predicate Delimited(strtod: Strtod) {
    forall t, post :: ReadsAlone(strtod, t, post)
  }

  /** In front of `post`, the parser takes an integer for one only when no dot follows anywhere, another number only
      when there is a dot, and a format without braces only when nothing but a brace follows it. */
  predicate Legible(strtod: Strtod, p: Phrase, post: string)
    decreases p
  {
    match p
    case Number(_, _) => '.' !in post
    case FloatText(text, _, number) => ('.' in text || '.' in post) && strtod(text) == (|text|, number)
    case Paren(_, inner, close) => Legible(strtod, inner, ")" + close + post)
    case Ref(None, _, _, subs, format) =>
      (format != "" ==> post == "" || post[0] == '}') && LegibleSubs(strtod, subs, format + post)
    case Ref(Some((_, close)), _, _, subs, format) => LegibleSubs(strtod, subs, format + ("}" + close + post))
    case Chain(head, links) => Legible(strtod, head, LinksText(links) + post) && LegibleLinks(strtod, links, post)
  }

  predicate LegibleLinks(strtod: Strtod, l: Links, post: string)
    decreases l
  {
    match l
    case NoLink => true
    case Link(_, _, operand, more) =>
      Legible(strtod, operand, LinksText(more) + post) && LegibleLinks(strtod, more, post)
  }

  predicate LegibleSubs(strtod: Strtod, s: SubTexts, post: string)
    decreases s
  {
    match s
    case NoText => true
    case IndexText(_, index, close, tail) =>
      Legible(strtod, index, "]" + close + (SubsText(tail) + post)) && LegibleSubs(strtod, tail, post)
    case MemberText(_, _, _, tail) => LegibleSubs(strtod, tail, post)
  }

  // ----- where the dots are -----

  /** Whether the text of the tree holds a dot. */
  predicate Dotted(e: Expr) {
    match e
    case Int(_) => false
    case Float(_) => true
    case Reference(_, subs, format) => DottedSubs(subs) || '.' in format
    case Operation(first, operands) => Dotted(first) || DottedOperands(operands)
  }

  predicate DottedOperands(o: Operands) {
    match o
    case NoOperand => false
    case Operand(_, e, more) => Dotted(e) || DottedOperands(more)
  }

  predicate DottedSubs(s: Subs) {
    match s
    case NoSub => false
    case Index(e, tail) => Dotted(e) || DottedSubs(tail)
    case Member(_, _) => true
  }

  /** No integer comes before a dot, neither one in the tree nor, with `after`, one behind it. */
  predicate Orderly(e: Expr, after: bool) {
    match e
    case Int(_) => !after
    case Float(_) => true
    case Reference(_, subs, format) => OrderlySubs(subs, after || '.' in format)
    case Operation(first, operands) =>
      Orderly(first, after || DottedOperands(operands)) && OrderlyOperands(operands, after)
  }

  predicate OrderlyOperands(o: Operands, after: bool) {
    match o
    case NoOperand => true
    case Operand(_, e, more) => Orderly(e, after || DottedOperands(more)) && OrderlyOperands(more, after)
  }

  predicate OrderlySubs(s: Subs, after: bool) {
    match s
    case NoSub => true
    case Index(e, tail) => Orderly(e, after || DottedSubs(tail)) && OrderlySubs(tail, after)
    case Member(_, tail) => OrderlySubs(tail, after)
  }

  // ----- tokens -----

  lemma {:induction false} SkipGap(gap: string, post: string)
    requires Spaces(gap) && (post == "" || !IsSpace(post[0]))
    ensures SkipSpaces(gap + post) == post
    decreases gap
  {
    if gap == "" {
      assert gap + post == post;
    } else {
      assert (gap + post)[1..] == gap[1..] + post;
      SkipGap(gap[1..], post);
    }
  }

  lemma {:induction false} DigitSpanWhole(s: string, base: nat, post: string)
    requires DigitSpan(s, base) == |s| && (post == "" || Digit(post[0]) >= base)
    ensures DigitSpan(s + post, base) == |s|
    decreases s
  {
    if s == "" {
      assert s + post == post;
    } else {
      assert (s + post)[1..] == s[1..] + post;
      DigitSpanWhole(s[1..], base, post);
    }
  }

  lemma UnsignedWhole(s: string, post: string)
    requires Unsigned(s).Some? && Unsigned(s).value.1 == |s| && (post == "" || !IsIdChar(post[0]))
    ensures Unsigned(s + post) == Unsigned(s)
  {
    hide DigitSpan, DigitsValue;
    var (base, skip) := BaseOf(s);
    assert BaseOf(s + post) == (base, skip);
    var digits := s[skip..];
    assert (s + post)[skip..] == digits + post;
    DigitSpanWhole(digits, base, post);
    assert (s + post)[skip..|s|] == digits == s[skip..|s|];
  }

  /** What `strtol` reads whole, it reads whole in front of anything that is not a letter, digit or underscore. */
  lemma StrtolWhole(s: string, post: string)
    requires IsNumber(s) && (post == "" || !IsIdChar(post[0]))
    ensures Strtol(s + post) == Strtol(s)
  {
    hide Unsigned;
    var sign := SignLength(s);
    assert SkipSpaces(s + post) == s + post;
    assert SkipSpaces(s) == s;
    assert SignLength(s + post) == sign;
    assert (s + post)[sign..] == s[sign..] + post;
    UnsignedWhole(s[sign..], post);
  }

  lemma {:induction false} IdSpanWhole(s: string, post: string)
    requires (forall i | 0 <= i < |s| :: IsIdChar(s[i])) && (post == "" || !IsIdChar(post[0]))
    ensures IdSpan(s + post) == |s|
    decreases s
  {
    if s == "" {
      assert s + post == post;
    } else {
      assert (s + post)[1..] == s[1..] + post;
      IdSpanWhole(s[1..], post);
    }
  }

  lemma ParseIdWhole(id: string, post: string)
    requires IsId(id) && (post == "" || !IsIdChar(post[0]))
    ensures ParseId(id + post) == Ok(id, post)
  {
    assert (id + post)[1..] == id[1..] + post;
    IdSpanWhole(id[1..], post);
  }

  lemma {:induction false} FormatSpanWhole(s: string, post: string)
    requires '}' !in s && (post == "" || post[0] == '}')
    ensures FormatSpan(s + post) == |s|
    decreases s
  {
    if s == "" {
      assert s + post == post;
    } else {
      assert (s + post)[1..] == s[1..] + post;
      FormatSpanWhole(s[1..], post);
    }
  }

  // ----- dots -----

  lemma {:induction false} DigitsNoDot(s: string, base: nat)
    requires DigitSpan(s, base) == |s| && base <= 16
    ensures '.' !in s
    decreases s
  {
    if s != "" {
      DigitsNoDot(s[1..], base);
      assert s == [s[0]] + s[1..];
    }
  }

  lemma NumberNoDot(s: string)
    requires IsNumber(s)
    ensures '.' !in s
  {
    hide DigitSpan, DigitsValue;
    var sign := SignLength(s);
    var body := s[sign..];
    var (base, skip) := BaseOf(body);
    DigitsNoDot(body[skip..], base);
    assert s == s[..sign] + (body[..skip] + body[skip..]);
  }

  lemma NoDotInGap(s: string)
    requires Spaces(s)
    ensures '.' !in s
  {
  }

  lemma NoDotInId(s: string)
    requires IsId(s)
    ensures '.' !in s
  {
  }

  /** Floating-point literals have a dot and are read whole; formats have braces. */
  predicate Neat(strtod: Strtod, p: Phrase) {
    match p
    case Number(_, _) => true
    case FloatText(text, _, number) => '.' in text && strtod(text) == (|text|, number)
    case Paren(_, inner, _) => Neat(strtod, inner)
    case Ref(braces, _, _, subs, format) => (braces.None? ==> format == "") && NeatSubs(strtod, subs)
    case Chain(head, links) => Neat(strtod, head) && NeatLinks(strtod, links)
  }

  predicate NeatLinks(strtod: Strtod, l: Links) {
    match l
    case NoLink => true
    case Link(_, _, operand, more) => Neat(strtod, operand) && NeatLinks(strtod, more)
  }

  predicate NeatSubs(strtod: Strtod, s: SubTexts) {
    match s
    case NoText => true
    case IndexText(_, index, _, tail) => Neat(strtod, index) && NeatSubs(strtod, tail)
    case MemberText(_, _, _, tail) => NeatSubs(strtod, tail)
  }

  /** The dots of a text are those of its tree. */
  lemma {:induction false} TextDots(strtod: Strtod, p: Phrase, level: nat)
    requires IsPhrase(p, level) && Neat(strtod, p)
    ensures '.' in Text(p) <==> Dotted(Tree(p))
    decreases p
  {
    hide Spaces, IsId, Strtol, IsNumber;
    match p
    case Number(text, gap) =>
      NumberNoDot(text);
      NoDotInGap(gap);
    case FloatText(_, _, _) =>
    case Paren(open, inner, close) =>
      TextDots(strtod, inner, 1);
      NoDotInGap(open);
      NoDotInGap(close);
    case Ref(braces, id, gap, subs, format) =>
      SubsDots(strtod, subs);
      NoDotInId(id);
      NoDotInGap(gap);
      if braces.Some? {
        NoDotInGap(braces.value.0);
        NoDotInGap(braces.value.1);
      }
    case Chain(head, links) =>
      TextDots(strtod, head, OpLevel([links.op]) + 1);
      LinksDots(strtod, links, OpLevel([links.op]));
  }

  lemma {:induction false} LinksDots(strtod: Strtod, l: Links, level: nat)
    requires IsLinks(l, level) && NeatLinks(strtod, l)
    ensures '.' in LinksText(l) <==> DottedOperands(LinksTree(l))
    decreases l
  {
    hide Spaces;
    match l
    case NoLink =>
    case Link(op, gap, operand, more) =>
      TextDots(strtod, operand, level + 1);
      NoDotInGap(gap);
      LinksDots(strtod, more, level);
  }

  lemma {:induction false} SubsDots(strtod: Strtod, s: SubTexts)
    requires IsSubs(s) && NeatSubs(strtod, s)
    ensures '.' in SubsText(s) <==> DottedSubs(SubsTree(s))
    decreases s
  {
    hide Spaces, IsId;
    match s
    case NoText =>
    case IndexText(open, index, close, tail) =>
      TextDots(strtod, index, 1);
      NoDotInGap(open);
      NoDotInGap(close);
      SubsDots(strtod, tail);
    case MemberText(_, _, _, _) =>
  }

  /** A neat phrase can be read exactly when no integer comes before a dot. */
  lemma {:induction false} LegibleIff(strtod: Strtod, p: Phrase, level: nat, post: string)
    requires IsPhrase(p, level) && Neat(strtod, p)
    ensures Legible(strtod, p, post) <==> Orderly(Tree(p), '.' in post)
    decreases p
  {
    hide Spaces, IsId, Strtol, IsNumber, IsFormat, StartsNumber, OpLevel;
    match p
    case Number(_, _) =>
    case FloatText(_, _, _) =>
    case Paren(_, inner, close) =>
      NoDotInGap(close);
      LegibleIff(strtod, inner, 1, ")" + close + post);
    case Ref(None, _, _, subs, format) => LegibleSubsIff(strtod, subs, format + post);
    case Ref(Some((_, close)), _, _, subs, format) =>
      NoDotInGap(close);
      LegibleSubsIff(strtod, subs, format + ("}" + close + post));
    case Chain(head, links) =>
      LinksDots(strtod, links, OpLevel([links.op]));
      LegibleIff(strtod, head, OpLevel([links.op]) + 1, LinksText(links) + post);
      LegibleLinksIff(strtod, links, OpLevel([links.op]), post);
  }

  lemma {:induction false} LegibleLinksIff(strtod: Strtod, l: Links, level: nat, post: string)
    requires IsLinks(l, level) && NeatLinks(strtod, l)
    ensures LegibleLinks(strtod, l, post) <==> OrderlyOperands(LinksTree(l), '.' in post)
    decreases l
  {
    hide Spaces, IsPhrase, Legible, Orderly, Text, Tree, Neat, OpLevel;
    match l
    case NoLink =>
    case Link(_, _, operand, more) =>
      LinksDots(strtod, more, level);
      LegibleIff(strtod, operand, level + 1, LinksText(more) + post);
      LegibleLinksIff(strtod, more, level, post);
  }

  lemma {:induction false} LegibleSubsIff(strtod: Strtod, s: SubTexts, post: string)
    requires IsSubs(s) && NeatSubs(strtod, s)
    ensures LegibleSubs(strtod, s, post) <==> OrderlySubs(SubsTree(s), '.' in post)
    decreases s
  {
    hide Spaces, IsId, IsPhrase, Legible, Orderly, Text, Tree, Neat;
    match s
    case NoText =>
    case IndexText(_, index, close, tail) =>
      SubsDots(strtod, tail);
      NoDotInGap(close);
      LegibleIff(strtod, index, 1, "]" + close + (SubsText(tail) + post));
      LegibleSubsIff(strtod, tail, post);
    case MemberText(_, _, _, tail) => LegibleSubsIff(strtod, tail, post);
  }

  // ----- parsing a phrase -----

  lemma {:induction false} TextStarts(p: Phrase, level: nat)
    requires IsPhrase(p, level)
    ensures Text(p) != "" && !IsSpace(Text(p)[0])
    decreases p
  {
    match p
    case Number(_, _) =>
    case FloatText(_, _, _) =>
    case Paren(_, _, _) =>
    case Ref(_, _, _, _, _) =>
    case Chain(head, links) => TextStarts(head, OpLevel([links.op]) + 1);
  }

  lemma {:induction false} ParsePhrase(strtod: Strtod, p: Phrase, level: nat, post: string)
    requires 1 <= level <= 7 && IsPhrase(p, level) && Follows(post, level) && Legible(strtod, p, post)
    requires Delimited(strtod)
    ensures ParseLevel(strtod, Text(p) + post, level) == Ok(Tree(p), post)
    decreases p, 20 - level
  {
    hide ParseTerm, ParseOperands, Strtol, Spaces, IsNumber, IsId, IsFormat;
    if level == 7 {
      ParseTermPhrase(strtod, p, post);
    } else if p.Chain? && OpLevel([p.links.op]) == level {
      ParseChain(strtod, p, level, post);
    } else {
      ParsePhrase(strtod, p, level + 1, post);
    }
  }

  lemma {:induction false} ParseChain(strtod: Strtod, p: Phrase, level: nat, post: string)
    requires p.Chain? && 1 <= level <= 6 && IsPhrase(p, level) && OpLevel([p.links.op]) == level && Follows(post, level)
    requires Legible(strtod, p, post) && Delimited(strtod)
    ensures ParseLevel(strtod, Text(p) + post, level) == Ok(Tree(p), post)
    decreases p, 10
  {
    hide ParseTerm, ParseOperands, ParseLevel, Strtol, Spaces;
    var rest := LinksText(p.links) + post;
    assert Text(p) + post == Text(p.head) + rest;
    LinkFollows(p.links, level, post);
    ParsePhrase(strtod, p.head, level + 1, rest);
    ParseLinks(strtod, p.links, level, post);
    LevelStep(strtod, Text(p) + post, level);
  }

  /** An operator of the level follows, or what follows the links. */
  lemma LinkFollows(l: Links, level: nat, post: string)
    requires 1 <= level <= 6 && IsLinks(l, level) && Follows(post, level)
    ensures Follows(LinksText(l) + post, level + 1)
    ensures l.Link? ==> OpLevel(LinksText(l) + post) == level
  {
    if l.Link? {
      assert (LinksText(l) + post)[0] == l.op;
    } else {
      assert LinksText(l) + post == post;
    }
  }

  lemma LevelStep(strtod: Strtod, s: string, level: nat)
    requires 1 <= level <= 6
    ensures ParseLevel(strtod, s, level + 1).Ok? ==>
      var Ok(e, rest) := ParseLevel(strtod, s, level + 1);
      OpLevel(rest) == level && ParseOperands(strtod, rest, level).Ok? ==>
        var Ok(operands, rest') := ParseOperands(strtod, rest, level);
        ParseLevel(strtod, s, level) == Ok(Operation(e, operands), rest')
  {
  }

  lemma OperandStep(strtod: Strtod, s: string, level: nat, t: string)
    requires 1 <= level <= 6 && OpLevel(s) == level && SkipSpaces(s[1..]) == t
    ensures ParseLevel(strtod, t, level + 1).Ok? ==>
      var Ok(e, rest) := ParseLevel(strtod, t, level + 1);
      ParseOperands(strtod, rest, level).Ok? ==>
        var Ok(more, rest') := ParseOperands(strtod, rest, level);
        ParseOperands(strtod, s, level) == Ok(Operand(s[0], e, more), rest')
  {
  }

  lemma {:induction false} ParseLinks(strtod: Strtod, l: Links, level: nat, post: string)
    requires 1 <= level <= 6 && IsLinks(l, level) && Follows(post, level) && LegibleLinks(strtod, l, post)
    requires Delimited(strtod)
    ensures ParseOperands(strtod, LinksText(l) + post, level) == Ok(LinksTree(l), post)
    decreases l, 0
  {
    hide ParseLevel, Spaces, ParseOperands, IsPhrase, Text, Tree, Legible;
    match l
    case NoLink =>
      assert LinksText(l) + post == post;
      NoMoreOperands(strtod, level, post);
    case Link(op, gap, operand, more) =>
      var s, rest := LinksText(l) + post, LinksText(more) + post;
      AfterToken([op], gap, Text(operand), LinksText(more), post);
      TextStarts(operand, level + 1);
      SkipGap(gap, Text(operand) + rest);
      LinkFollows(more, level, post);
      LinkFollows(l, level, post);
      ParsePhrase(strtod, operand, level + 1, rest);
      ParseLinks(strtod, more, level, post);
      OperandStep(strtod, s, level, Text(operand) + rest);
  }

  lemma NoMoreOperands(strtod: Strtod, level: nat, post: string)
    requires 1 <= level <= 6 && Follows(post, level)
    ensures ParseOperands(strtod, post, level) == Ok(NoOperand, post)
  {
  }

  /** A token of one character, its gap, and the rest. */
  lemma AfterToken(token: string, gap: string, a: string, b: string, post: string)
    requires |token| == 1
    ensures var s := token + gap + a + b + post;
      s != "" && s[0] == token[0] && s[1..] == gap + (a + (b + post))
  {
    assert token + gap + a + b + post == token + (gap + (a + (b + post)));
  }

  lemma {:induction false} ParseTermPhrase(strtod: Strtod, p: Phrase, post: string)
    requires IsPhrase(p, 7) && Follows(post, 7) && Legible(strtod, p, post) && Delimited(strtod)
    ensures ParseTerm(strtod, Text(p) + post) == Ok(Tree(p), post)
    decreases p, 1
  {
    hide ParseLevel, Spaces, ParseTerm, ParseReference, Strtol, Text, IsId, OpLevel;
    match p
    case Number(text, gap) =>
      assert Text(p) == text + gap by { NumberText(p); }
      ParseNumber(strtod, text, gap, post);
    case FloatText(text, gap, number) =>
      assert Text(p) == text + gap by { NumberText(p); }
      ParseFloatText(strtod, text, gap, number, post);
    case Paren(_, _, _) => ParseParen(strtod, p, post);
    case Ref(braces, _, _, _, _) =>
      if braces.None? {
        ParseOpenRef(strtod, p, post);
      } else {
        ParseBracedRef(strtod, p, post);
      }
  }

  lemma NumberText(p: Phrase)
    requires p.Number? || p.FloatText?
    ensures Text(p) == p.text + p.gap
  {
  }

  lemma ParenText(p: Phrase)
    requires p.Paren?
    ensures Text(p) == "(" + p.open + Text(p.inner) + ")" + p.close
  {
  }

  lemma {:induction false} ParseParen(strtod: Strtod, p: Phrase, post: string)
    requires p.Paren? && IsPhrase(p, 7) && Follows(post, 7) && Legible(strtod, p, post) && Delimited(strtod)
    ensures ParseTerm(strtod, Text(p) + post) == Ok(Tree(p), post)
    decreases p, 0
  {
    hide ParseLevel, Spaces, ParseTerm, Text, OpLevel;
    var rest := ")" + p.close + post;
    ParenText(p);
    AfterToken("(", p.open, Text(p.inner), ")" + p.close, post);
    assert "(" + p.open + Text(p.inner) + ")" + p.close == "(" + p.open + Text(p.inner) + (")" + p.close);
    TextStarts(p.inner, 1);
    SkipGap(p.open, Text(p.inner) + rest);
    ParsePhrase(strtod, p.inner, 1, rest);
    assert rest[1..] == p.close + post;
    FollowsNoSpace(post);
    SkipGap(p.close, post);
    ParenStep(strtod, Text(p) + post, Text(p.inner) + rest);
  }

  lemma FollowsNoSpace(post: string)
    requires Follows(post, 7)
    ensures post == "" ||
      (!IsSpace(post[0]) && !IsIdChar(post[0]) && post[0] != '[' && post[0] != '.' && post[0] != ':')
  {
  }

  lemma ParenStep(strtod: Strtod, s: string, t: string)
    requires s != "" && s[0] == '(' && SkipSpaces(s[1..]) == t
    ensures ParseLevel(strtod, t, 1).Ok? ==>
      var Ok(e, rest) := ParseLevel(strtod, t, 1);
      Peek(rest) == ')' ==> ParseTerm(strtod, s) == Ok(e, SkipSpaces(rest[1..]))
  {
    hide ParseLevel;
  }

  lemma ParseNumber(strtod: Strtod, text: string, gap: string, post: string)
    requires IsNumber(text) && Spaces(gap) && Follows(post, 7) && '.' !in post
    ensures ParseTerm(strtod, text + gap + post) == Ok(Int(Strtol(text).number), post)
  {
    hide Strtol, Spaces;
    var s := text + gap + post;
    assert s == text + (gap + post);
    NumberNoDot(text);
    NoDotInGap(gap);
    FollowsNoSpace(post);
    GapFollows(gap, post);
    StrtolWhole(text, gap + post);
    assert s[|text|..] == gap + post;
    SkipGap(gap, post);
    NumberStarts(text);
  }

  lemma ParseFloatText(strtod: Strtod, text: string, gap: string, number: real, post: string)
    requires StartsNumber(text) && strtod(text) == (|text|, number) && ('.' in text || '.' in post) && Delimited(strtod)
    requires Spaces(gap) && Follows(post, 7)
    ensures ParseTerm(strtod, text + gap + post) == Ok(Float(number), post)
  {
    hide Spaces, ParseLevel;
    var s := text + gap + post;
    assert s == text + (gap + post);
    FollowsNoSpace(post);
    GapDelimits(gap, post);
    assert ReadsAlone(strtod, text, gap + post);
    assert s[|text|..] == gap + post;
    SkipGap(gap, post);
  }

  lemma GapDelimits(gap: string, post: string)
    requires Spaces(gap) && Delimits(post)
    ensures Delimits(gap + post)
  {
  }

  lemma NumberStarts(s: string)
    requires IsNumber(s)
    ensures s[0] != '(' && s[0] != '$'
  {
  }

  lemma GapFollows(gap: string, post: string)
    requires Spaces(gap) && (post == "" || !IsIdChar(post[0]))
    ensures gap + post == "" || !IsIdChar((gap + post)[0])
  {
  }

  predicate EndsSubs(post: string) {
    post == "" || (post[0] != '[' && post[0] != '.' && !IsSpace(post[0]) && !IsIdChar(post[0]))
  }

  lemma SubsStart(t: SubTexts, post: string)
    requires EndsSubs(post)
    ensures var s := SubsText(t) + post;
      s == "" || (!IsSpace(s[0]) && !IsIdChar(s[0]))
  {
    if t.NoText? { assert SubsText(t) + post == post; }
  }

  /** The accessors end where neither a bracket nor a dot follows. */
  lemma {:induction false} ParseSubTexts(strtod: Strtod, t: SubTexts, post: string)
    requires IsSubs(t) && LegibleSubs(strtod, t, post) && EndsSubs(post) && Delimited(strtod)
    ensures ParseSubs(strtod, SubsText(t) + post) == Ok(SubsTree(t), post)
    decreases t, 1
  {
    hide ParseLevel, Spaces, IsId, IsPhrase, Text, Tree, Legible;
    match t
    case NoText => assert SubsText(t) + post == post;
    case IndexText(_, _, _, _) => ParseIndex(strtod, t, post);
    case MemberText(_, _, _, _) => ParseMember(strtod, t, post);
  }

  lemma IndexStep(strtod: Strtod, s: string, t: string)
    requires s != "" && s[0] == '[' && SkipSpaces(s[1..]) == t
    ensures ParseLevel(strtod, t, 1).Ok? ==>
      var Ok(e, rest) := ParseLevel(strtod, t, 1);
      Peek(rest) == ']' && ParseSubs(strtod, SkipSpaces(rest[1..])).Ok? ==>
        var Ok(tail, rest') := ParseSubs(strtod, SkipSpaces(rest[1..]));
        ParseSubs(strtod, s) == Ok(Index(e, tail), rest')
  {
    hide ParseLevel;
  }

  lemma {:induction false} ParseIndex(strtod: Strtod, t: SubTexts, post: string)
    requires t.IndexText? && IsSubs(t) && LegibleSubs(strtod, t, post) && EndsSubs(post) && Delimited(strtod)
    ensures ParseSubs(strtod, SubsText(t) + post) == Ok(SubsTree(t), post)
    decreases t, 0
  {
    hide ParseLevel, ParseSubs, Spaces, IsId, IsPhrase, Text, Tree, Legible, EndsSubs;
    var last := SubsText(t.tail) + post;
    var rest := "]" + t.close + last;
    IndexShape(t, post);
    TextStarts(t.index, 1);
    SkipGap(t.open, Text(t.index) + rest);
    ParsePhrase(strtod, t.index, 1, rest);
    assert rest[1..] == t.close + last;
    SubsStart(t.tail, post);
    SkipGap(t.close, last);
    ParseSubTexts(strtod, t.tail, post);
    IndexStep(strtod, SubsText(t) + post, Text(t.index) + rest);
  }

  lemma IndexShape(t: SubTexts, post: string)
    requires t.IndexText?
    ensures var s := SubsText(t) + post;
      s != "" && s[0] == '[' && s[1..] == t.open + (Text(t.index) + ("]" + t.close + (SubsText(t.tail) + post)))
  {
    hide Text;
    AfterToken("[", t.open, Text(t.index), "]" + t.close + SubsText(t.tail), post);
    assert "[" + t.open + Text(t.index) + "]" + t.close + SubsText(t.tail)
        == "[" + t.open + Text(t.index) + ("]" + t.close + SubsText(t.tail));
  }

  lemma MemberStep(strtod: Strtod, s: string, t: string)
    requires s != "" && s[0] == '.' && SkipSpaces(s[1..]) == t
    ensures ParseId(t).Ok? ==>
      var Ok(name, rest) := ParseId(t);
      ParseSubs(strtod, SkipSpaces(rest)).Ok? ==>
        var Ok(tail, rest') := ParseSubs(strtod, SkipSpaces(rest));
        ParseSubs(strtod, s) == Ok(Member(name, tail), rest')
  {
    hide ParseLevel, ParseId;
  }

  lemma {:induction false} ParseMember(strtod: Strtod, t: SubTexts, post: string)
    requires t.MemberText? && IsSubs(t) && LegibleSubs(strtod, t, post) && EndsSubs(post) && Delimited(strtod)
    ensures ParseSubs(strtod, SubsText(t) + post) == Ok(SubsTree(t), post)
    decreases t, 0
  {
    hide ParseLevel, ParseSubs, Spaces, IsId, ParseId, EndsSubs;
    var last := SubsText(t.tail) + post;
    AfterToken(".", t.open, t.name, t.close + SubsText(t.tail), post);
    assert "." + t.open + t.name + t.close + SubsText(t.tail) == "." + t.open + t.name + (t.close + SubsText(t.tail));
    assert t.close + SubsText(t.tail) + post == t.close + last;
    IdStarts(t.name);
    SkipGap(t.open, t.name + (t.close + last));
    SubsStart(t.tail, post);
    GapFollows(t.close, last);
    ParseIdWhole(t.name, t.close + last);
    SkipGap(t.close, last);
    ParseSubTexts(strtod, t.tail, post);
    MemberStep(strtod, SubsText(t) + post, t.name + (t.close + last));
  }

  lemma IdStarts(s: string)
    requires IsId(s)
    ensures s != "" && !IsSpace(s[0]) && s[0] != '{'
  {
  }

  /** From the identifier on, a reference is parsed the same with and without braces. */
  lemma {:induction false} ParseRefBody(strtod: Strtod, id: string, gap: string, subs: SubTexts, post: string)
    requires IsId(id) && Spaces(gap) && IsSubs(subs) && LegibleSubs(strtod, subs, post) && EndsSubs(post)
    requires Delimited(strtod)
    ensures ParseId(id + gap + SubsText(subs) + post) == Ok(id, gap + SubsText(subs) + post)
    ensures ParseSubs(strtod, SkipSpaces(gap + SubsText(subs) + post)) == Ok(SubsTree(subs), post)
    decreases subs, 2
  {
    hide ParseLevel, ParseSubs, Spaces, IsId, ParseId, EndsSubs, SubsText, SubsTree, LegibleSubs, IsSubs;
    var rest := SubsText(subs) + post;
    assert gap + SubsText(subs) + post == gap + rest;
    assert id + gap + SubsText(subs) + post == id + (gap + rest);
    SubsStart(subs, post);
    GapFollows(gap, rest);
    ParseIdWhole(id, gap + rest);
    SkipGap(gap, rest);
    ParseSubTexts(strtod, subs, post);
  }

  lemma {:induction false} ParseOpenRef(strtod: Strtod, p: Phrase, post: string)
    requires p.Ref? && p.braces.None? && IsPhrase(p, 7) && Follows(post, 7) && Legible(strtod, p, post)
    requires Delimited(strtod)
    ensures ParseTerm(strtod, Text(p) + post) == Ok(Tree(p), post)
    decreases p, 0
  {
    hide ParseLevel, Spaces, IsId, ParseSubs, ParseId, SubsText, SubsTree, LegibleSubs, IsSubs, OpLevel, SkipSpaces,
      FormatSpan, FormatOf, Follows, IsFormat, ParseTerm, Text;
    var rest := p.format + post;
    var s, body := Text(p) + post, p.id + p.gap + SubsText(p.subs) + rest;
    OpenFormat(p.format, post);
    ParseRefBody(strtod, p.id, p.gap, p.subs, rest);
    IdStarts(p.id);
    OpenTexts(p, post);
    OpenStep(strtod, s, body);
  }

  lemma OpenTexts(p: Phrase, post: string)
    requires p.Ref? && p.braces.None? && p.id != ""
    ensures var s, body := Text(p) + post, p.id + p.gap + SubsText(p.subs) + (p.format + post);
      s == "$" + body && s[0] == '$' && s[1..] == body && body[0] == p.id[0]
  {
    hide SubsText;
    var body := p.id + p.gap + SubsText(p.subs) + (p.format + post);
    assert Text(p) + post == "$" + body;
  }

  lemma OpenStep(strtod: Strtod, s: string, t: string)
    requires s != "" && s[0] == '$' && s[1..] == t && Peek(t) != '{'
    ensures ParseId(t).Ok? ==>
      var Ok(id, rest) := ParseId(t);
      ParseSubs(strtod, SkipSpaces(rest)).Ok? ==>
        var Ok(subs, rest') := ParseSubs(strtod, SkipSpaces(rest));
        var n := FormatOf(rest');
        ParseTerm(strtod, s) == Ok(Reference(id, subs, rest'[..n]), rest'[n..])
  {
    hide ParseLevel, ParseId, ParseSubs, SkipSpaces, FormatOf;
  }

  /** Without braces a format runs to the end, or there is none. */
  lemma OpenFormat(format: string, post: string)
    requires IsFormat(format) && Follows(post, 7) && (format != "" ==> post == "" || post[0] == '}')
    ensures var rest := format + post;
      EndsSubs(rest) && FormatOf(rest) == |format| && rest[|format|..] == post && rest[..|format|] == format
  {
    hide FormatSpan, OpLevel;
    FollowsNoSpace(post);
    if format == "" {
      assert format + post == post;
    } else {
      FormatSpanWhole(format, post);
    }
  }

  lemma {:induction false} ParseBracedRef(strtod: Strtod, p: Phrase, post: string)
    requires p.Ref? && p.braces.Some? && IsPhrase(p, 7) && Follows(post, 7) && Legible(strtod, p, post)
    requires Delimited(strtod)
    ensures ParseTerm(strtod, Text(p) + post) == Ok(Tree(p), post)
    decreases p, 0
  {
    hide ParseLevel, Spaces, IsId, ParseSubs, ParseId, SubsText, SubsTree, LegibleSubs, IsSubs, OpLevel, SkipSpaces,
      FormatSpan;
    var Some((open, close)) := p.braces;
    var end := "}" + close + post;
    var rest := p.format + end;
    var body := p.id + p.gap + SubsText(p.subs) + rest;
    BracedShape(p, open, close, post);
    FormatShape(p.format, close, post);
    ParseRefBody(strtod, p.id, p.gap, p.subs, rest);
    IdStarts(p.id);
    SkipGap(open, body);
    FollowsNoSpace(post);
    SkipGap(close, post);
    BracedStep(strtod, Text(p) + post, body);
  }

  lemma BracedShape(p: Phrase, open: string, close: string, post: string)
    requires p.Ref? && p.braces == Some((open, close))
    ensures var s := Text(p) + post;
      && |s| >= 2 && s[0] == '$' && s[1] == '{'
      && s[2..] == open + (p.id + p.gap + SubsText(p.subs) + (p.format + ("}" + close + post)))
  {
    hide SubsText;
    assert Text(p) + post == "${" + (open + (p.id + p.gap + SubsText(p.subs) + (p.format + ("}" + close + post))));
  }

  lemma FormatShape(format: string, close: string, post: string)
    requires IsFormat(format) && Spaces(close)
    ensures var end := "}" + close + post;
      var rest := format + end;
      && EndsSubs(rest) && FormatOf(rest) == |format| && rest[|format|..] == end && rest[..|format|] == format
      && Peek(end) == '}' && end[1..] == close + post && ('.' in rest <==> '.' in post || '.' in format)
  {
    hide FormatSpan;
    var end := "}" + close + post;
    FormatSpanWhole(format, end);
    NoDotInGap(close);
    if format == "" { assert format + end == end; }
  }

  lemma BracedStep(strtod: Strtod, s: string, t: string)
    requires |s| >= 2 && s[0] == '$' && s[1] == '{' && SkipSpaces(s[2..]) == t
    ensures ParseId(t).Ok? ==>
      var Ok(id, rest) := ParseId(t);
      ParseSubs(strtod, SkipSpaces(rest)).Ok? ==>
        var Ok(subs, rest') := ParseSubs(strtod, SkipSpaces(rest));
        var n := FormatOf(rest');
        Peek(rest'[n..]) == '}' ==> ParseTerm(strtod, s) == Ok(Reference(id, subs,
                                                               rest'[..n]), SkipSpaces(rest'[n..][1..]))
  {
    hide ParseLevel, ParseId, ParseSubs, SkipSpaces, FormatOf;
  }

  /** A text with spaces in front, and any spelling, gives the tree. */
  lemma ParseText(strtod: Strtod, front: string, p: Phrase)
    requires Spaces(front) && IsPhrase(p, 1) && Legible(strtod, p, "") && Delimited(strtod)
    ensures ParseValue(strtod, front + Text(p)) == Expression(Tree(p))
  {
    hide ParseLevel, Spaces, IsPhrase, Text, Tree, Legible;
    TextStarts(p, 1);
    SkipGap(front, Text(p));
    assert Text(p) + "" == Text(p);
    ParsePhrase(strtod, p, 1, "");
  }
}
