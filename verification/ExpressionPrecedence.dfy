/** The documented grammar: an operation is terms with operators between them, and the operators have six
    ranks of precedence. The parser accepts every such text and groups it by rank. */
module ExpressionPrecedence {
  import opened Options
  import opened Expressions
  import opened ExpressionGrammar
  import opened ExpressionPrinting

  /** The documented ranks, the tightest operators first; 0 for anything else. */
  function Rank(op: char): nat {
    if op in {'*', '/', '%'} then 1
    else if op in {'+', '-'} then 2
    else if op in {'<', '>'} then 3
    else if op == '=' then 4
    else if op == '&' then 5
    else if op == '|' then 6
    else 0
  }

  /** The levels of the parser are the documented ranks, the other way round. */
  lemma LevelIsRank(op: char)
    ensures OpLevel([op]) == if Rank(op) == 0 then 0 else 7 - Rank(op)
  {
  }

  // ----- terms with operators between them -----

  datatype Flat = Last(term: Phrase) | More(term: Phrase, op: char, gap: string, tail: Flat)

  function FlatText(f: Flat): string {
    match f
    case Last(term) => Text(term)
    case More(term, op, gap, tail) => Text(term) + [op] + gap + FlatText(tail)
  }

  predicate IsTerm(p: Phrase) {
    !p.Chain? && IsPhrase(p, 7)
  }

  predicate IsFlat(f: Flat) {
    && IsTerm(f.term)
    && (f.More? ==> Rank(f.op) > 0 && Spaces(f.gap) && IsFlat(f.tail))
  }

  /** No operator is looser than the level. */
  predicate AtLeast(f: Flat, level: nat) {
    f.More? ==> OpLevel([f.op]) >= level && AtLeast(f.tail, level)
  }

  // ----- grouping -----

  /** The part up to the first operator of the level, and that operator with all that follows. */
  function Head(f: Flat, level: nat): Flat {
    if f.Last? || OpLevel([f.op]) == level then Last(f.term) else More(f.term, f.op, f.gap, Head(f.tail, level))
  }

  function Rest(f: Flat, level: nat): (r: Option<Flat>)
    ensures r.Some? ==> r.value.More? && r.value.tail < f && OpLevel([r.value.op]) == level
  {
    if f.Last? then None
    else if OpLevel([f.op]) == level then Some(f)
    else Rest(f.tail, level)
  }

  function Size(f: Flat): nat {
    if f.Last? then 1 else 1 + Size(f.tail)
  }

  lemma {:induction false} HeadSmaller(f: Flat, level: nat)
    ensures Size(Head(f, level)) <= Size(f)
    ensures Rest(f, level).Some? ==> Size(Rest(f, level).value) <= Size(f)
    decreases f
  {
    if f.More? && OpLevel([f.op]) != level { HeadSmaller(f.tail, level); }
  }

  function Group(f: Flat, level: nat): Phrase
    requires 1 <= level <= 7
    decreases Size(f), 1, 7 - level
  {
    if level == 7 then f.term
    else
      HeadSmaller(f, level);
      var head := Group(Head(f, level), level + 1);
      match Rest(f, level)
      case None => head
      case Some(rest) => Chain(head, GroupLinks(rest, level))
  }

  /** From an operator of the level on. */
  function GroupLinks(f: Flat, level: nat): Links
    requires 1 <= level <= 6 && f.More?
    decreases Size(f), 0
  {
    HeadSmaller(f.tail, level);
    var operand := Group(Head(f.tail, level), level + 1);
    match Rest(f.tail, level)
    case None => Link(f.op, f.gap, operand, NoLink)
    case Some(rest) => Link(f.op, f.gap, operand, GroupLinks(rest, level))
  }

  // ----- the parts -----

  function RestText(f: Flat, level: nat): string {
    match Rest(f, level)
    case None => ""
    case Some(rest) => [rest.op] + rest.gap + FlatText(rest.tail)
  }

  lemma {:induction false} Parts(f: Flat, level: nat)
    requires IsFlat(f) && AtLeast(f, level)
    ensures FlatText(f) == FlatText(Head(f, level)) + RestText(f, level)
    ensures IsFlat(Head(f, level)) && AtLeast(Head(f, level), level + 1)
    ensures Rest(f, level).Some? ==> IsFlat(Rest(f, level).value) && AtLeast(Rest(f, level).value, level)
    decreases f
  {
    hide Text, IsPhrase, Spaces, Rank, OpLevel;
    if f.More? && OpLevel([f.op]) != level {
      Parts(f.tail, level);
    }
  }

  /** Grouping gives a phrase of the level and keeps the text. */
  lemma {:induction false} GroupIs(f: Flat, level: nat)
    requires 1 <= level <= 7 && IsFlat(f) && AtLeast(f, level)
    ensures IsPhrase(Group(f, level), level) && Text(Group(f, level)) == FlatText(f)
    decreases Size(f), 1, 7 - level
  {
    hide OpLevel, Spaces, Rank, FlatText, IsPhrase, Text;
    if level == 7 {
      TightestIsLast(f);
    } else {
      Parts(f, level);
      HeadSmaller(f, level);
      GroupIs(Head(f, level), level + 1);
      match Rest(f, level)
      case None =>
        assert RestText(f, level) == "";
        PhraseLower(Group(f, level), level);
      case Some(rest) =>
        LinksIs(rest, level);
        ChainIs(Group(Head(f, level), level + 1), GroupLinks(rest, level), level);
    }
  }

  lemma TightestIsLast(f: Flat)
    requires AtLeast(f, 7) && IsFlat(f)
    ensures f.Last? && FlatText(f) == Text(f.term)
  {
  }

  lemma {:induction false} LinksIs(f: Flat, level: nat)
    requires 1 <= level <= 6 && f.More? && IsFlat(f) && AtLeast(f, level) && OpLevel([f.op]) == level
    ensures IsLinks(GroupLinks(f, level), level) && GroupLinks(f, level).Link? && GroupLinks(f, level).op == f.op
    ensures LinksText(GroupLinks(f, level)) == [f.op] + f.gap + FlatText(f.tail)
    decreases Size(f), 0
  {
    hide OpLevel, Spaces, Rank, FlatText, IsPhrase, Text;
    var tail := f.tail;
    Parts(tail, level);
    HeadSmaller(tail, level);
    GroupIs(Head(tail, level), level + 1);
    match Rest(tail, level)
    case None => assert RestText(tail, level) == "";
    case Some(rest) => LinksIs(rest, level);
  }

  // ----- parsing -----

  predicate NeatFlat(strtod: Strtod, f: Flat) {
    Neat(strtod, f.term) && (f.More? ==> NeatFlat(strtod, f.tail))
  }

  lemma {:induction false} PartsNeat(strtod: Strtod, f: Flat, level: nat)
    requires NeatFlat(strtod, f)
    ensures NeatFlat(strtod, Head(f, level))
    ensures Rest(f, level).Some? ==> NeatFlat(strtod, Rest(f, level).value)
    decreases f
  {
    hide Neat, OpLevel;
    if f.More? && OpLevel([f.op]) != level { PartsNeat(strtod, f.tail, level); }
  }

  lemma {:induction false} GroupNeat(strtod: Strtod, f: Flat, level: nat)
    requires 1 <= level <= 7 && NeatFlat(strtod, f)
    ensures Neat(strtod, Group(f, level))
    decreases Size(f), 1, 7 - level
  {
    hide OpLevel;
    if level < 7 {
      HeadSmaller(f, level);
      PartsNeat(strtod, f, level);
      GroupNeat(strtod, Head(f, level), level + 1);
      if Rest(f, level).Some? { GroupLinksNeat(strtod, Rest(f, level).value, level); }
    }
  }

  lemma {:induction false} GroupLinksNeat(strtod: Strtod, f: Flat, level: nat)
    requires 1 <= level <= 6 && f.More? && NeatFlat(strtod, f)
    ensures NeatLinks(strtod, GroupLinks(f, level))
    decreases Size(f), 0
  {
    hide OpLevel;
    HeadSmaller(f.tail, level);
    PartsNeat(strtod, f.tail, level);
    GroupNeat(strtod, Head(f.tail, level), level + 1);
    if Rest(f.tail, level).Some? { GroupLinksNeat(strtod, Rest(f.tail, level).value, level); }
  }

  /** Every operation of the documented grammar is read as the grouping by precedence says, exactly when no integer
      comes before a dot in it. */
  lemma OperationsParse(strtod: Strtod, front: string, f: Flat)
    requires Delimited(strtod) && Spaces(front) && IsFlat(f) && NeatFlat(strtod, f)
    ensures ParseValue(strtod, front + FlatText(f)) == Expression(Tree(Group(f, 1))) <==>
      Orderly(Tree(Group(f, 1)), false)
  {
    hide Delimited, ParseValue, Neat, Text, IsPhrase, Spaces, FlatText, Group, Tree, Orderly;
    AtLeastOne(f);
    GroupIs(f, 1);
    GroupNeat(strtod, f, 1);
    ReadIff(strtod, front, Group(f, 1));
  }

  lemma {:induction false} AtLeastOne(f: Flat)
    requires IsFlat(f)
    ensures AtLeast(f, 1)
    decreases f
  {
    hide Rank, OpLevel, IsPhrase, Spaces;
    if f.More? {
      LevelIsRank(f.op);
      RankBound(f.op);
      AtLeastOne(f.tail);
    }
  }

  // ----- two operators -----

  lemma TermAnywhere(p: Phrase, level: nat)
    requires IsTerm(p)
    ensures IsPhrase(p, level)
  {
    hide Spaces, IsNumber, IsId, IsFormat;
  }

  lemma OneLink(op: char, p: Phrase, more: Links, level: nat)
    requires Rank(op) > 0 && OpLevel([op]) == level && IsPhrase(p, level + 1) && IsLinks(more, level)
    ensures var l := Link(op, "", p, more);
      IsLinks(l, level) && LinksText(l) == [op] + Text(p) + LinksText(more)
  {
    hide IsPhrase, Text, Rank, OpLevel;
    LevelIsRank(op);
    RankBound(op);
    assert [op] + "" == [op];
  }

  /** The phrase for two operators, grouped by rank. */
  function Grouped(a: Phrase, x: char, b: Phrase, y: char, c: Phrase): Phrase {
    if Rank(x) < Rank(y) then Chain(Chain(a, Link(x, "", b, NoLink)), Link(y, "", c, NoLink))
    else if Rank(x) > Rank(y) then Chain(a, Link(x, "", Chain(b, Link(y, "", c, NoLink)), NoLink))
    else Chain(a, Link(x, "", b, Link(y, "", c, NoLink)))
  }

  lemma GroupedIs(a: Phrase, x: char, b: Phrase, y: char, c: Phrase)
    requires IsTerm(a) && IsTerm(b) && IsTerm(c) && Rank(x) > 0 && Rank(y) > 0
    ensures IsPhrase(Grouped(a, x, b, y, c), 1)
    ensures Text(Grouped(a, x, b, y, c)) == Text(a) + [x] + Text(b) + [y] + Text(c)
  {
    hide IsPhrase, Text, Tree, IsTerm, Rank, OpLevel, LinksText, LinksTree, IsLinks;
    var i, j := OpLevel([x]), OpLevel([y]);
    LevelIsRank(x);
    LevelIsRank(y);
    RankBound(x);
    RankBound(y);
    TermAnywhere(a, i + 1);
    TermAnywhere(b, i + 1);
    TermAnywhere(b, j + 1);
    TermAnywhere(c, j + 1);
    NoLinkIs(i);
    NoLinkIs(j);
    OneLink(y, c, NoLink, j);
    var last := Link(y, "", c, NoLink);
    if Rank(x) < Rank(y) {
      OneLink(x, b, NoLink, i);
      ChainIs(a, Link(x, "", b, NoLink), i);
      LowerTo(Chain(a, Link(x, "", b, NoLink)), i, j + 1);
      ChainIs(Chain(a, Link(x, "", b, NoLink)), last, j);
      LowerTo(Grouped(a, x, b, y, c), j, 1);
    } else if Rank(x) > Rank(y) {
      ChainIs(b, last, j);
      LowerTo(Chain(b, last), j, i + 1);
      OneLink(x, Chain(b, last), NoLink, i);
      ChainIs(a, Link(x, "", Chain(b, last), NoLink), i);
      LowerTo(Grouped(a, x, b, y, c), i, 1);
      assert Text(a) + ([x] + (Text(b) + ([y] + Text(c)))) == Text(a) + [x] + Text(b) + [y] + Text(c);
    } else {
      OneLink(x, b, last, i);
      ChainIs(a, Link(x, "", b, last), i);
      LowerTo(Grouped(a, x, b, y, c), i, 1);
      assert Text(a) + ([x] + Text(b) + ([y] + Text(c))) == Text(a) + [x] + Text(b) + [y] + Text(c);
    }
  }

  lemma RankBound(op: char)
    ensures Rank(op) <= 6
  {
  }

  lemma NoLinkIs(level: nat)
    ensures IsLinks(NoLink, level) && LinksText(NoLink) == ""
  {
  }

  lemma {:induction false} LowerTo(p: Phrase, level: nat, to: nat)
    requires to <= level && IsPhrase(p, level)
    ensures IsPhrase(p, to)
    decreases level
  {
    hide IsPhrase;
    if to < level {
      PhraseLower(p, level - 1);
      LowerTo(p, level - 1, to);
    }
  }

  /** The tree for two operators: the tighter one groups its two terms, and operators of one rank make one operation
      from left to right. */
  function GroupedTree(a: Expr, x: char, b: Expr, y: char, c: Expr): Expr {
    if Rank(x) < Rank(y) then Operation(Operation(a, Operand(x, b, NoOperand)), Operand(y, c, NoOperand))
    else if Rank(x) > Rank(y) then Operation(a, Operand(x, Operation(b, Operand(y, c, NoOperand)), NoOperand))
    else Operation(a, Operand(x, b, Operand(y, c, NoOperand)))
  }

  /** Two operators between three terms are grouped by rank, exactly when no integer comes before a dot. */
  lemma ThreeTerms(strtod: Strtod, a: Phrase, x: char, b: Phrase, y: char, c: Phrase)
    requires Delimited(strtod) && IsTerm(a) && IsTerm(b) && IsTerm(c) && Rank(x) > 0 && Rank(y) > 0
    requires Neat(strtod, a) && Neat(strtod, b) && Neat(strtod, c)
    ensures var e := GroupedTree(Tree(a), x, Tree(b), y, Tree(c));
      ParseValue(strtod, Text(a) + [x] + Text(b) + [y] + Text(c)) == Expression(e) <==> Orderly(e, false)
  {
    hide Delimited, ParseValue, IsPhrase, Text, IsTerm, Rank, Orderly, Tree, Neat, GroupedTree, Grouped;
    GroupedIs(a, x, b, y, c);
    GroupedSpells(a, x, b, y, c);
    GroupedNeat(strtod, a, x, b, y, c);
    var p := Grouped(a, x, b, y, c);
    ReadIff(strtod, "", p);
    assert "" + Text(p) == Text(p);
  }

  lemma GroupedNeat(strtod: Strtod, a: Phrase, x: char, b: Phrase, y: char, c: Phrase)
    requires Neat(strtod, a) && Neat(strtod, b) && Neat(strtod, c)
    ensures Neat(strtod, Grouped(a, x, b, y, c))
  {
    hide Rank;
    var last := Link(y, "", c, NoLink);
    assert NeatLinks(strtod, NoLink) && NeatLinks(strtod, last) && NeatLinks(strtod, Link(x, "", b, NoLink));
    assert NeatLinks(strtod, Link(x, "", b, last));
    assert Neat(strtod, Chain(a, Link(x, "", b, NoLink))) && Neat(strtod, Chain(b, last));
    assert NeatLinks(strtod, Link(x, "", Chain(b, last), NoLink));
  }

  lemma GroupedSpells(a: Phrase, x: char, b: Phrase, y: char, c: Phrase)
    ensures Tree(Grouped(a, x, b, y, c)) == GroupedTree(Tree(a), x, Tree(b), y, Tree(c))
  {
    hide Rank, Tree;
    TreeOfOne(a, x, b);
    TreeOfOne(b, y, c);
    TreeOfOne(Chain(a, Link(x, "", b, NoLink)), y, c);
    TreeOfOne(a, x, Chain(b, Link(y, "", c, NoLink)));
    TreeOfTwo(a, x, b, y, c);
  }

  lemma TreeOfOne(h: Phrase, op: char, p: Phrase)
    ensures Tree(Chain(h, Link(op, "", p, NoLink))) == Operation(Tree(h), Operand(op, Tree(p), NoOperand))
  {
    var l := Link(op, "", p, NoLink);
    assert LinksTree(l.more) == NoOperand && LinksTree(l) == Operand(op, Tree(p), NoOperand);
  }

  lemma TreeOfTwo(h: Phrase, x: char, p: Phrase, y: char, q: Phrase)
    ensures Tree(Chain(h, Link(x, "", p, Link(y, "", q, NoLink))))
         == Operation(Tree(h), Operand(x, Tree(p), Operand(y, Tree(q), NoOperand)))
  {
    var last := Link(y, "", q, NoLink);
    var l := Link(x, "", p, last);
    assert LinksTree(last.more) == NoOperand && LinksTree(last) == Operand(y, Tree(q), NoOperand);
    assert LinksTree(l) == Operand(x, Tree(p), LinksTree(last));
  }
}
