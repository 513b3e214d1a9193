/** The parser as the source runs it: loops that move a cursor and append what they read. */
module ExpressionCode {
  import opened Expressions

  method PassSpaces(s: string) returns (rest: string)
    ensures rest == SkipSpaces(s)
  {
    rest := s;
    while rest != "" && IsSpace(rest[0])
      invariant SkipSpaces(rest) == SkipSpaces(s)
      decreases |rest|
    {
      rest := rest[1..];
    }
  }

  method ReadId(s: string) returns (r: Result<string>)
    ensures r == ParseId(s)
  {
    if s == "" || !IsLetter(s[0]) { return Error; }
    var n := 1;
    while n < |s| && IsIdChar(s[n])
      invariant 1 <= n <= |s| && n + IdSpan(s[n..]) == 1 + IdSpan(s[1..])
    {
      assert s[n..][1..] == s[n + 1..];
      n := n + 1;
    }
    return Ok(s[..n], s[n..]);
  }

  // ----- operations -----

  function Concat(o: Operands, p: Operands): Operands {
    match o
    case NoOperand => p
    case Operand(op, e, more) => Operand(op, e, Concat(more, p))
  }

  lemma {:induction false} ConcatPush(o: Operands, op: char, e: Expr, p: Operands)
    ensures Concat(Concat(o, Operand(op, e, NoOperand)), p) == Concat(o, Operand(op, e, p))
    decreases o
  {
    match o
    case NoOperand =>
    case Operand(_, _, more) => ConcatPush(more, op, e, p);
  }

  lemma {:induction false} ConcatNone(o: Operands)
    ensures Concat(o, NoOperand) == o
    decreases o
  {
    match o
    case NoOperand =>
    case Operand(_, _, more) => ConcatNone(more);
  }

  /** The operands already read, in front of those still to come. */
  ghost function After(o: Operands, r: Result<Operands>): Result<Operands> {
    match r
    case Error => Error
    case Ok(p, rest) => Ok(Concat(o, p), rest)
  }

  /** One turn of the loop over the operands. */
  lemma OperandTurn(strtod: Strtod, s: string, level: nat, done: Operands)
    requires 1 <= level <= 6 && OpLevel(s) == level
    ensures var r := ParseLevel(strtod, SkipSpaces(s[1..]), level + 1);
      && (r.Error? ==> ParseOperands(strtod, s, level).Error?)
      && (r.Ok? ==>
            After(done, ParseOperands(strtod, s, level)) ==
              After(Concat(done, Operand(s[0], r.value, NoOperand)), ParseOperands(strtod, r.rest, level)))
  {
    hide ParseLevel, OpLevel, SkipSpaces;
    var r := ParseLevel(strtod, SkipSpaces(s[1..]), level + 1);
    if r.Ok? && ParseOperands(strtod, r.rest, level).Ok? {
      ConcatPush(done, s[0], r.value, ParseOperands(strtod, r.rest, level).value);
    }
  }

  method ReadLevel(strtod: Strtod, s: string, level: nat) returns (r: Result<Expr>)
    requires 1 <= level <= 7
    ensures r == ParseLevel(strtod, s, level)
    decreases |s|, 10 - level
  {
    hide ParseOperands, ParseTerm;
    if level == 7 {
      r := ReadTerm(strtod, s);
      return;
    }
    var first := ReadLevel(strtod, s, level + 1);
    if first.Error? { return Error; }
    if OpLevel(first.rest) != level { return first; }
    var operands, cursor := NoOperand, first.rest;
    OperandsStart(ParseOperands(strtod, cursor, level));
    while OpLevel(cursor) == level
      invariant |cursor| <= |first.rest|
      invariant After(operands, ParseOperands(strtod, cursor, level)) == ParseOperands(strtod, first.rest, level)
      decreases |cursor|
    {
      OperandTurn(strtod, cursor, level, operands);
      var op, next := cursor[0], cursor[1..];
      next := PassSpaces(next);
      var operand := ReadLevel(strtod, next, level + 1);
      if operand.Error? { return Error; }
      operands := Concat(operands, Operand(op, operand.value, NoOperand));
      cursor := operand.rest;
    }
    OperandsEnd(strtod, cursor, level, operands);
    return Ok(Operation(first.value, operands), cursor);
  }

  lemma OperandsStart(r: Result<Operands>)
    ensures After(NoOperand, r) == r
  {
  }

  lemma OperandsEnd(strtod: Strtod, s: string, level: nat, done: Operands)
    requires 1 <= level <= 6 && OpLevel(s) != level
    ensures After(done, ParseOperands(strtod, s, level)) == Ok(done, s)
  {
    ConcatNone(done);
  }

  method ReadTerm(strtod: Strtod, s: string) returns (r: Result<Expr>)
    ensures r == ParseTerm(strtod, s)
    decreases |s|, 2
  {
    hide ParseLevel, ParseReference;
    if Peek(s) == '(' {
      var term := PassSpaces(s[1..]);
      r := ReadLevel(strtod, term, 1);
      if r.Error? { return; }
      if Peek(r.rest) != ')' { return Error; }
      term := PassSpaces(r.rest[1..]);
      return Ok(r.value, term);
    } else if Peek(s) == '$' {
      r := ReadReference(strtod, s);
    } else if '.' in s {
      r := ParseFloat(strtod, s);
    } else {
      var scan := Strtol(s);
      if !scan.Scanned? { return Error; }
      var rest := PassSpaces(s[scan.length..]);
      return Ok(Int(scan.number), rest);
    }
  }

  // ----- references -----

  function Join(a: Subs, b: Subs): Subs {
    match a
    case NoSub => b
    case Index(e, tail) => Index(e, Join(tail, b))
    case Member(name, tail) => Member(name, Join(tail, b))
  }

  lemma {:induction false} JoinAssoc(a: Subs, b: Subs, c: Subs)
    ensures Join(Join(a, b), c) == Join(a, Join(b, c)) && Join(a, NoSub) == a
    decreases a
  {
    match a
    case NoSub =>
    case Index(_, tail) => JoinAssoc(tail, b, c);
    case Member(_, tail) => JoinAssoc(tail, b, c);
  }

  ghost function AfterSubs(a: Subs, r: Result<Subs>): Result<Subs> {
    match r
    case Error => Error
    case Ok(b, rest) => Ok(Join(a, b), rest)
  }

  /** One turn of the loop over the accessors. */
  lemma SubTurn(done: Subs, one: Subs, r: Result<Subs>)
    ensures AfterSubs(Join(done, one), r) == AfterSubs(done, AfterSubs(one, r))
    ensures AfterSubs(NoSub, r) == r
  {
    if r.Ok? { JoinAssoc(done, one, r.value); }
  }

  method ReadSubs(strtod: Strtod, s: string) returns (r: Result<Subs>)
    ensures r == ParseSubs(strtod, s)
    decreases |s|, 1
  {
    hide ParseLevel, ParseId, Join, SkipSpaces;
    var subs, cursor := NoSub, s;
    SubTurn(NoSub, NoSub, ParseSubs(strtod, s));
    while Peek(cursor) == '[' || Peek(cursor) == '.'
      invariant |cursor| <= |s|
      invariant AfterSubs(subs, ParseSubs(strtod, cursor)) == ParseSubs(strtod, s)
      decreases |cursor|
    {
      if Peek(cursor) == '[' {
        var t := PassSpaces(cursor[1..]);
        var index := ReadLevel(strtod, t, 1);
        if index.Error? { return Error; }
        if Peek(index.rest) != ']' { return Error; }
        var next := PassSpaces(index.rest[1..]);
        IndexTurn(strtod, cursor, subs);
        subs, cursor := Join(subs, Index(index.value, NoSub)), next;
      } else {
        var t := PassSpaces(cursor[1..]);
        var name := ReadId(t);
        if name.Error? { return Error; }
        var next := PassSpaces(name.rest);
        MemberTurn(strtod, cursor, subs);
        subs, cursor := Join(subs, Member(name.value, NoSub)), next;
      }
    }
    JoinAssoc(subs, NoSub, NoSub);
    return Ok(subs, cursor);
  }

  lemma IndexTurn(strtod: Strtod, s: string, done: Subs)
    requires Peek(s) == '['
    ensures var r := ParseLevel(strtod, SkipSpaces(s[1..]), 1);
      r.Ok? && Peek(r.rest) == ']' ==>
        AfterSubs(done, ParseSubs(strtod, s)) ==
          AfterSubs(Join(done, Index(r.value, NoSub)), ParseSubs(strtod, SkipSpaces(r.rest[1..])))
  {
    hide ParseLevel, SkipSpaces;
    var r := ParseLevel(strtod, SkipSpaces(s[1..]), 1);
    if r.Ok? && Peek(r.rest) == ']' {
      SubTurn(done, Index(r.value, NoSub), ParseSubs(strtod, SkipSpaces(r.rest[1..])));
    }
  }

  lemma MemberTurn(strtod: Strtod, s: string, done: Subs)
    requires Peek(s) == '.'
    ensures var r := ParseId(SkipSpaces(s[1..]));
      r.Ok? ==>
        AfterSubs(done, ParseSubs(strtod, s)) == AfterSubs(Join(done, Member(r.value, NoSub)),
                                                           ParseSubs(strtod, SkipSpaces(r.rest)))
  {
    hide ParseLevel, SkipSpaces, ParseId;
    var r := ParseId(SkipSpaces(s[1..]));
    if r.Ok? {
      SubTurn(done, Member(r.value, NoSub), ParseSubs(strtod, SkipSpaces(r.rest)));
    }
  }

  method FindBrace(s: string) returns (n: nat)
    ensures n == FormatSpan(s)
  {
    n := 0;
    while n < |s| && s[n] != '}'
      invariant n <= |s| && n + FormatSpan(s[n..]) == FormatSpan(s)
    {
      assert s[n..][1..] == s[n + 1..];
      n := n + 1;
    }
  }

  method ReadReference(strtod: Strtod, s: string) returns (r: Result<Expr>)
    requires Peek(s) == '$'
    ensures r == ParseReference(strtod, s)
    decreases |s|, 1
  {
    hide ParseSubs, ParseId, SkipSpaces, FormatSpan;
    var ref, braced := s[1..], false;
    if Peek(ref) == '{' {
      braced := true;
      assert ref[1..] == s[2..];
      ref := PassSpaces(ref[1..]);
    }
    var id := ReadId(ref);
    if id.Error? { return Error; }
    ref := PassSpaces(id.rest);
    var subs := ReadSubs(strtod, ref);
    if subs.Error? { return Error; }
    ref := subs.rest;
    var format: nat := 0;
    if Peek(ref) == ':' {
      format := FindBrace(ref);
    }
    var result := Reference(id.value, subs.value, ref[..format]);
    ref := ref[format..];
    if braced {
      if Peek(ref) != '}' { return Error; }
      ref := PassSpaces(ref[1..]);
    }
    return Ok(result, ref);
  }

  method ReadValue(strtod: Strtod, s: string) returns (r: Parsed)
    ensures r == ParseValue(strtod, s)
  {
    hide ParseLevel;
    var cursor := PassSpaces(s);
    var e := ReadLevel(strtod, cursor, 1);
    if e.Ok? {
      cursor := PassSpaces(e.rest);
      if cursor == "" { return Expression(e.value); }
    }
    return StringLiteral(s);
  }
}
