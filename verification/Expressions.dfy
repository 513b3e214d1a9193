/** Value expressions: the trees and the cursor-moving recursive descent that reads them. A cursor is
    the text that remains; a text holds no NUL character. Reading a floating-point number is left to
    a function that gives its value and length, as `strtod` does. */
module Expressions {
  import opened Options

  datatype Expr =
    | Int(value: int)
    | Float(number: real)
    | Reference(id: string, subs: Subs, format: string)
    | Operation(first: Expr, operands: Operands)

  datatype Operands = NoOperand | Operand(op: char, operand: Expr, more: Operands)

  datatype Subs = NoSub | Index(index: Expr, tail: Subs) | Member(name: string, tail: Subs)

  type Strtod = string -> (nat, real)

  datatype Result<T> = Error | Ok(value: T, rest: string)

  // ----- characters -----

  predicate IsSpace(c: char) {
    c == ' ' || '\t' <= c <= '\r'
  }

  predicate IsLetter(c: char) {
    'a' <= c <= 'z' || 'A' <= c <= 'Z' || c == '_'
  }

  predicate IsDigit(c: char) {
    '0' <= c <= '9'
  }

  predicate IsIdChar(c: char) {
    IsLetter(c) || IsDigit(c)
  }

  /** What the cursor points at; NUL at the end. */
  function Peek(s: string): char {
    if s == "" then '\0' else s[0]
  }

  function SkipSpaces(s: string): (rest: string)
    ensures |rest| <= |s|
  {
    if s != "" && IsSpace(s[0]) then SkipSpaces(s[1..]) else s
  }

  /** The precedence of the operator a text starts with, 0 if it does not. */
  function OpLevel(s: string): (level: nat)
    ensures level <= 6 && (level > 0 ==> s != "")
  {
    if s == "" then 0
    else
      match s[0]
      case '|' => 1
      case '&' => 2
      case '=' => 3
      case '>' => 4
      case '<' => 4
      case '+' => 5
      case '-' => 5
      case '*' => 6
      case '/' => 6
      case '%' => 6
      case _ => 0
  }

  // ----- strtol in base 0 -----

  const LONG_MAX := 0x7FFF_FFFF_FFFF_FFFF
  const LONG_MIN := -0x8000_0000_0000_0000

  datatype Scan = NoInt | OutOfRange | Scanned(number: int, length: nat)

  /** The value of a digit, at least 16 for anything else. */
  function Digit(c: char): nat {
    if IsDigit(c) then (c - '0') as nat
    else if 'a' <= c <= 'f' then (c - 'a') as nat + 10
    else if 'A' <= c <= 'F' then (c - 'A') as nat + 10
    else 16
  }

  /** How many digits of the base a text starts with. */
  function DigitSpan(s: string, base: nat): (n: nat)
    ensures n <= |s|
  {
    if s != "" && Digit(s[0]) < base then 1 + DigitSpan(s[1..], base) else 0
  }

  function DigitsValue(s: string, base: nat): nat {
    if s == "" then 0 else DigitsValue(s[..|s| - 1], base) * base + Digit(s[|s| - 1])
  }

  predicate IsHex(s: string) {
    |s| >= 3 && s[0] == '0' && (s[1] == 'x' || s[1] == 'X') && Digit(s[2]) < 16
  }

  /** The base, and how many characters announce it. */
  function BaseOf(s: string): (nat, nat) {
    if IsHex(s) then (16, 2) else if s != "" && s[0] == '0' then (8, 0) else (10, 0)
  }

  function Unsigned(s: string): (r: Option<(nat, nat)>)
    ensures r.Some? ==> 0 < r.value.1 <= |s|
  {
    var (base, skip) := BaseOf(s);
    var n := DigitSpan(s[skip..], base);
    if n == 0 then None else Some((DigitsValue(s[skip..skip + n], base), skip + n))
  }

  function SignLength(s: string): (n: nat)
    ensures n <= |s| && n <= 1
  {
    if s != "" && (s[0] == '-' || s[0] == '+') then 1 else 0
  }

  function Strtol(s: string): (r: Scan)
    ensures r.Scanned? ==> 0 < r.length <= |s| && LONG_MIN <= r.number <= LONG_MAX
  {
    var t := SkipSpaces(s);
    var sign := SignLength(t);
    match Unsigned(t[sign..])
    case None => NoInt
    case Some((n, length)) =>
      var value: int := if sign == 1 && t[0] == '-' then 0 - n else n;
      if value < LONG_MIN || value > LONG_MAX then OutOfRange
      else Scanned(value, |s| - |t| + sign + length)
  }

  // ----- the parser -----

  function IdSpan(s: string): (n: nat)
    ensures n <= |s|
  {
    if s != "" && IsIdChar(s[0]) then 1 + IdSpan(s[1..]) else 0
  }

  function ParseId(s: string): (r: Result<string>)
    ensures r.Ok? ==> |r.rest| < |s|
  {
    if s == "" || !IsLetter(s[0]) then Error
    else Ok(s[..1 + IdSpan(s[1..])], s[1 + IdSpan(s[1..])..])
  }

  function ParseInt(s: string): (r: Result<Expr>)
    ensures r.Ok? ==> |r.rest| <= |s|
  {
    match Strtol(s)
    case NoInt => Error
    case OutOfRange => Error
    case Scanned(value, length) => Ok(Int(value), SkipSpaces(s[length..]))
  }

  function ParseFloat(strtod: Strtod, s: string): (r: Result<Expr>)
    ensures r.Ok? ==> |r.rest| <= |s|
  {
    var (length, value) := strtod(s);
    if length == 0 || length > |s| then Error else Ok(Float(value), SkipSpaces(s[length..]))
  }

  function ParseLevel(strtod: Strtod, s: string, level: nat): (r: Result<Expr>)
    requires 1 <= level <= 7
    ensures r.Ok? ==> |r.rest| <= |s|
    decreases |s|, 10 - level
  {
    if level == 7 then ParseTerm(strtod, s)
    else
      match ParseLevel(strtod, s, level + 1)
      case Error => Error
      case Ok(e, rest) =>
        if OpLevel(rest) != level then Ok(e, rest)
        else
          match ParseOperands(strtod, rest, level)
          case Error => Error
          case Ok(operands, rest') => Ok(Operation(e, operands), rest')
  }

  function ParseOperands(strtod: Strtod, s: string, level: nat): (r: Result<Operands>)
    requires 1 <= level <= 6
    ensures r.Ok? ==> |r.rest| <= |s|
    decreases |s|, 1
  {
    if OpLevel(s) != level then Ok(NoOperand, s)
    else
      match ParseLevel(strtod, SkipSpaces(s[1..]), level + 1)
      case Error => Error
      case Ok(e, rest) =>
        match ParseOperands(strtod, rest, level)
        case Error => Error
        case Ok(more, rest') => Ok(Operand(s[0], e, more), rest')
  }

  function ParseTerm(strtod: Strtod, s: string): (r: Result<Expr>)
    ensures r.Ok? ==> |r.rest| <= |s|
    decreases |s|, 2
  {
    if Peek(s) == '(' then
      match ParseLevel(strtod, SkipSpaces(s[1..]), 1)
      case Error => Error
      case Ok(e, rest) => if Peek(rest) != ')' then Error else Ok(e, SkipSpaces(rest[1..]))
    else if Peek(s) == '$' then ParseReference(strtod, s)
    else if '.' in s then ParseFloat(strtod, s)
    else ParseInt(s)
  }

  /** The position of the first closing brace, or the end. */
  function FormatSpan(s: string): (n: nat)
    ensures n <= |s|
  {
    if s != "" && s[0] != '}' then 1 + FormatSpan(s[1..]) else 0
  }

  function FormatOf(s: string): (n: nat)
    ensures n <= |s|
  {
    if Peek(s) == ':' then FormatSpan(s) else 0
  }

  function ParseReference(strtod: Strtod, s: string): (r: Result<Expr>)
    requires Peek(s) == '$'
    ensures r.Ok? ==> |r.rest| <= |s|
    decreases |s|, 1
  {
    var braced := Peek(s[1..]) == '{';
    match ParseId(if braced then SkipSpaces(s[2..]) else s[1..])
    case Error => Error
    case Ok(id, rest) =>
      match ParseSubs(strtod, SkipSpaces(rest))
      case Error => Error
      case Ok(subs, rest') =>
        var n := FormatOf(rest');
        var end := rest'[n..];
        var result := Reference(id, subs, rest'[..n]);
        if !braced then Ok(result, end)
        else if Peek(end) != '}' then Error
        else Ok(result, SkipSpaces(end[1..]))
  }

  function ParseSubs(strtod: Strtod, s: string): (r: Result<Subs>)
    ensures r.Ok? ==> |r.rest| <= |s|
    decreases |s|, 1
  {
    if Peek(s) == '[' then
      match ParseLevel(strtod, SkipSpaces(s[1..]), 1)
      case Error => Error
      case Ok(e, rest) =>
        if Peek(rest) != ']' then Error
        else
          match ParseSubs(strtod, SkipSpaces(rest[1..]))
          case Error => Error
          case Ok(tail, rest') => Ok(Index(e, tail), rest')
    else if Peek(s) == '.' then
      match ParseId(SkipSpaces(s[1..]))
      case Error => Error
      case Ok(name, rest) =>
        match ParseSubs(strtod, SkipSpaces(rest))
        case Error => Error
        case Ok(tail, rest') => Ok(Member(name, tail), rest')
    else Ok(NoSub, s)
  }

  /** A text that is not an expression as a whole is a string literal. */
  datatype Parsed = Expression(expr: Expr) | StringLiteral(text: string)

  function ParseValue(strtod: Strtod, s: string): Parsed {
    match ParseLevel(strtod, SkipSpaces(s), 1)
    case Error => StringLiteral(s)
    case Ok(e, rest) => if SkipSpaces(rest) == "" then Expression(e) else StringLiteral(s)
  }
}
