/** The `strtod` of the C library, by section 7.22.1.3 of ISO/IEC 9899:2011 in the "C" locale: it reads the longest
    start of the text that has the form of a number. What the parser asks of its reader, this one does. */
module FloatReader {
  import opened Expressions
  import opened ExpressionGrammar
  import opened ExpressionLanguage

  /** What was read so far. A `Point` comes after digits, a `Dot` without any before it. */
  datatype State =
    | Spaced | Signed
    | Word(rest: string, next: State) | Inf | Infinity | Nan | NanOpen | NanClosed
    | Zero | HexMark | HexDigits | HexDot | HexPoint | HexFraction | HexPower | HexPowerSign | HexExponent
    | Digits | Dot | Point | Fraction | Power | PowerSign | Exponent
    | Dead

  predicate IsHexDigit(c: char) {
    IsDigit(c) || 'a' <= c <= 'f' || 'A' <= c <= 'F'
  }

  predicate IsSign(c: char) {
    c == '+' || c == '-'
  }

  /** A lower-case letter in either case. */
  predicate IsEither(c: char, letter: char) {
    c == letter || ('A' <= c <= 'Z' && c - 'A' + 'a' == letter)
  }

  function Begin(c: char): State {
    if c == '0' then Zero
    else if IsDigit(c) then Digits
    else if c == '.' then Dot
    else if IsEither(c, 'i') then Word("nf", Inf)
    else if IsEither(c, 'n') then Word("an", Nan)
    else Dead
  }

  function Step(q: State, c: char): State {
    match q
    case Spaced => if IsSpace(c) then Spaced else if IsSign(c) then Signed else Begin(c)
    case Signed => Begin(c)
    case Word(rest, next) =>
      if rest == "" || !IsEither(c, rest[0]) then Dead else if |rest| == 1 then next else Word(rest[1..], next)
    case Inf => if IsEither(c, 'i') then Word("nity", Infinity) else Dead
    case Infinity => Dead
    case Nan => if c == '(' then NanOpen else Dead
    case NanOpen => if IsIdChar(c) then NanOpen else if c == ')' then NanClosed else Dead
    case NanClosed => Dead
    case Zero =>
      if IsEither(c, 'x') then HexMark
      else if IsDigit(c) then Digits
      else if c == '.' then Point
      else if IsEither(c, 'e') then Power
      else Dead
    case HexMark => if IsHexDigit(c) then HexDigits else if c == '.' then HexDot else Dead
    case HexDigits =>
      if IsHexDigit(c) then HexDigits else if c == '.' then HexPoint else if IsEither(c, 'p') then HexPower else Dead
    case HexDot => if IsHexDigit(c) then HexFraction else Dead
    case HexPoint => if IsHexDigit(c) then HexFraction else if IsEither(c, 'p') then HexPower else Dead
    case HexFraction => if IsHexDigit(c) then HexFraction else if IsEither(c, 'p') then HexPower else Dead
    case HexPower => if IsSign(c) then HexPowerSign else if IsDigit(c) then HexExponent else Dead
    case HexPowerSign => if IsDigit(c) then HexExponent else Dead
    case HexExponent => if IsDigit(c) then HexExponent else Dead
    case Digits => if IsDigit(c) then Digits else if c == '.' then Point else if IsEither(c, 'e') then Power else Dead
    case Dot => if IsDigit(c) then Fraction else Dead
    case Point => if IsDigit(c) then Fraction else if IsEither(c, 'e') then Power else Dead
    case Fraction => if IsDigit(c) then Fraction else if IsEither(c, 'e') then Power else Dead
    case Power => if IsSign(c) then PowerSign else if IsDigit(c) then Exponent else Dead
    case PowerSign => if IsDigit(c) then Exponent else Dead
    case Exponent => if IsDigit(c) then Exponent else Dead
    case Dead => Dead
  }

  /** What was read is a number. */
  predicate Final(q: State) {
    || q.Inf? || q.Infinity? || q.Nan? || q.NanClosed?
    || q.Zero? || q.HexDigits? || q.HexPoint? || q.HexFraction? || q.HexExponent?
    || q.Digits? || q.Point? || q.Fraction? || q.Exponent?
  }

  function After(q: State, s: string): State
    decreases s
  {
    if s == "" then q else After(Step(q, s[0]), s[1..])
  }

  predicate IsFloatText(s: string) {
    Final(After(Spaced, s))
  }

  /** The length of the longest start that ends well, -1 if none does. */
  function Longest(q: State, s: string): (n: int)
    ensures -1 <= n <= |s|
    decreases s
  {
    var more := if s == "" then -1 else Longest(Step(q, s[0]), s[1..]);
    if more >= 0 then more + 1 else if Final(q) then 0 else -1
  }

  /** Whatever number a text stands for. Without a number nothing is read. */
  function Read(number: string -> real, s: string): (nat, real) {
    var n := Longest(Spaced, s);
    if n < 0 then (0, 0.0) else (n, number(s[..n]))
  }

  function Reader(number: string -> real): Strtod {
    s => Read(number, s)
  }

  // ----- what is read -----

  lemma {:induction false} LongestIs(q: State, s: string, k: nat)
    requires k <= |s|
    ensures Longest(q, s) >= 0 ==> Final(After(q, s[..Longest(q, s)]))
    ensures Final(After(q, s[..k])) ==> k <= Longest(q, s)
    decreases s
  {
    hide Step, Final;
    if s != "" {
      var q' := Step(q, s[0]);
      LongestIs(q', s[1..], if k == 0 then 0 else k - 1);
      FirstStep(q, s, Longest(q', s[1..]));
      if k > 0 { FirstStep(q, s, k - 1); }
    }
  }

  lemma FirstStep(q: State, s: string, n: int)
    requires s != "" && n < |s|
    ensures n >= 0 ==> After(q, s[..n + 1]) == After(Step(q, s[0]), s[1..][..n])
  {
    hide Step;
    if n >= 0 { assert s[..n + 1][1..] == s[1..][..n]; }
  }

  /** The reader takes the longest start that has the form of a number, and only such. */
  lemma ReadsLongest(number: string -> real, s: string, k: nat)
    requires k <= |s|
    ensures var (n, x) := Reader(number)(s);
      n <= |s| && (n > 0 ==> IsFloatText(s[..n]) && x == number(s[..n])) && (IsFloatText(s[..k]) ==> k <= n)
  {
    hide Step;
    LongestIs(Spaced, s, k);
    LongestIs(Spaced, s, 0);
  }

  // ----- what the parser asks for -----

  lemma {:induction false} LongestAlone(q: State, s: string)
    requires Longest(q, s) >= 0
    ensures Longest(q, s[..Longest(q, s)]) == Longest(q, s)
    decreases s
  {
    hide Step, Final;
    var n := Longest(q, s);
    if n > 0 {
      assert s[..n][1..] == s[1..][..n - 1];
      LongestAlone(Step(q, s[0]), s[1..]);
    }
  }

  lemma {:induction false} DeadForEver(s: string)
    ensures Longest(Dead, s) == -1
    decreases s
  {
    if s != "" { DeadForEver(s[1..]); }
  }

  /** No number goes on over what comes after a number. */
  lemma DelimiterEnds(q: State, post: string)
    requires Final(q) && post != "" && Delimits(post)
    ensures Step(q, post[0]) == Dead
  {
  }

  lemma {:induction false} LongestBefore(q: State, t: string, post: string)
    requires Longest(q, t) == |t| && Delimits(post)
    ensures Longest(q, t + post) == |t|
    decreases t
  {
    hide Step, Final, Delimits;
    if t == "" {
      assert t + post == post;
      if post != "" {
        DelimiterEnds(q, post);
        DeadForEver(post[1..]);
      }
    } else {
      assert (t + post)[0] == t[0] && (t + post)[1..] == t[1..] + post;
      LongestBefore(Step(q, t[0]), t[1..], post);
    }
  }

  /** So every result about the parser holds of the parser that calls the C library. */
  lemma ReaderFits(number: string -> real)
    ensures Delimited(Reader(number)) && Prefixed(Reader(number))
  {
    hide Longest, Delimits;
    var strtod := Reader(number);
    forall t, post
      ensures ReadsAlone(strtod, t, post)
    {
      if t != "" && strtod(t).0 == |t| && Delimits(post) {
        LongestBefore(Spaced, t, post);
        assert (t + post)[..|t|] == t == t[..|t|];
      }
    }
    forall s
      ensures ReadsPrefix(strtod, s)
    {
      var n := strtod(s).0;
      if 0 < n <= |s| {
        LongestAlone(Spaced, s);
        assert s[..n][..n] == s[..n];
      }
    }
  }

  /** The language of the parser that calls the C library. */
  lemma AcceptedByLibraryIff(number: string -> real, s: string, e: Expr)
    ensures ParseValue(Reader(number), s) == Expression(e) <==>
      exists front, p :: SpeltBy(Reader(number), s, e, front, p)
  {
    hide *;
    ReaderFits(number);
    AcceptedIff(Reader(number), s, e);
  }

  /** A parenthesis behind `nan` is read, although no phrase is followed by one. */
  lemma NanParenthesis(number: string -> real)
    ensures Reader(number)("nan").0 == 3 && Reader(number)("nan(1)").0 == 6
  {
    hide Longest;
    NanAlone();
    NanOn();
  }

  lemma NanAlone()
    ensures Longest(Spaced, "nan") == 3
  {
    hide Step;
    Letters();
    assert "n"[1..] == "" && Longest(Nan, "") == 0;
    assert "an"[1..] == "n" && Longest(Word("an", Nan), "an") == 2;
    assert "nan"[1..] == "an";
  }

  lemma NanOn()
    ensures Longest(Spaced, "nan(1)") == 6
  {
    hide Step;
    Letters();
    NanArgument();
    assert "n(1)"[1..] == "(1)" && Longest(Word("n", Nan), "n(1)") == 4;
    assert "an(1)"[1..] == "n(1)" && Longest(Word("an", Nan), "an(1)") == 5;
    assert "nan(1)"[1..] == "an(1)";
  }

  lemma NanArgument()
    ensures Longest(Nan, "(1)") == 3
  {
    hide Step;
    Letters();
    assert ")"[1..] == "" && Longest(NanOpen, ")") == 1;
    assert "1)"[1..] == ")" && Longest(NanOpen, "1)") == 2;
    assert "(1)"[1..] == "1)";
  }

  lemma Letters()
    ensures Step(Spaced, 'n') == Word("an", Nan) && Step(Word("an", Nan), 'a') == Word("n", Nan)
    ensures Step(Word("n", Nan), 'n') == Nan && Step(Nan, '(') == NanOpen && Step(NanOpen, '1') == NanOpen
    ensures Step(NanOpen, ')') == NanClosed
  {
    assert "an"[1..] == "n";
  }
}
