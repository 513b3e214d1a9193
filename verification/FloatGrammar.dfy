/** The form of floating-point numbers as the C standard describes it, part by part, against the automaton that reads
    them. */
module FloatGrammar {
  import opened Expressions
  import opened FloatReader

  // ----- the form of a number -----

  /** How many digits a text starts with. */
  function DigitRun(s: string, hex: bool): (n: nat)
    ensures n <= |s|
  {
    if s != "" && IsDigitOf(hex, s[0]) then 1 + DigitRun(s[1..], hex) else 0
  }

  predicate IsDigitOf(hex: bool, c: char) {
    if hex then IsHexDigit(c) else IsDigit(c)
  }

  function Letter(hex: bool): char {
    if hex then 'p' else 'e'
  }

  predicate AllDigits(s: string) {
    DigitRun(s, false) == |s|
  }

  /** Nothing, or the letter, an optional sign and decimal digits. */
  predicate IsExponent(s: string, letter: char) {
    s == "" ||
    (&& IsEither(s[0], letter)
     && var t := s[1..];
     var digits := if t != "" && IsSign(t[0]) then t[1..] else t;
     digits != "" && AllDigits(digits))
  }

  /** Digits with at most one dot among them, at least one digit, and an exponent. */
  predicate IsPositional(s: string, hex: bool) {
    var letter, a := Letter(hex), DigitRun(s, hex);
    var t := s[a..];
    if t != "" && t[0] == '.' then
      var b := DigitRun(t[1..], hex);
      a + b > 0 && IsExponent(t[1 + b..], letter)
    else
      a > 0 && IsExponent(t, letter)
  }

  predicate IsHexadecimal(s: string) {
    |s| >= 2 && s[0] == '0' && IsEither(s[1], 'x') && IsPositional(s[2..], true)
  }

  /** The word, in either case of each letter. */
  predicate IsWord(s: string, word: string) {
    |s| == |word| && forall i | 0 <= i < |s| :: IsEither(s[i], word[i])
  }

  predicate IsNan(s: string) {
    IsWord(s, "nan") ||
    (|s| >= 5 && IsWord(s[..3], "nan") && s[3] == '(' && s[|s| - 1] == ')' &&
     forall i | 4 <= i < |s| - 1 :: IsIdChar(s[i]))
  }

  predicate IsUnsigned(s: string) {
    IsPositional(s, false) || IsHexadecimal(s) || IsWord(s, "inf") || IsWord(s, "infinity") || IsNan(s)
  }

  predicate IsFloat(s: string) {
    var t := SkipSpaces(s);
    IsUnsigned(if t != "" && IsSign(t[0]) then t[1..] else t)
  }

  // ----- the automaton, from its end -----

  predicate Accepts(q: State, s: string) {
    Final(After(q, s))
  }

  lemma AcceptsStep(q: State, s: string)
    ensures Accepts(q, s) <==> if s == "" then Final(q) else Accepts(Step(q, s[0]), s[1..])
  {
    hide Step, Final;
  }

  lemma {:induction false} DeadRejects(s: string)
    ensures !Accepts(Dead, s)
    decreases s
  {
    if s != "" { DeadRejects(s[1..]); }
  }

  lemma {:induction false} ExponentIs(q: State, s: string)
    requires q == Exponent || q == HexExponent
    ensures Accepts(q, s) <==> AllDigits(s)
    decreases s
  {
    AcceptsStep(q, s);
    if s != "" {
      DeadRejects(s[1..]);
      ExponentIs(q, s[1..]);
    }
  }

  lemma PowerSignIs(q: State, s: string)
    requires q == PowerSign || q == HexPowerSign
    ensures Accepts(q, s) <==> s != "" && AllDigits(s)
  {
    AcceptsStep(q, s);
    if s != "" {
      DeadRejects(s[1..]);
      ExponentIs(if q == PowerSign then Exponent else HexExponent, s[1..]);
    }
  }

  lemma PowerIs(q: State, s: string)
    requires q == Power || q == HexPower
    ensures Accepts(q, s) <==>
      var digits := if s != "" && IsSign(s[0]) then s[1..] else s;
      digits != "" && AllDigits(digits)
  {
    AcceptsStep(q, s);
    if s != "" {
      DeadRejects(s[1..]);
      ExponentIs(if q == Power then Exponent else HexExponent, s[1..]);
      PowerSignIs(if q == Power then PowerSign else HexPowerSign, s[1..]);
    }
  }

  /** The states among the digits before the dot, after it, and at the exponent. */
  function Among(hex: bool): State {
    if hex then HexDigits else Digits
  }

  function Behind(hex: bool, digits: bool): State {
    if hex then (if digits then HexFraction else HexPoint) else if digits then Fraction else Point
  }

  function AtDot(hex: bool): State {
    if hex then HexDot else Dot
  }

  function AtPower(hex: bool): State {
    if hex then HexPower else Power
  }

  lemma Steps(hex: bool, digits: bool, c: char)
    ensures Final(Among(hex)) && Final(Behind(hex, digits)) && !Final(AtDot(hex))
    ensures Step(Among(hex), c) ==
      if IsDigitOf(hex, c) then Among(hex)
      else if c == '.' then Behind(hex, false)
      else if IsEither(c, Letter(hex)) then AtPower(hex)
      else Dead
    ensures Step(Behind(hex, digits), c) ==
      if IsDigitOf(hex, c) then Behind(hex, true) else if IsEither(c, Letter(hex)) then AtPower(hex) else Dead
    ensures Step(AtDot(hex), c) == if IsDigitOf(hex, c) then Behind(hex, true) else Dead
  {
    NoDigit(c);
  }

  /** The letters of exponents are no digits. */
  lemma NoDigit(c: char)
    ensures IsEither(c, 'p') ==> !IsHexDigit(c) && !IsDigit(c)
    ensures IsEither(c, 'e') ==> !IsDigit(c)
    ensures IsEither(c, 'x') ==> !IsHexDigit(c) && !IsDigit(c) && c != '.' && !IsEither(c, 'e')
    ensures !IsDigit('.') && !IsHexDigit('.')
  {
  }

  lemma NoDigitOf(hex: bool, c: char)
    ensures IsEither(c, Letter(hex)) || c == '.' ==> !IsDigitOf(hex, c)
    ensures IsEither(c, Letter(hex)) ==> c != '.'
  {
    NoDigit(c);
  }

  lemma RunStep(hex: bool, s: string)
    requires s != ""
    ensures s[DigitRun(s, hex)..] == if IsDigitOf(hex, s[0]) then s[1..][DigitRun(s[1..], hex)..] else s
  {
    hide IsDigitOf;
  }

  /** An exponent is the letter and what comes after it. */
  lemma ExponentStep(hex: bool, s: string)
    requires s != ""
    ensures IsExponent(s, Letter(hex)) <==> IsEither(s[0], Letter(hex)) && Accepts(AtPower(hex), s[1..])
  {
    hide Accepts, AllDigits;
    PowerIs(AtPower(hex), s[1..]);
  }

  lemma {:induction false} FractionIs(hex: bool, digits: bool, s: string)
    ensures Accepts(Behind(hex, digits), s) <==> IsExponent(s[DigitRun(s, hex)..], Letter(hex))
    decreases s
  {
    hide Accepts, Behind, Step, Final, IsDigitOf, IsExponent, DigitRun, IsEither;
    AcceptsStep(Behind(hex, digits), s);
    if s == "" {
      Steps(hex, digits, '0');
      assert s[DigitRun(s, hex)..] == "";
      NoExponent(hex);
    } else {
      Steps(hex, digits, s[0]);
      DeadRejects(s[1..]);
      FractionIs(hex, true, s[1..]);
      RunStep(hex, s);
      ExponentStep(hex, s);
      NoDigitOf(hex, s[0]);
    }
  }

  lemma NoExponent(hex: bool)
    ensures IsExponent("", Letter(hex))
  {
  }

  lemma {:induction false} DigitsIs(hex: bool, s: string)
    ensures Accepts(Among(hex), s) <==>
      var t := s[DigitRun(s, hex)..];
      if t != "" && t[0] == '.' then IsExponent(t[1..][DigitRun(t[1..], hex)..], Letter(hex))
      else IsExponent(t, Letter(hex))
    decreases s
  {
    hide Accepts, Behind, Among, Step, Final, IsDigitOf, IsExponent, DigitRun, IsEither;
    AcceptsStep(Among(hex), s);
    if s == "" {
      Steps(hex, true, '0');
      assert s[DigitRun(s, hex)..] == "";
      NoExponent(hex);
    } else {
      Steps(hex, true, s[0]);
      DeadRejects(s[1..]);
      DigitsIs(hex, s[1..]);
      FractionIs(hex, false, s[1..]);
      RunStep(hex, s);
      ExponentStep(hex, s);
      NoDigitOf(hex, s[0]);
    }
  }

  lemma DotIs(hex: bool, s: string)
    ensures Accepts(AtDot(hex), s) <==> DigitRun(s, hex) > 0 && IsExponent(s[DigitRun(s, hex)..], Letter(hex))
  {
    hide Accepts, Behind, AtDot, Step, Final, IsDigitOf, IsExponent;
    AcceptsStep(AtDot(hex), s);
    if s == "" {
      Steps(hex, true, '0');
    } else {
      Steps(hex, true, s[0]);
      DeadRejects(s[1..]);
      FractionIs(hex, true, s[1..]);
      RunStep(hex, s);
    }
  }

  /** The start of a number without sign and prefix. */
  lemma PositionalIs(hex: bool, s: string)
    requires s != ""
    ensures IsPositional(s, hex) <==>
      || (IsDigitOf(hex, s[0]) && Accepts(Among(hex), s[1..]))
      || (s[0] == '.' && Accepts(AtDot(hex), s[1..]))
  {
    hide Accepts, IsExponent, IsDigitOf, Among, AtDot;
    DigitsIs(hex, s[1..]);
    DotIs(hex, s[1..]);
    RunStep(hex, s);
    NoDigitOf(hex, s[0]);
    PositionalSplit(hex, s);
  }

  lemma PositionalSplit(hex: bool, s: string)
    ensures IsPositional(s, hex) <==>
      var a := DigitRun(s, hex);
      var t := s[a..];
      if t != "" && t[0] == '.' then
        var b := DigitRun(t[1..], hex);
        a + b > 0 && IsExponent(t[1..][b..], Letter(hex))
      else
        a > 0 && IsExponent(t, Letter(hex))
  {
    hide IsExponent, DigitRun;
    var t := s[DigitRun(s, hex)..];
    if t != "" {
      var b := DigitRun(t[1..], hex);
      assert t[1..][b..] == t[1 + b..];
    }
  }

  lemma HexMarkIs(s: string)
    ensures Accepts(HexMark, s) <==> IsPositional(s, true)
  {
    hide IsPositional;
    AcceptsStep(HexMark, s);
    if s == "" {
      EmptyIsNone(true);
    } else {
      DeadRejects(s[1..]);
      PositionalIs(true, s);
    }
  }

  lemma EmptyIsNone(hex: bool)
    ensures !IsPositional("", hex)
  {
  }

  /** After a zero: a hexadecimal number if an `x` follows, else more digits. */
  lemma ZeroIs(s: string)
    ensures Accepts(Zero, s) <==>
      if s != "" && IsEither(s[0], 'x') then IsPositional(s[1..], true) else Accepts(Digits, s)
  {
    AcceptsStep(Zero, s);
    AcceptsStep(Digits, s);
    if s != "" {
      NoDigit(s[0]);
      HexMarkIs(s[1..]);
    }
  }

  lemma {:induction false} WordIs(word: string, next: State, s: string)
    requires word != ""
    ensures Accepts(Word(word, next), s) <==>
      |s| >= |word| && IsWord(s[..|word|], word) && Accepts(next, s[|word|..])
    decreases s
  {
    AcceptsStep(Word(word, next), s);
    if s != "" {
      DeadRejects(s[1..]);
      var n := |word|;
      if IsEither(s[0], word[0]) && n > 1 {
        WordIs(word[1..], next, s[1..]);
        if |s| >= n {
          assert s[..n] == [s[0]] + s[1..][..n - 1] && s[n..] == s[1..][n - 1..];
          WordStep(s[..n], word);
          assert s[..n][1..] == s[1..][..n - 1];
        }
      } else if n == 1 {
        assert |s[..1]| == 1 && s[..1][0] == s[0];
      } else if |s| >= n {
        assert s[..n][0] == s[0];
      }
    }
  }

  lemma WordStep(s: string, word: string)
    requires |s| == |word| && s != ""
    ensures IsWord(s, word) <==> IsEither(s[0], word[0]) && IsWord(s[1..], word[1..])
  {
    if IsEither(s[0], word[0]) && IsWord(s[1..], word[1..]) {
      forall i | 0 <= i < |s|
        ensures IsEither(s[i], word[i])
      {
        if i > 0 { assert s[1..][i - 1] == s[i] && word[1..][i - 1] == word[i]; }
      }
    }
  }

  lemma InfIs(s: string)
    ensures Accepts(Inf, s) <==> s == "" || IsWord(s, "inity")
  {
    AcceptsStep(Inf, s);
    if s != "" {
      DeadRejects(s[1..]);
      WordIs("nity", Infinity, s[1..]);
      assert "inity"[1..] == "nity";
      if |s| == 5 {
        WordStep(s, "inity");
        assert s[1..][..4] == s[1..] && s[1..][4..] == "";
      }
      if |s| >= 5 { InfinityIs(s[1..][4..]); }
    }
  }

  lemma InfinityIs(s: string)
    ensures Accepts(Infinity, s) <==> s == ""
  {
    AcceptsStep(Infinity, s);
    if s != "" { DeadRejects(s[1..]); }
  }

  lemma {:induction false} NanOpenIs(s: string)
    ensures Accepts(NanOpen, s) <==>
      s != "" && s[|s| - 1] == ')' && forall i | 0 <= i < |s| - 1 :: IsIdChar(s[i])
    decreases s
  {
    AcceptsStep(NanOpen, s);
    if s != "" {
      DeadRejects(s[1..]);
      NanOpenIs(s[1..]);
      NanClosedIs(s[1..]);
      if |s| > 1 { assert s[1..][|s| - 2] == s[|s| - 1]; }
      assert forall i | 0 <= i < |s| - 2 :: s[1..][i] == s[i + 1];
      if IsIdChar(s[0]) && |s| > 1 && (forall i | 0 <= i < |s| - 2 :: IsIdChar(s[1..][i])) {
        assert forall i | 1 <= i < |s| - 1 :: s[i] == s[1..][i - 1];
      }
    }
  }

  lemma NanClosedIs(s: string)
    ensures Accepts(NanClosed, s) <==> s == ""
  {
    AcceptsStep(NanClosed, s);
    if s != "" { DeadRejects(s[1..]); }
  }

  lemma NanIs(s: string)
    ensures Accepts(FloatReader.Nan, s) <==>
      s == "" || (|s| >= 2 && s[0] == '(' && s[|s| - 1] == ')' && forall i | 1 <= i < |s| - 1 :: IsIdChar(s[i]))
  {
    AcceptsStep(FloatReader.Nan, s);
    if s != "" {
      DeadRejects(s[1..]);
      NanOpenIs(s[1..]);
      assert |s| > 1 ==> s[1..][|s| - 2] == s[|s| - 1];
      assert forall i | 0 <= i < |s| - 2 :: s[1..][i] == s[i + 1];
      assert forall i | 1 <= i < |s| - 1 :: s[i] == s[1..][i - 1];
    }
  }

  // ----- the automaton from its start -----

  /** A number that starts with a digit, a dot, an `i` or an `n`. */
  lemma BeginIs(s: string)
    requires s != ""
    ensures Accepts(Begin(s[0]), s[1..]) <==> IsUnsigned(s)
  {
    hide Accepts, IsPositional, IsWord;
    PositionalIs(false, s);
    DeadRejects(s[1..]);
    if s[0] == '0' {
      ZeroIs(s[1..]);
      NotPositionalWithX(s);
      assert |s| >= 2 ==> s[1..][0] == s[1] && s[1..][1..] == s[2..];
    }
    FirstLetter(s);
    if IsEither(s[0], 'i') { InfWordsAre(s); }
    if IsEither(s[0], 'n') { NanWordsAre(s); }
  }

  /** With an `x` behind its zero a number is not decimal. */
  lemma NotPositionalWithX(s: string)
    requires s != "" && s[0] == '0'
    ensures |s| >= 2 && IsEither(s[1], 'x') ==> !IsPositional(s, false)
  {
    if |s| >= 2 && IsEither(s[1], 'x') {
      NoDigit(s[1]);
      assert DigitRun(s[1..], false) == 0 && DigitRun(s, false) == 1 && s[1..][0] == s[1];
    }
  }

  /** What words start with. */
  lemma FirstLetter(s: string)
    requires s != ""
    ensures IsWord(s, "inf") || IsWord(s, "infinity") ==> IsEither(s[0], 'i')
    ensures IsNan(s) ==> IsEither(s[0], 'n')
    ensures IsEither(s[0], 'i') || IsEither(s[0], 'n') ==> !IsDigit(s[0]) && s[0] != '.' && !IsHexadecimal(s)
    ensures IsEither(s[0], 'i') ==> !IsEither(s[0], 'n')
  {
    if |s| >= 5 { assert s[..3][0] == s[0]; }
  }

  lemma InfWordsAre(s: string)
    requires s != "" && IsEither(s[0], 'i')
    ensures Accepts(Word("nf", Inf), s[1..]) <==> IsWord(s, "inf") || IsWord(s, "infinity")
  {
    hide Accepts;
    WordIs("nf", Inf, s[1..]);
    if |s| >= 3 {
      InfIs(s[1..][2..]);
      assert s[1..][2..] == s[3..];
      assert s == s[..3] + s[3..];
      InfParts(s);
    }
  }

  lemma InfParts(s: string)
    requires |s| >= 3
    ensures IsWord(s, "inf") <==> IsEither(s[0], 'i') && IsWord(s[1..][..2], "nf") && s[3..] == ""
    ensures IsWord(s, "infinity") <==> IsEither(s[0], 'i') && IsWord(s[1..][..2], "nf") && IsWord(s[3..], "inity")
  {
    var t, u := s[1..][..2], s[3..];
    assert t[0] == s[1] && t[1] == s[2];
    if |s| == 8 {
      assert u[0] == s[3] && u[1] == s[4] && u[2] == s[5] && u[3] == s[6] && u[4] == s[7];
    }
  }

  lemma NanWordsAre(s: string)
    requires s != "" && IsEither(s[0], 'n')
    ensures Accepts(Word("an", FloatReader.Nan), s[1..]) <==> IsNan(s)
  {
    hide Accepts;
    WordIs("an", FloatReader.Nan, s[1..]);
    if |s| >= 3 {
      var t, u := s[1..][..2], s[3..];
      assert s[1..][2..] == u;
      NanIs(u);
      assert t[0] == s[1] && t[1] == s[2];
      assert s[..3][0] == s[0] && s[..3][1] == s[1] && s[..3][2] == s[2];
      assert IsWord(s[..3], "nan") <==> IsWord(t, "an");
      if |s| == 3 { assert s[..3] == s; }
      if |s| > 3 { NanTail(s); }
    }
  }

  lemma NanTail(s: string)
    requires |s| >= 4
    ensures var u := s[3..];
      (|u| >= 2 && u[0] == '(' && u[|u| - 1] == ')' && (forall i | 1 <= i < |u| - 1 :: IsIdChar(u[i]))) <==>
        |s| >= 5 && s[3] == '(' && s[|s| - 1] == ')' && forall i | 4 <= i < |s| - 1 :: IsIdChar(s[i])
  {
    var u := s[3..];
    assert forall i | 0 <= i < |u| :: u[i] == s[i + 3];
    assert forall i | 3 <= i < |s| :: s[i] == u[i - 3];
  }

  lemma SignedIs(s: string)
    ensures Accepts(Signed, s) <==> s != "" && IsUnsigned(s)
  {
    hide Accepts, IsUnsigned;
    AcceptsStep(Signed, s);
    if s != "" { BeginIs(s); }
  }

  lemma NothingIsNoNumber()
    ensures !IsUnsigned("")
  {
  }

  /** The automaton accepts exactly the texts of the form of a number. */
  lemma {:induction false} FloatTextIff(s: string)
    ensures IsFloatText(s) <==> IsFloat(s)
    decreases s
  {
    hide IsUnsigned, Begin;
    AcceptsStep(Spaced, s);
    NothingIsNoNumber();
    if s != "" {
      if IsSpace(s[0]) {
        FloatTextIff(s[1..]);
      } else if IsSign(s[0]) {
        SignedIs(s[1..]);
      } else {
        BeginIs(s);
      }
    }
  }

  /** What the parser reads of a text is its longest start that has the form of a number. */
  lemma ReadsNumber(number: string -> real, s: string, k: nat)
    requires k <= |s|
    ensures var n := Reader(number)(s).0;
      n <= |s| && (n > 0 ==> IsFloat(s[..n])) && (IsFloat(s[..k]) ==> k <= n)
  {
    hide IsFloatText, IsFloat, Longest;
    ReadsLongest(number, s, k);
    FloatTextIff(s[..k]);
    FloatTextIff(s[..Reader(number)(s).0]);
  }

  // ----- characters -----

  lemma HexDigitIff(c: char)
    ensures IsHexDigit(c) <==> c in "0123456789abcdefABCDEF"
    ensures IsDigit(c) <==> c in "0123456789"
  {
  }

  lemma EitherIff(c: char)
    ensures IsEither(c, 'e') <==> c in "eE"
    ensures IsEither(c, 'p') <==> c in "pP"
    ensures IsEither(c, 'x') <==> c in "xX"
    ensures IsEither(c, 'i') <==> c in "iI"
    ensures IsEither(c, 'n') <==> c in "nN"
    ensures IsEither(c, 'f') <==> c in "fF"
    ensures IsEither(c, 'a') <==> c in "aA"
    ensures IsEither(c, 't') <==> c in "tT"
    ensures IsEither(c, 'y') <==> c in "yY"
    ensures IsSign(c) <==> c in "+-"
  {
  }
}
