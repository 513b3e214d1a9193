/** Which texts are integers, and which integers they are: decimal, octal and hexadecimal numerals by their digits
    alone, against what the parser reads. */
module ExpressionNumerals {
  import opened Options
  import opened Alignment
  import opened Expressions
  import opened ExpressionGrammar

  const LOWER := "0123456789abcdef"
  const UPPER := "0123456789ABCDEF"

  predicate StandsFor(c: char, v: nat) {
    v < 16 && (c == LOWER[v] || c == UPPER[v])
  }

  /** The digits of `n`, from the last one on; zeros may come first. */
  predicate Numeral(s: string, base: nat, n: nat)
    requires base >= 2
    decreases |s|
  {
    s != "" && StandsFor(s[|s| - 1], n % base) &&
    if |s| == 1 then n < base else Numeral(s[..|s| - 1], base, n / base)
  }

  /** Decimal, unless a zero comes first: then octal, or hexadecimal after `0x`. */
  predicate Unprefixed(s: string, n: nat) {
    || (s != "" && s[0] != '0' && Numeral(s, 10, n))
    || (s != "" && s[0] == '0' && Numeral(s, 8, n))
    || (|s| >= 3 && (s[..2] == "0x" || s[..2] == "0X") && Numeral(s[2..], 16, n))
  }

  predicate SignedNumeral(s: string, v: int) {
    if s != "" && s[0] == '-' then v <= 0 && Unprefixed(s[1..], -v)
    else if s != "" && s[0] == '+' then v >= 0 && Unprefixed(s[1..], v)
    else v >= 0 && Unprefixed(s, v)
  }

  /** The range of a 64-bit `long`. */
  predicate InRange(v: int) {
    -9223372036854775808 <= v <= 9223372036854775807
  }

  // ----- digits -----

  lemma DigitIff(c: char, v: nat)
    ensures StandsFor(c, v) <==> Digit(c) == v && v < 16
  {
    if v < 16 { Alphabet(v); }
  }

  lemma Alphabet(v: nat)
    requires v < 16
    ensures LOWER[v] == if v < 10 then '0' + v as char else 'a' + (v - 10) as char
    ensures UPPER[v] == if v < 10 then '0' + v as char else 'A' + (v - 10) as char
  {
  }

  lemma {:induction false} SpanFront(s: string, base: nat)
    requires s != ""
    ensures DigitSpan(s, base) == |s| <==>
      DigitSpan(s[..|s| - 1], base) == |s| - 1 && Digit(s[|s| - 1]) < base
    decreases s
  {
    if |s| == 1 {
      assert s[1..] == "" && s[..0] == "";
    } else {
      SpanFront(s[1..], base);
      assert s[1..][..|s| - 2] == s[..|s| - 1][1..];
    }
  }

  lemma DivideDigit(q: nat, base: nat, d: nat, n: nat)
    requires base >= 2 && d < base
    ensures n == q * base + d <==> n / base == q && n % base == d
  {
    if n == q * base + d { DivModUnique(n, base, q, d); }
  }

  /** A numeral is read whole, with its number, and nothing else is. */
  lemma {:induction false} NumeralIff(s: string, base: nat, n: nat)
    requires s != "" && 2 <= base <= 16
    ensures Numeral(s, base, n) <==> DigitSpan(s, base) == |s| && DigitsValue(s, base) == n
    decreases |s|
  {
    hide StandsFor, Digit;
    var front, d := s[..|s| - 1], Digit(s[|s| - 1]);
    SpanFront(s, base);
    DigitIff(s[|s| - 1], n % base);
    if front == "" {
      SingleDigit(s, base, n);
    } else {
      NumeralIff(front, base, n / base);
      if d < base { DivideDigit(DigitsValue(front, base), base, d, n); }
    }
  }

  lemma SingleDigit(s: string, base: nat, n: nat)
    requires |s| == 1 && 2 <= base <= 16
    ensures Numeral(s, base, n) <==> DigitSpan(s, base) == 1 && DigitsValue(s, base) == n
  {
    hide StandsFor, Digit;
    assert s[..0] == "" && s[1..] == "" && DigitsValue("", base) == 0 && DigitsValue(s, base) == Digit(s[0]);
    DigitIff(s[0], n % base);
    SmallRemainder(n, base);
  }

  lemma SmallRemainder(n: nat, base: nat)
    requires base >= 2
    ensures n % base < base && (n < base ==> n % base == n)
  {
    if n < base { DivideDigit(0, base, n, n); }
  }

  // ----- strtol -----

  lemma UnsignedIff(s: string, n: nat)
    ensures Unsigned(s) == Some((n, |s|)) <==> Unprefixed(s, n)
  {
    hide Numeral, DigitSpan, DigitsValue;
    if s != "" {
      var (base, skip) := BaseOf(s);
      var digits := s[skip..];
      assert |digits| > 0 && s[skip..skip + |digits|] == digits;
      NumeralIff(digits, base, n);
      OtherBases(s, n);
    } else {
      NoDigits();
    }
  }

  lemma NoDigits()
    ensures Unsigned("") == None
  {
  }

  /** Only the base that the start of the text announces counts. */
  lemma OtherBases(s: string, n: nat)
    requires s != ""
    ensures var (base, skip) := BaseOf(s); Unprefixed(s, n) <==> Numeral(s[skip..], base, n)
  {
    hide DigitSpan, DigitsValue;
    assert s[0..] == s;
    if |s| >= 3 && s[0] == '0' && (s[1] == 'x' || s[1] == 'X') {
      assert s[..2] == "0x" || s[..2] == "0X";
      NoLetterInOctal(s, n);
      FirstDigit(s[2..], n);
    }
  }

  lemma NoLetterInOctal(s: string, n: nat)
    requires |s| >= 2 && (s[1] == 'x' || s[1] == 'X')
    ensures !Numeral(s, 8, n)
  {
    hide Numeral;
    NumeralIff(s, 8, n);
    assert DigitSpan(s[1..], 8) == 0;
  }

  lemma FirstDigit(s: string, n: nat)
    requires s != ""
    ensures Numeral(s, 16, n) ==> Digit(s[0]) < 16
  {
    hide Numeral;
    NumeralIff(s, 16, n);
  }

  lemma UnprefixedStarts(s: string, n: nat)
    requires Unprefixed(s, n)
    ensures s != "" && !IsSpace(s[0]) && s[0] != '-' && s[0] != '+'
  {
    hide Numeral;
    if s[0] != '0' {
      NumeralIff(s, 10, n);
      assert Digit(s[0]) < 10;
    }
  }

  /** What the parser reads whole as an integer is exactly the signed numerals in range, and it reads the number they
      stand for. */
  lemma StrtolIff(s: string, v: int)
    requires s != "" && !IsSpace(s[0])
    ensures Strtol(s) == Scanned(v, |s|) <==> SignedNumeral(s, v) && InRange(v)
  {
    hide Unsigned, Unprefixed;
    assert SkipSpaces(s) == s;
    var sign := SignLength(s);
    var t := s[sign..];
    var n: nat := if v < 0 then -v else v;
    UnsignedIff(t, n);
    assert sign == 0 ==> t == s;
  }

  /** Out of range is an error, whatever the base. */
  lemma OutOfRangeIff(s: string, v: int)
    requires SignedNumeral(s, v)
    ensures s != "" && !IsSpace(s[0])
    ensures Strtol(s) == if InRange(v) then Scanned(v, |s|) else OutOfRange
  {
    hide Unsigned, Unprefixed;
    var sign := SignLength(s);
    var n: nat := if v < 0 then -v else v;
    UnprefixedStarts(s[sign..], n);
    UnsignedIff(s[sign..], n);
    assert sign == 0 ==> s[sign..] == s;
    assert SkipSpaces(s) == s;
  }

  // ----- phrases -----

  /** A number in a phrase is a signed numeral in range, and its tree the integer it stands for. */
  lemma NumberIff(text: string, gap: string, v: int)
    requires Spaces(gap)
    ensures IsPhrase(Number(text, gap), 7) && Tree(Number(text, gap)) == Int(v) <==>
      text != "" && !IsSpace(text[0]) && SignedNumeral(text, v) && InRange(v)
  {
    hide Strtol, SignedNumeral, Spaces;
    if text != "" && !IsSpace(text[0]) { StrtolIff(text, v); }
  }

  /** Numerals of one integer are parsed alike, whatever their bases and signs. */
  lemma BaseDoesNotMatter(strtod: Strtod, s: string, s': string, v: int)
    requires Delimited(strtod) && SignedNumeral(s, v) && SignedNumeral(s', v) && InRange(v)
    ensures ParseValue(strtod, s) == ParseValue(strtod, s') == Expression(Int(v))
  {
    hide Delimited, SignedNumeral, ParseValue;
    NumeralParsed(strtod, s, v);
    NumeralParsed(strtod, s', v);
  }

  lemma NumeralParsed(strtod: Strtod, s: string, v: int)
    requires Delimited(strtod) && SignedNumeral(s, v) && InRange(v)
    ensures ParseValue(strtod, s) == Expression(Int(v))
  {
    hide Delimited, SignedNumeral, ParseValue, Strtol, Spaces;
    OutOfRangeIff(s, v);
    assert Spaces("") by { NoSpaces(); }
    NumberIff(s, "", v);
    var p := Number(s, "");
    assert IsPhrase(p, 1);
    ParseText(strtod, "", p);
    assert "" + Text(p) == s;
  }

  lemma NoSpaces()
    ensures Spaces("")
  {
  }

  // ----- writing numerals -----

  function Written(n: nat, base: nat, alphabet: string): (s: string)
    requires 2 <= base <= |alphabet|
    ensures s != ""
    decreases n
  {
    SmallRemainder(n, base);
    Shrinks(n, base);
    if n < base then [alphabet[n]] else Written(n / base, base, alphabet) + [alphabet[n % base]]
  }

  lemma Shrinks(n: nat, base: nat)
    requires base >= 2
    ensures 0 <= n / base && (n > 0 ==> n / base < n)
  {
    assert n == (n / base) * base + n % base;
    assert n / base >= 1 ==> (n / base) * base >= 2 * (n / base);
  }

  lemma {:induction false} WrittenIs(n: nat, base: nat, alphabet: string)
    requires 2 <= base <= 16 && (alphabet == LOWER || alphabet == UPPER)
    ensures Numeral(Written(n, base, alphabet), base, n)
    ensures n > 0 ==> Written(n, base, alphabet)[0] != '0'
    decreases n
  {
    hide StandsFor;
    SmallRemainder(n, base);
    Shrinks(n, base);
    Stands(n % base, alphabet);
    if n >= base {
      WrittenIs(n / base, base, alphabet);
      var s := Written(n, base, alphabet);
      assert s[..|s| - 1] == Written(n / base, base, alphabet);
    }
  }

  lemma Stands(v: nat, alphabet: string)
    requires v < 16 && (alphabet == LOWER || alphabet == UPPER)
    ensures StandsFor(alphabet[v], v) && (v > 0 ==> alphabet[v] != '0')
  {
    Alphabet(v);
  }

  /** Every integer in range can be written in each base, in either case and with either sign, and is read. */
  lemma AllBases(n: nat, alphabet: string)
    requires alphabet == LOWER || alphabet == UPPER
    ensures SignedNumeral("0" + Written(n, 8, alphabet), n)
    ensures SignedNumeral("-0" + Written(n, 8, alphabet), -(n as int))
    ensures SignedNumeral("0x" + Written(n, 16, alphabet), n)
    ensures SignedNumeral("-0x" + Written(n, 16, alphabet), -(n as int))
    ensures SignedNumeral("0X" + Written(n, 16, alphabet), n) && SignedNumeral("+0X" + Written(n, 16, alphabet), n)
    ensures SignedNumeral(Written(n, 10, alphabet), n)
    ensures SignedNumeral("-" + Written(n, 10, alphabet), -(n as int))
  {
    hide Numeral, Written;
    OctalIs(n, alphabet);
    HexIs(n, alphabet, "0x");
    HexIs(n, alphabet, "0X");
    DecimalNumeral(n, alphabet);
    WithSign("0" + Written(n, 8, alphabet), n);
    WithSign("0x" + Written(n, 16, alphabet), n);
    WithSign("0X" + Written(n, 16, alphabet), n);
    WithSign(Written(n, 10, alphabet), n);
    assert "-" + ("0" + Written(n, 8, alphabet)) == "-0" + Written(n, 8, alphabet);
    assert "-" + ("0x" + Written(n, 16, alphabet)) == "-0x" + Written(n, 16, alphabet);
    assert "+" + ("0X" + Written(n, 16, alphabet)) == "+0X" + Written(n, 16, alphabet);
  }

  lemma WithSign(s: string, n: nat)
    requires Unprefixed(s, n)
    ensures SignedNumeral(s, n) && SignedNumeral("+" + s, n) && SignedNumeral("-" + s, -(n as int))
  {
    hide Unprefixed;
    UnprefixedStarts(s, n);
    assert ("+" + s)[1..] == s && ("-" + s)[1..] == s;
  }

  lemma OctalIs(n: nat, alphabet: string)
    requires alphabet == LOWER || alphabet == UPPER
    ensures Unprefixed("0" + Written(n, 8, alphabet), n)
  {
    hide Numeral, Written, DigitSpan, DigitsValue;
    WrittenIs(n, 8, alphabet);
    var s := Written(n, 8, alphabet);
    NumeralIff(s, 8, n);
    NumeralIff("0" + s, 8, n);
    LeadingZero(s, 8);
  }

  lemma {:induction false} LeadingZero(s: string, base: nat)
    requires base >= 2
    ensures DigitsValue("0" + s, base) == DigitsValue(s, base)
    ensures DigitSpan("0" + s, base) == 1 + DigitSpan(s, base)
    decreases |s|
  {
    assert ("0" + s)[1..] == s;
    if s == "" {
      assert "0" + s == "0" && "0"[..0] == "" && DigitsValue("", base) == 0;
    } else {
      var front := s[..|s| - 1];
      LeadingZero(front, base);
      assert ("0" + s)[..|s|] == "0" + front;
    }
  }

  lemma HexIs(n: nat, alphabet: string, prefix: string)
    requires (alphabet == LOWER || alphabet == UPPER) && (prefix == "0x" || prefix == "0X")
    ensures Unprefixed(prefix + Written(n, 16, alphabet), n)
  {
    hide Numeral, Written;
    WrittenIs(n, 16, alphabet);
    var s := prefix + Written(n, 16, alphabet);
    assert s[..2] == prefix && s[2..] == Written(n, 16, alphabet);
  }

  lemma DecimalNumeral(n: nat, alphabet: string)
    requires alphabet == LOWER || alphabet == UPPER
    ensures Unprefixed(Written(n, 10, alphabet), n)
  {
    hide Numeral, Written;
    WrittenIs(n, 10, alphabet);
    if n == 0 { ZeroWritten(alphabet); }
  }

  lemma ZeroWritten(alphabet: string)
    requires alphabet == LOWER || alphabet == UPPER
    ensures Written(0, 10, alphabet) == "0" && Numeral("0", 8, 0)
  {
  }

  // ----- characters -----

  const SMALL := "abcdefghijklmnopqrstuvwxyz"
  const LARGE := "ABCDEFGHIJKLMNOPQRSTUVWXYZ"

  /** Blank are the space, the tabulators, the ends of lines and pages; a word is of letters, digits and underscores. */
  lemma CharactersAre(c: char)
    ensures IsSpace(c) <==> c as int in [9, 10, 11, 12, 13, 32]
    ensures IsLetter(c) <==> c in SMALL || c in LARGE || c == '_'
    ensures IsIdChar(c) <==> IsLetter(c) || c in "0123456789"
  {
    SmallIff(c);
    LargeIff(c);
  }

  lemma SmallIff(c: char)
    ensures c in SMALL <==> 'a' <= c <= 'z'
  {
    if 'a' <= c <= 'z' {
      SmallAt((c - 'a') as nat);
      assert SMALL[(c - 'a') as nat] == c;
    } else if c in SMALL {
      var k :| 0 <= k < |SMALL| && SMALL[k] == c;
      SmallAt(k);
    }
  }

  lemma LargeIff(c: char)
    ensures c in LARGE <==> 'A' <= c <= 'Z'
  {
    if 'A' <= c <= 'Z' {
      LargeAt((c - 'A') as nat);
      assert LARGE[(c - 'A') as nat] == c;
    } else if c in LARGE {
      var k :| 0 <= k < |LARGE| && LARGE[k] == c;
      LargeAt(k);
    }
  }

  lemma SmallAt(k: nat)
    requires k < 26
    ensures |SMALL| == 26 && SMALL[k] == 'a' + k as char
  {
  }

  lemma LargeAt(k: nat)
    requires k < 26
    ensures |LARGE| == 26 && LARGE[k] == 'A' + k as char
  {
  }
}
