/** The integer tokens of a text line: the scan `re.findall(r'-?\d+', line)`,
    the conversion `int(token)` and its inverse `str(n)`. Digits are the ASCII
    digits '0'..'9'. */
module Numerals {

  predicate IsDigit(ch: char) {
    '0' <= ch <= '9'
  }

  /** A non-empty run of digits: the `\d+` part of the pattern. */
  predicate IsDigits(s: string) {
    |s| > 0 && forall i :: 0 <= i < |s| ==> IsDigit(s[i])
  }

  /** A string the pattern `-?\d+` matches in full. */
  predicate IsNumeral(t: string) {
    IsDigits(t) || (|t| > 1 && t[0] == '-' && IsDigits(t[1..]))
  }

  /** Length of the longest prefix of s made only of digits. */
  function DigitRun(s: string): (n: nat)
    ensures n <= |s|
    ensures forall i :: 0 <= i < n ==> IsDigit(s[i])
    ensures n < |s| ==> !IsDigit(s[n])
  {
    if |s| > 0 && IsDigit(s[0]) then 1 + DigitRun(s[1..]) else 0
  }

  /** Length of the match of `-?\d+` anchored at the start of s, 0 when the
      pattern does not match there. The quantifier `\d+` is greedy, so the
      match is the longest numeral prefix. */
  function MatchLength(s: string): (n: nat)
    ensures n <= |s|
    ensures n > 0 ==> IsNumeral(s[..n])
    ensures forall k :: n < k <= |s| ==> !IsNumeral(s[..k])
  {
    if |s| > 0 && IsDigit(s[0]) then
      DigitRun(s)
    else if |s| > 1 && s[0] == '-' && IsDigit(s[1]) then
      var n := 1 + DigitRun(s[1..]);
      assert s[..n][1..] == s[1..][..n - 1];
      n
    else
      0
  }

  /** The tokens `re.findall(r'-?\d+', s)` returns, left to right: where a
      match starts it is taken whole and the scan resumes after it,
      otherwise the scan moves on by one character. */
  function Tokens(s: string): (ts: seq<string>)
    ensures forall i :: 0 <= i < |ts| ==> IsNumeral(ts[i])
    decreases |s|
  {
    if |s| == 0 then
      []
    else
      var n := MatchLength(s);
      if n == 0 then Tokens(s[1..]) else [s[..n]] + Tokens(s[n..])
  }

  /** A string without digits holds no token. */
  lemma {:induction false} NoDigitNoTokens(s: string)
    requires forall i :: 0 <= i < |s| ==> !IsDigit(s[i])
    ensures Tokens(s) == []
    decreases |s|
  {
    if |s| > 0 {
      NoDigitNoTokens(s[1..]);
    }
  }

  /** A numeral followed by something that cannot extend it is scanned as one
      token, and the scan then carries on with the rest. */
  lemma TokensAfterNumeral(t: string, rest: string)
    requires IsNumeral(t)
    requires |rest| > 0 ==> !IsDigit(rest[0])
    ensures Tokens(t + rest) == [t] + Tokens(rest)
  {
    var s := t + rest;
    assert s[..|t|] == t;
    assert s[|t|..] == rest;
  }

  /** A leading separator that is neither a digit nor a minus sign is skipped. */
  lemma TokensSkip(ch: char, s: string)
    requires !IsDigit(ch) && ch != '-'
    ensures Tokens([ch] + s) == Tokens(s)
  {
  }

  /** The scan of three numerals separated by single spaces and ended by a
      line break yields exactly those three numerals. */
  lemma TokensOfTriple(a: string, b: string, c: string)
    requires IsNumeral(a) && IsNumeral(b) && IsNumeral(c)
    ensures Tokens(a + " " + b + " " + c + "\n") == [a, b, c]
  {
    var t3: string := "\n";
    var t2: string := [' '] + (c + t3);
    var t1: string := [' '] + (b + t2);
    TokensSkip('\n', []);
    assert t3 == ['\n'] + [];
    assert Tokens(t3) == [];
    TokensAfterNumeral(c, t3);
    TokensSkip(' ', c + t3);
    assert Tokens(t2) == [c];
    TokensAfterNumeral(b, t2);
    TokensSkip(' ', b + t2);
    assert Tokens(t1) == [b, c];
    TokensAfterNumeral(a, t1);
    assert Tokens(a + t1) == [a, b, c];
    calc {
      a + " " + b + " " + c + "\n";
      (a + " " + b + " " + c) + t3;
      { Associative(a + " " + b + " ", c, t3); }
      (a + " " + b + " ") + (c + t3);
      { Associative(a + " " + b, " ", c + t3); }
      (a + " " + b) + t2;
      { Associative(a + " ", b, t2); }
      (a + " ") + (b + t2);
      { Associative(a, " ", b + t2); }
      a + t1;
    }
  }

  /** Regrouping a concatenation of three strings. */
  lemma Associative(x: string, y: string, z: string)
    ensures (x + y) + z == x + (y + z)
  {
  }

  /** A character Python's `str.strip()` removes: `str.isspace()`. */
  predicate IsSpace(ch: char) {
    || 9 <= ch as int <= 13
    || 28 <= ch as int <= 32
    || ch as int == 0x85 || ch as int == 0xA0 || ch as int == 0x1680
    || 0x2000 <= ch as int <= 0x200A
    || ch as int == 0x2028 || ch as int == 0x2029 || ch as int == 0x202F
    || ch as int == 0x205F || ch as int == 0x3000
  }

  /** `not line.strip()`: the line is empty or only whitespace. */
  predicate IsBlank(line: string) {
    forall i :: 0 <= i < |line| ==> IsSpace(line[i])
  }

  function DigitValue(ch: char): nat
    requires IsDigit(ch)
  {
    ch as int - '0' as int
  }

  function DigitChar(d: nat): (ch: char)
    requires d < 10
    ensures IsDigit(ch) && DigitValue(ch) == d
  {
    ('0' as int + d) as char
  }

  /** The value of a run of decimal digits, leading zeros allowed. */
  function DigitsValue(ds: string): nat
    requires forall i :: 0 <= i < |ds| ==> IsDigit(ds[i])
    decreases |ds|
  {
    if |ds| == 0 then 0
    else 10 * DigitsValue(ds[..|ds| - 1]) + DigitValue(ds[|ds| - 1])
  }

  /** `int(t)` for a token t of the scan. The precondition limits it to the
      scan's tokens, the `-?\d+` numerals, where `int()` and this function
      agree. CPython raises on numerals longer than its int/str digit limit
      (4300 digits by default); that limit is not modelled. */
  function NumeralValue(t: string): int
    requires IsNumeral(t)
  {
    if t[0] == '-' then -(DigitsValue(t[1..]) as int) else DigitsValue(t)
  }

  /** The decimal digits of k without leading zeros. */
  function NatDigits(k: nat): (s: string)
    ensures IsDigits(s)
    decreases k
  {
    if k < 10 then [DigitChar(k)] else NatDigits(k / 10) + [DigitChar(k % 10)]
  }

  /** `str(n)`: an optional minus sign, then the digits of |n|. */
  function Decimal(n: int): (s: string)
    ensures IsNumeral(s)
  {
    if n < 0 then
      var ds := NatDigits(-n);
      assert ("-" + ds)[1..] == ds;
      "-" + ds
    else
      NatDigits(n)
  }

  lemma {:induction false} NatDigitsValue(k: nat)
    ensures DigitsValue(NatDigits(k)) == k
    decreases k
  {
    if k >= 10 {
      var s := NatDigits(k);
      assert s[..|s| - 1] == NatDigits(k / 10);
      NatDigitsValue(k / 10);
    }
  }

  /** `int(str(n)) == n`, negative n included, for every n whose decimal
      form is within the interpreter's int/str digit limit (the model has no
      such limit). */
  lemma DecimalRoundTrip(n: int)
    ensures NumeralValue(Decimal(n)) == n
  {
    if n < 0 {
      NatDigitsValue(-n);
      assert Decimal(n)[1..] == NatDigits(-n);
    } else {
      NatDigitsValue(n);
    }
  }
}
