/** The few C library behaviours the XLCn parser relies on: NUL-terminated
    strings (what strcmp, atof and atoi see of a char buffer) and the decimal
    conversions atoi and atof. Scans are written over positions rather than
    over suffixes of the text. */
module CLib {

  /** The position of the first NUL at or after `i`, or the end of `s`. */
  function NulFrom(s: seq<char>, i: nat): (j: nat)
    requires i <= |s|
    ensures i <= j <= |s| && (j < |s| ==> s[j] == '\0')
    ensures forall k :: i <= k < j ==> s[k] != '\0'
    decreases |s| - i
  {
    if i == |s| || s[i] == '\0' then i else NulFrom(s, i + 1)
  }

  /** The C string stored at the start of `s`: everything before the first NUL,
      or all of `s` if it holds none. */
  function CString(s: seq<char>): (r: seq<char>)
    ensures r <= s
    ensures '\0' !in r
    ensures |r| < |s| ==> s[|r|] == '\0'
  {
    s[..NulFrom(s, 0)]
  }

  /** The C string of `s` is its prefix up to `c` when no NUL comes before `c`
      and one sits at `c` or `c` is the end. */
  lemma CStringPrefix(s: seq<char>, c: nat)
    requires c <= |s| && '\0' !in s[..c] && (c == |s| || s[c] == '\0')
    ensures CString(s) == s[..c]
  {
  }

  /** Terminating a prefix with NUL hides whatever follows it. */
  lemma CStringOfTerminated(p: seq<char>, rest: seq<char>)
    ensures CString(p + ['\0'] + rest) == CString(p)
  {
    var s := p + ['\0'] + rest;
    var c := |CString(p)|;
    assert s[..c] == p[..c];
    assert s[c] == '\0' by {
      if c < |p| { assert p[c] == '\0'; }
    }
    CStringPrefix(s, c);
  }

  /** On a string without NUL the C string is the whole string. */
  lemma CStringNoNul(s: seq<char>)
    requires '\0' !in s
    ensures CString(s) == s
  {
    CStringPrefix(s, |s|);
  }

  /** strlen: the length of the C string held in a buffer with a NUL. */
  method Strlen(s: array<char>) returns (n: nat)
    requires '\0' in s[..]
    ensures n == |CString(s[..])|
  {
    ghost var c := CString(s[..]);
    n := 0;
    while s[n] != '\0'
      invariant n <= |c| < s.Length
      decreases |c| - n
    {
      assert s[n] == c[n] || n == |c|;
      n := n + 1;
    }
  }

  /** The first character of a C string buffer; NUL for an empty one, which is
      what `buf[0]` reads after `buf[0] = '\0'`. */
  function First(s: seq<char>): char
  {
    if |s| == 0 then '\0' else s[0]
  }

  /** isspace in the C locale. */
  predicate IsSpace(c: char)
  {
    c == ' ' || c == '\t' || c == '\n' || c == '\U{000B}' || c == '\U{000C}' || c == '\r'
  }

  predicate IsDigit(c: char)
  {
    '0' <= c <= '9'
  }

  /** The value of a decimal digit; 0 for any other character. */
  function DigitOf(c: char): (d: nat)
    ensures d < 10
    ensures IsDigit(c) ==> d == c as int - '0' as int
  {
    if IsDigit(c) then c as int - '0' as int else 0
  }

  /** A magnitude with its sign. */
  function Signed(neg: bool, v: int): int
  {
    if neg then -v else v
  }

  /** atoi's scan from position `i`: while `lead`, white space is skipped and
      a sign may come; then digits accumulate in `acc`; the first character
      that fits neither ends the number. */
  function AtoiScan(s: seq<char>, i: nat, lead: bool, neg: bool, acc: nat): int
    requires i <= |s|
    decreases |s| - i
  {
    if i == |s| then Signed(neg, acc)
    else if lead && IsSpace(s[i]) then AtoiScan(s, i + 1, true, neg, acc)
    else if lead && (s[i] == '-' || s[i] == '+') then AtoiScan(s, i + 1, false, s[i] == '-', acc)
    else if IsDigit(s[i]) then AtoiScan(s, i + 1, false, neg, 10 * acc + DigitOf(s[i]))
    else Signed(neg, acc)
  }

  /** atoi over unbounded integers: leading white space, an optional sign, then
      the longest run of digits; 0 when there are none. */
  function Atoi(s: seq<char>): int
  {
    AtoiScan(s, 0, true, false, 0)
  }

  /** The range of a C `int`; atoi's result outside it is undefined behaviour. */
  predicate InIntRange(x: int)
  {
    -0x8000_0000 <= x < 0x8000_0000
  }

  function Pow10(n: nat): (p: nat)
    ensures p >= 1
  {
    if n == 0 then 1 else 10 * Pow10(n - 1)
  }

  /** `x` times ten to the power `e`. */
  function Scale(x: real, e: int): real
  {
    if e >= 0 then x * Pow10(e) as real else x / Pow10(-e) as real
  }

  /** Where atof's scan is: before the number, in the whole part, in the
      fraction, just after `e`/`E`, after the exponent's sign, in the exponent. */
  datatype Phase = Lead | Whole | Fraction | Mark | MarkSign | Power

  /** The value of a numeral with mantissa digits `mant`, of which `frac`
      follow the point, and exponent `exp`. */
  function NumeralValue(neg: bool, mant: nat, frac: nat, expNeg: bool, exp: nat): real
  {
    var e: int := if expNeg then -(exp as int) else exp;
    var v := Scale(mant as real / Pow10(frac) as real, e);
    if neg then -v else v
  }

  /** atof's scan from position `i` in phase `ph`. An `e` without exponent
      digits adds nothing, and without any mantissa digit the value is 0. */
  function AtofScan(s: seq<char>, i: nat, ph: Phase, neg: bool, mant: nat, frac: nat,
                    expNeg: bool, exp: nat): real
    requires i <= |s|
    decreases |s| - i
  {
    if i == |s| then NumeralValue(neg, mant, frac, expNeg, exp)
    else
      var c := s[i];
      var v := NumeralValue(neg, mant, frac, expNeg, exp);
      match ph
      case Lead =>
        if IsSpace(c) then AtofScan(s, i + 1, Lead, neg, mant, frac, expNeg, exp)
        else if c == '-' || c == '+' then AtofScan(s, i + 1, Whole, c == '-', mant, frac, expNeg, exp)
        else if IsDigit(c) then AtofScan(s, i + 1, Whole, neg, DigitOf(c), frac, expNeg, exp)
        else if c == '.' then AtofScan(s, i + 1, Fraction, neg, mant, frac, expNeg, exp)
        else v
      case Whole =>
        if IsDigit(c) then AtofScan(s, i + 1, Whole, neg, 10 * mant + DigitOf(c), frac, expNeg, exp)
        else if c == '.' then AtofScan(s, i + 1, Fraction, neg, mant, frac, expNeg, exp)
        else if c == 'e' || c == 'E' then AtofScan(s, i + 1, Mark, neg, mant, frac, expNeg, exp)
        else v
      case Fraction =>
        if IsDigit(c) then AtofScan(s, i + 1, Fraction, neg, 10 * mant + DigitOf(c), frac + 1, expNeg, exp)
        else if c == 'e' || c == 'E' then AtofScan(s, i + 1, Mark, neg, mant, frac, expNeg, exp)
        else v
      case Mark =>
        if c == '-' || c == '+' then AtofScan(s, i + 1, MarkSign, neg, mant, frac, c == '-', exp)
        else if IsDigit(c) then AtofScan(s, i + 1, Power, neg, mant, frac, expNeg, DigitOf(c))
        else v
      case MarkSign =>
        if IsDigit(c) then AtofScan(s, i + 1, Power, neg, mant, frac, expNeg, DigitOf(c))
        else v
      case Power =>
        if IsDigit(c) then AtofScan(s, i + 1, Power, neg, mant, frac, expNeg, 10 * exp + DigitOf(c))
        else v
  }

  /** atof over exact reals: leading white space, an optional sign, then a
      decimal numeral with optional fraction and exponent. */
  function Atof(s: seq<char>): real
  {
    AtofScan(s, 0, Lead, false, 0, 0, false, 0)
  }

  /** The decimal numeral of `n`, most significant digit first. */
  function Decimal(n: nat): (s: seq<char>)
    ensures |s| >= 1 && forall i :: 0 <= i < |s| ==> IsDigit(s[i])
  {
    var d := ['0' + (n % 10) as char];
    if n < 10 then d else Decimal(n / 10) + d
  }

  /** The number the digits `s[i..j]` spell after a value `acc` already
      read: the accumulation atoi performs. */
  function DigitsValue(s: seq<char>, i: nat, j: nat, acc: nat): nat
    requires i <= j <= |s|
    decreases j - i
  {
    if i == j then acc else DigitsValue(s, i + 1, j, 10 * acc + DigitOf(s[i]))
  }

  /** One more digit on the right. */
  lemma {:induction false} DigitsValueSnoc(s: seq<char>, i: nat, j: nat, acc: nat)
    requires i <= j < |s|
    ensures DigitsValue(s, i, j + 1, acc) == 10 * DigitsValue(s, i, j, acc) + DigitOf(s[j])
    decreases j - i
  {
    if i < j {
      DigitsValueSnoc(s, i + 1, j, 10 * acc + DigitOf(s[i]));
    }
  }

  /** The digits' value depends on nothing beyond them. */
  lemma {:induction false} DigitsValuePrefix(a: seq<char>, b: seq<char>, i: nat, j: nat, acc: nat)
    requires i <= j <= |a|
    ensures DigitsValue(a + b, i, j, acc) == DigitsValue(a, i, j, acc)
    decreases j - i
  {
    if i < j {
      assert (a + b)[i] == a[i];
      DigitsValuePrefix(a, b, i + 1, j, 10 * acc + DigitOf(a[i]));
    }
  }

  lemma {:induction false} DigitsValueOfDecimal(n: nat)
    ensures DigitsValue(Decimal(n), 0, |Decimal(n)|, 0) == n
  {
    var s := Decimal(n);
    var d := ['0' + (n % 10) as char];
    assert s[|s| - 1] == d[0];
    if n >= 10 {
      var h := Decimal(n / 10);
      assert s == h + d;
      DigitsValueSnoc(s, 0, |h|, 0);
      DigitsValuePrefix(h, d, 0, |h|, 0);
      DigitsValueOfDecimal(n / 10);
    }
  }

  /** Over a run of digits atoi's scan accumulates exactly their value. */
  lemma {:induction false} AtoiScanDigits(s: seq<char>, i: nat, neg: bool, acc: nat)
    requires i <= |s| && forall k :: i <= k < |s| ==> IsDigit(s[k])
    ensures AtoiScan(s, i, false, neg, acc) == Signed(neg, DigitsValue(s, i, |s|, acc))
    decreases |s| - i
  {
    if i < |s| {
      AtoiScanDigits(s, i + 1, neg, 10 * acc + DigitOf(s[i]));
    }
  }

  /** atoi reads back every numeral it could be given. */
  lemma AtoiDecimal(n: nat)
    ensures Atoi(Decimal(n)) == n
  {
    var s := Decimal(n);
    assert Atoi(s) == AtoiScan(s, 1, false, false, DigitOf(s[0]));
    AtoiScanDigits(s, 1, false, DigitOf(s[0]));
    assert DigitsValue(s, 0, |s|, 0) == DigitsValue(s, 1, |s|, DigitOf(s[0]));
    DigitsValueOfDecimal(n);
  }

  /** Over a run of digits atof's scan of the whole part accumulates exactly
      their value. */
  lemma {:induction false} AtofScanWhole(s: seq<char>, i: nat, j: nat, neg: bool, mant: nat)
    requires i <= j <= |s| && forall k :: i <= k < j ==> IsDigit(s[k])
    ensures AtofScan(s, i, Whole, neg, mant, 0, false, 0)
         == AtofScan(s, j, Whole, neg, DigitsValue(s, i, j, mant), 0, false, 0)
    decreases j - i
  {
    if i < j {
      AtofScanWhole(s, i + 1, j, neg, 10 * mant + DigitOf(s[i]));
    }
  }

  /** Over a run of digits atof's scan of the fraction accumulates their value
      and counts them. */
  lemma {:induction false} AtofScanFraction(s: seq<char>, i: nat, j: nat, neg: bool, mant: nat, frac: nat)
    requires i <= j <= |s| && forall k :: i <= k < j ==> IsDigit(s[k])
    ensures AtofScan(s, i, Fraction, neg, mant, frac, false, 0)
         == AtofScan(s, j, Fraction, neg, DigitsValue(s, i, j, mant), frac + (j - i), false, 0)
    decreases j - i
  {
    if i < j {
      AtofScanFraction(s, i + 1, j, neg, 10 * mant + DigitOf(s[i]), frac + 1);
    }
  }

  /** atof of a fixed-point numeral such as the device prints, `123.4` or
      `-1234.5678`: its digits read as one integer, divided by ten to the
      number of digits after the point. */
  lemma AtofFixedPoint(s: seq<char>, neg: bool, p: nat)
    requires var b := if neg then 1 else 0;
      b < p < |s| && s[p] == '.' && (neg ==> s[0] == '-')
      && forall k :: b <= k < |s| && k != p ==> IsDigit(s[k])
    ensures var b := if neg then 1 else 0;
      var v := DigitsValue(s, p + 1, |s|, DigitsValue(s, b, p, 0)) as real / Pow10(|s| - p - 1) as real;
      Atof(s) == if neg then -v else v
  {
    var b := if neg then 1 else 0;
    assert Atof(s) == AtofScan(s, b, Whole, neg, 0, 0, false, 0) by {
      if !neg {
        assert AtofScan(s, 0, Whole, neg, 0, 0, false, 0) == AtofScan(s, 1, Whole, neg, DigitOf(s[0]), 0, false, 0);
      }
    }
    AtofScanWhole(s, b, p, neg, 0);
    var w := DigitsValue(s, b, p, 0);
    assert AtofScan(s, p, Whole, neg, w, 0, false, 0) == AtofScan(s, p + 1, Fraction, neg, w, 0, false, 0);
    AtofScanFraction(s, p + 1, |s|, neg, w, 0);
  }
}
