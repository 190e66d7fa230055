/**
 The Python 2 built-ins the helpers call on tokens and lists: subscripting
 (with negative indices), `list.index`, `int()` and `float()`.
 */
module Builtins {
  import opened Results
  import Text

  /** `xs[i]`: a negative index counts from the end; anything else out of range raises IndexError. */
  function Index<T>(xs: seq<T>, i: int): Result<T> {
    if 0 <= i < |xs| then Ok(xs[i])
    else if -|xs| <= i < 0 then Ok(xs[|xs| + i])
    else Err(IndexError)
  }

  /**
   Subscription succeeds exactly for the indices from `-len` to `len - 1`;
   index `i < 0` names the same element as `len + i`, so `xs[-1]` is the last.
   */
  lemma IndexSemantics<T>(xs: seq<T>, i: int)
    ensures Index(xs, i).Ok? <==> -|xs| <= i < |xs|
    ensures Index(xs, i).Err? ==> Index(xs, i).error == IndexError
    ensures 0 <= i < |xs| ==> Index(xs, i) == Ok(xs[i])
    ensures -|xs| <= i < 0 ==> Index(xs, i) == Index(xs, |xs| + i)
  {
  }

  /** `xs[i]` where `i` may be Python's None, which is not a valid list index. */
  function IndexOrNone<T>(xs: seq<T>, i: Option<int>): Result<T> {
    match i
    case None => Err(TypeError)
    case Some(n) => Index(xs, n)
  }

  /** `xs.index(x)`: the position of the first occurrence of `x`, or ValueError. */
  function ListIndex<T(==)>(xs: seq<T>, x: T): (r: Result<nat>)
    ensures r.Ok? <==> x in xs
    ensures r.Ok? ==> r.value < |xs| && xs[r.value] == x && x !in xs[..r.value]
    ensures r.Err? ==> r.error == ValueError
  {
    if |xs| == 0 then Err(ValueError)
    else if xs[0] == x then Ok(0)
    else
      var k :- ListIndex(xs[1..], x);
      assert xs[..k + 1] == [xs[0]] + xs[1..][..k];
      Ok(k + 1)
  }

  predicate IsDigit(c: char) {
    '0' <= c <= '9'
  }

  predicate AllDigits(s: string) {
    forall i :: 0 <= i < |s| ==> IsDigit(s[i])
  }

  function DigitValue(c: char): nat
    requires IsDigit(c)
  {
    c as int - '0' as int
  }

  /** The value of a non-empty run of decimal digits, most significant first. */
  function DigitsValue(s: string): nat
    requires AllDigits(s)
  {
    if |s| == 0 then 0 else 10 * DigitsValue(s[..|s| - 1]) + DigitValue(s[|s| - 1])
  }

  /**
   What follows a leading sign: the C conversion behind `int()` skips
   whitespace between the sign and the digits.
   */
  function AfterSign(t: string): string
    requires |t| > 0
  {
    var d := t[1..];
    d[Text.LeadingSpaces(d)..]
  }

  /** An optional sign, optional whitespace after it, then at least one decimal digit. */
  predicate IntLiteral(t: string) {
    (|t| > 0 && AllDigits(t))
    || (|t| > 1 && (t[0] == '+' || t[0] == '-') && |AfterSign(t)| > 0 && AllDigits(AfterSign(t)))
  }

  /**
   `int(s)` on a Python 2 byte string in base 10: surrounding whitespace is
   ignored, then an optional sign, optional whitespace after the sign and at
   least one digit; anything else is None (Python raises ValueError).
   */
  function ParseInt(s: string): Option<int> {
    var t := Text.Strip(s);
    if |t| > 0 && (t[0] == '+' || t[0] == '-') then
      var d := AfterSign(t);
      if |d| > 0 && AllDigits(d) then
        var v: int := DigitsValue(d);
        Some(if t[0] == '-' then -v else v)
      else None
    else if |t| > 0 && AllDigits(t) then Some(DigitsValue(t))
    else None
  }

  /**
   What `int()` accepts and what it returns: after stripping, an optional
   sign, optional whitespace after it and at least one digit; the digits'
   value, negated after a `-`.
   */
  lemma ParseIntLiteral(s: string)
    ensures ParseInt(s).Some? <==> IntLiteral(Text.Strip(s))
    ensures ParseInt(s).Some? ==> var t := Text.Strip(s);
      && (t[0] == '-' ==> ParseInt(s).value == -(DigitsValue(AfterSign(t)) as int))
      && (t[0] == '+' ==> ParseInt(s).value == DigitsValue(AfterSign(t)))
      && (IsDigit(t[0]) ==> ParseInt(s).value == DigitsValue(t))
  {
  }

  /** `int(s)` with its ValueError. */
  function ToInt(s: string): Result<int> {
    match ParseInt(s)
    case Some(n) => Ok(n)
    case None => Err(ValueError)
  }

  /**
   `float(s)`. The syntax Python accepts for floats is not modelled: the caller
   supplies the conversion, with None standing for the ValueError.
   */
  function ToFloat<F>(parseFloat: string -> Option<F>, s: string): Result<F> {
    match parseFloat(s)
    case Some(x) => Ok(x)
    case None => Err(ValueError)
  }

  function DigitChar(d: nat): (c: char)
    requires d < 10
    ensures IsDigit(c) && DigitValue(c) == d
  {
    ('0' as int + d) as char
  }

  /** The decimal spelling of a natural number, as `str(n)` prints it. */
  function ShowNat(n: nat): (s: string)
    ensures |s| > 0 && AllDigits(s)
  {
    if n < 10 then [DigitChar(n)] else ShowNat(n / 10) + [DigitChar(n % 10)]
  }

  /** The decimal spelling of an integer, as `str(n)` prints it. */
  function ShowInt(n: int): string {
    if n < 0 then "-" + ShowNat(-n) else ShowNat(n)
  }

  lemma {:induction false} DigitsOfShowNat(n: nat)
    ensures DigitsValue(ShowNat(n)) == n
  {
    if n >= 10 {
      var s := ShowNat(n);
      assert s[..|s| - 1] == ShowNat(n / 10);
      DigitsOfShowNat(n / 10);
    }
  }

  lemma StripUnpadded(s: string)
    requires |s| > 0 && !Text.IsSpace(s[0]) && !Text.IsSpace(s[|s| - 1])
    ensures Text.Strip(s) == s
  {
    assert Text.LeadingSpaces(s) == 0;
    assert s[0..] == s;
    assert Text.TrailingSpaces(s) == 0;
  }

  /** `int()` reads back every integer `str()` prints. */
  lemma ParseShowInt(n: int)
    ensures ParseInt(ShowInt(n)) == Some(n)
  {
    var s := ShowInt(n);
    if n < 0 {
      assert s[1..] == ShowNat(-n);
      assert AfterSign(s) == ShowNat(-n);
      DigitsOfShowNat(-n);
    } else {
      DigitsOfShowNat(n);
    }
    StripUnpadded(s);
  }

  /** `str(n)` is a single whitespace-free field. */
  lemma ShowIntIsWord(n: int)
    ensures Text.IsWord(ShowInt(n))
  {
    var s := ShowInt(n);
    if n < 0 {
      assert s[1..] == ShowNat(-n);
    }
  }

  /** Whitespace between the sign and the digits is allowed: `int('- 5') == -5`. */
  lemma SpacedMinus()
    ensures ParseInt("- 5") == Some(-5)
  {
    var t := "- 5";
    StripUnpadded(t);
    assert t[1..] == " 5";
    assert " 5"[1..] == "5";
    assert Text.LeadingSpaces("5") == 0;
    assert Text.LeadingSpaces(" 5") == 1;
    assert AfterSign(t) == "5";
    assert "5"[..0] == "";
    assert DigitsValue("5") == 5;
  }

  /** The same after a `+`, with a tab: `int('+\t7') == 7`. */
  lemma SpacedPlus()
    ensures ParseInt("+\t7") == Some(7)
  {
    var t := "+\t7";
    StripUnpadded(t);
    assert t[1..] == "\t7";
    assert "\t7"[1..] == "7";
    assert Text.LeadingSpaces("7") == 0;
    assert Text.LeadingSpaces("\t7") == 1;
    assert AfterSign(t) == "7";
    assert "7"[..0] == "";
    assert DigitsValue("7") == 7;
  }
}
