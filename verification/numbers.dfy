/** Decimal conversions of Go's `strconv` package as the server uses them:
    `Atoi` for query parameters and environment variables, `ParseBool` for
    boolean environment variables, and `%d` formatting for log messages. */
module Numbers {
  import opened Wrappers

  /** Range of Go's `int` on the 64-bit platforms the server targets. */
  const MinInt: int := -0x8000_0000_0000_0000
  const MaxInt: int := 0x7FFF_FFFF_FFFF_FFFF

  predicate IsDigit(c: char) {
    '0' <= c <= '9'
  }

  predicate AllDigits(s: string) {
    forall i :: 0 <= i < |s| ==> IsDigit(s[i])
  }

  function DigitChar(d: nat): (c: char)
    requires d < 10
    ensures IsDigit(c)
  {
    (d + '0' as int) as char
  }

  /** The value of a string of decimal digits. */
  function DigitsValue(s: string): nat
    requires AllDigits(s)
    decreases |s|
  {
    if |s| == 0 then 0
    else DigitsValue(s[..|s| - 1]) * 10 + (s[|s| - 1] as int - '0' as int)
  }

  /** `%d` of a non-negative number: the shortest decimal spelling. */
  function NatToString(n: nat): (r: string)
    ensures |r| > 0 && AllDigits(r)
    decreases n
  {
    if n < 10 then [DigitChar(n)] else NatToString(n / 10) + [DigitChar(n % 10)]
  }

  /** `%d` of any integer. */
  function IntToString(i: int): string {
    if i < 0 then "-" + NatToString(-i) else NatToString(i)
  }

  /** `strconv.Atoi`: an optional sign followed by at least one decimal
      digit and nothing else, whose value fits in `int`. */
  function Atoi(s: string): (r: Option<int>)
    ensures r.Some? ==> MinInt <= r.value <= MaxInt
    ensures r.Some? ==> |s| > 0
  {
    var signed := |s| > 0 && (s[0] == '-' || s[0] == '+');
    var digits := if signed then s[1..] else s;
    if |digits| == 0 || !AllDigits(digits) then None
    else
      var magnitude: int := DigitsValue(digits);
      var v := if |s| > 0 && s[0] == '-' then -magnitude else magnitude;
      if MinInt <= v <= MaxInt then Some(v) else None
  }

  lemma {:induction false} DigitsValueOfNatToString(n: nat)
    ensures DigitsValue(NatToString(n)) == n
    decreases n
  {
    if n >= 10 {
      var s := NatToString(n);
      assert s[..|s| - 1] == NatToString(n / 10);
      DigitsValueOfNatToString(n / 10);
    }
  }

  /** `Atoi` reads back every `int` that `%d` prints. */
  lemma AtoiOfIntToString(i: int)
    requires MinInt <= i <= MaxInt
    ensures Atoi(IntToString(i)) == Some(i)
  {
    if i < 0 {
      AtoiNegative(i);
    } else {
      AtoiNonNegative(i);
    }
  }

  lemma AtoiNegative(i: int)
    requires MinInt <= i < 0
    ensures Atoi(IntToString(i)) == Some(i)
  {
    var digits := NatToString(-i);
    var s := ['-'] + digits;
    assert IntToString(i) == s;
    assert s[1..] == digits;
    DigitsValueOfNatToString(-i);
    var magnitude: int := DigitsValue(digits);
    assert magnitude == -i;
    assert Atoi(s) == Some(-magnitude);
  }

  lemma AtoiNonNegative(i: int)
    requires 0 <= i <= MaxInt
    ensures Atoi(IntToString(i)) == Some(i)
  {
    var s := NatToString(i);
    assert IsDigit(s[0]);
    assert s[0] != '-' && s[0] != '+';
    DigitsValueOfNatToString(i);
  }

  /** `strconv.ParseBool`: the twelve spellings it accepts; the first
      character alone decides the value. */
  function ParseBool(s: string): (r: Option<bool>)
    ensures r.Some? ==> 1 <= |s| <= 5
    ensures r.Some? ==> (r.value <==> s[0] in "1tT")
    ensures r.Some? ==> (!r.value <==> s[0] in "0fF")
  {
    if s in {"1", "t", "T", "TRUE", "true", "True"} then Some(true)
    else if s in {"0", "f", "F", "FALSE", "false", "False"} then Some(false)
    else None
  }

  /** `strconv.FormatBool`. */
  function FormatBool(b: bool): string {
    if b then "true" else "false"
  }

  /** `ParseBool` reads back what `FormatBool` writes, and the other
      spellings of each value too; text in any other case is refused. */
  lemma ParseBoolSpellings(b: bool)
    ensures ParseBool(FormatBool(b)) == Some(b)
    ensures ParseBool(if b then "TRUE" else "FALSE") == Some(b)
    ensures ParseBool(if b then "True" else "False") == Some(b)
    ensures ParseBool(if b then "1" else "0") == Some(b)
    ensures ParseBool(if b then "tRUE" else "fALSE") == None
    ensures ParseBool("yes") == None && ParseBool("") == None
  {
  }
}
