/** A model of Go's `strconv.Atoi` on a 64-bit platform, and of
    `strconv.Itoa` as its partner. */
module GoStrconv {

  datatype Option<T> = None | Some(value: T)

  /** The range of Go's `int` on a 64-bit platform. */
  const MinInt64: int := -0x8000_0000_0000_0000
  const MaxInt64: int := 0x7FFF_FFFF_FFFF_FFFF

  predicate IsDigit(c: char) { '0' <= c <= '9' }

  predicate AllDigits(s: string) { forall i :: 0 <= i < |s| ==> IsDigit(s[i]) }

  /** The decimal value of a string of ASCII digits (leading zeros allowed). */
  function DigitsValue(s: string): nat
    requires AllDigits(s)
  {
    if s == [] then 0 else DigitsValue(s[..|s| - 1]) * 10 + (s[|s| - 1] as int - '0' as int)
  }

  /** `strconv.Atoi(s)`: an optional `+` or `-` followed by one or more ASCII
      digits, whose value fits in a 64-bit int. Anything else (the empty
      string, a lone sign, a space, a letter, an underscore, an out-of-range
      value) is an error, modelled as `None`. */
  function Atoi(s: string): (r: Option<int>)
    ensures r.Some? ==> MinInt64 <= r.value <= MaxInt64
    ensures r.Some? ==> |s| > 0 && (IsDigit(s[0]) || s[0] == '+' || s[0] == '-')
    ensures r.Some? ==> forall i :: 0 < i < |s| ==> IsDigit(s[i])
    ensures r.Some? && r.value < 0 ==> s[0] == '-'
    ensures r.Some? && (s[0] == '+' || s[0] == '-') ==> |s| >= 2
  {
    var neg := |s| > 0 && s[0] == '-';
    var digits := if |s| > 0 && (s[0] == '+' || s[0] == '-') then s[1..] else s;
    if |digits| == 0 || !AllDigits(digits) then None
    else
      var v: int := if neg then 0 - DigitsValue(digits) as int else DigitsValue(digits);
      if v < MinInt64 || MaxInt64 < v then None else Some(v)
  }

  function DigitChar(d: nat): char
    requires d < 10
  {
    ('0' as int + d) as char
  }

  /** The shortest decimal spelling of a natural number. */
  function NatDigits(n: nat): (s: string)
    ensures |s| > 0 && AllDigits(s)
    ensures DigitsValue(s) == n
    decreases n
  {
    if n < 10 then [DigitChar(n)]
    else
      var s := NatDigits(n / 10) + [DigitChar(n % 10)];
      assert s[..|s| - 1] == NatDigits(n / 10);
      s
  }

  /** `strconv.Itoa(n)`. */
  function Itoa(n: int): string
  {
    if n < 0 then "-" + NatDigits(-n) else NatDigits(n)
  }

  /** Atoi reads back every int that Itoa writes. */
  lemma AtoiItoa(n: int)
    requires MinInt64 <= n <= MaxInt64
    ensures Atoi(Itoa(n)) == Some(n)
  {
    if n < 0 {
      assert Itoa(n)[1..] == NatDigits(-n);
    } else {
      assert IsDigit(NatDigits(n)[0]);
    }
  }

  /** Every digit string parses, with or without a `+`, to its decimal value
      (leading zeros allowed) when that value fits in a 64-bit int. */
  lemma AtoiDigits(d: string)
    requires |d| > 0 && AllDigits(d)
    ensures Atoi(d) == Atoi("+" + d)
    ensures Atoi(d) == if DigitsValue(d) <= MaxInt64 then Some(DigitsValue(d) as int) else None
  {
    assert ("+" + d)[1..] == d;
    assert IsDigit(d[0]);
  }

  /** A `-` followed by a digit string parses to the negated value when it
      fits in a 64-bit int. */
  lemma AtoiNegDigits(d: string)
    requires |d| > 0 && AllDigits(d)
    ensures Atoi("-" + d) ==
      if DigitsValue(d) <= -MinInt64 then Some(0 - DigitsValue(d) as int) else None
  {
    assert ("-" + d)[1..] == d;
  }

  /** Atoi does not trim: a string holding a space never parses. */
  lemma AtoiRejectsSpace(s: string)
    requires ' ' in s
    ensures Atoi(s).None?
  {
    var i :| 0 <= i < |s| && s[i] == ' ';
    assert !IsDigit(s[i]);
  }
}
