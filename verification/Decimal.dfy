/** Go's decimal printing (`%d`) and parsing (`strconv.Atoi`) of integers. */
module Decimal {
  import opened Prelude

  const MIN_INT64: int := -0x8000_0000_0000_0000
  const MAX_INT64: int := 0x7FFF_FFFF_FFFF_FFFF

  function Digit(d: nat): char
    requires d < 10
  {
    ('0' as int + d) as char
  }

  function PrintNat(n: nat): (s: string)
    ensures |s| > 0
    ensures forall i :: 0 <= i < |s| ==> '0' <= s[i] <= '9'
  {
    if n < 10 then [Digit(n)] else PrintNat(n / 10) + [Digit(n % 10)]
  }

  /** `fmt.Sprintf("%d", n)`. */
  function Print(n: int): string {
    if n < 0 then "-" + PrintNat(-n) else PrintNat(n)
  }

  function ParseNat(s: string): Option<nat>
    decreases |s|
  {
    if s == [] || !('0' <= s[|s| - 1] <= '9') then None
    else
      var d: nat := s[|s| - 1] as int - '0' as int;
      if |s| == 1 then Some(d)
      else match ParseNat(s[..|s| - 1])
        case None => None
        case Some(n) => Some(10 * n + d)
  }

  function Negate(n: Option<int>): Option<int> {
    match n
    case None => None
    case Some(v) => Some(-v)
  }

  function ParseInt(s: string): Option<int> {
    if s == [] then None
    else if s[0] == '-' then Negate(ParseNat(s[1..]))
    else if s[0] == '+' then ParseNat(s[1..])
    else ParseNat(s)
  }

  /** `strconv.Atoi`: a sign, then digits; anything else, or a value outside int64, is an error. */
  function Atoi(s: string): (r: Option<int>)
    ensures r.Some? ==> MIN_INT64 <= r.value <= MAX_INT64
  {
    match ParseInt(s)
    case None => None
    case Some(n) => if MIN_INT64 <= n <= MAX_INT64 then Some(n) else None
  }

  lemma {:induction false} ParsePrintNat(n: nat)
    ensures ParseNat(PrintNat(n)) == Some(n)
  {
    if n >= 10 {
      ParsePrintNat(n / 10);
      var front, d := PrintNat(n / 10), Digit(n % 10);
      assert PrintNat(n) == front + [d];
      assert (front + [d])[..|front|] == front;
    }
  }

  lemma ParseIntMinus(digits: string, n: nat)
    requires ParseNat(digits) == Some(n)
    ensures ParseInt("-" + digits) == Some(-(n as int))
  {
    var s := "-" + digits;
    assert s[0] == '-' && s[1..] == digits;
  }

  lemma ParseIntDigits(digits: string)
    requires |digits| > 0 && '0' <= digits[0] <= '9'
    ensures ParseInt(digits) == ParseNat(digits)
  {
  }

  /** Parsing undoes printing, for every integer. */
  lemma ParsePrint(n: int)
    ensures ParseInt(Print(n)) == Some(n)
  {
    if n < 0 {
      ParsePrintNat(-n);
      ParseIntMinus(PrintNat(-n), -n);
    } else {
      ParsePrintNat(n);
      ParseIntDigits(PrintNat(n));
    }
  }

  /** An int64 survives being printed and read back by `Atoi`. */
  lemma AtoiPrint(n: int)
    ensures Atoi(Print(n)) ==
      if -0x8000_0000_0000_0000 <= n < 0x8000_0000_0000_0000 then Some(n) else None
  {
    ParsePrint(n);
  }

  predicate Digits(s: string) {
    s != [] && forall i :: 0 <= i < |s| ==> '0' <= s[i] <= '9'
  }

  lemma {:induction false} ParseNatExactly(s: string)
    ensures ParseNat(s).Some? <==> Digits(s)
  {
    if |s| > 1 {
      ParseNatExactly(s[..|s| - 1]);
      assert s == s[..|s| - 1] + [s[|s| - 1]];
    }
  }

  lemma {:induction false} LeadingZero(s: string)
    requires Digits(s)
    ensures ParseNat("0" + s) == ParseNat(s)
  {
    var zero := "0" + s;
    assert |zero| == |s| + 1 && zero[|s|] == s[|s| - 1];
    if |s| == 1 {
      assert zero[..1] == "0" && ParseNat("0") == Some(0);
    } else {
      var front := s[..|s| - 1];
      LeadingZero(front);
      assert zero[..|s|] == "0" + front;
    }
  }

  /** What else is read: digits with or without a sign and any zeros in front, and nothing
      but that. */
  lemma ParseIntExactly(s: string)
    ensures ParseInt(s).Some? <==> Digits(s) || (s != [] && (s[0] == '+' || s[0] == '-') && Digits(s[1..]))
    ensures Digits(s) ==>
      && ParseInt("+" + s) == ParseInt("0" + s) == ParseInt(s)
      && ParseInt("-" + s) == Negate(ParseInt(s))
  {
    ParseNatExactly(s);
    if s != [] {
      ParseNatExactly(s[1..]);
    }
    if Digits(s) {
      LeadingZero(s);
    }
    assert ("+" + s)[1..] == s && ("-" + s)[1..] == s;
  }

  lemma PrintInjective(m: int, n: int)
    requires Print(m) == Print(n)
    ensures m == n
  {
    ParsePrint(m);
    ParsePrint(n);
  }

  /** `Print` never writes an underscore, so an underscore can separate printed numbers. */
  lemma PrintHasNoUnderscore(n: int)
    ensures '_' !in Print(n)
  {
  }
}
