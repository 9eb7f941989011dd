/** Decimal numerals, as `str` writes integers and `int` reads them. */
module Decimals {
  import opened Options

  function Digit(d: nat): char
    requires d < 10
  {
    '0' + d as char
  }

  function Digits(n: nat): (s: string)
    ensures s != []
  {
    if n < 10 then [Digit(n)] else Digits(n / 10) + [Digit(n % 10)]
  }

  /** `str` of an integer. */
  function Decimal(n: int): string { if n < 0 then "-" + Digits(-n) else Digits(n) }

  predicate IsDigit(c: char) { '0' <= c <= '9' }

  /** `int` of a text. Only plain digits are numerals here. */
  function ParseNat(s: string): Option<nat> {
    if s == [] then None
    else
      var last := s[|s|-1];
      if !IsDigit(last) then None
      else if |s| == 1 then Some((last - '0') as nat)
      else
        match ParseNat(s[..|s|-1])
        case None => None
        case Some(n) => Some(10 * n + (last - '0') as nat)
  }

  lemma {:induction false} ParseDigits(n: nat)
    ensures ParseNat(Digits(n)) == Some(n)
    ensures forall i :: 0 <= i < |Digits(n)| ==> IsDigit(Digits(n)[i])
  {
    if n >= 10 {
      ParseDigits(n / 10);
      assert Digits(n)[..|Digits(n)|-1] == Digits(n / 10);
    }
  }

  /** Different integers have different numerals. */
  lemma DecimalInjective(n: int, m: int)
    requires Decimal(n) == Decimal(m)
    ensures n == m
  {
    ParseDigits(if n < 0 then -n else n);
    ParseDigits(if m < 0 then -m else m);
    assert n < 0 ==> Decimal(n)[1..] == Digits(-n);
    assert m < 0 ==> Decimal(m)[1..] == Digits(-m);
    assert n >= 0 ==> IsDigit(Decimal(n)[0]);
    assert m >= 0 ==> IsDigit(Decimal(m)[0]);
  }

  /** The numerals from lo to hi, both included, as `range` gives them. */
  function Range(lo: int, hi: int): seq<string>
    decreases hi - lo
  {
    if lo > hi then [] else Range(lo, hi - 1) + [Decimal(hi)]
  }

  lemma {:induction false} RangeExactly(lo: int, hi: int, n: int)
    ensures Decimal(n) in Range(lo, hi) <==> lo <= n <= hi
    decreases hi - lo
  {
    if lo <= hi {
      RangeExactly(lo, hi - 1, n);
      if Decimal(n) == Decimal(hi) { DecimalInjective(n, hi); }
    }
  }

  /** A range counts up, and holds both its ends. */
  lemma {:induction false} RangeAt(lo: int, hi: int, i: nat)
    requires lo <= hi
    ensures |Range(lo, hi)| == hi - lo + 1 && (i <= hi - lo ==> Range(lo, hi)[i] == Decimal(lo + i))
    decreases hi - lo
  {
    if lo < hi { RangeAt(lo, hi - 1, i); }
  }

  /** A digit more on the right is ten times the number and the digit more. */
  lemma NumeralGrows(n: nat, d: nat)
    requires n > 0 && d < 10
    ensures Decimal(10 * n + d) == Decimal(n) + Decimal(d) && Decimal(d) == ["0123456789"[d]]
    ensures Decimal(-(n as int)) == "-" + Decimal(n)
  {}
}
