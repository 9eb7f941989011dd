/** Experiment identifiers, which are numerals in base 36. */
module Identifiers {
  import opened Options

  function Digit(d: nat): char
    requires d < 36
  {
    if d < 10 then '0' + d as char else 'a' + (d - 10) as char
  }

  /** The value of a digit, in either case. */
  function DigitValue(c: char): Option<nat> {
    if '0' <= c <= '9' then Some((c - '0') as nat)
    else if 'a' <= c <= 'z' then Some((c - 'a') as nat + 10)
    else if 'A' <= c <= 'Z' then Some((c - 'A') as nat + 10)
    else None
  }

  function Zeros(n: nat): string { seq(n, _ => '0') }

  /** `rjust(4, '0')` */
  function Pad(s: string): string { Zeros(if |s| < 4 then 4 - |s| else 0) + s }

  /** The digits of a number, none for zero. */
  function ToDigits(n: nat): string {
    if n == 0 then [] else ToDigits(n / 36) + [Digit(n % 36)]
  }

  /** What an identifier stands for. */
  function Value(s: string): Option<nat> {
    if s == [] then Some(0)
    else
      match (Value(s[..|s|-1]), DigitValue(s[|s|-1]))
      case (Some(v), Some(d)) => Some(36 * v + d)
      case _ => None
  }

  function Encoded(n: int): string {
    if n == 0 then "0" else (if n < 0 then "-" else "") + Pad(ToDigits(if n < 0 then -n else n))
  }

  lemma OneDigitLess(n: nat, after: string)
    requires n > 0
    ensures ToDigits(n) + after == ToDigits(n / 36) + ([Digit(n % 36)] + after)
  {}

  const ALPHABET := "0123456789abcdefghijklmnopqrstuvwxyz"

  /** The digits are those of the alphabet of the numerals; capitals are read like small letters. */
  lemma DigitsOfAlphabet(d: nat)
    requires d < 36
    ensures Digit(d) == ALPHABET[d] && DigitValue(ALPHABET[d]) == Some(d)
    ensures d >= 10 ==> 'A' <= CAPITALS[d - 10] <= 'Z' && DigitValue(CAPITALS[d - 10]) == Some(d)
  {
    LetterAt(d);
  }

  lemma LetterAt(d: nat)
    requires d < 36
    ensures ALPHABET[d] == if d < 10 then '0' + d as char else 'a' + (d - 10) as char
    ensures d >= 10 ==> CAPITALS[d - 10] == 'A' + (d - 10) as char
  {}

  const CAPITALS := "ABCDEFGHIJKLMNOPQRSTUVWXYZ"

  /** Zero is one digit, numbers below 36^4 are four digits, and beyond there is a digit more on the right for
      36 times the number. */
  lemma NumeralsAre(n: nat, d: nat)
    requires d < 36
    ensures Encoded(0) == "0" && (n > 0 ==> Encoded(-(n as int)) == "-" + Encoded(n))
    ensures 0 < n < 1679616 ==>
      Encoded(n) == [Digit(n / 46656), Digit(n / 1296 % 36), Digit(n / 36 % 36), Digit(n % 36)]
    ensures n >= 46656 ==> Encoded(36 * n + d) == Encoded(n) + [Digit(d)]
  {
    SignIsWritten(n);
    hide Encoded, Digit;
    if 0 < n < 1679616 { FourDigits(n); }
    if n >= 46656 { OneDigitMore(n, d); }
  }

  lemma SignIsWritten(n: nat)
    ensures Encoded(0) == "0" && (n > 0 ==> Encoded(-(n as int)) == "-" + Encoded(n))
  {
    hide Pad, ToDigits;
    assert n > 0 ==> Encoded(n) == "" + Pad(ToDigits(n)) == Pad(ToDigits(n));
  }

  lemma DigitsOneMore(n: nat)
    requires n > 0
    ensures ToDigits(n) == ToDigits(n / 36) + [Digit(n % 36)] && ToDigits(0) == []
  {}

  function Filled(n: nat, k: nat): string {
    var s := ToDigits(n);
    Zeros(if |s| < k then k - |s| else 0) + s
  }

  lemma FilledMore(n: nat, k: nat)
    requires |ToDigits(n / 36)| <= k
    ensures Filled(n, k + 1) == Filled(n / 36, k) + [Digit(n % 36)] && |ToDigits(n)| <= k + 1
  {
    if n > 0 {
      DigitsOneMore(n);
      hide ToDigits, Digit;
      var before := ToDigits(n / 36);
      assert Zeros(k - |before|) + (before + [Digit(n % 36)]) == Zeros(k - |before|) + before + [Digit(n % 36)];
    } else {
      assert Filled(0, k + 1) == Zeros(k + 1) + [] && Filled(0, k) == Zeros(k) + [];
      assert Zeros(k + 1) == Zeros(k) + [Digit(0)];
    }
  }

  lemma Quarters(n: nat)
    requires n < 1679616
    ensures n / 36 / 36 == n / 1296 && n / 1296 / 36 == n / 46656 && n / 46656 < 36
  {}

  lemma FourDigits(n: nat)
    requires 0 < n < 1679616
    ensures n / 46656 < 36
    ensures Encoded(n) == [Digit(n / 46656), Digit(n / 1296 % 36), Digit(n / 36 % 36), Digit(n % 36)]
  {
    Quarters(n);
    EncodedIsFilled(n);
    hide *;
    var n1, n2, n3 := n / 36, n / 1296, n / 46656;
    FilledMore(n3, 0);
    FilledMore(n2, 1);
    FilledMore(n1, 2);
    FilledMore(n, 3);
  }

  lemma EncodedIsFilled(n: nat)
    requires n > 0
    ensures Encoded(n) == Filled(n, 4) && Filled(0, 0) == [] && ToDigits(0) == []
  {
    assert Encoded(n) == "" + Filled(n, 4);
  }

  lemma {:induction false} LongNumeral(n: nat)
    requires n >= 46656
    ensures |ToDigits(n)| >= 4 && Encoded(n) == ToDigits(n)
  {
    var n1, n2, n3 := n / 36, n / 1296, n / 46656;
    assert n1 / 36 == n2 && n2 / 36 == n3 && n3 > 0;
    DigitsOneMore(n);
    DigitsOneMore(n1);
    DigitsOneMore(n2);
    DigitsOneMore(n3);
    hide ToDigits, Digit;
    assert "" + Pad(ToDigits(n)) == ToDigits(n);
  }

  lemma OneDigitMore(n: nat, d: nat)
    requires d < 36 && n >= 46656
    ensures Encoded(36 * n + d) == Encoded(n) + [Digit(d)]
  {
    LongNumeral(n);
    LongNumeral(36 * n + d);
    DigitsOneMore(36 * n + d);
    assert (36 * n + d) / 36 == n && (36 * n + d) % 36 == d;
  }

  /** The loop of `base36encode`, by which the digits come out from the last one. */
  method EncodeDigits(number: nat) returns (base36: string)
    ensures base36 == ToDigits(number)
  {
    var n := number;
    base36 := "";
    hide Digit;
    assert ToDigits(0) == [];
    hide ToDigits;
    while n > 0
      invariant ToDigits(n) + base36 == ToDigits(number)
    {
      OneDigitLess(n, base36);
      var i := n % 36;
      n := n / 36;
      base36 := [Digit(i)] + base36;
    }
  }

  /** `base36encode`: zero is the one number that is not padded. */
  method Base36Encode(number: int) returns (r: string)
    ensures r == Encoded(number)
  {
    if number == 0 { return "0"; }
    var base36, sign, n := "", "", number;
    if n < 0 {
      sign := "-";
      n := -n;
    }
    base36 := EncodeDigits(n);
    r := sign + Pad(base36);
  }

  /** `base36decode`. A sign may come before the digits. */
  function Base36Decode(s: string): Option<int> {
    if s != [] && s[0] == '-' then
      if |s| == 1 then None
      else
        match Value(s[1..])
        case None => None
        case Some(v) => Some(-(v as int))
    else if s == [] then None
    else
      match Value(s)
      case None => None
      case Some(v) => Some(v)
  }

  /** `is_valid_experiment_id`, which otherwise raises an error. */
  predicate IsValid(s: string) {
    |s| >= 4 && AllDigits(s)
  }

  predicate AllDigits(s: string) { forall i :: 0 <= i < |s| ==> DigitValue(s[i]).Some? }

  predicate IsLower(s: string) { forall i :: 0 <= i < |s| ==> !('A' <= s[i] <= 'Z') }

  // ---------------------------------------------------------------- round trips

  lemma DigitRoundTrip(d: nat)
    requires d < 36
    ensures DigitValue(Digit(d)) == Some(d) && !('A' <= Digit(d) <= 'Z')
  {}

  lemma {:induction false} ToDigitsExactly(n: nat)
    ensures Value(ToDigits(n)) == Some(n)
    ensures AllDigits(ToDigits(n)) && IsLower(ToDigits(n)) && (n > 0 ==> ToDigits(n) != [] && ToDigits(n)[0] != '0')
  {
    if n > 0 {
      ToDigitsExactly(n / 36);
      DigitRoundTrip(n % 36);
      assert ToDigits(n)[..|ToDigits(n)|-1] == ToDigits(n / 36);
    }
  }

  lemma {:induction false} ValueOfZeros(n: nat, s: string)
    ensures Value(Zeros(n) + s) == Value(s)
  {
    var z := Zeros(n) + s;
    if s != [] {
      ValueOfZeros(n, s[..|s|-1]);
      assert z[..|z|-1] == Zeros(n) + s[..|s|-1];
    } else if n > 0 {
      ValueOfZeros(n - 1, []);
      assert z[..|z|-1] == Zeros(n - 1) + [];
    }
  }

  lemma PadKeeps(s: string)
    requires AllDigits(s) && IsLower(s)
    ensures IsValid(Pad(s)) && IsLower(Pad(s)) && DigitValue(Pad(s)[0]).Some? && Value(Pad(s)) == Value(s)
  {
    var n := if |s| < 4 then 4 - |s| else 0;
    ValueOfZeros(n, s);
    assert DigitValue('0').Some?;
    hide Value, DigitValue;
    assert AllDigits(Zeros(n)) && IsLower(Zeros(n));
  }

  lemma ValidIsLong(s: string)
    requires IsValid(s)
    ensures |s| >= 4
  {}

  lemma PaddedValue(n: nat)
    ensures var s := Pad(ToDigits(n));
      s != [] && Value(s) == Some(n) && IsValid(s) && IsLower(s) && DigitValue(s[0]).Some?
  {
    hide *;
    ToDigitsExactly(n);
    PadKeeps(ToDigits(n));
    ValidIsLong(Pad(ToDigits(n)));
  }

  /** Every number, also a negative one, is read back. */
  lemma DecodeEncode(n: int)
    ensures Base36Decode(Encoded(n)) == Some(n)
  {
    hide Pad, ToDigits, Value, Base36Decode, IsValid, IsLower, DigitValue;
    ZeroDecodes();
    if n != 0 {
      PaddedValue(if n < 0 then -n else n);
      DecodeDigits(Pad(ToDigits(if n < 0 then -n else n)), if n < 0 then -n else n);
      assert n > 0 ==> "" + Pad(ToDigits(n)) == Pad(ToDigits(n));
    }
  }

  lemma ZeroDecodes()
    ensures Base36Decode("0") == Some(0)
  {
    assert "0"[..0] == [];
  }

  lemma DecodeDigits(s: string, v: nat)
    requires s != [] && DigitValue(s[0]).Some? && Value(s) == Some(v)
    ensures Base36Decode(s) == Some(v) && Base36Decode("-" + s) == Some(-(v as int))
  {
    assert DigitValue('-').None? && ("-" + s)[1..] == s;
    hide Value, DigitValue;
  }

  lemma OneZeroMore(s: string, n: nat, r: string)
    requires s != [] && s[0] == '0' && s[1..] == Zeros(n) + r
    ensures s == Zeros(n + 1) + r
  {
    assert s == [s[0]] + s[1..];
  }

  /** The digits without the zeros in front. */
  function Strip(s: string): (r: string)
    ensures r == [] || r[0] != '0'
    ensures |r| <= |s| && s == Zeros(|s| - |r|) + r
  {
    if s == [] || s[0] != '0' then s
    else
      var r := Strip(s[1..]);
      OneZeroMore(s, |s| - 1 - |r|, r);
      r
  }

  lemma {:induction false} DigitsAreUnique(s: string)
    requires Value(s).Some? && IsLower(s) && (s != [] ==> s[0] != '0')
    ensures ToDigits(Value(s).value) == s && (s != [] ==> Value(s).value > 0)
  {
    if s != [] {
      var init := s[..|s|-1];
      DigitsAreUnique(init);
      var v, d := Value(init).value, DigitValue(s[|s|-1]).value;
      assert (36 * v + d) / 36 == v && (36 * v + d) % 36 == d;
      assert s == init + [s[|s|-1]];
    }
  }

  lemma {:induction false} ValidHasValue(s: string)
    requires AllDigits(s)
    ensures Value(s).Some?
  {
    if s != [] { ValidHasValue(s[..|s|-1]); }
  }

  /** A valid lowercase identifier that is the numeral of its number: it has four characters and
      is not 0000, or it is longer and does not start with a zero. */
  predicate Canonical(s: string) {
    IsValid(s) && IsLower(s) && if |s| == 4 then s != "0000" else s[0] != '0'
  }

  lemma DecodeValid(s: string)
    requires IsValid(s)
    ensures Value(s).Some? && Base36Decode(s) == Some(Value(s).value)
  {
    ValidHasValue(s);
    assert DigitValue(s[0]).Some?;
  }

  lemma LowerSuffix(s: string, t: string)
    requires IsLower(s) && |t| <= |s| && s == Zeros(|s| - |t|) + t
    ensures IsLower(t)
  {
    assert t == s[|s| - |t|..];
  }

  lemma StripKeeps(s: string)
    requires IsValid(s) && IsLower(s)
    ensures var t := Strip(s); Value(s).Some? && Value(t) == Value(s) && IsLower(t)
  {
    DecodeValid(s);
    hide *;
    var t := Strip(s);
    ValueOfZeros(|s| - |t|, t);
    LowerSuffix(s, t);
  }

  lemma EmptyIsZero()
    ensures Value([]) == Some(0)
  {}

  lemma EncodedStrip(s: string)
    requires IsValid(s) && IsLower(s)
    ensures Value(s).Some? && Encoded(Value(s).value) == if Strip(s) == [] then "0" else Pad(Strip(s))
  {
    hide Value, Strip, ToDigits, Pad, IsValid, IsLower;
    StripKeeps(s);
    DigitsAreUnique(Strip(s));
    EmptyIsZero();
  }

  /** Padding gives back the zeros of an identifier of four characters only. */
  lemma PadOfStrip(s: string, t: string)
    requires 0 < |t| <= |s| && |s| >= 4 && s == Zeros(|s| - |t|) + t && t[0] != '0'
    ensures Pad(t) == s <==> |s| == 4 || s[0] != '0'
    ensures s != "0000"
  {
    if |t| < |s| { assert s[0] == '0'; }
    assert s[|s| - |t|] == t[0];
  }

  /** A valid lowercase identifier is written again as it was read exactly when it is
      canonical. */
  lemma EncodeDecode(s: string)
    requires IsValid(s) && IsLower(s)
    ensures Base36Decode(s).Some?
    ensures Encoded(Base36Decode(s).value) == s <==> Canonical(s)
  {
    hide Value, Strip, ToDigits, Pad, AllDigits, IsLower, Base36Decode, Encoded;
    DecodeValid(s);
    EncodedStrip(s);
    var t := Strip(s);
    if t == [] {
      assert s == Zeros(|s|) + [];
      assert s[0] == '0' && (|s| == 4 ==> s == "0000");
    } else {
      PadOfStrip(s, t);
    }
  }

  // ---------------------------------------------------------------- the next identifier

  lemma EncodedIsCanonical(n: nat)
    requires n > 0
    ensures Canonical(Encoded(n))
  {
    PaddedValue(n);
    DecodeEncode(n);
    assert Encoded(n) == Pad(ToDigits(n));
    hide *;
    EncodeDecode(Pad(ToDigits(n)));
  }

  /** `next_experiment_id`; nothing stands for the error raised for an invalid identifier. */
  method NextExperimentId(id: string) returns (r: Option<string>)
    ensures r.Some? <==> IsValid(id)
    ensures r.Some? ==> Value(id).Some? && r.value == Encoded(Value(id).value + 1)
    ensures r.Some? ==> Canonical(r.value) && Base36Decode(r.value) == Some(Value(id).value + 1)
  {
    if !IsValid(id) { return None; }
    DecodeValid(id);
    EncodedIsCanonical(Value(id).value + 1);
    DecodeEncode(Value(id).value + 1);
    var next := Base36Encode(Base36Decode(id).value + 1);
    r := Some(if IsValid(next) then next else "");
  }

  /** After the last identifier of four characters comes one of five. */
  lemma Rollover()
    ensures Base36Decode("zzzz") == Some(1679615) && Encoded(1679616) == "10000"
  {
    hide *;
    LastOfFour();
    FirstOfFive();
    DecodeEncode(1679615);
  }

  lemma LastOfFour()
    ensures Encoded(1679615) == "zzzz"
  {
    assert Digit(35) == 'z';
    hide *;
    FourDigits(1679615);
  }

  lemma FirstOfFive()
    ensures Encoded(1679616) == "10000"
  {
    LargestPower();
    assert Digit(0) == '0';
    hide *;
    OneDigitMore(46656, 0);
    assert "1000" + ['0'] == "10000";
  }

  lemma LargestPower()
    ensures Encoded(46656) == "1000"
  {
    assert Digit(1) == '1' && Digit(0) == '0';
    hide *;
    FourDigits(46656);
  }
}
