/** `i32::from_str_radix` of the Rust standard library, which the first parser
    calls on the text of an integer literal: an optional sign, then digits of
    the radix read from left to right, with 32-bit overflow checked at every
    step. */
module IntParse {
  import opened Wrappers

  /** The kinds of `ParseIntError` that `from_str_radix` can return for `i32`. */
  datatype IntErrorKind = Empty | InvalidDigit | PosOverflow | NegOverflow

  /** `char::to_digit(radix)`: `0-9`, then `a-z` or `A-Z` for 10 to 35, and
      only when below the radix. */
  function ToDigit(c: char, radix: nat): (r: Option<nat>)
    requires 2 <= radix <= 36
    ensures r.Some? ==> r.value < radix
    ensures r.Some? <==>
      || ('0' <= c <= '9' && (c as int) - ('0' as int) < radix)
      || ('a' <= c <= 'z' && (c as int) - ('a' as int) + 10 < radix)
      || ('A' <= c <= 'Z' && (c as int) - ('A' as int) + 10 < radix)
  {
    var d: nat :=
      if '0' <= c <= '9' then (c as int) - ('0' as int)
      else if 'a' <= c <= 'z' then (c as int) - ('a' as int) + 10
      else if 'A' <= c <= 'Z' then (c as int) - ('A' as int) + 10
      else 36;
    if d < radix then Some(d) else None
  }

  /** Every character of `ds` is a digit of the radix. */
  predicate AllDigits(ds: string, radix: nat)
    requires 2 <= radix <= 36
  {
    forall i :: 0 <= i < |ds| ==> ToDigit(ds[i], radix).Some?
  }

  function Pow(radix: nat, n: nat): (p: nat)
    ensures radix >= 1 ==> p >= 1
  {
    if n == 0 then 1 else radix * Pow(radix, n - 1)
  }

  /** The value of a digit string: its first digit times the radix to the
      power of the number of digits after it, plus the value of the rest. */
  function Value(ds: string, radix: nat): (v: nat)
    requires 2 <= radix <= 36 && AllDigits(ds, radix)
  {
    if ds == [] then 0
    else
      assert AllDigits(ds[1..], radix) by {
        assert forall i :: 0 <= i < |ds[1..]| ==> ds[1..][i] == ds[i + 1];
      }
      Scale(ToDigit(ds[0], radix).value, Pow(radix, |ds| - 1)) + Value(ds[1..], radix)
  }

  /** A digit times a power of the radix. */
  function Scale(d: nat, p: nat): nat
  {
    d * p
  }

  predicate InI32(x: int)
  {
    I32_MIN <= x <= I32_MAX
  }

  /** The digit loop of `from_str_radix`: `acc * radix + digit` (or `- digit`
      for a negative number), failing on the first character that is not a
      digit, or on the first step that leaves the `i32` range. */
  function Accumulate(ds: string, radix: nat, acc: int, positive: bool): (r: Result<int32, IntErrorKind>)
    requires 2 <= radix <= 36 && InI32(acc)
    ensures r.Failure? ==> r.error != Empty
    ensures positive && acc >= 0 && r.Failure? ==> r.error != NegOverflow
    ensures !positive && acc <= 0 && r.Failure? ==> r.error != PosOverflow
    decreases |ds|
  {
    if ds == [] then Success(acc as int32)
    else match ToDigit(ds[0], radix)
      case None => Failure(InvalidDigit)
      case Some(x) =>
        ScaleAway(acc, radix);
        var next := if positive then acc * radix + x else acc * radix - x;
        if next > I32_MAX then Failure(PosOverflow)
        else if next < I32_MIN then Failure(NegOverflow)
        else Accumulate(ds[1..], radix, next, positive)
  }

  /** `i32::from_str_radix(src, radix)`: `Empty` exactly for the empty text;
      only a negative text can underflow and only a non-negative one can
      overflow. */
  function FromStrRadix(src: string, radix: nat): (r: Result<int32, IntErrorKind>)
    requires 2 <= radix <= 36
    ensures r == Failure(Empty) <==> src == []
    ensures r == Failure(NegOverflow) ==> src[0] == '-'
    ensures r == Failure(PosOverflow) ==> src[0] != '-'
  {
    if src == [] then Failure(Empty)
    else if src == "+" || src == "-" then Failure(InvalidDigit)
    else if src[0] == '+' then Accumulate(src[1..], radix, 0, true)
    else if src[0] == '-' then Accumulate(src[1..], radix, 0, false)
    else Accumulate(src, radix, 0, true)
  }

  /** One digit step of the loop, in terms of the final total: the total of
      `acc` over `x` followed by digits of value `v` is the total of
      `acc * radix + x` (or `- x`) over those digits. */
  lemma StepAlgebra(acc: int, radix: nat, x: nat, p: nat, v: nat, positive: bool)
    ensures positive ==> acc * (radix * p) + (x * p + v) == (acc * radix + x) * p + v
    ensures !positive ==> acc * (radix * p) - (x * p + v) == (acc * radix - x) * p - v
  {
    assert acc * (radix * p) == (acc * radix) * p;
    assert (acc * radix + x) * p == (acc * radix) * p + x * p;
    assert (acc * radix - x) * p == (acc * radix) * p - x * p;
  }

  /** `Value` split at the first digit. */
  lemma ValueHead(ds: string, radix: nat)
    requires 2 <= radix <= 36 && AllDigits(ds, radix) && ds != []
    ensures AllDigits(ds[1..], radix)
    ensures Value(ds, radix) == ToDigit(ds[0], radix).value * Pow(radix, |ds| - 1) + Value(ds[1..], radix)
    ensures Pow(radix, |ds|) == radix * Pow(radix, |ds| - 1)
  {
    assert forall i :: 0 <= i < |ds[1..]| ==> ds[1..][i] == ds[i + 1];
  }

  /** The digit loop without the `i32` bound. */
  function Fold(ds: string, radix: nat, acc: int, positive: bool): int
    requires 2 <= radix <= 36 && AllDigits(ds, radix)
    decreases |ds|
  {
    if ds == [] then acc
    else
      var x := ToDigit(ds[0], radix).value;
      Fold(ds[1..], radix, if positive then acc * radix + x else acc * radix - x, positive)
  }

  /** Multiplying by a radix moves away from zero. */
  lemma ScaleAway(a: int, radix: nat)
    requires radix >= 1
    ensures a >= 0 ==> a * radix >= a
    ensures a <= 0 ==> a * radix <= a
  {
  }

  /** The unbounded loop moves away from zero: up for a positive number,
      down for a negative one. */
  lemma {:induction false} FoldMonotone(ds: string, radix: nat, acc: int, positive: bool)
    requires 2 <= radix <= 36 && AllDigits(ds, radix)
    requires if positive then acc >= 0 else acc <= 0
    ensures if positive then Fold(ds, radix, acc, positive) >= acc else Fold(ds, radix, acc, positive) <= acc
    decreases |ds|
  {
    if ds != [] {
      ValueHead(ds, radix);
      ScaleAway(acc, radix);
      var x := ToDigit(ds[0], radix).value;
      FoldMonotone(ds[1..], radix, if positive then acc * radix + x else acc * radix - x, positive);
    }
  }

  /** The unbounded loop computes the positional value: `acc * radix^n +
      Value` (`- Value` when negative). */
  lemma {:induction false} FoldValue(ds: string, radix: nat, acc: int, positive: bool)
    requires 2 <= radix <= 36 && AllDigits(ds, radix)
    ensures positive ==> Fold(ds, radix, acc, positive) == acc * Pow(radix, |ds|) + Value(ds, radix)
    ensures !positive ==> Fold(ds, radix, acc, positive) == acc * Pow(radix, |ds|) - Value(ds, radix)
    decreases |ds|
  {
    if ds != [] {
      ValueHead(ds, radix);
      var x := ToDigit(ds[0], radix).value;
      var p := Pow(radix, |ds| - 1);
      StepAlgebra(acc, radix, x, p, Value(ds[1..], radix), positive);
      FoldValue(ds[1..], radix, if positive then acc * radix + x else acc * radix - x, positive);
    }
  }

  /** With every character a digit, the loop with its checks returns the
      unbounded result exactly when that is an `i32`, and otherwise the
      overflow of the sign. */
  lemma {:induction false} AccumulateFold(ds: string, radix: nat, acc: int, positive: bool)
    requires 2 <= radix <= 36 && InI32(acc) && AllDigits(ds, radix)
    requires if positive then acc >= 0 else acc <= 0
    ensures Accumulate(ds, radix, acc, positive) ==
      if InI32(Fold(ds, radix, acc, positive)) then Success(Fold(ds, radix, acc, positive) as int32)
      else Failure(if positive then PosOverflow else NegOverflow)
    decreases |ds|
  {
    if ds != [] {
      ValueHead(ds, radix);
      ScaleAway(acc, radix);
      var x := ToDigit(ds[0], radix).value;
      var next := if positive then acc * radix + x else acc * radix - x;
      if InI32(next) {
        AccumulateFold(ds[1..], radix, next, positive);
      } else {
        FoldMonotone(ds[1..], radix, next, positive);
      }
    }
  }

  /** With a character that is not a digit, the loop fails. */
  lemma {:induction false} AccumulateInvalid(ds: string, radix: nat, acc: int, positive: bool)
    requires 2 <= radix <= 36 && InI32(acc) && !AllDigits(ds, radix)
    ensures Accumulate(ds, radix, acc, positive).Failure?
    decreases |ds|
  {
    var rest := ds[1..];
    if ToDigit(ds[0], radix).Some? {
      assert !AllDigits(rest, radix) by {
        var i :| 0 <= i < |ds| && ToDigit(ds[i], radix).None?;
        assert rest[i - 1] == ds[i];
      }
      var x := ToDigit(ds[0], radix).value;
      var next := if positive then acc * radix + x else acc * radix - x;
      if InI32(next) {
        AccumulateInvalid(rest, radix, next, positive);
      }
    }
  }

  /** `from_str_radix` on an unsigned digit string succeeds exactly when every
      character is a digit of the radix and the value fits in an `i32`, and
      then returns that value; with digits only but a too-large value it
      reports `PosOverflow`; empty input is `Empty`. */
  lemma {:induction false} FromStrRadixUnsigned(src: string, radix: nat)
    requires 2 <= radix <= 36
    requires src == [] || (src[0] != '+' && src[0] != '-')
    ensures src == [] <==> FromStrRadix(src, radix) == Failure(Empty)
    ensures FromStrRadix(src, radix).Success? <==>
      src != [] && AllDigits(src, radix) && Value(src, radix) <= I32_MAX
    ensures FromStrRadix(src, radix).Success? ==> FromStrRadix(src, radix).value as int == Value(src, radix)
    ensures src != [] && AllDigits(src, radix) && Value(src, radix) > I32_MAX ==>
      FromStrRadix(src, radix) == Failure(PosOverflow)
  {
    if src != [] {
      if AllDigits(src, radix) {
        AccumulateFold(src, radix, 0, true);
        FoldValue(src, radix, 0, true);
      } else {
        AccumulateInvalid(src, radix, 0, true);
      }
    }
  }

  /** With a leading `-` the digits are subtracted: the result is `-Value`,
      and it fits exactly when `Value` is at most 2^31. */
  lemma {:induction false} FromStrRadixNegative(ds: string, radix: nat)
    requires 2 <= radix <= 36 && ds != []
    ensures FromStrRadix("-" + ds, radix).Success? <==> AllDigits(ds, radix) && Value(ds, radix) <= -I32_MIN
    ensures FromStrRadix("-" + ds, radix).Success? ==> FromStrRadix("-" + ds, radix).value as int == 0 - Value(ds, radix)
  {
    assert ("-" + ds)[0] == '-' && ("-" + ds)[1..] == ds;
    if AllDigits(ds, radix) {
      AccumulateFold(ds, radix, 0, false);
      FoldValue(ds, radix, 0, false);
    } else {
      AccumulateInvalid(ds, radix, 0, false);
    }
  }

  /** A single decimal digit is its own value. */
  lemma DecimalDigit(d: char)
    requires '0' <= d <= '9'
    ensures FromStrRadix([d], 10) == Success(((d as int) - ('0' as int)) as int32)
  {
    FromStrRadixUnsigned([d], 10);
    assert [d][1..] == [];
    assert Value([d], 10) == Scale((d as int) - ('0' as int), Pow(10, 0)) + Value([], 10);
  }

  /** Values of literals in each base. */
  lemma {:induction false} FromStrRadixExamples()
    ensures FromStrRadix("1A", 16) == Success(26)
    ensures FromStrRadix("1010", 2) == Success(10)
    ensures FromStrRadix("17", 8) == Success(15)
  {
  }

  /** A digit beyond the radix and an empty text are errors. */
  lemma {:induction false} FromStrRadixErrors()
    ensures FromStrRadix("2", 2) == Failure(InvalidDigit)
    ensures FromStrRadix("", 16) == Failure(Empty)
  {
  }

  /** The largest `i32`, written in hex, still parses. */
  lemma {:induction false} FromStrRadixMax()
    ensures FromStrRadix("7fffffff", 16) == Success(0x7fff_ffff)
  {
    assert Accumulate("f", 16, 0x7ff_ffff, true) == Success(0x7fff_ffff);
    assert Accumulate("ff", 16, 0x7f_ffff, true) == Success(0x7fff_ffff);
    assert Accumulate("fff", 16, 0x7_ffff, true) == Success(0x7fff_ffff);
    assert Accumulate("ffff", 16, 0x7fff, true) == Success(0x7fff_ffff);
    assert Accumulate("fffff", 16, 0x7ff, true) == Success(0x7fff_ffff);
    assert Accumulate("ffffff", 16, 0x7f, true) == Success(0x7fff_ffff);
    assert Accumulate("fffffff", 16, 0x7, true) == Success(0x7fff_ffff);
  }

  /** One more than the largest `i32`, written in hex, overflows. */
  lemma {:induction false} FromStrRadixOverflow()
    ensures FromStrRadix("80000000", 16) == Failure(PosOverflow)
  {
  }
}
