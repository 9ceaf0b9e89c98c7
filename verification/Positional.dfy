/** Byte strings, and big-endian positional numerals in any base. */
module Positional {
  import opened Arithmetic

  type byte = x: nat | x < 256

  /** An account, on either chain. */
  type Address = a: seq<byte> | |a| == 20 witness seq(20, _ => 0)

  function Power(base: nat, n: nat): (p: nat)
    ensures base > 0 ==> p > 0
  {
    if n == 0 then 1 else Power(base, n - 1) * base
  }

  /** The number a digit sequence stands for, most significant digit first. */
  function Value(digits: seq<nat>, base: nat): nat {
    if digits == [] then 0
    else Value(digits[..|digits| - 1], base) * base + digits[|digits| - 1]
  }

  predicate Below(digits: seq<nat>, base: nat) {
    forall k :: 0 <= k < |digits| ==> digits[k] < base
  }

  /** The shortest digit sequence of a number; zero has none. */
  function Digits(n: nat, base: nat): (digits: seq<nat>)
    requires base > 1
    ensures Below(digits, base)
    ensures digits != [] ==> digits[0] != 0
    ensures n == 0 <==> digits == []
  {
    if n == 0 then []
    else
      QuotientIsSmaller(n, base);
      var front := Digits(n / base, base);
      assert front == [] ==> n % base == n by {
        if front == [] {
          assert n == (n / base) * base + n % base;
        }
      }
      front + [n % base]
  }

  lemma QuotientIsSmaller(n: nat, base: nat)
    requires n > 0 && base > 1
    ensures 0 <= n / base < n
  {
    var q := n / base;
    assert n == q * base + n % base;
    Monotone(2, base, q);
    assert 2 * q <= q * base;
  }

  function Zeros(n: nat): (zeros: seq<nat>)
    ensures |zeros| == n
  {
    seq(n, _ => 0)
  }

  lemma OneMoreZero(digits: seq<nat>, r: seq<nat>)
    requires digits != [] && digits[0] == 0 && |r| < |digits|
    requires digits[1..] == Zeros(|digits| - 1 - |r|) + r
    ensures digits == Zeros(|digits| - |r|) + r
  {
    assert digits == [0] + digits[1..];
  }

  /** The digits from the first non-zero one on. */
  function Stripped(digits: seq<nat>): (r: seq<nat>)
    ensures r != [] ==> r[0] != 0
    ensures |r| <= |digits| && digits == Zeros(|digits| - |r|) + r
  {
    if digits != [] && digits[0] == 0 then
      var r := Stripped(digits[1..]);
      OneMoreZero(digits, r);
      r
    else
      assert Zeros(0) + digits == digits;
      digits
  }

  function LeadingZeros(digits: seq<nat>): nat {
    |digits| - |Stripped(digits)|
  }

  // Numbers and their digits

  lemma {:induction false} ValueOfDigits(n: nat, base: nat)
    requires base > 1
    ensures Value(Digits(n, base), base) == n
  {
    if n > 0 {
      QuotientIsSmaller(n, base);
      ValueOfDigits(n / base, base);
      var digits := Digits(n, base);
      assert digits[..|digits| - 1] == Digits(n / base, base);
      FundamentalDivMod(n, base);
    }
  }

  lemma {:induction false} DigitsOfValue(digits: seq<nat>, base: nat)
    requires base > 1 && Below(digits, base) && (digits != [] ==> digits[0] != 0)
    ensures Digits(Value(digits, base), base) == digits
  {
    if digits != [] {
      var last := |digits| - 1;
      var front := digits[..last];
      DigitsOfValue(front, base);
      DivMod(Value(front, base), digits[last], base);
      assert Value(digits, base) > 0 by {
        if front != [] {
          assert Value(front, base) != 0;
          Multiples(Value(front, base), base);
        }
      }
    }
  }

  lemma {:induction false} ValueAfterZeros(n: nat, digits: seq<nat>, base: nat)
    ensures Value(Zeros(n) + digits, base) == Value(digits, base)
  {
    if digits == [] {
      if n > 0 {
        assert (Zeros(n) + digits)[..n - 1] == Zeros(n - 1) + [];
        ValueAfterZeros(n - 1, [], base);
      }
    } else {
      var last := |digits| - 1;
      assert (Zeros(n) + digits)[..n + last] == Zeros(n) + digits[..last];
      ValueAfterZeros(n, digits[..last], base);
    }
  }

  lemma StrippedValue(digits: seq<nat>, base: nat)
    ensures Value(Stripped(digits), base) == Value(digits, base)
  {
    ValueAfterZeros(LeadingZeros(digits), Stripped(digits), base);
  }

  lemma {:induction false} StrippedBelow(digits: seq<nat>, base: nat)
    requires Below(digits, base)
    ensures Below(Stripped(digits), base)
  {
    if digits != [] && digits[0] == 0 {
      StrippedBelow(digits[1..], base);
    }
  }

  /** Leading zeros aside, a number has one digit sequence. */
  lemma StrippedIsDigits(digits: seq<nat>, base: nat)
    requires base > 1 && Below(digits, base)
    ensures Stripped(digits) == Digits(Value(digits, base), base)
  {
    StrippedValue(digits, base);
    StrippedBelow(digits, base);
    DigitsOfValue(Stripped(digits), base);
  }

  lemma {:induction false} ValueOfConcat(xs: seq<nat>, ys: seq<nat>, base: nat)
    ensures Value(xs + ys, base) == Value(xs, base) * Power(base, |ys|) + Value(ys, base)
  {
    if ys == [] {
      assert xs + ys == xs;
    } else {
      var last := |ys| - 1;
      assert (xs + ys)[..|xs| + last] == xs + ys[..last];
      ValueOfConcat(xs, ys[..last], base);
      Distribute(Value(xs, base), Power(base, last), Value(ys[..last], base), base);
    }
  }

  lemma {:induction false} ValueBound(digits: seq<nat>, base: nat)
    requires base > 0 && Below(digits, base)
    ensures Value(digits, base) < Power(base, |digits|)
  {
    if digits != [] {
      var last := |digits| - 1;
      var v, p := Value(digits[..last], base), Power(base, last);
      ValueBound(digits[..last], base);
      Monotone(v + 1, p, base);
      OneMore(v, base);
    }
  }

  lemma {:induction false} PowerMonotone(base: nat, m: nat, n: nat)
    requires base > 0 && m <= n
    ensures 0 < Power(base, m) <= Power(base, n)
    decreases n
  {
    if m < n {
      PowerMonotone(base, m, n - 1);
      Monotone(1, base, Power(base, n - 1));
    } else if n > 0 {
      PowerMonotone(base, n - 1, n - 1);
      Monotone(1, base, Power(base, n - 1));
    }
  }

  /** A number below base^n has at most n digits, and only such a number. */
  lemma DigitsFitIff(x: nat, base: nat, n: nat)
    requires base > 1
    ensures |Digits(x, base)| <= n <==> x < Power(base, n)
  {
    var digits := Digits(x, base);
    ValueOfDigits(x, base);
    ValueBound(digits, base);
    if |digits| <= n {
      PowerMonotone(base, |digits|, n);
    } else {
      LowerBound(digits, base);
      PowerMonotone(base, n, |digits| - 1);
    }
  }

  lemma LowerBound(digits: seq<nat>, base: nat)
    requires base > 1 && digits != [] && digits[0] != 0
    ensures Power(base, |digits| - 1) <= Value(digits, base)
  {
    assert digits == [digits[0]] + digits[1..];
    ValueOfConcat([digits[0]], digits[1..], base);
    assert [digits[0]][..0] == [];
    assert Value([digits[0]], base) == digits[0];
    Monotone(1, digits[0], Power(base, |digits| - 1));
  }

  /** A number lies between what its first digit and the next one would be worth. */
  lemma FirstDigitBounds(digits: seq<nat>, base: nat)
    requires base > 0 && digits != [] && Below(digits, base)
    ensures digits[0] * Power(base, |digits| - 1) <= Value(digits, base) < (digits[0] + 1) * Power(base, |digits| - 1)
  {
    var rest := digits[1..];
    assert digits == [digits[0]] + rest;
    ValueOfConcat([digits[0]], rest, base);
    assert [digits[0]][..0] == [];
    assert Value([digits[0]], base) == digits[0];
    ValueBound(rest, base);
    OneMore(digits[0], Power(base, |rest|));
  }

  lemma {:induction false} PowerSum(base: nat, m: nat, n: nat)
    ensures Power(base, m + n) == Power(base, m) * Power(base, n)
  {
    if n > 0 {
      PowerSum(base, m, n - 1);
      Associate(Power(base, m), Power(base, n - 1), base);
    }
  }

  // Changing the base, keeping leading zeros

  /** As many zeros as there were leading ones, then the digits of the same number in another base. */
  function Rebased(digits: seq<nat>, from: nat, to: nat): (r: seq<nat>)
    requires to > 1
    ensures Below(r, to)
  {
    Zeros(LeadingZeros(digits)) + Digits(Value(digits, from), to)
  }

  lemma StrippedAfterZeros(n: nat, digits: seq<nat>)
    requires digits != [] ==> digits[0] != 0
    ensures Stripped(Zeros(n) + digits) == digits
  {
    if n == 0 {
      assert Zeros(0) + digits == digits;
    } else {
      assert (Zeros(n) + digits)[1..] == Zeros(n - 1) + digits;
      StrippedAfterZeros(n - 1, digits);
    }
  }

  lemma RebasedBack(digits: seq<nat>, from: nat, to: nat)
    requires from > 1 && to > 1 && Below(digits, from)
    ensures Rebased(Rebased(digits, from, to), to, from) == digits
  {
    var n, x := LeadingZeros(digits), Value(digits, from);
    StrippedAfterZeros(n, Digits(x, to));
    ValueAfterZeros(n, Digits(x, to), to);
    ValueOfDigits(x, to);
    StrippedIsDigits(digits, from);
  }
}
