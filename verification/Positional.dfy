/** Numbers written as digits, most significant first: the arithmetic behind BCD and integer decoding. */
module Positional {

  /** Two decimal digits a byte, or the whole byte. */
  datatype Radix = Hundred | TwoFiftySix {
    function Size(): nat {
      if Hundred? then 100 else 256
    }

    function Shift(v: int): int {
      if Hundred? then v * 100 else v * 256
    }

    function High(v: nat): nat {
      if Hundred? then v / 100 else v / 256
    }

    function Low(v: nat): nat {
      if Hundred? then v % 100 else v % 256
    }
  }

  /** `r` to the power `n`. */
  function Pow(r: Radix, n: nat): (p: int)
    ensures p >= 1
  {
    if n == 0 then 1 else r.Shift(Pow(r, n - 1))
  }

  function Number(r: Radix, digits: seq<nat>): (v: int)
    ensures v >= 0
  {
    if digits == [] then 0 else r.Shift(Number(r, digits[..|digits| - 1])) + digits[|digits| - 1]
  }

  function Digits(r: Radix, value: nat, n: nat): (digits: seq<nat>)
    ensures |digits| == n
  {
    if n == 0 then [] else Digits(r, r.High(value), n - 1) + [r.Low(value)]
  }

  ghost predicate Fit(r: Radix, digits: seq<nat>) {
    forall i :: 0 <= i < |digits| ==> digits[i] < r.Size()
  }

  lemma {:induction false} NumberIsBounded(r: Radix, digits: seq<nat>)
    requires Fit(r, digits)
    ensures Number(r, digits) < Pow(r, |digits|)
  {
    if digits != [] {
      NumberIsBounded(r, digits[..|digits| - 1]);
    }
  }

  lemma ShiftDistributes(r: Radix, x: int, p: int, y: int)
    ensures r.Shift(x * p + y) == x * r.Shift(p) + r.Shift(y)
  {
  }

  lemma {:induction false} NumberOfConcat(r: Radix, a: seq<nat>, b: seq<nat>)
    ensures Number(r, a + b) == Number(r, a) * Pow(r, |b|) + Number(r, b)
  {
    if b == [] {
      assert a + b == a;
    } else {
      var n := |b| - 1;
      assert (a + b)[..|a| + n] == a + b[..n];
      NumberOfConcat(r, a, b[..n]);
      ShiftDistributes(r, Number(r, a), Pow(r, n), Number(r, b[..n]));
    }
  }

  lemma {:induction false} DigitsOfNumber(r: Radix, digits: seq<nat>)
    requires Fit(r, digits)
    ensures Digits(r, Number(r, digits), |digits|) == digits
  {
    if digits != [] {
      DigitsOfNumber(r, digits[..|digits| - 1]);
    }
  }

  lemma HighFits(r: Radix, value: nat, n: nat)
    requires n > 0 && value < Pow(r, n)
    ensures r.High(value) < Pow(r, n - 1) && r.Shift(r.High(value)) + r.Low(value) == value && r.Low(value) < r.Size()
  {
  }

  lemma {:induction false} NumberOfDigits(r: Radix, value: nat, n: nat)
    requires value < Pow(r, n)
    ensures Fit(r, Digits(r, value, n))
    ensures Number(r, Digits(r, value, n)) == value
  {
    if n > 0 {
      hide Radix.High, Radix.Low, Radix.Shift, Radix.Size, Pow;
      HighFits(r, value, n);
      NumberOfDigits(r, r.High(value), n - 1);
      assert Digits(r, value, n)[..n - 1] == Digits(r, r.High(value), n - 1);
    }
  }

  /** Two digit strings of one length writing the same number are the same. */
  lemma NumberIsInjective(r: Radix, a: seq<nat>, b: seq<nat>)
    requires Fit(r, a) && Fit(r, b) && |a| == |b| && Number(r, a) == Number(r, b)
    ensures a == b
  {
    DigitsOfNumber(r, a);
    DigitsOfNumber(r, b);
  }
}
