/**
 Positional numerals: the value of a digit string in a base, the digit string
 of a value, and the proof that they are inverse. A bit string cut into bytes
 is a base-256 numeral and the same bits cut into five-bit symbols are a
 base-32 numeral, so "the same bits" becomes an equation between two values.
 */
module Digits {

  function Pow(b: nat, n: nat): nat {
    if n == 0 then 1 else b * Pow(b, n - 1)
  }

  /** Most significant digit first. */
  function Value(digits: seq<nat>, b: nat): nat {
    if digits == [] then 0 else b * Value(digits[..|digits| - 1], b) + digits[|digits| - 1]
  }

  /** The `len` low digits of `n`, most significant first. */
  function Numeral(n: nat, b: nat, len: nat): (digits: seq<nat>)
    requires b > 0
    ensures |digits| == len
    ensures InBase(digits, b)
    decreases len, n
  {
    DivModBounds(n, b);
    if len == 0 then [] else Numeral(n / b, b, len - 1) + [n % b]
  }

  ghost predicate InBase(digits: seq<nat>, b: nat) {
    forall i :: 0 <= i < |digits| ==> digits[i] < b
  }

  lemma DivModBounds(n: nat, b: nat)
    requires b > 0
    ensures 0 <= n / b && 0 <= n % b < b && n == b * (n / b) + n % b
  {}

  lemma ValueSnoc(digits: seq<nat>, d: nat, b: nat)
    ensures Value(digits + [d], b) == b * Value(digits, b) + d
  {
    assert (digits + [d])[..|digits|] == digits;
  }

  lemma DivModOf(q: nat, r: nat, b: nat)
    requires r < b
    ensures (q * b + r) / b == q && (q * b + r) % b == r
  {
    var n := q * b + r;
    DivModBounds(n, b);
    if n / b < q { MulMonotone(n / b + 1, q, b); }
    if n / b > q { MulMonotone(q + 1, n / b, b); }
  }

  lemma MulMonotone(x: nat, y: nat, b: nat)
    requires x <= y
    ensures x * b <= y * b
  {}

  lemma MulAddBelow(b: nat, v: nat, d: nat, p: nat)
    requires v < p && d < b
    ensures b * v + d < b * p
  {
    MulMonotone(v + 1, p, b);
    assert (v + 1) * b == v * b + b;
  }

  lemma {:induction false} ValueBelowPow(digits: seq<nat>, b: nat)
    requires InBase(digits, b)
    ensures Value(digits, b) < Pow(b, |digits|)
  {
    if digits != [] {
      var init, last := digits[..|digits| - 1], digits[|digits| - 1];
      ValueBelowPow(init, b);
      MulAddBelow(b, Value(init, b), last, Pow(b, |init|));
    }
  }

  lemma {:induction false} NumeralOfValue(digits: seq<nat>, b: nat)
    requires b > 0 && InBase(digits, b)
    ensures Numeral(Value(digits, b), b, |digits|) == digits
  {
    if digits != [] {
      var init, last := digits[..|digits| - 1], digits[|digits| - 1];
      NumeralOfValue(init, b);
      DivModOf(Value(init, b), last, b);
    }
  }

  lemma {:induction false} ValueOfNumeral(n: nat, b: nat, len: nat)
    requires b > 0 && n < Pow(b, len)
    ensures Value(Numeral(n, b, len), b) == n
    decreases len
  {
    if len > 0 {
      DivModBounds(n, b);
      if n / b >= Pow(b, len - 1) {
        MulMonotone(Pow(b, len - 1), n / b, b);
      }
      ValueOfNumeral(n / b, b, len - 1);
      ValueSnoc(Numeral(n / b, b, len - 1), n % b, b);
    }
  }

  /** Two numerals of one length are equal exactly when their values are. */
  lemma ValueInjective(x: seq<nat>, y: seq<nat>, b: nat)
    requires b > 0 && InBase(x, b) && InBase(y, b) && |x| == |y|
    ensures Value(x, b) == Value(y, b) <==> x == y
  {
    NumeralOfValue(x, b);
    NumeralOfValue(y, b);
  }
}
