/** Positional number representation, most significant digit first. */
module Positional {

  function Pow(b: nat, k: nat): nat {
    if k == 0 then 1 else b * Pow(b, k - 1)
  }

  function Value(digits: seq<nat>, b: nat): nat {
    if digits == [] then 0 else Value(digits[..|digits| - 1], b) * b + digits[|digits| - 1]
  }

  ghost predicate DigitsOf(digits: seq<nat>, b: nat) {
    forall i :: 0 <= i < |digits| ==> digits[i] < b
  }

  /** The low `k` digits of `n`. */
  function LowDigits(n: nat, b: nat, k: nat): (digits: seq<nat>)
    requires b > 0
    ensures |digits| == k && DigitsOf(digits, b)
    decreases k
  {
    if k == 0 then [] else LowDigits(n / b, b, k - 1) + [n % b]
  }

  lemma DivModUnique(q: nat, b: nat, r: nat)
    requires r < b
    ensures (q * b + r) / b == q && (q * b + r) % b == r
  {
    var n := q * b + r;
    assert n == (n / b) * b + n % b;
    SmallMultiple(n / b - q, b);
  }

  lemma SmallMultiple(d: int, b: nat)
    requires 0 - b < d * b < b
    ensures d == 0
  {
    MulAtLeast(d, b);
    MulAtLeast(-d, b);
  }

  lemma MulAtLeast(d: int, b: nat)
    ensures d >= 1 ==> d * b >= b
  {
  }

  /** The low digits of a number written with that many digits are its digits. */
  lemma {:induction false} LowDigitsOfValue(digits: seq<nat>, b: nat)
    requires b > 0 && DigitsOf(digits, b)
    ensures LowDigits(Value(digits, b), b, |digits|) == digits
  {
    if digits != [] {
      var front, last := digits[..|digits| - 1], digits[|digits| - 1];
      DivModUnique(Value(front, b), b, last);
      LowDigitsOfValue(front, b);
      assert digits == front + [last];
    }
  }

  /** A number below the power is the value of its low digits. */
  lemma {:induction false} ValueOfLowDigits(n: nat, b: nat, k: nat)
    requires b > 0 && n < Pow(b, k)
    ensures Value(LowDigits(n, b, k), b) == n
    decreases k
  {
    if k > 0 {
      QuotientBelow(n, b, Pow(b, k - 1));
      ValueOfLowDigits(n / b, b, k - 1);
      ValueLast(LowDigits(n / b, b, k - 1), n % b, b);
    }
  }

  /** The low digits are the remainder by the power. */
  lemma {:induction false} LowPart(n: nat, b: nat, k: nat) returns (q: nat)
    requires b > 0
    ensures n == q * Pow(b, k) + Value(LowDigits(n, b, k), b)
    decreases k
  {
    if k == 0 {
      q := n;
    } else {
      var m, r, low := n / b, n % b, LowDigits(n / b, b, k - 1);
      q := LowPart(m, b, k - 1);
      QuotientParts(n, b);
      ValueLast(low, r, b);
      LowStep(n, m, b, r, q, Pow(b, k - 1), Value(low, b));
      assert LowDigits(n, b, k) == low + [r] && Pow(b, k) == b * Pow(b, k - 1);
    }
  }

  lemma QuotientParts(n: nat, b: nat)
    requires b > 0
    ensures n == (n / b) * b + n % b
  {
  }

  lemma LowStep(n: nat, m: nat, b: nat, r: nat, q: nat, p: nat, v: nat)
    requires n == m * b + r && m == q * p + v
    ensures n == q * (b * p) + (v * b + r)
  {
    MulDist(q * p, v, b);
    MulAssoc(q, p, b);
  }

  lemma LowDigitsAreRemainder(n: nat, b: nat, k: nat)
    requires b > 0
    ensures Pow(b, k) > 0 && Value(LowDigits(n, b, k), b) == n % Pow(b, k)
  {
    var q := LowPart(n, b, k);
    PowMono(b, 0, k);
    ValueBelow(LowDigits(n, b, k), b);
    DivModUnique(q, Pow(b, k), Value(LowDigits(n, b, k), b));
  }

  lemma ValueLast(front: seq<nat>, last: nat, b: nat)
    ensures Value(front + [last], b) == Value(front, b) * b + last
  {
    assert (front + [last])[..|front|] == front;
  }

  lemma QuotientBelow(n: nat, b: nat, p: nat)
    requires b > 0 && n < b * p
    ensures n / b < p && n == (n / b) * b + n % b
  {
    if n / b >= p {
      MulMono(p, n / b, b);
    }
  }

  lemma {:induction false} ValueBelow(digits: seq<nat>, b: nat)
    requires b > 0 && DigitsOf(digits, b)
    ensures Value(digits, b) < Pow(b, |digits|)
  {
    if digits != [] {
      var front, last := digits[..|digits| - 1], digits[|digits| - 1];
      ValueBelow(front, b);
      MulMono(Value(front, b) + 1, Pow(b, |front|), b);
      assert (Value(front, b) + 1) * b == Value(front, b) * b + b;
    }
  }

  lemma MulMono(x: nat, y: nat, b: nat)
    requires x <= y
    ensures x * b <= y * b
  {
  }

  /** A number that starts with a non-zero digit is as large as its length says. */
  lemma {:induction false} ValueAtLeast(digits: seq<nat>, b: nat)
    requires digits != [] && digits[0] > 0
    ensures Value(digits, b) >= Pow(b, |digits| - 1)
  {
    if |digits| > 1 {
      var front := digits[..|digits| - 1];
      ValueAtLeast(front, b);
      MulMono(Pow(b, |front| - 1), Value(front, b), b);
    } else {
      assert Value(digits[..0], b) == 0;
    }
  }

  lemma {:induction false} ValueConcat(high: seq<nat>, low: seq<nat>, b: nat)
    ensures Value(high + low, b) == Value(high, b) * Pow(b, |low|) + Value(low, b)
  {
    var all := high + low;
    if low == [] {
      assert all == high;
    } else {
      var front, v := low[..|low| - 1], Value(high, b);
      ValueConcat(high, front, b);
      assert all[..|all| - 1] == high + front;
      MulAssoc(v, Pow(b, |front|), b);
      MulDist(v * Pow(b, |front|), Value(front, b), b);
    }
  }

  lemma MulAssoc(x: nat, y: nat, b: nat)
    ensures (x * y) * b == x * (b * y)
  {
  }

  lemma MulDist(x: nat, y: nat, b: nat)
    ensures (x + y) * b == x * b + y * b
  {
  }

  /** Leading zeros do not change the value. */
  lemma {:induction false} LeadingZeros(k: nat, digits: seq<nat>, b: nat)
    ensures Value(seq(k, _ => 0) + digits, b) == Value(digits, b)
  {
    var zeros := seq(k, _ => 0);
    if digits != [] {
      var front := digits[..|digits| - 1];
      LeadingZeros(k, front, b);
      assert (zeros + digits)[..|zeros + digits| - 1] == zeros + front;
    } else if k > 0 {
      LeadingZeros(k - 1, [], b);
      assert zeros + [] == zeros;
      assert zeros[..k - 1] == seq(k - 1, _ => 0) + [];
    } else {
      assert zeros + digits == [];
    }
  }

  lemma {:induction false} PowMono(b: nat, j: nat, k: nat)
    requires b > 0 && j <= k
    ensures Pow(b, j) <= Pow(b, k)
  {
    if j < k {
      PowMono(b, j, k - 1);
      MulMono(1, b, Pow(b, k - 1));
    }
  }
}
