/** Which typing errors the check digits of ICAP addresses detect
    (common/icap.go:116-157). */
module IcapErrors {
  import opened Icap
  import opened Positional

  // ---- weights ----

  /** Ten to the number of decimal digits of `s`. */
  ghost function Weight(s: string): nat {
    if s == [] then 1
    else if IsDigit(s[|s| - 1]) then 10 * Weight(s[..|s| - 1])
    else 100 * Weight(s[..|s| - 1])
  }

  lemma {:induction false} WeightedConcat(p: string, q: string)
    requires ValidBase36(p) && ValidBase36(q)
    ensures ValidBase36(p + q) && Weighted(p + q) == Weighted(p) * Weight(q) + Weighted(q)
  {
    if q == [] {
      assert p + q == p;
    } else {
      var front, last := q[..|q| - 1], q[|q| - 1];
      WeightedConcat(p, front);
      assert p + q == (p + front) + [last];
      WeightedAppend(p + front, last);
      Shifted(Weighted(p), Weight(front), Weighted(front), if IsDigit(last) then 10 else 100);
    }
  }

  lemma Shifted(x: int, w: int, y: int, k: int)
    ensures k * (x * w + y) == x * (k * w) + k * y
  {
  }

  lemma CancelTen(y: int)
    requires (10 * y) % 97 == 0
    ensures y % 97 == 0
  {
    var m := (10 * y) / 97;
    assert y == 97 * (68 * m - 7 * y);
  }

  lemma SameRemainder(n: int, n': int)
    ensures n % 97 == n' % 97 <==> (n - n') % 97 == 0
  {
  }

  lemma Factored(a: int, b: int, x: int, y: int, n: int, k: int)
    requires a == x * k + n && b == y * k + n
    ensures a - b == (x - y) * k
  {
  }

  lemma AppendApart(a: int, b: int, k: int, d: int, a': int, b': int)
    requires a % 97 != b % 97 && (k == 10 || k == 100) && a' == k * a + d && b' == k * b + d
    ensures a' % 97 != b' % 97
  {
    SameRemainder(a, b);
    TimesTen(a - b);
    TimesTen(10 * (a - b));
    SameRemainder(a', b');
  }

  lemma TimesTen(y: int)
    requires y % 97 != 0
    ensures (10 * y) % 97 != 0
  {
    if (10 * y) % 97 == 0 {
      CancelTen(y);
    }
  }

  lemma StillApart(s: string, s': string, c: char)
    requires ValidBase36(s) && ValidBase36(s') && IsBase36(c) && Weighted(s) % 97 != Weighted(s') % 97
    ensures ValidBase36(s + [c]) && ValidBase36(s' + [c]) && Weighted(s + [c]) % 97 != Weighted(s' + [c]) % 97
  {
    WeightedAppend(s, c);
    WeightedAppend(s', c);
    AppendApart(Weighted(s), Weighted(s'), if IsDigit(c) then 10 else 100, DigitOf(c), Weighted(s + [c]), Weighted(s' + [c]));
  }

  /** Strings that differ only before `q`, by no multiple of 97, do not leave
      the same remainder. */
  lemma {:induction false} TailsAgree(p: string, p': string, q: string)
    requires ValidBase36(p) && ValidBase36(p') && ValidBase36(q)
    requires Weighted(p) % 97 != Weighted(p') % 97
    ensures ValidBase36(p + q) && ValidBase36(p' + q) && Weighted(p + q) % 97 != Weighted(p' + q) % 97
  {
    if q == [] {
      assert p + q == p && p' + q == p';
    } else {
      var front, last := q[..|q| - 1], q[|q| - 1];
      TailsAgree(p, p', front);
      StillApart(p + front, p' + front, last);
      assert p + q == (p + front) + [last];
      assert p' + q == (p' + front) + [last];
    }
  }

  // ---- digits ----

  /** Swapping two digits changes the number by 9, two letters by 99 times their difference. */
  function SwapDifference(c: char, d: char): int
    requires SameClass(c, d)
  {
    (if IsDigit(c) then 9 else 99) * (DigitOf(c) - DigitOf(d))
  }

  /** Differences of different digits, and what swapping them does, are no
      multiples of 97. */
  lemma NoMultiple(c: char, d: char)
    requires SameClass(c, d) && c != d
    ensures (DigitOf(c) - DigitOf(d)) % 97 != 0 && SwapDifference(c, d) % 97 != 0
  {
    SmallMultiples(DigitOf(c) - DigitOf(d));
  }

  lemma SmallMultiples(x: int)
    requires x != 0 && -26 < x < 26
    ensures x % 97 != 0 && (99 * x) % 97 != 0 && (x < 10 && -10 < x ==> (9 * x) % 97 != 0)
  {
    assert 99 * x == 97 * x + 2 * x;
  }

  lemma ReplacedApart(p: string, c: char, d: char, q: string)
    requires ValidBase36(p) && ValidBase36(q) && SameClass(c, d) && c != d
    ensures ValidBase36((p + [c]) + q) && ValidBase36((p + [d]) + q)
    ensures Weighted((p + [c]) + q) % 97 != Weighted((p + [d]) + q) % 97
  {
    WeightedAppend(p, c);
    WeightedAppend(p, d);
    NoMultiple(c, d);
    SameRemainder(Weighted(p + [c]), Weighted(p + [d]));
    TailsAgree(p + [c], p + [d], q);
  }

  lemma SwappedApart(p: string, c: char, d: char, q: string)
    requires ValidBase36(p) && ValidBase36(q) && SameClass(c, d) && c != d
    ensures ValidBase36((p + [c, d]) + q) && ValidBase36((p + [d, c]) + q)
    ensures Weighted((p + [c, d]) + q) % 97 != Weighted((p + [d, c]) + q) % 97
  {
    WeightedPair(p, c, d);
    WeightedPair(p, d, c);
    NoMultiple(c, d);
    SameRemainder(Weighted(p + [c, d]), Weighted(p + [d, c]));
    TailsAgree(p + [c, d], p + [d, c], q);
  }

  // ---- rotation ----

  /** Where position `i` of a string is after the rotation. */
  function RotatedAt(s: string, i: nat): (j: nat)
    requires |s| >= 4 && i < |s|
    ensures j < |s| && Rotate(s)[j] == s[i]
  {
    if i >= 4 then i - 4 else |s| - 4 + i
  }

  lemma RotateUpdate(s: string, i: nat, c: char)
    requires |s| >= 4 && i < |s|
    ensures Rotate(s[i := c]) == Rotate(s)[RotatedAt(s, i) := c]
  {
  }

  lemma RotatedReplacement(s: string, i: nat, c: char)
    requires |s| >= 4 && i < |s|
    ensures var r, j := Rotate(s), RotatedAt(s, i);
      r == (r[..j] + [s[i]]) + r[j + 1..] && Rotate(s[i := c]) == (r[..j] + [c]) + r[j + 1..]
  {
    RotateUpdate(s, i, c);
  }

  lemma RotatedSwap(s: string, i: nat)
    requires |s| >= 4 && i + 1 < |s| && i != 3
    ensures RotatedAt(s, i) + 1 < |s|
    ensures var r, j := Rotate(s), RotatedAt(s, i);
      r == (r[..j] + [s[i], s[i + 1]]) + r[j + 2..] &&
      Rotate(s[i := s[i + 1]][i + 1 := s[i]]) == (r[..j] + [s[i + 1], s[i]]) + r[j + 2..]
  {
    RotateUpdate(s, i, s[i + 1]);
    RotateUpdate(s[i := s[i + 1]], i + 1, s[i]);
  }

  lemma RotatedEnds(s: string)
    requires |s| >= 5
    ensures Rotate(s) == [s[4]] + ((s[5..] + s[..3]) + [s[3]])
    ensures Rotate(s[3 := s[4]][4 := s[3]]) == [s[3]] + ((s[5..] + s[..3]) + [s[4]])
  {
  }

  // ---- what is detected ----

  /** Accepted means remainder 1. */
  lemma Accepted(s: string)
    requires |s| >= 4
    ensures ValidCheckSum(s) == if !ValidBase36(Rotate(s)) then Err(EncodingError)
                                else if Weighted(Rotate(s)) % 97 != 1 then Err(ChecksumError) else Ok(())
  {
    if ValidBase36(Rotate(s)) {
      NumberIsWeighted(Rotate(s));
    }
  }

  /** A single wrong character of the right class is always detected. */
  lemma SubstitutionDetected(s: string, i: nat, c: char)
    requires |s| >= 4 && ValidCheckSum(s) == Ok(()) && i < |s|
    requires SameClass(s[i], c) && c != s[i]
    ensures ValidCheckSum(s[i := c]) == Err(ChecksumError)
  {
    var r, j := Rotate(s), RotatedAt(s, i);
    Accepted(s);
    Accepted(s[i := c]);
    RotatedReplacement(s, i, c);
    ReplacedApart(r[..j], s[i], c, r[j + 1..]);
  }

  /** Away from the seam where the string is rotated. */
  lemma InnerTransposition(s: string, i: nat)
    requires |s| >= 4 && ValidCheckSum(s) == Ok(()) && i + 1 < |s| && i != 3
    requires SameClass(s[i], s[i + 1]) && s[i] != s[i + 1]
    ensures ValidCheckSum(s[i := s[i + 1]][i + 1 := s[i]]) == Err(ChecksumError)
  {
    var r, j := Rotate(s), RotatedAt(s, i);
    Accepted(s);
    Accepted(s[i := s[i + 1]][i + 1 := s[i]]);
    RotatedSwap(s, i);
    SwappedApart(r[..j], s[i], s[i + 1], r[j + 2..]);
  }

  // ---- the seam ----

  /** 97 is prime, as far as differences of digits go. */
  lemma NoDivisor(x: nat)
    requires 1 < x < 26
    ensures 97 % x != 0
  {
    assert x in {2, 3, 4, 5, 6, 7, 8, 9, 10, 11, 12, 13, 14, 15, 16, 17, 18, 19, 20, 21, 22, 23, 24, 25};
  }

  /** A small factor cancels modulo 97, by Euclid's algorithm. */
  lemma {:induction false} CancelSmall(x: nat, y: int)
    requires 0 < x < 26 && (x * y) % 97 == 0
    ensures y % 97 == 0
    decreases x
  {
    if x > 1 {
      NoDivisor(x);
      EuclidStep(x, y, 97 / x, 97 % x);
      CancelSmall(97 % x, y);
    }
  }

  lemma EuclidStep(x: nat, y: int, q: nat, r: nat)
    requires 97 == q * x + r && (x * y) % 97 == 0
    ensures (r * y) % 97 == 0
  {
    var m := (x * y) / 97;
    calc {
      r * y;
      97 * y - (q * x) * y;
      { assert (q * x) * y == q * (x * y); }
      97 * y - q * (97 * m);
      { assert q * (97 * m) == 97 * (q * m); }
      97 * (y - q * m);
    }
  }

  lemma MultipleOf97(x: int, y: int)
    requires y % 97 == 0
    ensures (x * y) % 97 == 0
  {
    var j := y / 97;
    assert x * (97 * j) == 97 * (x * j);
  }

  lemma ProductVanishes(x: int, y: int)
    requires 0 < x < 26
    ensures (x * y) % 97 == 0 <==> y % 97 == 0
  {
    if y % 97 == 0 {
      MultipleOf97(x, y);
    } else if (x * y) % 97 == 0 {
      CancelSmall(x, y);
    }
  }

  /** Numbers whose first and last digits, `k` apart, are exchanged. */
  lemma Exchanged(n: int, n': int, x: int, y: int, m: int, k: int)
    requires n == x * k + m + y && n' == y * k + m + x && 0 < x - y < 26
    ensures n' % 97 == n % 97 <==> k % 97 == 1
  {
    Factored(n, n', x, y, m + x + y, k - 1);
    SameRemainder(n, n');
    ProductVanishes(x - y, k - 1);
    LeavesOne(k);
  }

  lemma LeavesOne(k: int)
    ensures (k - 1) % 97 == 0 <==> k % 97 == 1
  {
  }

  lemma Ends(c: char, mid: string, d: char)
    requires ValidBase36(mid) && SameClass(c, d)
    ensures ValidBase36([c] + (mid + [d]))
    ensures Weighted([c] + (mid + [d])) == DigitOf(c) * Weight(mid + [d]) + Weighted(mid + [d])
  {
    WeightedAppend(mid, d);
    WeightedConcat([c], mid + [d]);
    WeightedAppend([], c);
    assert [] + [c] == [c];
  }

  lemma SameWeight(mid: string, c: char, d: char)
    requires SameClass(c, d)
    ensures Weight(mid + [c]) == Weight(mid + [d])
  {
    assert (mid + [c])[..|mid|] == mid && (mid + [d])[..|mid|] == mid;
  }

  lemma EndsExchanged(c: char, mid: string, d: char)
    requires ValidBase36(mid) && SameClass(c, d) && DigitOf(c) > DigitOf(d)
    ensures ValidBase36([c] + (mid + [d])) && ValidBase36([d] + (mid + [c]))
    ensures Weighted([c] + (mid + [d])) % 97 == Weighted([d] + (mid + [c])) % 97 <==> Weight(mid + [d]) % 97 == 1
  {
    Ends(c, mid, d);
    Ends(d, mid, c);
    SameWeight(mid, c, d);
    WeightedAppend(mid, c);
    WeightedAppend(mid, d);
    var m := Weighted(mid + [d]) - DigitOf(d);
    Exchanged(Weighted([c] + (mid + [d])), Weighted([d] + (mid + [c])), DigitOf(c), DigitOf(d), m, Weight(mid + [d]));
  }

  // ---- powers of ten ----

  lemma ReducedFactor(x: int, y: int)
    ensures ((x % 97) * y) % 97 == (x * y) % 97
  {
    var q := x / 97;
    assert x * y == (97 * q + x % 97) * y == (x % 97) * y + 97 * (q * y);
    MultipleAdded((x % 97) * y, q * y);
  }

  lemma MultipleAdded(n: int, m: int)
    ensures (n + 97 * m) % 97 == n % 97
  {
  }

  lemma {:induction false} PowSum(j: nat, k: nat)
    ensures Pow(10, j + k) == Pow(10, j) * Pow(10, k)
  {
    if j > 0 {
      PowSum(j - 1, k);
      assert 10 * (Pow(10, j - 1) * Pow(10, k)) == (10 * Pow(10, j - 1)) * Pow(10, k);
    }
  }

  lemma Doubled(k: nat, r: nat)
    requires Pow(10, k) % 97 == r
    ensures Pow(10, k + k) % 97 == (r * r) % 97
  {
    var x := Pow(10, k);
    PowSum(k, k);
    ReducedFactor(x, x);
    ReducedFactor(x, r);
    assert r * x == x * r;
  }

  lemma Third()
    ensures Pow(10, 32) % 97 == 61
  {
    assert Pow(10, 8) == 100000000;
    Doubled(8, 81);
    Doubled(16, 62);
  }

  lemma Half()
    ensures Pow(10, 48) % 97 == 96
  {
    assert Pow(10, 12) == 1000000000000;
    Doubled(12, 50);
    Doubled(24, 75);
  }

  lemma WholePeriod(x: nat, y: nat)
    requires x % 97 == 1
    ensures (x * y) % 97 == y % 97
  {
    ReducedFactor(x, y);
  }

  lemma {:induction false} Multiples(k: nat, m: nat)
    requires Pow(10, k) % 97 == 1
    ensures Pow(10, m * k) % 97 == 1
  {
    if m > 0 {
      Multiples(k, m - 1);
      assert m * k == k + (m - 1) * k;
      AfterPeriod(k, (m - 1) * k);
    }
  }

  lemma AfterPeriod(m: nat, r: nat)
    requires Pow(10, m) % 97 == 1
    ensures Pow(10, m + r) % 97 == Pow(10, r) % 97
  {
    PowSum(m, r);
    WholePeriod(Pow(10, m), Pow(10, r));
  }

  lemma RemainingPeriod(k: nat, n: nat)
    requires 0 < k && Pow(10, k) % 97 == 1
    ensures Pow(10, n % k) % 97 == Pow(10, n) % 97
  {
    var m := (n / k) * k;
    Multiples(k, n / k);
    assert n == m + n % k;
    AfterPeriod(m, n % k);
  }

  lemma ProperDivisor(k: nat)
    requires 0 < k < 96 && 96 % k == 0
    ensures 48 % k == 0 || 32 % k == 0
  {
    if 24 < k <= 48 {
      assert k in {25, 26, 27, 28, 29, 30, 31, 32, 33, 34, 35, 36, 37, 38, 39, 40, 41, 42, 43, 44, 45, 46, 47, 48};
    } else if k <= 24 {
      assert k in {1, 2, 3, 4, 5, 6, 7, 8, 9, 10, 11, 12, 13, 14, 15, 16, 17, 18, 19, 20, 21, 22, 23, 24};
    }
  }

  lemma Period() returns (p: nat)
    ensures p == 96 && Pow(10, p) % 97 == 1
  {
    Half();
    Doubled(48, 96);
    p := 96;
  }

  lemma DividedPeriod(k: nat, n: nat)
    requires 0 < k && n % k == 0 && Pow(10, k) % 97 == 1
    ensures Pow(10, n) % 97 == 1
  {
    RemainingPeriod(k, n);
  }

  lemma {:induction false} NoSmallerPeriod(k: nat)
    requires 0 < k < 96
    ensures Pow(10, k) % 97 != 1
  {
    if Pow(10, k) % 97 == 1 {
      var p := Period();
      RemainingPeriod(k, p);
      if p % k == 0 {
        Half();
        Third();
        ProperDivisor(k);
        DividedPeriod(k, if 48 % k == 0 then 48 else 32);
      } else {
        NoSmallerPeriod(p % k);
      }
    }
  }

  /** The order of ten modulo 97 is 96. */
  lemma OrderOfTen(k: nat)
    ensures Pow(10, k) % 97 == 1 <==> k % 96 == 0
  {
    var p := Period();
    RemainingPeriod(p, k);
    if k % p != 0 {
      NoSmallerPeriod(k % p);
    }
  }

  /** How many decimal digits the expansion has decides the weight. */
  lemma {:induction false} WeightIsPower(q: string)
    requires ValidBase36(q)
    ensures Weight(q) == Pow(10, |Expansion(q)|) && |q| <= |Expansion(q)| <= 2 * |q|
  {
    if q != [] {
      var front := q[..|q| - 1];
      WeightIsPower(front);
      if !IsDigit(q[|q| - 1]) {
        assert Pow(10, |Expansion(front)| + 2) == 10 * Pow(10, |Expansion(front)| + 1);
      }
    }
  }

  // ---- neighbours in strings of any length ----

  lemma SeamTransposition(s: string)
    requires |s| >= 5 && ValidCheckSum(s) == Ok(()) && SameClass(s[3], s[4]) && s[3] != s[4]
    ensures ValidBase36(Rotate(s)[1..])
    ensures ValidCheckSum(s[3 := s[4]][4 := s[3]]) ==
            if |Expansion(Rotate(s)[1..])| % 96 == 0 then Ok(()) else Err(ChecksumError)
  {
    var c, d, mid := s[4], s[3], s[5..] + s[..3];
    Accepted(s);
    Accepted(s[3 := c][4 := d]);
    RotatedEnds(s);
    assert Rotate(s)[1..] == mid + [d];
    assert ValidBase36(mid) by {
      assert forall i :: 0 <= i < |mid| ==> mid[i] == Rotate(s)[i + 1];
    }
    SameWeight(mid, c, d);
    if DigitOf(c) > DigitOf(d) {
      EndsExchanged(c, mid, d);
    } else {
      EndsExchanged(d, mid, c);
    }
    WeightIsPower(mid + [d]);
    OrderOfTen(|Expansion(mid + [d])|);
  }

  /** Two different neighbours of the same class that are swapped are detected,
      except exactly across the seam with a multiple of 96 decimal digits behind
      the first of the rotated characters. */
  lemma TranspositionDetected(s: string, i: nat)
    requires |s| >= 4 && ValidCheckSum(s) == Ok(()) && i + 1 < |s|
    requires SameClass(s[i], s[i + 1]) && s[i] != s[i + 1]
    ensures ValidBase36(Rotate(s)[1..])
    ensures ValidCheckSum(s[i := s[i + 1]][i + 1 := s[i]]) ==
            if i == 3 && |Expansion(Rotate(s)[1..])| % 96 == 0 then Ok(()) else Err(ChecksumError)
  {
    assert ValidBase36(Rotate(s)[1..]) by {
      assert forall j :: 0 <= j < |s| - 1 ==> Rotate(s)[1..][j] == Rotate(s)[j + 1];
    }
    if i == 3 {
      SeamTransposition(s);
    } else {
      InnerTransposition(s, i);
    }
  }

  // ---- ICAP addresses ----

  /** At the lengths of ICAP addresses every swap of different neighbours of
      the same class is detected. */
  lemma SwapDetected(s: string, i: nat)
    requires |s| in {20, 34, 35} && ValidCheckSum(s) == Ok(()) && i + 1 < |s|
    requires SameClass(s[i], s[i + 1]) && s[i] != s[i + 1]
    ensures ValidCheckSum(s[i := s[i + 1]][i + 1 := s[i]]) == Err(ChecksumError)
  {
    TranspositionDetected(s, i);
    WeightIsPower(Rotate(s)[1..]);
  }

  /** So no address survives the swap of two neighbours. */
  lemma AddressSwapRefused(s: string, i: nat)
    requires i + 1 < |s| && SameClass(s[i], s[i + 1]) && s[i] != s[i + 1]
    ensures ICAPToAddress(s).Ok? ==>
      ICAPToAddress(s[i := s[i + 1]][i + 1 := s[i]]) == Err(if i < 2 then CountryCodeError else ChecksumError)
  {
    var t := s[i := s[i + 1]][i + 1 := s[i]];
    if ICAPToAddress(s).Ok? && i < 2 {
      assert t[i] != s[i] && "XE"[i] == s[i];
    } else if ICAPToAddress(s).Ok? {
      SwapDetected(s, i);
      assert t[..2] == s[..2] == "XE";
    }
  }

  /** Nor one wrong character of the right class. */
  lemma AddressTypoRefused(s: string, i: nat, c: char)
    requires i < |s| && SameClass(s[i], c) && c != s[i]
    ensures ICAPToAddress(s).Ok? ==> ICAPToAddress(s[i := c]) == Err(if i < 2 then CountryCodeError else ChecksumError)
  {
    if ICAPToAddress(s).Ok? && i < 2 {
      assert s[i := c][i] != s[i] && "XE"[i] == s[i];
    } else if ICAPToAddress(s).Ok? {
      SubstitutionDetected(s, i, c);
      assert s[i := c][..2] == s[..2] == "XE";
    }
  }
}
