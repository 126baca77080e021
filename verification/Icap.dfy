/**
 ICAP addresses (common/icap.go): an address in base 36 behind a country code
 and two ISO 13616 check digits. Strings are sequences of bytes; a byte outside
 the base-36 alphabet is rejected just as a rune outside it would be.
 */
module Icap {
  import opened Basics
  import opened Positional

  datatype Result<T> = Ok(value: T) | Err(error: IcapError)

  datatype IcapError =
    | LengthError | EncodingError | ChecksumError | CountryCodeError | AssetIdentError | NotImplemented

  /** Twenty bytes. */
  type Address = a: seq<nat> | |a| == 20 && forall i :: 0 <= i < 20 ==> a[i] < 256
    witness [0, 0, 0, 0, 0, 0, 0, 0, 0, 0, 0, 0, 0, 0, 0, 0, 0, 0, 0, 0]

  /** Address.Big and BigToAddress: big-endian, the latter keeping the low 20 bytes. */
  function Big(a: Address): nat { Value(a, 256) }

  function BigToAddress(n: nat): Address { LowDigits(n, 256, 20) }

  // ---- characters ----

  predicate IsDigit(c: char) { '0' <= c <= '9' }

  predicate IsLetter(c: char) { 'A' <= c <= 'Z' }

  predicate IsBase36(c: char) { IsDigit(c) || IsLetter(c) }

  /** 0-9 for digits, 10-35 for letters. */
  function DigitOf(c: char): (d: nat)
    requires IsBase36(c)
    ensures d < 36
  {
    if IsDigit(c) then (c - '0') as nat else (c - 'A') as nat + 10
  }

  function CharOf(d: nat): (c: char)
    requires d < 36
    ensures IsBase36(c) && DigitOf(c) == d
  {
    if d < 10 then '0' + d as char else 'A' + (d - 10) as char
  }

  const BASE36_CHARS := "0123456789ABCDEFGHIJKLMNOPQRSTUVWXYZ"

  /** Digits and characters are positions in the alphabet. */
  lemma AlphabetIs(d: nat)
    requires d < |BASE36_CHARS|
    ensures |BASE36_CHARS| == 36 && CharOf(d) == BASE36_CHARS[d] && IsBase36(BASE36_CHARS[d]) && DigitOf(BASE36_CHARS[d]) == d
  {
  }

  predicate ValidBase36(s: string) {
    forall i :: 0 <= i < |s| ==> IsBase36(s[i])
  }

  function DigitsIn(s: string): (r: seq<nat>)
    requires ValidBase36(s)
    ensures |r| == |s| && forall i :: 0 <= i < |s| ==> r[i] == DigitOf(s[i])
  {
    seq(|s|, i requires 0 <= i < |s| => DigitOf(s[i]))
  }

  // ---- base 36 ----

  /** `s` is `n` in base 36 without superfluous leading zeros. */
  ghost predicate Base36(s: string, n: nat) {
    && s != [] && ValidBase36(s)
    && Value(DigitsIn(s), 36) == n
    && (|s| > 1 ==> s[0] != '0')
  }

  /** Digits come out least significant first and are reversed at the end. */
  method Base36Encode(n: nat) returns (s: string)
    ensures Base36(s, n)
  {
    var chars: string := [];
    var i := n;
    while true
      invariant ValidBase36(chars)
      invariant Encoding(n, chars, i)
      invariant chars != [] ==> i > 0
      decreases i
    {
      EncodeStep(n, chars, i);
      chars := chars + [CharOf(i % 36)];
      i := i / 36;
      if i == 0 { break; }
    }
    s := ReverseChars(chars);
  }

  /** `chars`, read backwards, are the low digits of `n`; `i` is the rest. */
  ghost predicate Encoding(n: nat, chars: string, i: nat)
    requires ValidBase36(chars)
  {
    n == i * Pow(36, |chars|) + Value(DigitsIn(Reversed(chars)), 36)
  }

  lemma EncodeStep(n: nat, chars: string, i: nat)
    requires ValidBase36(chars) && Encoding(n, chars, i)
    ensures Encoding(n, chars + [CharOf(i % 36)], i / 36)
  {
    var c := CharOf(i % 36);
    var r := Reversed(chars);
    assert Reversed(chars + [c]) == [c] + r;
    assert DigitsIn([c] + r) == [i % 36] + DigitsIn(r);
    ValueConcat([i % 36], DigitsIn(r), 36);
    assert Value([i % 36], 36) == i % 36 by { assert [i % 36][..0] == []; }
    SplitTimes(i, Pow(36, |chars|));
  }

  lemma SplitTimes(i: nat, p: nat)
    ensures i * p == (i / 36) * (36 * p) + (i % 36) * p
  {
    var q, r := i / 36, i % 36;
    assert i == 36 * q + r;
    assert (36 * q + r) * p == q * (36 * p) + r * p;
  }

  method ReverseChars(chars: string) returns (r: string)
    ensures r == Reversed(chars)
  {
    r := chars;
    var i, j := 0, |chars| - 1;
    while i < j
      invariant 0 <= i && i + j == |chars| - 1 && |r| == |chars|
      invariant forall k :: i <= k <= j ==> r[k] == chars[k]
      invariant forall k :: 0 <= k < |r| && (k < i || j < k) ==> r[k] == Reversed(chars)[k]
    {
      r := r[i := r[j]][j := r[i]];
      i, j := i + 1, j - 1;
    }
  }

  /** `s` comes before `t` in the order of character codes. */
  ghost predicate Precedes(s: string, t: string)
    requires |s| == |t|
  {
    exists k :: DiffersAt(s, t, k) && s[k] < t[k]
  }

  ghost predicate DiffersAt(s: string, t: string, k: int)
    requires |s| == |t|
  {
    0 <= k < |s| && s[k] != t[k] && s[..k] == t[..k]
  }

  lemma {:induction false} FirstDifference(s: string, t: string) returns (k: int)
    requires |s| == |t| && s != t
    ensures DiffersAt(s, t, k)
  {
    var n := |s| - 1;
    if s[..n] == t[..n] {
      k := n;
      assert s == s[..n] + [s[n]] && t == t[..n] + [t[n]];
    } else {
      k := FirstDifference(s[..n], t[..n]);
      assert s[..n][..k] == s[..k] && t[..n][..k] == t[..k];
    }
  }

  /** Numbers of equally many base-36 digits are in the order of their strings:
      the order of the alphabet is that of the character codes. */
  lemma {:induction false} OrderedAsStrings(s: string, t: string)
    requires ValidBase36(s) && ValidBase36(t) && |s| == |t|
    ensures Value(DigitsIn(s), 36) < Value(DigitsIn(t), 36) <==> Precedes(s, t)
  {
    if s != t {
      var k := FirstDifference(s, t);
      if s[k] < t[k] {
        LowerNumber(s, t, k);
      } else {
        assert DiffersAt(t, s, k);
        LowerNumber(t, s, k);
        OneDifference(s, t, k);
      }
    }
  }

  lemma OneDifference(s: string, t: string, k: int)
    requires |s| == |t| && DiffersAt(s, t, k)
    ensures forall j :: DiffersAt(s, t, j) ==> j == k
  {
    forall j | 0 <= j < k ensures s[j] == t[j] {
      assert s[..k][j] == s[j] && t[..k][j] == t[j];
    }
    forall j | k < j <= |s| ensures s[..j] != t[..j] {
      assert s[..j][k] == s[k] && t[..j][k] == t[k];
    }
  }

  lemma LowerNumber(s: string, t: string, k: int)
    requires ValidBase36(s) && ValidBase36(t) && |s| == |t| && DiffersAt(s, t, k) && s[k] < t[k]
    ensures Value(DigitsIn(s), 36) < Value(DigitsIn(t), 36)
  {
    var x, y := DigitsIn(s), DigitsIn(t);
    assert x[..k] == y[..k] && x[k] < y[k];
    LowerFront(x, y, k);
    SplitValue(x, k + 1);
    SplitValue(y, k + 1);
    ValueBelow(x[k + 1..], 36);
    Carried(Value(x[..k + 1], 36), Value(y[..k + 1], 36), Pow(36, |x[k + 1..]|), Value(x[k + 1..], 36));
  }

  lemma LowerFront(x: seq<nat>, y: seq<nat>, k: nat)
    requires k < |x| == |y| && x[..k] == y[..k] && x[k] < y[k]
    ensures Value(x[..k + 1], 36) < Value(y[..k + 1], 36)
  {
    assert x[..k + 1] == x[..k] + [x[k]] && y[..k + 1] == y[..k] + [y[k]];
    ValueLast(x[..k], x[k], 36);
    ValueLast(y[..k], y[k], 36);
  }

  lemma SplitValue(x: seq<nat>, k: nat)
    requires k <= |x|
    ensures Value(x, 36) == Value(x[..k], 36) * Pow(36, |x[k..]|) + Value(x[k..], 36)
  {
    ValueConcat(x[..k], x[k..], 36);
    assert x[..k] + x[k..] == x;
  }

  lemma Carried(a: nat, b: nat, p: nat, u: nat)
    requires a < b && u < p
    ensures a * p + u < b * p
  {
    MulMono(a + 1, b, p);
  }

  // ---- ISO 13616 ----

  function Big10(d: nat): string
    requires d < 100
  {
    if d < 10 then [CharOf(d)] else [CharOf(d / 10), CharOf(d % 10)]
  }

  /** Decimal literal of a base-36 string: A = 10, ..., Z = 35. */
  function Expansion(s: string): (r: string)
    requires ValidBase36(s)
    ensures forall i :: 0 <= i < |r| ==> IsDigit(r[i])
  {
    if s == [] then [] else
      Expansion(s[..|s| - 1]) + Big10(DigitOf(s[|s| - 1]))
  }

  function Decimal(c: char): int {
    c as int - '0' as int
  }

  /** A digit stands for itself, a letter for the two decimal digits of its
      character code less 55. */
  lemma ExpandedCharacter(c: char)
    requires IsBase36(c)
    ensures IsDigit(c) ==> Expansion([c]) == [c]
    ensures IsLetter(c) ==> |Expansion([c])| == 2 && Decimal(Expansion([c])[0]) * 10 + Decimal(Expansion([c])[1]) == c as int - 55
  {
    assert [c][..0] == [];
  }

  lemma ExpansionAppend(p: string, c: char)
    requires ValidBase36(p) && IsBase36(c)
    ensures ValidBase36(p + [c]) && Expansion(p + [c]) == Expansion(p) + Expansion([c])
  {
    assert (p + [c])[..|p|] == p && [c][..0] == [];
  }

  /** Strings are expanded character by character. */
  lemma {:induction false} ExpansionConcat(s: string, t: string)
    requires ValidBase36(s) && ValidBase36(t)
    ensures ValidBase36(s + t) && Expansion(s + t) == Expansion(s) + Expansion(t)
  {
    if t == [] {
      assert s + t == s;
    } else {
      var front, c := t[..|t| - 1], t[|t| - 1];
      assert t == front + [c];
      ExpansionConcat(s, front);
      ConcatStep(s, front, c);
    }
  }

  lemma ConcatStep(s: string, front: string, c: char)
    requires ValidBase36(s) && ValidBase36(front) && IsBase36(c) && ValidBase36(s + front)
    requires Expansion(s + front) == Expansion(s) + Expansion(front)
    ensures ValidBase36(s + (front + [c])) && ValidBase36(front + [c])
    ensures Expansion(s + (front + [c])) == Expansion(s) + Expansion(front + [c])
  {
    ExpansionAppend(s + front, c);
    ExpansionAppend(front, c);
    ConcatAssoc(s, front, [c]);
    ConcatAssoc(Expansion(s), Expansion(front), Expansion([c]));
  }

  lemma ConcatAssoc(a: string, b: string, c: string)
    ensures (a + b) + c == a + (b + c)
  {
  }

  method Iso13616Expand(s: string) returns (r: Result<string>)
    ensures r == if ValidBase36(s) then Ok(Expansion(s)) else Err(EncodingError)
  {
    if !ValidBase36(s) {
      return Err(EncodingError);
    }
    var parts: string := [];
    for i := 0 to |s|
      invariant parts == Expansion(s[..i])
    {
      assert s[..i + 1][..i] == s[..i];
      var c := s[i];
      if c >= 'A' {
        parts := parts + Big10((c as int - 55) as nat);
      } else {
        parts := parts + [c];
      }
    }
    assert s[..|s|] == s;
    r := Ok(parts);
  }

  /** The number that the expansion of `s` spells in decimal. */
  function Number(s: string): nat
    requires ValidBase36(s)
  {
    Value(DigitsIn(Expansion(s)), 10)
  }

  lemma ValueAppend(digits: seq<nat>, x: nat)
    ensures Value(digits + [x], 10) == 10 * Value(digits, 10) + x
  {
    assert (digits + [x])[..|digits|] == digits;
  }

  lemma NumberAppend(p: string, c: char)
    requires ValidBase36(p) && IsBase36(c)
    ensures ValidBase36(p + [c])
    ensures Number(p + [c]) == (if IsDigit(c) then 10 * Number(p) else 100 * Number(p)) + DigitOf(c)
  {
    assert (p + [c])[..|p|] == p;
    var digits, d := DigitsIn(Expansion(p)), DigitOf(c);
    if IsDigit(c) {
      assert DigitsIn(Expansion(p) + Big10(d)) == digits + [d];
      ValueAppend(digits, d);
    } else {
      assert DigitsIn(Expansion(p) + Big10(d)) == (digits + [d / 10]) + [d % 10];
      ValueAppend(digits, d / 10);
      ValueAppend(digits + [d / 10], d % 10);
    }
  }

  /** The same number without the detour over decimal digits. */
  ghost function Weighted(s: string): nat
    requires ValidBase36(s)
  {
    if s == [] then 0 else
      var front, last := s[..|s| - 1], s[|s| - 1];
      (if IsDigit(last) then 10 * Weighted(front) else 100 * Weighted(front)) + DigitOf(last)
  }

  lemma {:induction false} NumberIsWeighted(s: string)
    requires ValidBase36(s)
    ensures Number(s) == Weighted(s)
  {
    if s != [] {
      var front, last := s[..|s| - 1], s[|s| - 1];
      NumberIsWeighted(front);
      NumberAppend(front, last);
      assert s == front + [last];
    }
  }

  lemma WeightedAppend(p: string, c: char)
    requires ValidBase36(p) && IsBase36(c)
    ensures ValidBase36(p + [c])
    ensures Weighted(p + [c]) == (if IsDigit(c) then 10 * Weighted(p) else 100 * Weighted(p)) + DigitOf(c)
  {
    assert (p + [c])[..|p|] == p;
  }

  predicate SameClass(c: char, d: char) {
    (IsDigit(c) && IsDigit(d)) || (IsLetter(c) && IsLetter(d))
  }

  lemma WeightedPair(p: string, c: char, d: char)
    requires ValidBase36(p) && SameClass(c, d)
    ensures ValidBase36(p + [c, d])
    ensures Weighted(p + [c, d]) == if IsDigit(c) then 100 * Weighted(p) + 10 * DigitOf(c) + DigitOf(d)
                                    else 10000 * Weighted(p) + 100 * DigitOf(c) + DigitOf(d)
  {
    WeightedAppend(p, c);
    WeightedAppend(p + [c], d);
    assert p + [c, d] == (p + [c]) + [d];
  }

  // ---- check digits ----

  /** The first four characters move to the end before the sum is taken. */
  function Rotate(s: string): (r: string)
    requires |s| >= 4
  {
    s[4..] + s[..4]
  }

  /** validCheckSum. */
  function ValidCheckSum(s: string): (e: Result<()>)
    requires |s| >= 4
  {
    var r := Rotate(s);
    if !ValidBase36(r) then Err(EncodingError)
    else if Number(r) % 97 != 1 then Err(ChecksumError)
    else Ok(())
  }

  /** Two decimal digits that complete `s` behind the country code. */
  function CheckDigits(s: string): (r: string)
    requires ValidBase36(s)
  {
    var check := 98 - Number(s + "XE00") % 97;
    [CharOf(check / 10), CharOf(check % 10)]
  }

  lemma CheckDigitsComplete(s: string)
    requires ValidBase36(s)
    ensures ValidBase36(s + "XE" + CheckDigits(s))
    ensures Number(s + "XE" + CheckDigits(s)) % 97 == 1
    ensures |CheckDigits(s)| == 2 && IsDigit(CheckDigits(s)[0]) && IsDigit(CheckDigits(s)[1])
    ensures 2 <= 10 * Decimal(CheckDigits(s)[0]) + Decimal(CheckDigits(s)[1]) <= 98
  {
    var n := Number(s + "XE00");
    var check := 98 - n % 97;
    ComplementTo98(n, check);
    assert s + "XE00" == (s + "XE") + [CharOf(0), CharOf(0)];
    assert s + "XE" + CheckDigits(s) == (s + "XE") + [CharOf(check / 10), CharOf(check % 10)];
    TwoDigits(s + "XE", 0, 0);
    TwoDigits(s + "XE", check / 10, check % 10);
  }

  lemma TwoDigits(base: string, x: nat, y: nat)
    requires ValidBase36(base) && x < 10 && y < 10
    ensures ValidBase36(base + [CharOf(x), CharOf(y)])
    ensures Number(base + [CharOf(x), CharOf(y)]) == 100 * Weighted(base) + 10 * x + y
  {
    WeightedPair(base, CharOf(x), CharOf(y));
    NumberIsWeighted(base + [CharOf(x), CharOf(y)]);
  }

  lemma ComplementTo98(n: nat, check: nat)
    requires check == 98 - n % 97
    ensures check / 10 < 10 && 10 * (check / 10) + check % 10 == check
    ensures (n + check) % 97 == 1
  {
    assert n + check == 97 * (n / 97 + 1) + 1;
  }

  // ---- printing and parsing ----

  predicate HasPrefix(s: string, p: string) { p <= s }

  function ParseICAP(s: string): (r: Result<Address>)
    requires |s| >= 4
  {
    if !HasPrefix(s, "XE") then Err(CountryCodeError)
    else match ValidCheckSum(s)
      case Err(e) => Err(e)
      case Ok(_) => assert ValidBase36(s[4..]) by { ValidParts(s); } Ok(BigToAddress(Value(DigitsIn(s[4..]), 36)))
  }

  lemma ValidParts(s: string)
    requires |s| >= 4 && ValidBase36(Rotate(s))
    ensures ValidBase36(s[4..]) && ValidBase36(s)
  {
    forall i | 0 <= i < |s| ensures IsBase36(s[i]) {
      var j := if i >= 4 then i - 4 else |s| - 4 + i;
      assert Rotate(s)[j] == s[i];
    }
  }

  function ParseIndirectICAP(s: string): (r: Result<Address>)
    requires |s| >= 7
  {
    if !HasPrefix(s, "XE") then Err(CountryCodeError)
    else if s[4..7] != "ETH" then Err(AssetIdentError)
    else match ValidCheckSum(s)
      case Err(e) => Err(e)
      case Ok(_) => Err(NotImplemented)
  }

  function ICAPToAddress(s: string): (r: Result<Address>) {
    if |s| == 35 || |s| == 34 then ParseICAP(s)
    else if |s| == 20 then ParseIndirectICAP(s)
    else Err(LengthError)
  }

  /** `icap` is the printed form of `a`. */
  ghost predicate Prints(icap: string, a: Address) {
    && (|icap| == 34 || (|icap| == 35 && icap[4] != '0'))
    && ValidBase36(icap[4..]) && Value(DigitsIn(icap[4..]), 36) == Big(a)
    && icap[..4] == "XE" + CheckDigits(icap[4..])
  }

  /** Prints an address; what it prints is read back as that address. */
  method AddressToICAP(a: Address) returns (icap: string)
    ensures Prints(icap, a) && ICAPToAddress(icap) == Ok(a)
  {
    var enc := Base36Encode(Big(a));
    EncodedLength(a, enc);
    if |enc| < 30 {
      PaddedValue(enc, 30 - |enc|);
      enc := seq(30 - |enc|, _ => '0') + enc;
    }
    icap := "XE" + CheckDigits(enc) + enc;
    assert icap[4..] == enc;
    ReadBack(a, enc);
  }

  /** An address has one printed form. */
  lemma PrintUnique(icap: string, icap': string, a: Address)
    requires Prints(icap, a) && Prints(icap', a)
    ensures icap == icap'
  {
    SameNumber(icap[4..], icap'[4..]);
    assert icap == icap[..4] + icap[4..] && icap' == icap'[..4] + icap'[4..];
  }

  /** Printed addresses of the same length are in the order of their numbers. */
  lemma PrintedInOrder(icap: string, a: Address, icap': string, a': Address)
    requires Prints(icap, a) && Prints(icap', a') && |icap| == |icap'|
    ensures Big(a) < Big(a') <==> Precedes(icap[4..], icap'[4..])
  {
    OrderedAsStrings(icap[4..], icap'[4..]);
  }

  lemma SameNumber(s: string, t: string)
    requires ValidBase36(s) && ValidBase36(t) && Value(DigitsIn(s), 36) == Value(DigitsIn(t), 36)
    requires |s| == 30 || (|s| == 31 && s[0] != '0')
    requires |t| == 30 || (|t| == 31 && t[0] != '0')
    ensures s == t
  {
    if |s| == |t| {
      LowDigitsOfValue(DigitsIn(s), 36);
      LowDigitsOfValue(DigitsIn(t), 36);
      SameDigits(s, t);
    } else if |s| > |t| {
      LongerIsMore(DigitsIn(s), DigitsIn(t));
    } else {
      LongerIsMore(DigitsIn(t), DigitsIn(s));
    }
  }

  lemma SameDigits(s: string, t: string)
    requires ValidBase36(s) && ValidBase36(t) && DigitsIn(s) == DigitsIn(t)
    ensures s == t
  {
    forall i | 0 <= i < |s| ensures |s| == |t| && s[i] == t[i] {
      assert DigitsIn(s)[i] == DigitsIn(t)[i];
    }
    assert |DigitsIn(s)| == |DigitsIn(t)|;
  }

  lemma LongerIsMore(x: seq<nat>, y: seq<nat>)
    requires DigitsOf(y, 36) && |x| == |y| + 1 && x[0] > 0
    ensures Value(x, 36) > Value(y, 36)
  {
    ValueAtLeast(x, 36);
    ValueBelow(y, 36);
  }

  /** Which strings are read as an address: 34 or 35 base-36 characters behind XE
      whose number, the first four moved to the end, is 1 modulo 97. What they are
      read as is the rest's low 160 bits. Other strings are refused for what is
      wrong with them. */
  lemma AcceptedExactly(s: string)
    ensures ICAPToAddress(s).Ok? <==>
      (|s| == 34 || |s| == 35) && s[..2] == "XE" && ValidBase36(s) && Number(s[4..] + s[..4]) % 97 == 1
    ensures ICAPToAddress(s).Ok? ==> Pow(256, 20) > 0 && Big(ICAPToAddress(s).value) == Value(DigitsIn(s[4..]), 36) % Pow(256, 20)
    ensures ICAPToAddress(s) == Err(LengthError) <==> |s| !in {20, 34, 35}
    ensures ICAPToAddress(s) == Err(CountryCodeError) <==> |s| in {20, 34, 35} && s[..2] != "XE"
    ensures ICAPToAddress(s) == Err(AssetIdentError) <==> |s| == 20 && s[..2] == "XE" && s[4..7] != "ETH"
  {
    if |s| >= 4 {
      if ValidBase36(s[4..] + s[..4]) {
        ValidParts(s);
        LowDigitsAreRemainder(Value(DigitsIn(s[4..]), 36), 256, 20);
      }
      assert HasPrefix(s, "XE") <==> s[..2] == "XE";
    }
  }

  /** An accepted string is the printed form of what it is read as exactly if
      its check digits are the computed ones, its number fits 160 bits and it
      has no superfluous zero. */
  lemma AcceptedIsPrinted(s: string, a: Address)
    ensures ICAPToAddress(s) == Ok(a) ==>
      && (|s| == 34 || |s| == 35) && ValidBase36(s[4..])
      && (Prints(s, a) <==> s[2..4] == CheckDigits(s[4..]) && Value(DigitsIn(s[4..]), 36) < Pow(256, 20)
                            && (|s| == 34 || s[4] != '0'))
  {
    if ICAPToAddress(s) == Ok(a) {
      ValidParts(s);
      ReadExactly(Value(DigitsIn(s[4..]), 36), a);
      CodeAndDigits(s, CheckDigits(s[4..]));
    }
  }

  /** Reading keeps the low 160 bits. */
  lemma ReadExactly(n: nat, a: Address)
    requires a == BigToAddress(n)
    ensures n == Big(a) <==> n < Pow(256, 20)
  {
    ValueBelow(a, 256);
    if n < Pow(256, 20) {
      ValueOfLowDigits(n, 256, 20);
    }
  }

  lemma CodeAndDigits(s: string, digits: string)
    requires |s| >= 4 && HasPrefix(s, "XE")
    ensures s[..4] == "XE" + digits <==> s[2..4] == digits
  {
    assert s[..4] == "XE" + s[2..4];
    assert ("XE" + digits)[2..] == digits;
  }

  lemma EncodedLength(a: Address, enc: string)
    requires Base36(enc, Big(a))
    ensures |enc| <= 31
  {
    ValueBelow(a, 256);
    if |enc| > 1 {
      ValueAtLeast(DigitsIn(enc), 36);
      if |enc| > 31 {
        PowMono(36, 31, |enc| - 1);
        PowersCompared();
      }
    }
  }

  /** Thirty-one base-36 digits are enough for 160 bits. */
  lemma PowersCompared()
    ensures Pow(256, 20) < Pow(36, 31)
  {
    assert Pow(256, 5) == 1099511627776;
    assert Pow(256, 10) == 1208925819614629174706176;
    assert Pow(256, 15) == 1329227995784915872903807060280344576;
    assert Pow(256, 20) == 1461501637330902918203684832716283019655932542976;
    assert Pow(36, 8) == 2821109907456;
    assert Pow(36, 16) == 7958661109946400884391936;
    assert Pow(36, 24) == 22452257707354557240087211123792674816;
    assert Pow(36, 31) == 1759452407304813269615619081855885739163790606336;
  }

  lemma PaddedValue(enc: string, k: nat)
    requires ValidBase36(enc)
    ensures ValidBase36(seq(k, _ => '0') + enc)
    ensures Value(DigitsIn(seq(k, _ => '0') + enc), 36) == Value(DigitsIn(enc), 36)
  {
    var padded := seq(k, _ => '0') + enc;
    assert DigitsIn(padded) == seq(k, _ => 0) + DigitsIn(enc);
    LeadingZeros(k, DigitsIn(enc), 36);
  }

  lemma ReadBack(a: Address, enc: string)
    requires ValidBase36(enc) && (|enc| == 30 || |enc| == 31) && Value(DigitsIn(enc), 36) == Big(a)
    ensures ICAPToAddress("XE" + CheckDigits(enc) + enc) == Ok(a)
  {
    var s := "XE" + CheckDigits(enc) + enc;
    assert s[4..] == enc && Rotate(s) == enc + "XE" + CheckDigits(enc);
    CheckDigitsComplete(enc);
    LowDigitsOfValue(a, 256);
  }
}
