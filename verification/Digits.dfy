// Numbers in positional notation, most significant digit first.
module Digits {
  /* Division with remainder */

  lemma Gap(b: nat, p: nat, q: nat)
    requires p < q
    ensures q * b >= p * b + b
  {
    assert (q - p - 1) * b >= 0;
    assert q * b == p * b + b + (q - p - 1) * b;
  }

  lemma DivMod(n: nat, b: nat)
    requires b > 0
    ensures 0 <= n / b && 0 <= n % b < b && n == (n / b) * b + n % b
  {
  }

  lemma DivIs(n: nat, b: nat, q: nat, r: nat)
    requires r < b && n == q * b + r
    ensures n / b == q && n % b == r
  {
    DivMod(n, b);
    if n / b < q {
      Gap(b, n / b, q);
    } else if q < n / b {
      Gap(b, q, n / b);
    }
  }

  function Pow(base: nat, k: nat): nat {
    if k == 0 then 1 else Pow(base, k - 1) * base
  }

  /* Digits */

  // The last `k` digits of a number.
  function DigitsOf(base: nat, n: nat, k: nat): (s: seq<nat>)
    requires base > 0
    ensures |s| == k
    decreases k
  {
    if k == 0 then []
    else
      DivMod(n, base);
      DigitsOf(base, n / base, k - 1) + [n % base]
  }

  ghost predicate Within(base: nat, s: seq<nat>) {
    forall i | 0 <= i < |s| :: s[i] < base
  }

  lemma {:induction false} DigitsAreWithin(base: nat, n: nat, k: nat)
    requires base > 0
    ensures Within(base, DigitsOf(base, n, k))
    decreases k
  {
    if k > 0 {
      DivMod(n, base);
      DigitsAreWithin(base, n / base, k - 1);
    }
  }

  function ValueOf(base: nat, s: seq<nat>): nat {
    if s == [] then 0 else ValueOf(base, s[..|s| - 1]) * base + s[|s| - 1]
  }

  lemma ValueOfMore(base: nat, s: seq<nat>, d: nat)
    ensures ValueOf(base, s + [d]) == ValueOf(base, s) * base + d
  {
    assert (s + [d])[..|s|] == s;
  }

  lemma QuotientIsBelow(n: nat, p: nat, b: nat, q: nat, r: nat)
    requires n == q * b + r && n < p * b
    ensures q < p
  {
    if q > p {
      Gap(b, p, q);
    }
  }

  // The digits give back a number that has no more of them.
  lemma {:induction false} ValueOfDigits(base: nat, n: nat, k: nat)
    requires base > 0 && n < Pow(base, k)
    ensures ValueOf(base, DigitsOf(base, n, k)) == n
    decreases k
  {
    if k > 0 {
      DivMod(n, base);
      var q, r := n / base, n % base;
      QuotientIsBelow(n, Pow(base, k - 1), base, q, r);
      ValueOfDigits(base, q, k - 1);
      ValueOfMore(base, DigitsOf(base, q, k - 1), r);
    }
  }

  // The number gives back digits within the base.
  lemma {:induction false} DigitsOfValue(base: nat, s: seq<nat>)
    requires base > 0 && Within(base, s)
    ensures DigitsOf(base, ValueOf(base, s), |s|) == s
  {
    if s != [] {
      var front, last := s[..|s| - 1], s[|s| - 1];
      DigitsOfValue(base, front);
      DivIs(ValueOf(base, s), base, ValueOf(base, front), last);
      assert s == front + [last];
    }
  }

  lemma {:induction false} ValueIsSmall(base: nat, s: seq<nat>)
    requires base > 0 && Within(base, s)
    ensures ValueOf(base, s) < Pow(base, |s|)
  {
    if s != [] {
      var front, last := s[..|s| - 1], s[|s| - 1];
      ValueIsSmall(base, front);
      Gap(base, ValueOf(base, front), Pow(base, |front|));
    }
  }

  // All the digits, without leading zeros.
  function AllDigits(base: nat, n: nat): (s: seq<nat>)
    requires base > 1
    ensures |s| > 0
    decreases n
  {
    if n < base then [n]
    else
      Smaller(n, base);
      AllDigits(base, n / base) + [n % base]
  }

  lemma Smaller(n: nat, base: nat)
    requires base > 1 && n >= base
    ensures 0 <= n / base < n && 0 <= n % base < base
  {
    DivMod(n, base);
    var q := n / base;
    if q > 0 {
      Gap(q, 1, base);
    }
  }

  lemma {:induction false} AllDigitsAreWithin(base: nat, n: nat)
    requires base > 1
    ensures Within(base, AllDigits(base, n))
    decreases n
  {
    if n >= base {
      Smaller(n, base);
      AllDigitsAreWithin(base, n / base);
    }
  }

  lemma {:induction false} ValueOfAllDigits(base: nat, n: nat)
    requires base > 1
    ensures ValueOf(base, AllDigits(base, n)) == n
    decreases n
  {
    if n < base {
      assert [n][..0] == [];
    } else {
      Smaller(n, base);
      DivMod(n, base);
      ValueOfAllDigits(base, n / base);
      ValueOfMore(base, AllDigits(base, n / base), n % base);
    }
  }
}
