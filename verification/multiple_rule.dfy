/**
 * The divisor/replacement rule: a number that is an exact multiple of the
 * divisor is replaced by the replacement string; any other number yields the
 * empty string. A rule has no state beyond its two read-only fields.
 */
module Rules {

  datatype MultipleRule = MultipleRule(divisor: int, replacement: string)

  /**
   * PHP's `%` on integers: the remainder truncates toward zero, so it takes
   * the sign of the dividend (Dafny's own `%` is Euclidean).
   */
  function PhpMod(n: int, d: int): (r: int)
    requires d != 0
    ensures (r == 0) <==> (n % d == 0)
    ensures -(if d < 0 then -d else d) < r < (if d < 0 then -d else d)
    ensures n >= 0 ==> r >= 0
    ensures n < 0 ==> r <= 0
    ensures (n - r) % d == 0
  {
    var q, sign := n / d, if d < 0 then -1 else 1;
    assert n == q * d + n % d;
    if n >= 0 || n % d == 0 then
      MultipleHasZeroRemainder(q, d);
      n % d
    else
      assert n - (n % d - sign * d) == (q + sign) * d;
      MultipleHasZeroRemainder(q + sign, d);
      n % d - (if d < 0 then -d else d)
  }

  /** `n` is an exact multiple of `d`: some integer `k` has `n == k * d`. */
  ghost predicate IsMultiple(n: int, d: int) {
    exists k: int :: n == k * d
  }

  lemma MultipleIffZeroRemainder(n: int, d: int)
    requires d != 0
    ensures IsMultiple(n, d) <==> n % d == 0
  {
    if n % d == 0 {
      assert n == (n / d) * d;
    }
    if IsMultiple(n, d) {
      var k: int :| n == k * d;
      MultipleHasZeroRemainder(k, d);
    }
  }

  /** A non-zero multiple of `d` is at least `|d|` away from zero. */
  lemma NonZeroMultipleIsLarge(m: int, d: int)
    requires m != 0 && d != 0
    ensures m * d >= (if d < 0 then -d else d) || m * d <= -(if d < 0 then -d else d)
  {
    var am: nat := if m < 0 then -m else m;
    var ad: nat := if d < 0 then -d else d;
    assert (am - 1) * ad >= 0;
    assert am * ad == (am - 1) * ad + ad;
    assert m * d == am * ad || m * d == -(am * ad);
  }

  lemma MultipleHasZeroRemainder(k: int, d: int)
    requires d != 0
    ensures (k * d) % d == 0
  {
    var q, r := (k * d) / d, (k * d) % d;
    assert (k - q) * d == r by {
      assert k * d == q * d + r;
    }
    if k - q != 0 {
      NonZeroMultipleIsLarge(k - q, d);
    }
  }

  /**
   * `MultipleRule::apply`. The divisor must be non-zero: the source takes
   * the remainder unguarded, and PHP raises a division error for zero.
   */
  function Apply(rule: MultipleRule, n: int): (r: string)
    requires rule.divisor != 0
    ensures r == rule.replacement || r == ""
    ensures IsMultiple(n, rule.divisor) ==> r == rule.replacement
    ensures !IsMultiple(n, rule.divisor) ==> r == ""
  {
    MultipleIffZeroRemainder(n, rule.divisor);
    if PhpMod(n, rule.divisor) == 0 then rule.replacement else ""
  }

  /** Every multiple `k * d` of the divisor, negative ones included, is replaced. */
  lemma ApplyToMultiples(rule: MultipleRule, k: int)
    requires rule.divisor != 0
    ensures Apply(rule, k * rule.divisor) == rule.replacement
  {
    assert IsMultiple(k * rule.divisor, rule.divisor);
  }

  /** A number strictly between two consecutive multiples of the divisor yields "". */
  lemma ApplyBetweenMultiples(rule: MultipleRule, k: int, n: int)
    requires rule.divisor > 0
    requires k * rule.divisor < n < (k + 1) * rule.divisor
    ensures Apply(rule, n) == ""
  {
    var d := rule.divisor;
    forall j: int
      ensures n != j * d
    {
      if j <= k {
        MultiplyMonotone(j, k, d);
      } else {
        MultiplyMonotone(k + 1, j, d);
      }
    }
    assert !IsMultiple(n, d);
  }

  /** Multiplying by a positive number keeps the order. */
  lemma MultiplyMonotone(a: int, b: int, d: int)
    requires a <= b && d > 0
    ensures a * d <= b * d
  {
    assert b * d - a * d == (b - a) * d;
  }

  /** With divisor 1 (or -1) every number is replaced. */
  lemma DivisorOneReplacesAll(replacement: string, n: int)
    ensures Apply(MultipleRule(1, replacement), n) == replacement
    ensures Apply(MultipleRule(-1, replacement), n) == replacement
  {
    assert n == n * 1;
    assert n == (-n) * -1;
  }

  /** The rule (3, "fizz") on the numbers 1 to 9. */
  lemma FizzRuleExamples()
    ensures var fizz := MultipleRule(3, "fizz");
      && Apply(fizz, 3) == "fizz" && Apply(fizz, 6) == "fizz" && Apply(fizz, 9) == "fizz"
      && Apply(fizz, 1) == "" && Apply(fizz, 2) == "" && Apply(fizz, 4) == ""
  {
  }
}
