/**
 * The generalised FizzBuzz generator: every number from 1 to the limit is
 * replaced by the concatenation, in rule order, of what each rule yields for
 * it, or by its own decimal string when that concatenation is empty.
 */
module Algorithm {

  import opened Rules
  import opened Decimal

  /** Every rule can be applied (no rule divides by zero). */
  predicate NonZeroDivisors(rules: seq<MultipleRule>) {
    forall i :: 0 <= i < |rules| ==> rules[i].divisor != 0
  }

  /** What the rules yield for `n`, concatenated in rule order. */
  function Combined(rules: seq<MultipleRule>, n: int): string
    requires NonZeroDivisors(rules)
  {
    if rules == [] then ""
    else Combined(rules[..|rules| - 1], n) + Apply(rules[|rules| - 1], n)
  }

  /** The concatenation is empty exactly when no rule yields anything for `n`. */
  lemma {:induction false} CombinedEmptyIff(rules: seq<MultipleRule>, n: int)
    requires NonZeroDivisors(rules)
    ensures Combined(rules, n) == "" <==> forall i :: 0 <= i < |rules| ==> Apply(rules[i], n) == ""
  {
    if rules != [] {
      var init := rules[..|rules| - 1];
      CombinedEmptyIff(init, n);
      assert forall i :: 0 <= i < |init| ==> init[i] == rules[i];
    }
  }

  /** The element that stands for `n` in the generated sequence. */
  function Element(rules: seq<MultipleRule>, n: int): (s: string)
    requires NonZeroDivisors(rules)
    ensures |s| > 0
  {
    var output := Combined(rules, n);
    if output != "" then output else IntToString(n)
  }

  /**
   * The element is the number's decimal string when no rule yields anything
   * for it, and the concatenation of the rules' outputs as soon as one does.
   */
  lemma ElementCases(rules: seq<MultipleRule>, n: int)
    requires NonZeroDivisors(rules)
    ensures (forall i :: 0 <= i < |rules| ==> Apply(rules[i], n) == "") ==> Element(rules, n) == IntToString(n)
    ensures (exists i :: 0 <= i < |rules| && Apply(rules[i], n) != "") ==> Element(rules, n) == Combined(rules, n)
  {
    CombinedEmptyIff(rules, n);
  }

  /** The sequence for 1..limit, built by appending one element per number. */
  function Sequence(rules: seq<MultipleRule>, limit: int): (s: seq<string>)
    requires limit >= 1 ==> NonZeroDivisors(rules)
    ensures |s| == if limit <= 0 then 0 else limit
  {
    if limit <= 0 then [] else Sequence(rules, limit - 1) + [Element(rules, limit)]
  }

  /** The sequence has one element per number 1..limit, the element for `k + 1` at index `k`. */
  lemma {:induction false} SequenceShape(rules: seq<MultipleRule>, limit: int)
    requires limit >= 1 ==> NonZeroDivisors(rules)
    ensures |Sequence(rules, limit)| == if limit <= 0 then 0 else limit
    ensures forall k :: 0 <= k < |Sequence(rules, limit)| ==>
      Sequence(rules, limit)[k] == Element(rules, k + 1)
  {
    if limit > 0 {
      var prev := Sequence(rules, limit - 1);
      SequenceShape(rules, limit - 1);
      assert Sequence(rules, limit) == prev + [Element(rules, limit)];
      forall k | 0 <= k < limit
        ensures Sequence(rules, limit)[k] == Element(rules, k + 1)
      {
        if k < limit - 1 {
          assert Sequence(rules, limit)[k] == prev[k];
        }
      }
    }
  }

  /** Without any rule every element is the number's decimal string. */
  lemma NoRulesGiveNumbers(limit: int, k: int)
    requires 0 <= k < limit
    ensures |Sequence([], limit)| == limit
    ensures Sequence([], limit)[k] == IntToString(k + 1)
  {
    SequenceShape([], limit);
  }

  /** With two rules the concatenation is the first rule's output, then the second's. */
  lemma CombinedPair(first: MultipleRule, second: MultipleRule, n: int)
    requires first.divisor != 0 && second.divisor != 0
    ensures Combined([first, second], n) == Apply(first, n) + Apply(second, n)
  {
    assert [first, second][..1] == [first];
    assert Combined([first], n) == Apply(first, n) by {
      assert [first][..0] == [];
    }
  }

  /**
   * With two rules, a number both divide becomes the first replacement
   * followed by the second: rule order, not divisor size, decides.
   */
  lemma TwoRulesConcatenateInOrder(first: MultipleRule, second: MultipleRule, n: int)
    requires first.divisor != 0 && second.divisor != 0
    requires IsMultiple(n, first.divisor) && IsMultiple(n, second.divisor)
    requires first.replacement + second.replacement != ""
    ensures Element([first, second], n) == first.replacement + second.replacement
  {
    var rules := [first, second];
    assert rules[..1] == [first];
    assert [first][..0] == [];
    CombinedPair(first, second, n);
  }

  /** One more matching element extends a matching prefix of the sequence. */
  lemma SequenceExtend(rules: seq<MultipleRule>, i: int, expected: seq<string>)
    requires NonZeroDivisors(rules) && 1 <= i <= |expected|
    requires Sequence(rules, i - 1) == expected[..i - 1] && Element(rules, i) == expected[i - 1]
    ensures Sequence(rules, i) == expected[..i]
  {
    assert expected[..i] == expected[..i - 1] + [expected[i - 1]];
  }

  const ClassicRules := [MultipleRule(3, "fizz"), MultipleRule(5, "buzz")]
  const ClassicExpected := ["1", "2", "fizz", "4", "buzz", "fizz", "7", "8", "fizz", "buzz", "11", "fizz", "13", "14", "fizzbuzz"]

  /** Each number 1..15 under rules (3, "fizz") and (5, "buzz"). */
  lemma ClassicElement(n: int)
    requires 1 <= n <= 15
    ensures Element(ClassicRules, n) == ClassicExpected[n - 1]
  {
    if n <= 5 {
      ClassicElementsOneToFive(n);
    } else if n <= 10 {
      ClassicElementsSixToTen(n);
    } else {
      ClassicElementsElevenToFifteen(n);
    }
  }

  lemma ClassicElementsOneToFive(n: int)
    requires 1 <= n <= 5
    ensures Element(ClassicRules, n) == ClassicExpected[n - 1]
  {
    var rules := ClassicRules;
    match n
    case 1 => assert Element(rules, 1) == "1" by { CombinedPair(rules[0], rules[1], 1); }
    case 2 => assert Element(rules, 2) == "2" by { CombinedPair(rules[0], rules[1], 2); }
    case 3 => assert Element(rules, 3) == "fizz" by { CombinedPair(rules[0], rules[1], 3); }
    case 4 => assert Element(rules, 4) == "4" by { CombinedPair(rules[0], rules[1], 4); }
    case 5 => assert Element(rules, 5) == "buzz" by { CombinedPair(rules[0], rules[1], 5); }
  }

  lemma ClassicElementsSixToTen(n: int)
    requires 6 <= n <= 10
    ensures Element(ClassicRules, n) == ClassicExpected[n - 1]
  {
    var rules := ClassicRules;
    match n
    case 6 => assert Element(rules, 6) == "fizz" by { CombinedPair(rules[0], rules[1], 6); }
    case 7 => assert Element(rules, 7) == "7" by { CombinedPair(rules[0], rules[1], 7); }
    case 8 => assert Element(rules, 8) == "8" by { CombinedPair(rules[0], rules[1], 8); }
    case 9 => assert Element(rules, 9) == "fizz" by { CombinedPair(rules[0], rules[1], 9); }
    case 10 => assert Element(rules, 10) == "buzz" by { CombinedPair(rules[0], rules[1], 10); }
  }

  lemma ClassicElementsElevenToFifteen(n: int)
    requires 11 <= n <= 15
    ensures Element(ClassicRules, n) == ClassicExpected[n - 1]
  {
    var rules := ClassicRules;
    match n
    case 11 => assert Element(rules, 11) == "11" by { CombinedPair(rules[0], rules[1], 11); }
    case 12 => assert Element(rules, 12) == "fizz" by { CombinedPair(rules[0], rules[1], 12); }
    case 13 => assert Element(rules, 13) == "13" by { CombinedPair(rules[0], rules[1], 13); }
    case 14 => assert Element(rules, 14) == "14" by { CombinedPair(rules[0], rules[1], 14); }
    case 15 => assert Element(rules, 15) == "fizzbuzz" by { CombinedPair(rules[0], rules[1], 15); }
  }

  /** The classic sequence up to any `n` in 0..15 is the matching prefix. */
  lemma {:induction false} ClassicPrefix(n: int)
    requires 0 <= n <= 15
    ensures Sequence(ClassicRules, n) == ClassicExpected[..n]
  {
    if n > 0 {
      ClassicPrefix(n - 1);
      ClassicElement(n);
      SequenceExtend(ClassicRules, n, ClassicExpected);
    }
  }

  /** Rules (3, "fizz") and (5, "buzz") up to 15. */
  lemma ClassicFizzBuzz()
    ensures Sequence([MultipleRule(3, "fizz"), MultipleRule(5, "buzz")], 15)
      == ["1", "2", "fizz", "4", "buzz", "fizz", "7", "8", "fizz", "buzz", "11", "fizz", "13", "14", "fizzbuzz"]
  {
    ClassicPrefix(15);
    assert ClassicExpected[..15] == ClassicExpected;
  }

  /** Rules (2, "foo") and (3, "bar") up to 6. */
  lemma FooBarSequence()
    ensures Sequence([MultipleRule(2, "foo"), MultipleRule(3, "bar")], 6)
      == ["1", "foo", "bar", "foo", "5", "foobar"]
  {
    var rules := [MultipleRule(2, "foo"), MultipleRule(3, "bar")];
    var expected := ["1", "foo", "bar", "foo", "5", "foobar"];
    assert expected[..0] == [];
    assert Element(rules, 1) == expected[0] by { CombinedPair(rules[0], rules[1], 1); }
    SequenceExtend(rules, 1, expected);
    assert Element(rules, 2) == expected[1] by { CombinedPair(rules[0], rules[1], 2); }
    SequenceExtend(rules, 2, expected);
    assert Element(rules, 3) == expected[2] by { CombinedPair(rules[0], rules[1], 3); }
    SequenceExtend(rules, 3, expected);
    assert Element(rules, 4) == expected[3] by { CombinedPair(rules[0], rules[1], 4); }
    SequenceExtend(rules, 4, expected);
    assert Element(rules, 5) == expected[4] by { CombinedPair(rules[0], rules[1], 5); }
    SequenceExtend(rules, 5, expected);
    assert Element(rules, 6) == expected[5] by { CombinedPair(rules[0], rules[1], 6); }
    SequenceExtend(rules, 6, expected);
    assert expected[..6] == expected;
  }

  /** A single rule (2, "even") up to 5, and a single rule (1, "all") up to 1. */
  lemma SingleRuleSequences()
    ensures Sequence([MultipleRule(2, "even")], 5) == ["1", "even", "3", "even", "5"]
    ensures Sequence([MultipleRule(1, "all")], 1) == ["all"]
  {
    var even := [MultipleRule(2, "even")];
    assert Element(even, 1) == "1" && Element(even, 2) == "even" && Element(even, 3) == "3";
    assert Element(even, 4) == "even" && Element(even, 5) == "5";
    assert Element([MultipleRule(1, "all")], 1) == "all";
  }

  /** `FizzBuzzAlgorithm`: an ordered list of rules fixed at construction. */
  class FizzBuzzAlgorithm {
    const rules: seq<MultipleRule>

    constructor (rules: seq<MultipleRule>)
      ensures this.rules == rules
    {
      this.rules := rules;
    }

    /** `applyRules`: accumulates every rule's output, then falls back to the number. */
    method ApplyRules(n: int) returns (s: string)
      requires NonZeroDivisors(rules)
      ensures s == Element(rules, n)
    {
      var output := "";
      var i := 0;
      while i < |rules|
        invariant 0 <= i <= |rules|
        invariant output == Combined(rules[..i], n)
      {
        assert rules[..i + 1][..i] == rules[..i];
        output := output + Apply(rules[i], n);
        i := i + 1;
      }
      assert rules[..|rules|] == rules;
      s := if output != "" then output else IntToString(n);
    }

    /** `generate`: one element per number from 1 to `limit` inclusive. */
    method Generate(limit: int) returns (result: seq<string>)
      requires limit >= 1 ==> NonZeroDivisors(rules)
      ensures result == Sequence(rules, limit)
      ensures |result| == if limit <= 0 then 0 else limit
      ensures forall k :: 0 <= k < |result| ==> result[k] == Element(rules, k + 1)
    {
      result := [];
      var i := 1;
      while i <= limit
        invariant 1 <= i && (limit >= 1 ==> i <= limit + 1)
        invariant i > 1 ==> limit >= 1
        invariant result == Sequence(rules, i - 1)
      {
        var item := ApplyRules(i);
        result := result + [item];
        i := i + 1;
      }
      if limit <= 0 {
        assert Sequence(rules, limit) == [];
      }
      SequenceShape(rules, limit);
    }
  }
}
