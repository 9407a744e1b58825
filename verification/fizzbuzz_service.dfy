/**
 * `FizzBuzzService::process`: build the two rules in argument order, run the
 * generator, record the request's five parameters in the statistics store,
 * and wrap the sequence in a result.
 */
module Service {

  import opened Rules
  import opened Algorithm
  import opened ResultValue
  import opened Parameters
  import opened StatisticsStore
  import opened Wrappers

  /** The two rules of a request: (int1, str1) first, then (int2, str2). */
  function RequestRules(int1: int, int2: int, str1: string, str2: string): (rules: seq<MultipleRule>)
    ensures |rules| == 2
    ensures rules[0] == MultipleRule(int1, str1) && rules[1] == MultipleRule(int2, str2)
  {
    [MultipleRule(int1, str1), MultipleRule(int2, str2)]
  }

  class FizzBuzzService {
    const repository: StatisticsRepository

    constructor (repository: StatisticsRepository)
      ensures this.repository == repository
    {
      this.repository := repository;
    }

    /**
     * The divisors must be non-zero when at least one number is generated
     * (the rule takes the remainder unguarded); with a limit below 1 no rule
     * is ever applied.
     */
    method Process(int1: int, int2: int, limit: int, str1: string, str2: string)
      returns (result: FizzBuzzResult)
      requires limit >= 1 ==> int1 != 0 && int2 != 0
      requires repository.Valid()
      modifies repository.cache, repository.file
      ensures result.GetItems() == Sequence(RequestRules(int1, int2, str1, str2), limit)
      ensures var parameters := RequestFields(int1, int2, limit, str1, str2);
        repository.View() == Increment(old(repository.View()), HashParameters(parameters), parameters)
      ensures repository.Coherent() && repository.Valid()
    {
      var algorithm := new FizzBuzzAlgorithm([MultipleRule(int1, str1), MultipleRule(int2, str2)]);
      var items := algorithm.Generate(limit);
      assert items == Sequence(RequestRules(int1, int2, str1, str2), limit);
      assert repository.View() == old(repository.View());
      repository.IncrementRequestCount(RequestFields(int1, int2, limit, str1, str2));
      result := FizzBuzzResult(items);
    }
  }

  /** For a limit of at least 1 the result holds exactly `limit` items. */
  lemma ProcessedCount(int1: int, int2: int, limit: int, str1: string, str2: string)
    requires int1 != 0 && int2 != 0 && limit >= 1
    ensures FizzBuzzResult(Sequence(RequestRules(int1, int2, str1, str2), limit)).GetCount() == limit
  {
    SequenceShape(RequestRules(int1, int2, str1, str2), limit);
  }

  /** The item for a number both divisors divide is `str1` followed by `str2`, never the reverse. */
  lemma BothDivisorsGiveStr1ThenStr2(int1: int, int2: int, limit: int, str1: string, str2: string, n: int)
    requires int1 != 0 && int2 != 0
    requires 1 <= n <= limit && IsMultiple(n, int1) && IsMultiple(n, int2)
    requires str1 + str2 != ""
    ensures |Sequence(RequestRules(int1, int2, str1, str2), limit)| == limit
    ensures Sequence(RequestRules(int1, int2, str1, str2), limit)[n - 1] == str1 + str2
  {
    var rules := RequestRules(int1, int2, str1, str2);
    SequenceShape(rules, limit);
    TwoRulesConcatenateInOrder(rules[0], rules[1], n);
  }

  /** The classic request (3, 5, 15, "fizz", "buzz"). */
  lemma ClassicRequest()
    ensures var items := Sequence(RequestRules(3, 5, "fizz", "buzz"), 15);
      && |items| == 15 && items[2] == "fizz" && items[4] == "buzz" && items[14] == "fizzbuzz"
  {
    assert RequestRules(3, 5, "fizz", "buzz") == [MultipleRule(3, "fizz"), MultipleRule(5, "buzz")];
    ClassicFizzBuzz();
  }

  /**
   * Recording one request twice raises its count by two; on a store that
   * had not seen it, it leaves the parameters as given with count 2.
   */
  lemma SameRequestTwice(t: Table, parameters: Params)
    requires UniqueKeys(t)
    ensures var key := HashParameters(parameters);
      var r := Increment(Increment(t, key, parameters), key, parameters);
      && Lookup(r, key).Some?
      && Lookup(r, key).value.count == (if Lookup(t, key).Some? then Lookup(t, key).value.count else 0) + 2
      && (Lookup(t, key).None? ==> Lookup(r, key) == Some(Entry(parameters, 2)))
  {
    var key := HashParameters(parameters);
    IncrementEffect(t, key, parameters);
    IncrementEffect(Increment(t, key, parameters), key, parameters);
  }
}
