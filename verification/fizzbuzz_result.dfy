/** `FizzBuzzResult`: the immutable value object carrying a generated sequence. */
module ResultValue {

  datatype FizzBuzzResult = FizzBuzzResult(items: seq<string>) {

    /** `getItems`: the sequence given at construction. */
    function GetItems(): seq<string> {
      items
    }

    /** `getCount`: how many items the result holds. */
    function GetCount(): (n: nat)
      ensures n == |GetItems()|
    {
      |items|
    }
  }

  /**
   * A result hands back exactly the items it was built from, and its count
   * is their number; being a value, nothing can change it afterwards.
   */
  lemma ResultRoundTrip(items: seq<string>)
    ensures FizzBuzzResult(items).GetItems() == items
    ensures FizzBuzzResult(items).GetCount() == |items|
    ensures forall r: FizzBuzzResult :: r.GetItems() == items ==> r == FizzBuzzResult(items)
  {
  }
}
