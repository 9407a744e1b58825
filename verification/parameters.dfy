/**
 * Request parameter sets as the statistics store receives them (a PHP array
 * with string keys, kept in insertion order) and the fingerprint that keys
 * them. The source hashes the key-sorted array with `md5(json_encode(...))`;
 * here the fingerprint is the key-sorted field list itself, an ideal
 * collision-free hash of exactly the same input.
 */
module Parameters {

  datatype Value = IntVal(i: int) | StrVal(s: string)

  /** An ordered list of (field name, value) pairs. */
  type Params = seq<(string, Value)>

  /**
   * Ordering of field names used by `ksort` for non-numeric string keys:
   * character by character, a proper prefix first.
   */
  predicate Lt(a: string, b: string) {
    if |a| == 0 then |b| > 0
    else if |b| == 0 then false
    else if a[0] < b[0] then true
    else a[0] == b[0] && Lt(a[1..], b[1..])
  }

  lemma {:induction false} LtIrreflexive(a: string)
    ensures !Lt(a, a)
  {
    if |a| > 0 {
      LtIrreflexive(a[1..]);
    }
  }

  lemma {:induction false} LtTransitive(a: string, b: string, c: string)
    requires Lt(a, b) && Lt(b, c)
    ensures Lt(a, c)
  {
    if |a| > 0 && a[0] == b[0] && b[0] == c[0] {
      LtTransitive(a[1..], b[1..], c[1..]);
    }
  }

  lemma {:induction false} LtTotal(a: string, b: string)
    requires a != b
    ensures Lt(a, b) || Lt(b, a)
  {
    if |a| > 0 && |b| > 0 && a[0] == b[0] {
      assert a == [a[0]] + a[1..] && b == [b[0]] + b[1..];
      LtTotal(a[1..], b[1..]);
    }
  }

  /** No field name occurs twice (true of every PHP array). */
  predicate DistinctKeys(p: Params) {
    p == [] || ((forall x | x in p[1..] :: x.0 != p[0].0) && DistinctKeys(p[1..]))
  }

  /** Every field of `s` has a name after `name`. */
  predicate AllAbove(name: string, s: Params) {
    forall x | x in s :: Lt(name, x.0)
  }

  /** Field names strictly increase along `s`. */
  predicate StrictlySorted(s: Params) {
    s == [] || (AllAbove(s[0].0, s[1..]) && StrictlySorted(s[1..]))
  }

  /** Inserts one field into a key-sorted list. */
  function Insert(f: (string, Value), s: Params): (r: Params)
    ensures |r| == |s| + 1
  {
    if s == [] then [f]
    else if Lt(s[0].0, f.0) then [s[0]] + Insert(f, s[1..])
    else [f] + s
  }

  /** `ksort`: the fields ordered by name. */
  function KeySort(p: Params): (r: Params)
    ensures |r| == |p|
  {
    if p == [] then [] else Insert(p[0], KeySort(p[1..]))
  }

  lemma {:induction false} InsertPermutes(f: (string, Value), s: Params)
    ensures multiset(Insert(f, s)) == multiset(s) + multiset{f}
  {
    if s != [] && Lt(s[0].0, f.0) {
      InsertPermutes(f, s[1..]);
      assert s == [s[0]] + s[1..];
    }
  }

  /** Sorting only reorders: the same fields, each as often. */
  lemma {:induction false} KeySortPermutes(p: Params)
    ensures multiset(KeySort(p)) == multiset(p)
  {
    if p != [] {
      KeySortPermutes(p[1..]);
      InsertPermutes(p[0], KeySort(p[1..]));
      assert p == [p[0]] + p[1..];
    }
  }

  lemma {:induction false} InsertSorted(f: (string, Value), s: Params)
    requires StrictlySorted(s)
    requires forall x | x in s :: x.0 != f.0
    ensures StrictlySorted(Insert(f, s))
  {
    if s == [] {
    } else if Lt(s[0].0, f.0) {
      InsertSorted(f, s[1..]);
      InsertPermutes(f, s[1..]);
      forall x | x in Insert(f, s[1..])
        ensures Lt(s[0].0, x.0)
      {
        assert x in multiset(Insert(f, s[1..]));
      }
    } else {
      LtTotal(f.0, s[0].0);
      forall x | x in s
        ensures Lt(f.0, x.0)
      {
        if x != s[0] {
          assert x in s[1..] by {
            assert s == [s[0]] + s[1..];
          }
          LtTransitive(f.0, s[0].0, x.0);
        }
      }
      assert Insert(f, s)[1..] == s;
    }
  }

  /** With distinct names, the sorted list is strictly increasing. */
  lemma {:induction false} KeySortSorted(p: Params)
    requires DistinctKeys(p)
    ensures StrictlySorted(KeySort(p))
  {
    if p != [] {
      KeySortSorted(p[1..]);
      KeySortPermutes(p[1..]);
      forall x | x in KeySort(p[1..])
        ensures x.0 != p[0].0
      {
        assert x in multiset(KeySort(p[1..]));
      }
      InsertSorted(p[0], KeySort(p[1..]));
    }
  }

  /** Two non-empty strictly sorted lists holding the same fields start with the same field. */
  lemma SortedHeadsAgree(s1: Params, s2: Params)
    requires StrictlySorted(s1) && StrictlySorted(s2) && s1 != [] && s2 != []
    requires multiset(s1) == multiset(s2)
    ensures s1[0] == s2[0]
  {
    if s1[0] != s2[0] {
      assert s1 == [s1[0]] + s1[1..] && s2 == [s2[0]] + s2[1..];
      assert s1[0] in multiset(s2) && s2[0] in multiset(s1);
      assert s1[0] in s2[1..] && s2[0] in s1[1..];
      LtTransitive(s1[0].0, s2[0].0, s1[0].0);
      LtIrreflexive(s1[0].0);
      assert false;
    }
  }

  /** Lists that agree on their fields and on their first field agree on the rest. */
  lemma TailsSameFields(s1: Params, s2: Params)
    requires s1 != [] && s2 != [] && s1[0] == s2[0]
    requires multiset(s1) == multiset(s2)
    ensures multiset(s1[1..]) == multiset(s2[1..])
  {
    assert s1 == [s1[0]] + s1[1..] && s2 == [s2[0]] + s2[1..];
    assert multiset(s1[1..]) == multiset(s1) - multiset([s1[0]]);
    assert multiset(s2[1..]) == multiset(s2) - multiset([s2[0]]);
  }

  /** Two strictly sorted lists holding the same fields are the same list. */
  lemma {:induction false} SortedUnique(s1: Params, s2: Params)
    requires StrictlySorted(s1) && StrictlySorted(s2)
    requires multiset(s1) == multiset(s2)
    ensures s1 == s2
  {
    if s1 == [] || s2 == [] {
      assert |multiset(s1)| == |s1| && |multiset(s2)| == |s2|;
    } else {
      SortedHeadsAgree(s1, s2);
      TailsSameFields(s1, s2);
      SortedUnique(s1[1..], s2[1..]);
      assert s1 == [s1[0]] + s1[1..] && s2 == [s2[0]] + s2[1..];
    }
  }

  /** The statistics key of a parameter set. */
  datatype Fingerprint = Fingerprint(sortedFields: Params)

  /** `hashParameters`: sort the fields by name, then hash the sorted list. */
  function HashParameters(p: Params): (key: Fingerprint)
    ensures multiset(key.sortedFields) == multiset(p)
    ensures DistinctKeys(p) ==> StrictlySorted(key.sortedFields)
  {
    KeySortPermutes(p);
    if DistinctKeys(p) then KeySortSorted(p); Fingerprint(KeySort(p))
    else Fingerprint(KeySort(p))
  }

  /**
   * Two parameter arrays get the same key exactly when they hold the same
   * fields with the same values, whatever order the fields were given in.
   */
  lemma HashIgnoresOnlyOrder(p1: Params, p2: Params)
    requires DistinctKeys(p1) && DistinctKeys(p2)
    ensures HashParameters(p1) == HashParameters(p2) <==> multiset(p1) == multiset(p2)
  {
    if multiset(p1) == multiset(p2) {
      SortedUnique(HashParameters(p1).sortedFields, HashParameters(p2).sortedFields);
    }
  }

  /** Names differing pairwise by position means distinct keys. */
  lemma {:induction false} DistinctByIndex(p: Params)
    requires forall i, j :: 0 <= i < j < |p| ==> p[i].0 != p[j].0
    ensures DistinctKeys(p)
  {
    if p != [] {
      forall x | x in p[1..]
        ensures x.0 != p[0].0
      {
        var j :| 0 <= j < |p[1..]| && p[1..][j] == x;
        assert p[j + 1] == x;
      }
      DistinctByIndex(p[1..]);
    }
  }

  /** Five fields with pairwise different names. */
  lemma FiveDistinct(a: (string, Value), b: (string, Value), c: (string, Value), d: (string, Value), e: (string, Value))
    requires a.0 != b.0 && a.0 != c.0 && a.0 != d.0 && a.0 != e.0
    requires b.0 != c.0 && b.0 != d.0 && b.0 != e.0
    requires c.0 != d.0 && c.0 != e.0 && d.0 != e.0
    ensures DistinctKeys([a, b, c, d, e])
  {
    DistinctByIndex([a, b, c, d, e]);
  }

  /** The five request fields in the order the service records them. */
  function RequestFields(int1: int, int2: int, limit: int, str1: string, str2: string): (p: Params)
    ensures DistinctKeys(p)
    ensures |p| == 5
  {
    var fields := [("int1", IntVal(int1)), ("int2", IntVal(int2)), ("limit", IntVal(limit)),
                   ("str1", StrVal(str1)), ("str2", StrVal(str2))];
    FiveDistinct(fields[0], fields[1], fields[2], fields[3], fields[4]);
    fields
  }

  /** The request fields of the reordering example, supplied in another order. */
  const ReorderedFizzBuzz: Params :=
    [("str2", StrVal("buzz")), ("limit", IntVal(15)), ("int1", IntVal(3)),
     ("str1", StrVal("fizz")), ("int2", IntVal(5))]

  lemma ReorderedSameFields()
    ensures multiset(ReorderedFizzBuzz) == multiset(RequestFields(3, 5, 15, "fizz", "buzz"))
  {
    var a, b, c := ("int1", IntVal(3)), ("int2", IntVal(5)), ("limit", IntVal(15));
    var d, e := ("str1", StrVal("fizz")), ("str2", StrVal("buzz"));
    assert ReorderedFizzBuzz == [e, c, a, d, b];
    assert RequestFields(3, 5, 15, "fizz", "buzz") == [a, b, c, d, e];
    assert multiset([a, b, c, d, e]) == multiset{a, b, c, d, e};
    assert multiset([e, c, a, d, b]) == multiset{e, c, a, d, b};
  }

  lemma ReorderedDistinct()
    ensures DistinctKeys(ReorderedFizzBuzz)
  {
    var f := ReorderedFizzBuzz;
    FiveDistinct(f[0], f[1], f[2], f[3], f[4]);
    assert f == [f[0], f[1], f[2], f[3], f[4]];
  }

  /** The same five fields given in another order share one key. */
  lemma ReorderedRequestSharesKey()
    ensures HashParameters(RequestFields(3, 5, 15, "fizz", "buzz")) == HashParameters(ReorderedFizzBuzz)
  {
    ReorderedSameFields();
    ReorderedDistinct();
    HashIgnoresOnlyOrder(RequestFields(3, 5, 15, "fizz", "buzz"), ReorderedFizzBuzz);
  }
}
