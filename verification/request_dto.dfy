/**
 * `FizzBuzzRequestDTO`: the five request fields read from the decoded JSON
 * body, back to an array, and the declared constraints written out as the
 * list of violations the validator reports.
 */
module RequestDto {

  import opened Parameters

  datatype FizzBuzzRequestDTO = FizzBuzzRequestDTO(int1: int, int2: int, limit: int, str1: string, str2: string)

  /** Where present, the integer fields hold integers and the string fields strings. */
  predicate WellTyped(data: map<string, Value>) {
    && ("int1" in data ==> data["int1"].IntVal?)
    && ("int2" in data ==> data["int2"].IntVal?)
    && ("limit" in data ==> data["limit"].IntVal?)
    && ("str1" in data ==> data["str1"].StrVal?)
    && ("str2" in data ==> data["str2"].StrVal?)
  }

  /** `$data[name] ?? 0` for an integer field. */
  function IntField(data: map<string, Value>, name: string): int
    requires name in data ==> data[name].IntVal?
  {
    if name in data then data[name].i else 0
  }

  /** `$data[name] ?? ''` for a string field. */
  function StrField(data: map<string, Value>, name: string): string
    requires name in data ==> data[name].StrVal?
  {
    if name in data then data[name].s else ""
  }

  /** `fromArray`: each field taken from the data, a missing one defaulting to 0 or "". */
  function FromArray(data: map<string, Value>): (dto: FizzBuzzRequestDTO)
    requires WellTyped(data)
    ensures ("int1" in data ==> data["int1"] == IntVal(dto.int1)) && ("int1" !in data ==> dto.int1 == 0)
    ensures ("int2" in data ==> data["int2"] == IntVal(dto.int2)) && ("int2" !in data ==> dto.int2 == 0)
    ensures ("limit" in data ==> data["limit"] == IntVal(dto.limit)) && ("limit" !in data ==> dto.limit == 0)
    ensures ("str1" in data ==> data["str1"] == StrVal(dto.str1)) && ("str1" !in data ==> dto.str1 == "")
    ensures ("str2" in data ==> data["str2"] == StrVal(dto.str2)) && ("str2" !in data ==> dto.str2 == "")
  {
    FizzBuzzRequestDTO(
      IntField(data, "int1"), IntField(data, "int2"), IntField(data, "limit"),
      StrField(data, "str1"), StrField(data, "str2"))
  }

  /** `toArray`: the five properties by name, in declaration order. */
  function ToArray(dto: FizzBuzzRequestDTO): (p: Params)
    ensures DistinctKeys(p) && |p| == 5
    ensures p[0] == ("int1", IntVal(dto.int1)) && p[1] == ("int2", IntVal(dto.int2))
    ensures p[2] == ("limit", IntVal(dto.limit))
    ensures p[3] == ("str1", StrVal(dto.str1)) && p[4] == ("str2", StrVal(dto.str2))
  {
    RequestFields(dto.int1, dto.int2, dto.limit, dto.str1, dto.str2)
  }

  /** A PHP array read as a dictionary: a later field overrides an earlier one of the same name. */
  function AsMap(p: Params): map<string, Value> {
    if p == [] then map[] else AsMap(p[..|p| - 1])[p[|p| - 1].0 := p[|p| - 1].1]
  }

  /** Reading back what `toArray` wrote gives the same request. */
  lemma FromArrayOfToArray(dto: FizzBuzzRequestDTO)
    ensures WellTyped(AsMap(ToArray(dto)))
    ensures FromArray(AsMap(ToArray(dto))) == dto
  {
    AsMapOfFive(ToArray(dto));
  }

  /** An array holding exactly the five well-typed fields survives `fromArray` then `toArray`. */
  lemma ToArrayOfFromArray(data: map<string, Value>)
    requires WellTyped(data)
    requires data.Keys == {"int1", "int2", "limit", "str1", "str2"}
    ensures AsMap(ToArray(FromArray(data))) == data
  {
    AsMapOfFive(ToArray(FromArray(data)));
  }

  /** Reading five fields as a dictionary, one step per field. */
  lemma AsMapOfFive(p: Params)
    requires |p| == 5
    ensures AsMap(p) == map[p[0].0 := p[0].1][p[1].0 := p[1].1][p[2].0 := p[2].1][p[3].0 := p[3].1][p[4].0 := p[4].1]
  {
    assert p[..1][..0] == [];
    assert AsMap(p[..1]) == map[p[0].0 := p[0].1];
    assert p[..2][..1] == p[..1];
    assert AsMap(p[..2]) == AsMap(p[..1])[p[1].0 := p[1].1];
    assert p[..3][..2] == p[..2];
    assert AsMap(p[..3]) == AsMap(p[..2])[p[2].0 := p[2].1];
    assert p[..4][..3] == p[..3];
    assert AsMap(p[..4]) == AsMap(p[..3])[p[3].0 := p[3].1];
    assert p[..4] == p[..|p| - 1];
  }

  /** A failed constraint: the property it concerns and the configured message. */
  datatype Violation = Violation(propertyPath: string, message: string)

  /**
   * Constraints of an integer property: `Positive` and `LessThanOrEqual`.
   * `NotBlank` never fires on an integer (0 is not blank) and `Type` never
   * fires on a typed property.
   */
  function IntViolations(path: string, value: int, max: int, maxMessage: string): (r: seq<Violation>)
    ensures r == [] <==> 1 <= value <= max
    ensures forall i :: 0 <= i < |r| ==> r[i].propertyPath == path
  {
    (if value > 0 then [] else [Violation(path, "must be positive")])
    + (if value <= max then [] else [Violation(path, maxMessage)])
  }

  /** Constraints of a string property: `NotBlank` (only "" is blank) and `Length(max: 50)`. */
  function StrViolations(path: string, value: string): (r: seq<Violation>)
    ensures r == [] <==> 1 <= |value| <= 50
    ensures forall i :: 0 <= i < |r| ==> r[i].propertyPath == path
  {
    (if value != "" then [] else [Violation(path, "is required")])
    + (if |value| <= 50 then [] else [Violation(path, "must be at most 50 characters")])
  }

  /** What the validator reports for a request, property by property in declaration order. */
  function Violations(dto: FizzBuzzRequestDTO): (r: seq<Violation>)
    ensures r == [] <==> Valid(dto)
  {
    IntViolations("int1", dto.int1, 1000, "must be less than or equal to 1000")
    + IntViolations("int2", dto.int2, 1000, "must be less than or equal to 1000")
    + IntViolations("limit", dto.limit, 100000, "must be less than or equal to 100000")
    + StrViolations("str1", dto.str1)
    + StrViolations("str2", dto.str2)
  }

  /** The declared ranges: divisors 1..1000, limit 1..100000, replacements of 1 to 50 characters. */
  predicate Valid(dto: FizzBuzzRequestDTO) {
    && 1 <= dto.int1 <= 1000
    && 1 <= dto.int2 <= 1000
    && 1 <= dto.limit <= 100000
    && 1 <= |dto.str1| <= 50
    && 1 <= |dto.str2| <= 50
  }

  /** The names of the properties whose value is out of its declared range. */
  function InvalidFields(dto: FizzBuzzRequestDTO): set<string> {
    (if 1 <= dto.int1 <= 1000 then {} else {"int1"})
    + (if 1 <= dto.int2 <= 1000 then {} else {"int2"})
    + (if 1 <= dto.limit <= 100000 then {} else {"limit"})
    + (if 1 <= |dto.str1| <= 50 then {} else {"str1"})
    + (if 1 <= |dto.str2| <= 50 then {} else {"str2"})
  }

  /** The property names a list of violations mentions. */
  function Paths(vs: seq<Violation>): set<string> {
    set v | v in vs :: v.propertyPath
  }

  lemma PathsAppend(x: seq<Violation>, y: seq<Violation>)
    ensures Paths(x + y) == Paths(x) + Paths(y)
  {
    assert forall v :: v in x + y <==> v in x || v in y;
  }

  /** An integer property with a positive maximum is reported at most once, exactly when out of range. */
  lemma IntViolationsOnce(path: string, value: int, max: int, maxMessage: string)
    requires max >= 1
    ensures |IntViolations(path, value, max, maxMessage)| <= 1
    ensures Paths(IntViolations(path, value, max, maxMessage)) == if 1 <= value <= max then {} else {path}
    ensures PathsDistinct(IntViolations(path, value, max, maxMessage))
    ensures Paths(IntViolations(path, value, max, maxMessage)) <= {path}
  {
  }

  /** A string property is reported at most once, exactly when its length is outside 1..50. */
  lemma StrViolationsOnce(path: string, value: string)
    ensures |StrViolations(path, value)| <= 1
    ensures Paths(StrViolations(path, value)) == if 1 <= |value| <= 50 then {} else {path}
    ensures PathsDistinct(StrViolations(path, value))
    ensures Paths(StrViolations(path, value)) <= {path}
  {
  }

  /** A list of violations is empty exactly when it mentions no property. */
  lemma NoPathsIffEmpty(vs: seq<Violation>)
    ensures Paths(vs) == {} <==> vs == []
  {
    if vs != [] {
      assert vs[0].propertyPath in Paths(vs);
    }
  }

  /** The request is valid exactly when no property is out of range. */
  lemma ValidIffNoInvalidFields(dto: FizzBuzzRequestDTO)
    ensures InvalidFields(dto) == {} <==> Valid(dto)
  {
    if !Valid(dto) {
      assert "int1" in InvalidFields(dto) || "int2" in InvalidFields(dto) || "limit" in InvalidFields(dto)
        || "str1" in InvalidFields(dto) || "str2" in InvalidFields(dto);
    }
  }

  /**
   * The validator reports exactly the out-of-range properties, so it
   * reports nothing exactly when the request is valid.
   */
  lemma ViolationsMatchRanges(dto: FizzBuzzRequestDTO)
    ensures Paths(Violations(dto)) == InvalidFields(dto)
    ensures Violations(dto) == [] <==> Valid(dto)
  {
    var a := IntViolations("int1", dto.int1, 1000, "must be less than or equal to 1000");
    var b := IntViolations("int2", dto.int2, 1000, "must be less than or equal to 1000");
    var c := IntViolations("limit", dto.limit, 100000, "must be less than or equal to 100000");
    var d := StrViolations("str1", dto.str1);
    var e := StrViolations("str2", dto.str2);
    IntViolationsOnce("int1", dto.int1, 1000, "must be less than or equal to 1000");
    IntViolationsOnce("int2", dto.int2, 1000, "must be less than or equal to 1000");
    IntViolationsOnce("limit", dto.limit, 100000, "must be less than or equal to 100000");
    StrViolationsOnce("str1", dto.str1);
    StrViolationsOnce("str2", dto.str2);
    PathsAppend(a, b);
    PathsAppend(a + b, c);
    PathsAppend(a + b + c, d);
    PathsAppend(a + b + c + d, e);
    assert Violations(dto) == a + b + c + d + e;
    NoPathsIffEmpty(Violations(dto));
    ValidIffNoInvalidFields(dto);
  }

  /** No property appears twice in a list of violations. */
  predicate PathsDistinct(vs: seq<Violation>) {
    forall i, j :: 0 <= i < j < |vs| ==> vs[i].propertyPath != vs[j].propertyPath
  }

  lemma PathsDistinctAppend(x: seq<Violation>, y: seq<Violation>)
    requires PathsDistinct(x) && PathsDistinct(y) && Paths(x) !! Paths(y)
    ensures PathsDistinct(x + y)
  {
    forall i, j | 0 <= i < j < |x + y|
      ensures (x + y)[i].propertyPath != (x + y)[j].propertyPath
    {
      if j < |x| {
        assert (x + y)[i] == x[i] && (x + y)[j] == x[j];
      } else if i >= |x| {
        assert (x + y)[i] == y[i - |x|] && (x + y)[j] == y[j - |x|];
      } else {
        assert (x + y)[i] == x[i] && (x + y)[j] == y[j - |x|];
        assert x[i].propertyPath in Paths(x) && y[j - |x|].propertyPath in Paths(y);
      }
    }
  }

  /** Appending the violations of one further property keeps the properties distinct. */
  lemma AppendOneProperty(x: seq<Violation>, y: seq<Violation>, seen: set<string>, path: string)
    returns (both: set<string>)
    requires PathsDistinct(x) && PathsDistinct(y)
    requires Paths(x) <= seen && Paths(y) <= {path} && path !in seen
    ensures PathsDistinct(x + y) && Paths(x + y) <= both && both == seen + {path}
  {
    PathsAppend(x, y);
    PathsDistinctAppend(x, y);
    both := seen + {path};
  }

  /** The three integer properties are each reported at most once. */
  lemma IntegersOncePerProperty(dto: FizzBuzzRequestDTO)
    ensures var ints := IntViolations("int1", dto.int1, 1000, "must be less than or equal to 1000")
      + IntViolations("int2", dto.int2, 1000, "must be less than or equal to 1000")
      + IntViolations("limit", dto.limit, 100000, "must be less than or equal to 100000");
      PathsDistinct(ints) && Paths(ints) <= {"int1", "int2", "limit"}
  {
    var a := IntViolations("int1", dto.int1, 1000, "must be less than or equal to 1000");
    var b := IntViolations("int2", dto.int2, 1000, "must be less than or equal to 1000");
    var c := IntViolations("limit", dto.limit, 100000, "must be less than or equal to 100000");
    IntViolationsOnce("int1", dto.int1, 1000, "must be less than or equal to 1000");
    IntViolationsOnce("int2", dto.int2, 1000, "must be less than or equal to 1000");
    IntViolationsOnce("limit", dto.limit, 100000, "must be less than or equal to 100000");
    var ab := AppendOneProperty(a, b, {"int1"}, "int2");
    var _ := AppendOneProperty(a + b, c, ab, "limit");
  }

  /** The two string properties are each reported at most once. */
  lemma StringsOncePerProperty(dto: FizzBuzzRequestDTO)
    ensures var strs := StrViolations("str1", dto.str1) + StrViolations("str2", dto.str2);
      PathsDistinct(strs) && Paths(strs) <= {"str1", "str2"}
  {
    StrViolationsOnce("str1", dto.str1);
    StrViolationsOnce("str2", dto.str2);
    var _ := AppendOneProperty(StrViolations("str1", dto.str1), StrViolations("str2", dto.str2), {"str1"}, "str2");
  }

  /** Each property is reported at most once, so no message is lost when they are keyed by property. */
  lemma ViolationsOncePerProperty(dto: FizzBuzzRequestDTO)
    ensures PathsDistinct(Violations(dto))
  {
    var ints := IntViolations("int1", dto.int1, 1000, "must be less than or equal to 1000")
      + IntViolations("int2", dto.int2, 1000, "must be less than or equal to 1000")
      + IntViolations("limit", dto.limit, 100000, "must be less than or equal to 100000");
    var strs := StrViolations("str1", dto.str1) + StrViolations("str2", dto.str2);
    IntegersOncePerProperty(dto);
    StringsOncePerProperty(dto);
    PathsDistinctAppend(ints, strs);
    assert Violations(dto) == ints + strs;
  }

  /** The request (3, 5, 15, "fizz", "buzz") passes; each out-of-range field is reported with its message. */
  lemma ValidationExamples()
    ensures Violations(FizzBuzzRequestDTO(3, 5, 15, "fizz", "buzz")) == []
    ensures Violations(FizzBuzzRequestDTO(1001, 5, 15, "fizz", "buzz"))
      == [Violation("int1", "must be less than or equal to 1000")]
    ensures Violations(FizzBuzzRequestDTO(3, -5, 15, "fizz", "buzz")) == [Violation("int2", "must be positive")]
    ensures Violations(FizzBuzzRequestDTO(3, 5, 100001, "fizz", "buzz"))
      == [Violation("limit", "must be less than or equal to 100000")]
    ensures Violations(FizzBuzzRequestDTO(3, 5, 15, "", "buzz")) == [Violation("str1", "is required")]
    ensures Violations(FizzBuzzRequestDTO(3, 5, 15, "fizz", seq(51, _ => 'a')))
      == [Violation("str2", "must be at most 50 characters")]
  {
  }

  /** A missing integer field defaults to 0, which fails positivity on that field. */
  lemma MissingIntegerFails(data: map<string, Value>, name: string)
    requires WellTyped(data)
    requires name in {"int1", "int2", "limit"} && name !in data
    ensures Violation(name, "must be positive") in Violations(FromArray(data))
    ensures !Valid(FromArray(data))
  {
    var dto := FromArray(data);
    if name == "int1" {
      assert Violations(dto)[0] == Violation(name, "must be positive");
    } else if name == "int2" {
      assert IntViolations("int1", dto.int1, 1000, "must be less than or equal to 1000") + [Violation(name, "must be positive")]
        <= Violations(dto);
    } else {
      assert Violations(dto)[|Violations(dto)| - |StrViolations("str1", dto.str1)| - |StrViolations("str2", dto.str2)| - 1]
        == Violation(name, "must be positive");
    }
  }
}
