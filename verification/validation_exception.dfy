/**
 * `ValidationException`: the violations of a rejected request, keyed by
 * property, carried with the message "Validation failed" and code 400.
 */
module ValidationErrors {

  import opened RequestDto

  /**
   * The errors array built from the violations in order: each violation
   * writes its message under its property, so a later violation of the same
   * property replaces an earlier one.
   */
  function ErrorMap(violations: seq<Violation>): (errors: map<string, string>)
    ensures forall path :: path in errors ==>
      exists i :: 0 <= i < |violations| && violations[i] == Violation(path, errors[path])
  {
    if violations == [] then map[]
    else
      var front := violations[..|violations| - 1];
      var last := violations[|violations| - 1];
      assert forall i :: 0 <= i < |front| ==> front[i] == violations[i];
      ErrorMap(front)[last.propertyPath := last.message]
  }

  /** The errors have one entry per property that has a violation, and no other. */
  lemma {:induction false} ErrorMapKeys(violations: seq<Violation>)
    ensures ErrorMap(violations).Keys == Paths(violations)
  {
    if violations != [] {
      var front := violations[..|violations| - 1];
      ErrorMapKeys(front);
      assert violations == front + [violations[|violations| - 1]];
      PathsAppend(front, [violations[|violations| - 1]]);
    }
  }

  /** Each property's entry is the message of its last violation. */
  lemma {:induction false} ErrorMapLastWins(violations: seq<Violation>, i: nat)
    requires i < |violations|
    requires forall j :: i < j < |violations| ==> violations[j].propertyPath != violations[i].propertyPath
    ensures violations[i].propertyPath in ErrorMap(violations)
    ensures ErrorMap(violations)[violations[i].propertyPath] == violations[i].message
  {
    if i < |violations| - 1 {
      var front := violations[..|violations| - 1];
      ErrorMapLastWins(front, i);
    }
  }

  /** When no property is reported twice, every violation's message is kept. */
  lemma ErrorMapKeepsDistinct(violations: seq<Violation>)
    requires PathsDistinct(violations)
    ensures forall v :: v in violations ==>
      v.propertyPath in ErrorMap(violations) && ErrorMap(violations)[v.propertyPath] == v.message
  {
    forall v | v in violations
      ensures v.propertyPath in ErrorMap(violations) && ErrorMap(violations)[v.propertyPath] == v.message
    {
      var i :| 0 <= i < |violations| && violations[i] == v;
      ErrorMapLastWins(violations, i);
    }
  }

  /** The errors a rejected request produces: its out-of-range properties, each with its message. */
  lemma RequestErrors(dto: FizzBuzzRequestDTO)
    ensures ErrorMap(Violations(dto)).Keys == InvalidFields(dto)
    ensures forall v :: v in Violations(dto) ==>
      v.propertyPath in ErrorMap(Violations(dto)) && ErrorMap(Violations(dto))[v.propertyPath] == v.message
  {
    ViolationsMatchRanges(dto);
    ViolationsOncePerProperty(dto);
    ErrorMapKeys(Violations(dto));
    ErrorMapKeepsDistinct(Violations(dto));
  }

  /** One violation of `field1` gives one error under `field1`; a repeated property keeps its last message. */
  lemma ErrorMapExamples()
    ensures ErrorMap([Violation("field1", "Field is required")]) == map["field1" := "Field is required"]
    ensures ErrorMap([Violation("str1", "is required"), Violation("str1", "must be at most 50 characters")])
      == map["str1" := "must be at most 50 characters"]
    ensures ErrorMap([]) == map[]
  {
    var twice := [Violation("str1", "is required"), Violation("str1", "must be at most 50 characters")];
    assert twice[..1] == [twice[0]];
    assert [Violation("field1", "Field is required")][..0] == [];
    assert twice[..1][..0] == [];
  }

  class ValidationException {
    const errors: map<string, string>
    const message: string
    const code: int

    /** Walks the violations in order, recording each message under its property. */
    constructor (violations: seq<Violation>)
      ensures errors == ErrorMap(violations)
      ensures message == "Validation failed" && code == 400
    {
      var collected: map<string, string> := map[];
      var i := 0;
      while i < |violations|
        invariant 0 <= i <= |violations|
        invariant collected == ErrorMap(violations[..i])
      {
        assert violations[..i + 1][..i] == violations[..i];
        collected := collected[violations[i].propertyPath := violations[i].message];
        i := i + 1;
      }
      assert violations[..i] == violations;
      errors := collected;
      message := "Validation failed";
      code := 400;
    }

    /** `getErrors`. */
    function GetErrors(): map<string, string> {
      errors
    }
  }
}
