/** The form-validation hook: per-field rules checked in a fixed order,
    and the values / errors / touched maps that typing, leaving a field,
    validating the whole form and resetting it update. */
module FormValidation {
  import opened Wrappers
  import opened JsText

  /** The rules of one field. A pattern is a test on the whole value; a
      custom check returns a message or null. */
  datatype Rules = Rules(
    required: bool,
    minLength: Option<int>,
    maxLength: Option<int>,
    pattern: Option<string -> bool>,
    custom: Option<string -> Option<string>>)

  const RequiredMessage := "This field is required"
  const InvalidFormatMessage := "Invalid format"

  function MinLengthMessage(n: int): string {
    "Must be at least " + IntToString(n) + " characters"
  }

  function MaxLengthMessage(n: int): string {
    "Must be at most " + IntToString(n) + " characters"
  }

  lemma LimitMessagesNonEmpty(min: int, max: int)
    ensures MinLengthMessage(min) != "" && MaxLengthMessage(max) != ""
  {
    assert MinLengthMessage(min)[0] == 'M' && MaxLengthMessage(max)[0] == 'M';
  }

  /** A length limit is applied only when it is truthy: present and not 0. */
  predicate LimitSet(limit: Option<int>) {
    limit.Some? && limit.value != 0
  }

  /** `if (error)`: a message that is present and not empty. */
  predicate IsError(e: Option<string>) {
    e.Some? && e.value != ""
  }

  /** `values[name] || ''` */
  function ValueOf(values: map<string, string>, name: string): string {
    if name in values then values[name] else ""
  }

  /** validateField */
  function ValidateField(rules: map<string, Rules>, name: string, value: string): (r: Option<string>)
    ensures r.Some? ==> name in rules
    ensures r.Some? && rules[name].custom.None? ==> r.value != ""
  {
    if name !in rules then None
    else
      var r := rules[name];
      LimitMessagesNonEmpty(r.minLength.GetOr(0), r.maxLength.GetOr(0));
      if r.required && Trim(value) == "" then Some(RequiredMessage)
      else if LimitSet(r.minLength) && |value| < r.minLength.value then Some(MinLengthMessage(r.minLength.value))
      else if LimitSet(r.maxLength) && |value| > r.maxLength.value then Some(MaxLengthMessage(r.maxLength.value))
      else if r.pattern.Some? && !r.pattern.value(value) then Some(InvalidFormatMessage)
      else if r.custom.Some? then r.custom.value(value)
      else None
  }

  /** The errors validateAll records for the given fields: those whose
      check gives a non-empty message. */
  function ErrorsAmong(rules: map<string, Rules>, values: map<string, string>, names: set<string>): (r: map<string, string>)
    ensures r.Keys <= names * rules.Keys
    ensures forall k :: k in r ==> r[k] != ""
  {
    map k | k in names && FieldFails(rules, values, k) :: ValidateField(rules, k, ValueOf(values, k)).value
  }

  /** The field fails validateAll's test: a non-empty message. */
  predicate FieldFails(rules: map<string, Rules>, values: map<string, string>, k: string) {
    IsError(ValidateField(rules, k, ValueOf(values, k)))
  }

  /** A map that holds the message of every failing rule field and nothing
      else is the errors validateAll computes. */
  lemma SameErrors(m: map<string, string>, rules: map<string, Rules>, values: map<string, string>)
    requires forall k :: k in m ==>
      k in rules && FieldFails(rules, values, k) && m[k] == ValidateField(rules, k, ValueOf(values, k)).value
    requires forall k :: k in rules && FieldFails(rules, values, k) ==> k in m
    ensures m == ErrorsAmong(rules, values, rules.Keys)
  {
  }

  class Form {
    const initialValues: map<string, string>
    const rules: map<string, Rules>
    /** Object.keys of the rules, in order. */
    const ruleNames: seq<string>
    var values: map<string, string>
    var errors: map<string, string>
    var touched: map<string, bool>

    /** The rule names list the rules, and every recorded error is a
        non-empty message. */
    predicate Valid()
      reads this
    {
      && (forall k :: k in ruleNames ==> k in rules)
      && (forall k :: k in rules ==> k in ruleNames)
      && (forall k :: k in errors ==> errors[k] != "")
    }

    constructor(initialValues: map<string, string>, rules: map<string, Rules>, ruleNames: seq<string>)
      requires forall k :: k in ruleNames <==> k in rules
      ensures this.initialValues == initialValues && this.rules == rules && this.ruleNames == ruleNames
      ensures values == initialValues && errors == map[] && touched == map[]
      ensures Valid()
    {
      this.initialValues := initialValues;
      this.rules := rules;
      this.ruleNames := ruleNames;
      values := initialValues;
      errors := map[];
      touched := map[];
    }

    /** `isValid` */
    predicate IsValid()
      reads this
    {
      errors == map[]
    }

    /** handleChange: the new value, and that field's error cleared. */
    method HandleChange(name: string, value: string)
      requires Valid()
      modifies this
      ensures values == old(values)[name := value]
      ensures errors == old(errors) - {name}
      ensures touched == old(touched)
      ensures Valid()
    {
      values := values[name := value];
      if name in errors && errors[name] != "" {
        errors := errors - {name};
      }
    }

    /** handleBlur: the field is touched, and its error recorded when it
        fails; an error already there is never removed. */
    method HandleBlur(name: string)
      requires Valid()
      modifies this
      ensures touched == old(touched)[name := true]
      ensures values == old(values)
      ensures var e := ValidateField(rules, name, ValueOf(old(values), name));
        errors == if IsError(e) then old(errors)[name := e.value] else old(errors)
      ensures forall k :: k in old(errors) ==> k in errors
      ensures Valid()
    {
      touched := touched[name := true];
      var error := ValidateField(rules, name, ValueOf(values, name));
      if error.Some? && error.value != "" {
        errors := errors[name := error.value];
      }
    }

    /** validateAll: the errors become exactly those of the rule fields
        that fail, every rule field is touched, and the answer is whether
        none failed. */
    method ValidateAll() returns (ok: bool)
      requires Valid()
      modifies this
      ensures errors == ErrorsAmong(rules, values, rules.Keys)
      ensures touched == map k | k in rules :: true
      ensures values == old(values)
      ensures ok <==> forall k :: k in rules ==> !FieldFails(rules, values, k)
      ensures Valid()
    {
      var newErrors: map<string, string> := map[];
      var i := 0;
      while i < |ruleNames|
        invariant 0 <= i <= |ruleNames|
        invariant forall k :: k in newErrors ==> k in ruleNames[..i] && FieldFails(rules, values, k)
        invariant forall k :: k in newErrors ==> newErrors[k] == ValidateField(rules, k, ValueOf(values, k)).value
        invariant forall k :: k in ruleNames[..i] && FieldFails(rules, values, k) ==> k in newErrors
      {
        var name := ruleNames[i];
        var error := ValidateField(rules, name, ValueOf(values, name));
        if error.Some? && error.value != "" {
          newErrors := newErrors[name := error.value];
        }
        assert ruleNames[..i + 1] == ruleNames[..i] + [name];
        i := i + 1;
      }
      assert ruleNames[..i] == ruleNames;
      SameErrors(newErrors, rules, values);
      errors := newErrors;
      touched := map k | k in rules :: true;
      ok := |newErrors| == 0;
      if !ok {
        var k :| k in newErrors;
        assert k in rules && FieldFails(rules, values, k);
      }
    }

    /** reset */
    method Reset()
      requires Valid()
      modifies this
      ensures values == initialValues && errors == map[] && touched == map[]
      ensures Valid()
    {
      values := initialValues;
      errors := map[];
      touched := map[];
    }
  }

  // ---------------------------------------------------------------------
  // Properties of validateField

  /** A field without rules always passes. */
  lemma NoRulesNoError(rules: map<string, Rules>, name: string, value: string)
    requires name !in rules
    ensures ValidateField(rules, name, value) == None
  {
  }

  /** The five checks as a list, in their order: each is the message of a
      failure, or None when it passes. */
  function CheckOutcomes(r: Rules, value: string): seq<Option<string>> {
    [ if r.required && Trim(value) == "" then Some(RequiredMessage) else None,
      if LimitSet(r.minLength) && |value| < r.minLength.value then Some(MinLengthMessage(r.minLength.value)) else None,
      if LimitSet(r.maxLength) && |value| > r.maxLength.value then Some(MaxLengthMessage(r.maxLength.value)) else None,
      if r.pattern.Some? && !r.pattern.value(value) then Some(InvalidFormatMessage) else None ]
  }

  /** The first failure in a list of outcomes, else the final answer. */
  function FirstFailure(outcomes: seq<Option<string>>, final: Option<string>): (r: Option<string>)
    ensures r == final || exists i :: 0 <= i < |outcomes| && r == outcomes[i]
  {
    if outcomes == [] then final
    else if outcomes[0].Some? then outcomes[0]
    else
      var r := FirstFailure(outcomes[1..], final);
      assert r != final ==> exists i :: 0 <= i < |outcomes[1..]| && r == outcomes[1..][i];
      if r != final then
        var i :| 0 <= i < |outcomes[1..]| && r == outcomes[1..][i];
        assert r == outcomes[i + 1];
        r
      else r
  }

  /** The first check that fails decides the message; when all four pass,
      the custom check, if any, has the last word. */
  lemma ValidateFieldIsFirstFailure(rules: map<string, Rules>, name: string, value: string)
    requires name in rules
    ensures var r := rules[name];
      ValidateField(rules, name, value)
        == FirstFailure(CheckOutcomes(r, value), if r.custom.Some? then r.custom.value(value) else None)
  {
    var r := rules[name];
    var o := CheckOutcomes(r, value);
    var f := if r.custom.Some? then r.custom.value(value) else None;
    assert o[1..][1..][1..][1..] == [];
    assert FirstFailure(o[1..][1..][1..], f) == if o[3].Some? then o[3] else f;
    assert FirstFailure(o[1..][1..], f) == if o[2].Some? then o[2] else FirstFailure(o[1..][1..][1..], f);
    assert FirstFailure(o[1..], f) == if o[1].Some? then o[1] else FirstFailure(o[1..][1..], f);
  }

  /** A required field fails on an empty or blank value, before any other
      check. */
  lemma RequiredRejectsBlank(rules: map<string, Rules>, name: string, value: string)
    requires name in rules && rules[name].required && AllSpace(value)
    ensures ValidateField(rules, name, value) == Some(RequiredMessage)
  {
    TrimEmptyIff(value);
  }

  /** A length limit of 0 is no limit. */
  lemma ZeroLimitIsNoLimit(rules: map<string, Rules>, name: string, value: string)
    requires name in rules
    ensures ValidateField(rules[name := rules[name].(minLength := Some(0))], name, value)
      == ValidateField(rules[name := rules[name].(minLength := None)], name, value)
    ensures ValidateField(rules[name := rules[name].(maxLength := Some(0))], name, value)
      == ValidateField(rules[name := rules[name].(maxLength := None)], name, value)
  {
  }

  /** Past the four built-in checks the custom check's answer is the
      answer, even an empty message, which the hook then ignores. */
  lemma CustomHasLastWord(rules: map<string, Rules>, name: string, value: string)
    requires name in rules && rules[name].custom.Some?
    requires forall i :: 0 <= i < 4 ==> CheckOutcomes(rules[name], value)[i].None?
    ensures ValidateField(rules, name, value) == rules[name].custom.value(value)
  {
    assert CheckOutcomes(rules[name], value)[0].None?;
    assert CheckOutcomes(rules[name], value)[1].None?;
    assert CheckOutcomes(rules[name], value)[2].None?;
    assert CheckOutcomes(rules[name], value)[3].None?;
  }
}
