/** The request-body validator of the blog backend (`validate(data, rules)`): for every field that
    has a rule, in the order of the rules, it collects `{field, message}` errors; an empty list
    means the body is accepted. */
module Validate {
  import opened Wrappers
  import opened Strings

  /** A JavaScript value as it arrives in a parsed JSON request body. Numbers are integral. */
  datatype Value =
    | Undefined
    | Null
    | Bool(b: bool)
    | Num(n: int)
    | Str(s: string)
    | Arr(items: seq<Value>)
    | Obj(entries: seq<(string, Value)>)

  /** `typeof v` */
  function TypeOf(v: Value): string {
    match v
    case Undefined => "undefined"
    case Bool(_) => "boolean"
    case Num(_) => "number"
    case Str(_) => "string"
    case _ => "object"
  }

  /** `value === undefined || value === null || value === ''` */
  predicate IsBlank(v: Value) {
    v == Undefined || v == Value.Null || v == Str("")
  }

  /** A validation rule. An option left out of the rule is None; `required` left out is false.
      The regular expression and the custom callback are the caller's code: `pattern` is what
      `pattern.test` answers for a string, `custom` what the callback returns for a value. */
  datatype Rule = Rule(
    typeName: Option<string>,
    required: bool,
    minLength: Option<int>,
    maxLength: Option<int>,
    min: Option<int>,
    max: Option<int>,
    pattern: Option<string -> bool>,
    custom: Option<Value -> Value>)

  datatype ValidationError = ValidationError(field: string, message: string)

  /** The checks of a rule, in the order they run for a field. */
  datatype Check = Required | Type | MinLength | MaxLength | Pattern | Min | Max | Custom

  function Rank(c: Check): nat {
    match c
    case Required => 0
    case Type => 1
    case MinLength => 2
    case MaxLength => 3
    case Pattern => 4
    case Min => 5
    case Max => 6
    case Custom => 7
  }

  /** What a failed check reports, before it is worded: the type name, the bound or the text of the
      callback that the message quotes, if any. */
  datatype Detail = Plain | TypeName(name: string) | Bound(n: int) | Said(text: string)

  /** A failed check of a field. */
  datatype Issue = Issue(check: Check, field: string, detail: Detail)

  /** The message `validate` pushes for an issue. */
  function Message(i: Issue): string {
    var n := if i.detail.Bound? then i.detail.n else 0;
    match i.check
    case Required => i.field + " is required"
    case Type =>
      var t := if i.detail.TypeName? then i.detail.name else "";
      if t == "array" then i.field + " must be an array" else i.field + " must be a " + t
    case MinLength => i.field + " must be at least " + IntToString(n) + " characters"
    case MaxLength => i.field + " must be no more than " + IntToString(n) + " characters"
    case Pattern => i.field + " has an invalid format"
    case Min => i.field + " must be at least " + IntToString(n)
    case Max => i.field + " must be no more than " + IntToString(n)
    case Custom => if i.detail.Said? then i.detail.text else i.field + " is invalid"
  }

  function ErrorOf(i: Issue): ValidationError {
    ValidationError(i.field, Message(i))
  }

  /** `data[field]`: a key that is not there reads as undefined. */
  function Lookup(data: map<string, Value>, field: string): Value {
    if field in data then data[field] else Undefined
  }

  // ------------------------------------------------------------ the checks of one field

  function TypeIssues(field: string, v: Value, rule: Rule): seq<Issue> {
    if rule.typeName.Some? && rule.typeName.value != "" then
      var t := rule.typeName.value;
      if t == "array" && !v.Arr? then
        [Issue(Type, field, TypeName(t))]
      else if t != "array" && TypeOf(v) != t then
        [Issue(Type, field, TypeName(t))]
      else []
    else []
  }

  function StringIssues(field: string, v: Value, rule: Rule): seq<Issue> {
    if v.Str? then
      (if rule.minLength.Some? && |v.s| < rule.minLength.value then
         [Issue(MinLength, field, Bound(rule.minLength.value))]
       else [])
      + (if rule.maxLength.Some? && |v.s| > rule.maxLength.value then
           [Issue(MaxLength, field, Bound(rule.maxLength.value))]
         else [])
      + (if rule.pattern.Some? && !rule.pattern.value(v.s) then
           [Issue(Pattern, field, Plain)]
         else [])
    else []
  }

  function NumberIssues(field: string, v: Value, rule: Rule): seq<Issue> {
    if v.Num? then
      (if rule.min.Some? && v.n < rule.min.value then
         [Issue(Min, field, Bound(rule.min.value))]
       else [])
      + (if rule.max.Some? && v.n > rule.max.value then
           [Issue(Max, field, Bound(rule.max.value))]
         else [])
    else []
  }

  function CustomIssues(field: string, v: Value, rule: Rule): seq<Issue> {
    if rule.custom.Some? then
      var result := rule.custom.value(v);
      if result != Bool(true) then
        [Issue(Custom, field, if result.Str? then Said(result.s) else Plain)]
      else []
    else []
  }

  /** Everything reported for one field holding `v` under `rule`. */
  function FieldIssues(field: string, v: Value, rule: Rule): seq<Issue> {
    if rule.required && IsBlank(v) then
      [Issue(Required, field, Plain)]
    else if IsBlank(v) then
      []
    else
      TypeIssues(field, v, rule) + StringIssues(field, v, rule)
      + NumberIssues(field, v, rule) + CustomIssues(field, v, rule)
  }

  /** The issue lists in order, one after the other. */
  function Flatten(parts: seq<seq<Issue>>): seq<Issue> {
    if parts == [] then [] else Flatten(parts[..|parts| - 1]) + parts[|parts| - 1]
  }

  lemma {:induction false} FlattenAppend(p1: seq<seq<Issue>>, p2: seq<seq<Issue>>)
    ensures Flatten(p1 + p2) == Flatten(p1) + Flatten(p2)
    decreases |p2|
  {
    if p2 == [] {
      assert p1 + p2 == p1;
    } else {
      var init := p2[..|p2| - 1];
      assert (p1 + p2)[..|p1 + p2| - 1] == p1 + init;
      FlattenAppend(p1, init);
    }
  }

  /** The issues of each rule's field, in the order of `rules`. */
  function Parts(data: map<string, Value>, rules: seq<(string, Rule)>): (parts: seq<seq<Issue>>)
    ensures |parts| == |rules|
  {
    seq(|rules|, k requires 0 <= k < |rules| => FieldIssues(rules[k].0, Lookup(data, rules[k].0), rules[k].1))
  }

  /** Everything reported for `data`, rule by rule in the order of `rules`. */
  function AllIssues(data: map<string, Value>, rules: seq<(string, Rule)>): seq<Issue> {
    Flatten(Parts(data, rules))
  }

  function ErrorsOf(issues: seq<Issue>): (errors: seq<ValidationError>)
    ensures |errors| == |issues|
  {
    seq(|issues|, k requires 0 <= k < |issues| => ErrorOf(issues[k]))
  }

  lemma ErrorsOfAppend(a: seq<Issue>, b: seq<Issue>)
    ensures ErrorsOf(a + b) == ErrorsOf(a) + ErrorsOf(b)
  {
  }

  /** The errors `validate(data, rules)` returns; each names a key of `rules`. */
  function Errors(data: map<string, Value>, rules: seq<(string, Rule)>): (errors: seq<ValidationError>)
    ensures forall e :: e in errors ==> e.field in Fields(rules)
  {
    AllIssuesFields(data, rules);
    ErrorsOf(AllIssues(data, rules))
  }

  // ------------------------------------------------------------ the loop of validate.ts

  /** `errors.push(e)`, keeping the record of which check reported it. */
  method Push(errors: seq<ValidationError>, ghost issues: seq<Issue>, e: ValidationError, ghost issue: Issue)
    returns (errors': seq<ValidationError>, ghost issues': seq<Issue>)
    requires errors == ErrorsOf(issues) && e == ErrorOf(issue)
    ensures issues' == issues + [issue]
    ensures errors' == errors + [e] == ErrorsOf(issues')
  {
    errors', issues' := errors + [e], issues + [issue];
    ErrorsOfAppend(issues, [issue]);
  }

  /** The type check of one field. */
  method CheckType(field: string, value: Value, rule: Rule, errors: seq<ValidationError>, ghost issues: seq<Issue>)
    returns (errors': seq<ValidationError>, ghost issues': seq<Issue>)
    requires errors == ErrorsOf(issues)
    ensures issues' == issues + TypeIssues(field, value, rule) && errors' == ErrorsOf(issues')
  {
    errors', issues' := errors, issues;
    if rule.typeName.Some? && rule.typeName.value != "" {
      var t := rule.typeName.value;
      if t == "array" && !value.Arr? {
        var e := ValidationError(field, field + " must be an array");
        errors', issues' := Push(errors', issues', e, Issue(Type, field, TypeName(t)));
      } else if t != "array" && TypeOf(value) != t {
        var e := ValidationError(field, field + " must be a " + t);
        errors', issues' := Push(errors', issues', e, Issue(Type, field, TypeName(t)));
      }
    }
  }

  /** The length and pattern checks of a string value. */
  method CheckString(field: string, value: Value, rule: Rule, errors: seq<ValidationError>, ghost issues: seq<Issue>)
    returns (errors': seq<ValidationError>, ghost issues': seq<Issue>)
    requires errors == ErrorsOf(issues)
    ensures issues' == issues + StringIssues(field, value, rule) && errors' == ErrorsOf(issues')
  {
    errors', issues' := errors, issues;
    if value.Str? {
      if rule.minLength.Some? && |value.s| < rule.minLength.value {
        var e := ValidationError(field, field + " must be at least " + IntToString(rule.minLength.value) + " characters");
        MinLengthWording(field, rule.minLength.value);
        errors', issues' := Push(errors', issues', e, Issue(MinLength, field, Bound(rule.minLength.value)));
      }
      if rule.maxLength.Some? && |value.s| > rule.maxLength.value {
        var e := ValidationError(field, field + " must be no more than " + IntToString(rule.maxLength.value) + " characters");
        MaxLengthWording(field, rule.maxLength.value);
        errors', issues' := Push(errors', issues', e, Issue(MaxLength, field, Bound(rule.maxLength.value)));
      }
      if rule.pattern.Some? && !rule.pattern.value(value.s) {
        var e := ValidationError(field, field + " has an invalid format");
        errors', issues' := Push(errors', issues', e, Issue(Pattern, field, Plain));
      }
    }
  }

  lemma MinLengthWording(field: string, n: int)
    ensures ErrorOf(Issue(MinLength, field, Bound(n))) == ValidationError(field, field + " must be at least " + IntToString(n) + " characters")
  {
  }

  lemma MaxLengthWording(field: string, n: int)
    ensures ErrorOf(Issue(MaxLength, field, Bound(n))) == ValidationError(field, field + " must be no more than " + IntToString(n) + " characters")
  {
  }

  /** The range checks of a number value. */
  method CheckNumber(field: string, value: Value, rule: Rule, errors: seq<ValidationError>, ghost issues: seq<Issue>)
    returns (errors': seq<ValidationError>, ghost issues': seq<Issue>)
    requires errors == ErrorsOf(issues)
    ensures issues' == issues + NumberIssues(field, value, rule) && errors' == ErrorsOf(issues')
  {
    errors', issues' := errors, issues;
    if value.Num? {
      if rule.min.Some? && value.n < rule.min.value {
        var e := ValidationError(field, field + " must be at least " + IntToString(rule.min.value));
        errors', issues' := Push(errors', issues', e, Issue(Min, field, Bound(rule.min.value)));
      }
      if rule.max.Some? && value.n > rule.max.value {
        var e := ValidationError(field, field + " must be no more than " + IntToString(rule.max.value));
        errors', issues' := Push(errors', issues', e, Issue(Max, field, Bound(rule.max.value)));
      }
    }
  }

  /** The custom callback of a rule. */
  method CheckCustom(field: string, value: Value, rule: Rule, errors: seq<ValidationError>, ghost issues: seq<Issue>)
    returns (errors': seq<ValidationError>, ghost issues': seq<Issue>)
    requires errors == ErrorsOf(issues)
    ensures issues' == issues + CustomIssues(field, value, rule) && errors' == ErrorsOf(issues')
  {
    errors', issues' := errors, issues;
    if rule.custom.Some? {
      var result := rule.custom.value(value);
      if result != Bool(true) {
        var e := ValidationError(field, if result.Str? then result.s else field + " is invalid");
        errors', issues' := Push(errors', issues', e, Issue(Custom, field, if result.Str? then Said(result.s) else Plain));
      }
    }
  }

  /** The body of the loop for one field: the required check, then, for a present value, the other
      checks in order. */
  method CheckField(field: string, value: Value, rule: Rule, errors: seq<ValidationError>, ghost issues: seq<Issue>)
    returns (errors': seq<ValidationError>, ghost issues': seq<Issue>)
    requires errors == ErrorsOf(issues)
    ensures issues' == issues + FieldIssues(field, value, rule) && errors' == ErrorsOf(issues')
  {
    if rule.required && IsBlank(value) {
      var e := ValidationError(field, field + " is required");
      errors', issues' := Push(errors, issues, e, Issue(Required, field, Plain));
    } else if IsBlank(value) {
      errors', issues' := errors, issues;
      assert issues' == issues + [];
    } else {
      errors', issues' := CheckPresent(field, value, rule, errors, issues);
    }
  }

  /** The checks of a present value, one after the other. */
  method CheckPresent(field: string, value: Value, rule: Rule, errors: seq<ValidationError>, ghost issues: seq<Issue>)
    returns (errors': seq<ValidationError>, ghost issues': seq<Issue>)
    requires errors == ErrorsOf(issues)
    ensures issues' == issues + (TypeIssues(field, value, rule) + StringIssues(field, value, rule)
                                 + NumberIssues(field, value, rule) + CustomIssues(field, value, rule))
    ensures errors' == ErrorsOf(issues')
  {
    ghost var t, s, n, c := TypeIssues(field, value, rule), StringIssues(field, value, rule),
                            NumberIssues(field, value, rule), CustomIssues(field, value, rule);
    errors', issues' := CheckType(field, value, rule, errors, issues);
    errors', issues' := CheckString(field, value, rule, errors', issues');
    errors', issues' := CheckNumber(field, value, rule, errors', issues');
    errors', issues' := CheckCustom(field, value, rule, errors', issues');
    assert issues + t + s + n + c == issues + (t + s + n + c);
  }

  /** `validate(data, rules)`: the loop over the rules that pushes errors as the checks fail. */
  method Validate(data: map<string, Value>, rules: seq<(string, Rule)>) returns (errors: seq<ValidationError>)
    ensures errors == Errors(data, rules)
  {
    errors := [];
    ghost var issues: seq<Issue> := [];
    var i := 0;
    while i < |rules|
      invariant 0 <= i <= |rules|
      invariant issues == AllIssues(data, rules[..i])
      invariant errors == ErrorsOf(issues)
    {
      var field := rules[i].0;
      var rule := rules[i].1;
      var value := Lookup(data, field);
      assert rules[..i + 1] == rules[..i] + [rules[i]];
      AllIssuesSnoc(data, rules[..i], rules[i]);
      errors, issues := CheckField(field, value, rule, errors, issues);
      i := i + 1;
    }
    assert rules[..|rules|] == rules;
  }

  // ------------------------------------------------------------ what the errors mean

  /** The rule keys. */
  function Fields(rules: seq<(string, Rule)>): set<string> {
    set k | 0 <= k < |rules| :: rules[k].0
  }

  /** An independent statement of when a single field passes its rule. */
  predicate Accepts(v: Value, rule: Rule) {
    if IsBlank(v) then !rule.required
    else
      (rule.typeName.None? || rule.typeName.value == ""
       || (if rule.typeName.value == "array" then v.Arr? else TypeOf(v) == rule.typeName.value))
      && (v.Str? ==>
            (rule.minLength.None? || rule.minLength.value <= |v.s|)
            && (rule.maxLength.None? || |v.s| <= rule.maxLength.value)
            && (rule.pattern.None? || rule.pattern.value(v.s)))
      && (v.Num? ==>
            (rule.min.None? || rule.min.value <= v.n)
            && (rule.max.None? || v.n <= rule.max.value))
      && (rule.custom.None? || rule.custom.value(v) == Bool(true))
  }

  /** One field reports nothing exactly when it passes its rule. */
  lemma FieldIssuesEmpty(field: string, v: Value, rule: Rule)
    ensures FieldIssues(field, v, rule) == [] <==> Accepts(v, rule)
  {
  }

  /** Adding a rule at the end adds its field's issues at the end. */
  lemma AllIssuesSnoc(data: map<string, Value>, rules: seq<(string, Rule)>, x: (string, Rule))
    ensures AllIssues(data, rules + [x]) == AllIssues(data, rules) + FieldIssues(x.0, Lookup(data, x.0), x.1)
  {
    var p := Parts(data, rules + [x]);
    assert p[..|rules|] == Parts(data, rules);
  }

  /** The issues of a non-empty rule list: those of all but the last rule, then the last rule's. */
  lemma AllIssuesLast(data: map<string, Value>, rules: seq<(string, Rule)>)
    requires rules != []
    ensures AllIssues(data, rules)
            == AllIssues(data, rules[..|rules| - 1])
               + FieldIssues(rules[|rules| - 1].0, Lookup(data, rules[|rules| - 1].0), rules[|rules| - 1].1)
  {
    assert rules == rules[..|rules| - 1] + [rules[|rules| - 1]];
    AllIssuesSnoc(data, rules[..|rules| - 1], rules[|rules| - 1]);
  }

  /** The issues of a concatenation of rule lists are the issues of each, in order. */
  lemma AllIssuesAppend(data: map<string, Value>, r1: seq<(string, Rule)>, r2: seq<(string, Rule)>)
    ensures AllIssues(data, r1 + r2) == AllIssues(data, r1) + AllIssues(data, r2)
  {
    var p, p1, p2 := Parts(data, r1 + r2), Parts(data, r1), Parts(data, r2);
    forall k | 0 <= k < |p|
      ensures p[k] == (p1 + p2)[k]
    {
      if k < |r1| {
        assert (r1 + r2)[k] == r1[k];
      } else {
        assert (r1 + r2)[k] == r2[k - |r1|];
      }
    }
    assert p == p1 + p2;
    FlattenAppend(p1, p2);
  }

  /** Rule-iteration order: the errors of the rules `r1 + r2` are those of `r1` followed by those of `r2`. */
  lemma ErrorsAppend(data: map<string, Value>, r1: seq<(string, Rule)>, r2: seq<(string, Rule)>)
    ensures Errors(data, r1 + r2) == Errors(data, r1) + Errors(data, r2)
  {
    AllIssuesAppend(data, r1, r2);
    ErrorsOfAppend(AllIssues(data, r1), AllIssues(data, r2));
  }

  /** The errors of the rule at index `k` sit, in order, between those of the rules before and after it. */
  lemma ErrorsAt(data: map<string, Value>, rules: seq<(string, Rule)>, k: nat)
    requires k < |rules|
    ensures Errors(data, rules)
            == Errors(data, rules[..k])
               + ErrorsOf(FieldIssues(rules[k].0, Lookup(data, rules[k].0), rules[k].1))
               + Errors(data, rules[k + 1..])
  {
    assert rules == rules[..k] + [rules[k]] + rules[k + 1..];
    ErrorsAppend(data, rules[..k] + [rules[k]], rules[k + 1..]);
    ErrorsAppend(data, rules[..k], [rules[k]]);
    SingleRuleErrors(data, rules[k]);
  }

  lemma SingleRuleErrors(data: map<string, Value>, x: (string, Rule))
    ensures Errors(data, [x]) == ErrorsOf(FieldIssues(x.0, Lookup(data, x.0), x.1))
  {
    assert Parts(data, []) == [];
    assert [] + [x] == [x];
    AllIssuesSnoc(data, [], x);
  }

  /** `validate` returns no errors exactly when every field passes its rule: the meaning of
      "no errors" that its callers rely on. */
  lemma {:induction false} ErrorsEmpty(data: map<string, Value>, rules: seq<(string, Rule)>)
    ensures Errors(data, rules) == []
            <==> forall k :: 0 <= k < |rules| ==> Accepts(Lookup(data, rules[k].0), rules[k].1)
  {
    if rules != [] {
      var n := |rules| - 1;
      var init := rules[..n];
      AllIssuesLast(data, rules);
      ErrorsEmpty(data, init);
      FieldIssuesEmpty(rules[n].0, Lookup(data, rules[n].0), rules[n].1);
      ErrorsOfAppend(AllIssues(data, init), FieldIssues(rules[n].0, Lookup(data, rules[n].0), rules[n].1));
      assert forall k :: 0 <= k < n ==> init[k] == rules[k];
    }
  }

  /** Every issue of `AllIssues` names one of the rule keys. */
  lemma {:induction false} AllIssuesFields(data: map<string, Value>, rules: seq<(string, Rule)>)
    ensures forall k :: 0 <= k < |AllIssues(data, rules)| ==> AllIssues(data, rules)[k].field in Fields(rules)
  {
    if rules != [] {
      var n := |rules| - 1;
      var f := FieldIssues(rules[n].0, Lookup(data, rules[n].0), rules[n].1);
      AllIssuesLast(data, rules);
      FieldIssuesField(rules[n].0, Lookup(data, rules[n].0), rules[n].1);
      AllIssuesFields(data, rules[..n]);
      assert Fields(rules[..n]) <= Fields(rules) by {
        forall f | f in Fields(rules[..n]) ensures f in Fields(rules) {
          var k :| 0 <= k < n && rules[..n][k].0 == f;
          assert rules[k].0 == f;
        }
      }
      assert rules[n].0 in Fields(rules);
    }
  }

  lemma FieldIssuesField(field: string, v: Value, rule: Rule)
    ensures forall k :: 0 <= k < |FieldIssues(field, v, rule)| ==> FieldIssues(field, v, rule)[k].field == field
  {
    var t, st, nu, c := TypeIssues(field, v, rule), StringIssues(field, v, rule), NumberIssues(field, v, rule), CustomIssues(field, v, rule);
    assert forall k :: 0 <= k < |t| ==> t[k].field == field;
    assert forall k :: 0 <= k < |st| ==> st[k].field == field;
    assert forall k :: 0 <= k < |nu| ==> nu[k].field == field;
    assert forall k :: 0 <= k < |c| ==> c[k].field == field;
  }

  /** Only the keys of `rules` are read: two bodies that agree on them get the same errors, so keys
      outside the rules never produce errors. */
  lemma {:induction false} ErrorsReadOnlyRuleKeys(d1: map<string, Value>, d2: map<string, Value>, rules: seq<(string, Rule)>)
    requires forall f :: f in Fields(rules) ==> Lookup(d1, f) == Lookup(d2, f)
    ensures Errors(d1, rules) == Errors(d2, rules)
  {
    AllIssuesReadOnlyRuleKeys(d1, d2, rules);
  }

  lemma {:induction false} AllIssuesReadOnlyRuleKeys(d1: map<string, Value>, d2: map<string, Value>, rules: seq<(string, Rule)>)
    requires forall f :: f in Fields(rules) ==> Lookup(d1, f) == Lookup(d2, f)
    ensures AllIssues(d1, rules) == AllIssues(d2, rules)
  {
    if rules != [] {
      var n := |rules| - 1;
      forall f | f in Fields(rules[..n]) ensures Lookup(d1, f) == Lookup(d2, f) {
        var k :| 0 <= k < n && rules[..n][k].0 == f;
        assert rules[k].0 == f;
      }
      AllIssuesReadOnlyRuleKeys(d1, d2, rules[..n]);
      AllIssuesLast(d1, rules);
      AllIssuesLast(d2, rules);
      assert rules[n].0 in Fields(rules);
    }
  }

  /** A required field that is undefined, null or `''` reports exactly "<field> is required" and
      nothing else. */
  lemma RequiredBlank(data: map<string, Value>, rules: seq<(string, Rule)>, k: nat)
    requires k < |rules| && rules[k].1.required && IsBlank(Lookup(data, rules[k].0))
    ensures Errors(data, rules)
            == Errors(data, rules[..k]) + [ValidationError(rules[k].0, rules[k].0 + " is required")]
               + Errors(data, rules[k + 1..])
  {
    ErrorsAt(data, rules, k);
  }

  /** A field that is not required and is undefined, null or `''` reports nothing. */
  lemma OptionalBlank(data: map<string, Value>, rules: seq<(string, Rule)>, k: nat)
    requires k < |rules| && !rules[k].1.required && IsBlank(Lookup(data, rules[k].0))
    ensures Errors(data, rules) == Errors(data, rules[..k]) + Errors(data, rules[k + 1..])
  {
    ErrorsAt(data, rules, k);
  }

  /** For a present value, a type mismatch reports "must be an array" or "must be a <type>" and
      checking goes on: the other checks report what they would report with no type at all. */
  lemma TypeMismatch(field: string, v: Value, rule: Rule)
    requires !IsBlank(v) && rule.typeName.Some? && rule.typeName.value != ""
    requires if rule.typeName.value == "array" then !v.Arr? else TypeOf(v) != rule.typeName.value
    ensures FieldIssues(field, v, rule) == [Issue(Type, field, TypeName(rule.typeName.value))] + FieldIssues(field, v, rule.(typeName := None))
    ensures ErrorOf(Issue(Type, field, TypeName(rule.typeName.value)))
            == ValidationError(field, if rule.typeName.value == "array" then field + " must be an array"
                                      else field + " must be a " + rule.typeName.value)
  {
    var r := rule.(typeName := None);
    var t, s, n, c := TypeIssues(field, v, rule), StringIssues(field, v, rule), NumberIssues(field, v, rule), CustomIssues(field, v, rule);
    ChecksIgnoreType(field, v, rule);
    assert TypeIssues(field, v, r) == [];
    assert FieldIssues(field, v, rule) == t + s + n + c;
    assert FieldIssues(field, v, r) == [] + s + n + c;
    assert t + s + n + c == t + ([] + s + n + c);
  }

  /** The checks after the type check do not read the rule's type. */
  lemma ChecksIgnoreType(field: string, v: Value, rule: Rule)
    ensures StringIssues(field, v, rule.(typeName := None)) == StringIssues(field, v, rule)
    ensures NumberIssues(field, v, rule.(typeName := None)) == NumberIssues(field, v, rule)
    ensures CustomIssues(field, v, rule.(typeName := None)) == CustomIssues(field, v, rule)
  {
  }

  /** The position of `c` among the reported checks. */
  predicate Reports(issues: seq<Issue>, c: Check) {
    exists k :: 0 <= k < |issues| && issues[k].check == c
  }

  /** For a string, a minLength error appears iff it is shorter than minLength and a maxLength error
      iff it is longer than maxLength. */
  lemma StringLengthChecks(field: string, s: string, rule: Rule)
    requires s != ""
    ensures Reports(FieldIssues(field, Str(s), rule), MinLength)
            <==> rule.minLength.Some? && |s| < rule.minLength.value
    ensures Reports(FieldIssues(field, Str(s), rule), MaxLength)
            <==> rule.maxLength.Some? && |s| > rule.maxLength.value
    ensures Reports(FieldIssues(field, Str(s), rule), Pattern)
            <==> rule.pattern.Some? && !rule.pattern.value(s)
  {
    var v := Str(s);
    var t := TypeIssues(field, v, rule);
    var lo := if rule.minLength.Some? && |s| < rule.minLength.value then
                [Issue(MinLength, field, Bound(rule.minLength.value))]
              else [];
    var hi := if rule.maxLength.Some? && |s| > rule.maxLength.value then
                [Issue(MaxLength, field, Bound(rule.maxLength.value))]
              else [];
    var pa := if rule.pattern.Some? && !rule.pattern.value(s) then
                [Issue(Pattern, field, Plain)]
              else [];
    var c := CustomIssues(field, v, rule);
    assert StringIssues(field, v, rule) == lo + hi + pa;
    assert NumberIssues(field, v, rule) == [];
    assert FieldIssues(field, v, rule) == t + (lo + hi + pa) + [] + c;
    assert !Reports(t, MinLength) && !Reports(t, MaxLength) && !Reports(t, Pattern);
    assert !Reports(c, MinLength) && !Reports(c, MaxLength) && !Reports(c, Pattern);
    assert !Reports([], MinLength) && !Reports([], MaxLength) && !Reports([], Pattern);
    if lo != [] { assert lo[0].check == MinLength; }
    if hi != [] { assert hi[0].check == MaxLength; }
    if pa != [] { assert pa[0].check == Pattern; }
    assert !Reports(lo, MaxLength) && !Reports(lo, Pattern);
    assert !Reports(hi, MinLength) && !Reports(hi, Pattern);
    assert !Reports(pa, MinLength) && !Reports(pa, MaxLength);
    ReportsAppend(lo, hi, MinLength);
    ReportsAppend(lo + hi, pa, MinLength);
    ReportsAppend(t, lo + hi + pa, MinLength);
    ReportsAppend(t + (lo + hi + pa), [], MinLength);
    ReportsAppend(t + (lo + hi + pa) + [], c, MinLength);
    ReportsAppend(lo, hi, MaxLength);
    ReportsAppend(lo + hi, pa, MaxLength);
    ReportsAppend(t, lo + hi + pa, MaxLength);
    ReportsAppend(t + (lo + hi + pa), [], MaxLength);
    ReportsAppend(t + (lo + hi + pa) + [], c, MaxLength);
    ReportsAppend(lo, hi, Pattern);
    ReportsAppend(lo + hi, pa, Pattern);
    ReportsAppend(t, lo + hi + pa, Pattern);
    ReportsAppend(t + (lo + hi + pa), [], Pattern);
    ReportsAppend(t + (lo + hi + pa) + [], c, Pattern);
  }

  lemma ReportsAppend(a: seq<Issue>, b: seq<Issue>, c: Check)
    ensures Reports(a + b, c) <==> Reports(a, c) || Reports(b, c)
  {
    if Reports(a + b, c) {
      var k :| 0 <= k < |a + b| && (a + b)[k].check == c;
      if k >= |a| {
        assert b[k - |a|].check == c;
      }
    }
    if Reports(b, c) {
      var k :| 0 <= k < |b| && b[k].check == c;
      assert (a + b)[|a| + k].check == c;
    }
    if Reports(a, c) {
      var k :| 0 <= k < |a| && a[k].check == c;
      assert (a + b)[k].check == c;
    }
  }

  /** For a number, a min error appears iff it is below min and a max error iff it is above max. */
  lemma NumberRangeChecks(field: string, n: int, rule: Rule)
    ensures Reports(FieldIssues(field, Num(n), rule), Min) <==> rule.min.Some? && n < rule.min.value
    ensures Reports(FieldIssues(field, Num(n), rule), Max) <==> rule.max.Some? && n > rule.max.value
  {
    var v := Num(n);
    var t := TypeIssues(field, v, rule);
    var lo := if rule.min.Some? && n < rule.min.value then
                [Issue(Min, field, Bound(rule.min.value))]
              else [];
    var hi := if rule.max.Some? && n > rule.max.value then
                [Issue(Max, field, Bound(rule.max.value))]
              else [];
    var c := CustomIssues(field, v, rule);
    assert NumberIssues(field, v, rule) == lo + hi;
    assert StringIssues(field, v, rule) == [];
    assert FieldIssues(field, v, rule) == t + [] + (lo + hi) + c;
    assert !Reports(t, Min) && !Reports(t, Max) && !Reports(c, Min) && !Reports(c, Max);
    assert !Reports([], Min) && !Reports([], Max);
    assert !Reports(lo, Max) && !Reports(hi, Min);
    if lo != [] { assert lo[0].check == Min; }
    if hi != [] { assert hi[0].check == Max; }
    ReportsAppend(lo, hi, Min);
    ReportsAppend(t, [], Min);
    ReportsAppend(t + [], lo + hi, Min);
    ReportsAppend(t + [] + (lo + hi), c, Min);
    ReportsAppend(lo, hi, Max);
    ReportsAppend(t, [], Max);
    ReportsAppend(t + [], lo + hi, Max);
    ReportsAppend(t + [] + (lo + hi), c, Max);
  }

  /** For a present value, the custom callback reports iff its result is not exactly `true`, as the
      last issue of the field, with the result as message when it is a string and
      "<field> is invalid" otherwise. */
  lemma CustomCheck(field: string, v: Value, rule: Rule)
    requires !IsBlank(v)
    ensures Reports(FieldIssues(field, v, rule), Custom) <==> rule.custom.Some? && rule.custom.value(v) != Bool(true)
    ensures rule.custom.Some? && rule.custom.value(v) != Bool(true) ==>
              var fi := FieldIssues(field, v, rule);
              var result := rule.custom.value(v);
              fi[|fi| - 1].check == Custom
              && ErrorOf(fi[|fi| - 1]) == ValidationError(field, if result.Str? then result.s else field + " is invalid")
  {
    var rest := TypeIssues(field, v, rule) + StringIssues(field, v, rule) + NumberIssues(field, v, rule);
    var c := CustomIssues(field, v, rule);
    assert FieldIssues(field, v, rule) == rest + c;
    var t, st, nu := TypeIssues(field, v, rule), StringIssues(field, v, rule), NumberIssues(field, v, rule);
    assert forall k :: 0 <= k < |t| ==> t[k].check == Type;
    assert forall k :: 0 <= k < |st| ==> st[k].check != Custom;
    assert forall k :: 0 <= k < |nu| ==> nu[k].check != Custom;
    ReportsAppend(t, st, Custom);
    ReportsAppend(t + st, nu, Custom);
    ReportsAppend(rest, c, Custom);
    if c != [] { assert c[0].check == Custom; }
  }

  /** Every issue of `a` comes from a check that runs before every check of `b`. */
  predicate RanksBelow(a: seq<Issue>, b: seq<Issue>) {
    forall i, j :: 0 <= i < |a| && 0 <= j < |b| ==> Rank(a[i].check) < Rank(b[j].check)
  }

  /** The checks that reported come in the order in which they run. */
  predicate Ascending(issues: seq<Issue>) {
    forall i, j :: 0 <= i < j < |issues| ==> Rank(issues[i].check) < Rank(issues[j].check)
  }

  lemma AscendingAppend(a: seq<Issue>, b: seq<Issue>)
    requires Ascending(a) && Ascending(b) && RanksBelow(a, b)
    ensures Ascending(a + b)
  {
    forall i, j | 0 <= i < j < |a + b| ensures Rank((a + b)[i].check) < Rank((a + b)[j].check) {
      if j < |a| {
      } else if i < |a| {
        assert (a + b)[j] == b[j - |a|];
      } else {
        assert (a + b)[i] == b[i - |a|] && (a + b)[j] == b[j - |a|];
      }
    }
  }

  lemma StringIssuesAscending(field: string, v: Value, rule: Rule)
    ensures Ascending(StringIssues(field, v, rule))
    ensures forall k :: 0 <= k < |StringIssues(field, v, rule)| ==> 2 <= Rank(StringIssues(field, v, rule)[k].check) <= 4
  {
    if v.Str? {
      var lo := if rule.minLength.Some? && |v.s| < rule.minLength.value then [Issue(MinLength, field, Bound(rule.minLength.value))] else [];
      var hi := if rule.maxLength.Some? && |v.s| > rule.maxLength.value then [Issue(MaxLength, field, Bound(rule.maxLength.value))] else [];
      var pa := if rule.pattern.Some? && !rule.pattern.value(v.s) then [Issue(Pattern, field, Plain)] else [];
      ThreeAscending(lo, hi, pa);
      assert StringIssues(field, v, rule) == lo + hi + pa;
    }
  }

  /** At most one issue of each of three checks that run in that order come out in that order. */
  lemma ThreeAscending(lo: seq<Issue>, hi: seq<Issue>, pa: seq<Issue>)
    requires |lo| <= 1 && |hi| <= 1 && |pa| <= 1
    requires forall k :: 0 <= k < |lo| ==> lo[k].check == MinLength
    requires forall k :: 0 <= k < |hi| ==> hi[k].check == MaxLength
    requires forall k :: 0 <= k < |pa| ==> pa[k].check == Pattern
    ensures Ascending(lo + hi + pa)
    ensures forall k :: 0 <= k < |lo + hi + pa| ==> 2 <= Rank((lo + hi + pa)[k].check) <= 4
  {
    AscendingAppend(lo, hi);
    assert RanksBelow(lo + hi, pa) by {
      forall i, j | 0 <= i < |lo + hi| && 0 <= j < |pa| ensures Rank((lo + hi)[i].check) < Rank(pa[j].check) {
        if i >= |lo| { assert (lo + hi)[i] == hi[i - |lo|]; }
      }
    }
    AscendingAppend(lo + hi, pa);
    forall k | 0 <= k < |lo + hi + pa| ensures 2 <= Rank((lo + hi + pa)[k].check) <= 4 {
      if k < |lo| {
        assert (lo + hi + pa)[k] == lo[k];
      } else if k < |lo| + |hi| {
        assert (lo + hi + pa)[k] == hi[k - |lo|];
      } else {
        assert (lo + hi + pa)[k] == pa[k - |lo| - |hi|];
      }
    }
  }

  lemma NumberIssuesAscending(field: string, v: Value, rule: Rule)
    ensures Ascending(NumberIssues(field, v, rule))
    ensures forall k :: 0 <= k < |NumberIssues(field, v, rule)| ==> 5 <= Rank(NumberIssues(field, v, rule)[k].check) <= 6
  {
    if v.Num? {
      var lo := if rule.min.Some? && v.n < rule.min.value then
                  [Issue(Min, field, Bound(rule.min.value))]
                else [];
      var hi := if rule.max.Some? && v.n > rule.max.value then
                  [Issue(Max, field, Bound(rule.max.value))]
                else [];
      assert NumberIssues(field, v, rule) == lo + hi;
      AscendingAppend(lo, hi);
    }
  }

  /** Within a field the errors come in the order type, minLength, maxLength, pattern, min, max,
      custom. */
  lemma FieldIssuesAscending(field: string, v: Value, rule: Rule)
    ensures Ascending(FieldIssues(field, v, rule))
  {
    if !IsBlank(v) {
      var t, st, nu, c := TypeIssues(field, v, rule), StringIssues(field, v, rule), NumberIssues(field, v, rule), CustomIssues(field, v, rule);
      assert FieldIssues(field, v, rule) == t + st + nu + c;
      assert forall k :: 0 <= k < |t| ==> Rank(t[k].check) == 1;
      assert forall k :: 0 <= k < |c| ==> Rank(c[k].check) == 7;
      StringIssuesAscending(field, v, rule);
      NumberIssuesAscending(field, v, rule);
      AscendingAppend(t, st);
      assert forall i :: 0 <= i < |t + st| ==> Rank((t + st)[i].check) <= 4 by {
        forall i | 0 <= i < |t + st| ensures Rank((t + st)[i].check) <= 4 {
          if i >= |t| { assert (t + st)[i] == st[i - |t|]; }
        }
      }
      assert RanksBelow(t + st, nu);
      AscendingAppend(t + st, nu);
      assert forall i :: 0 <= i < |t + st + nu| ==> Rank((t + st + nu)[i].check) <= 6 by {
        forall i | 0 <= i < |t + st + nu| ensures Rank((t + st + nu)[i].check) <= 6 {
          if i >= |t + st| { assert (t + st + nu)[i] == nu[i - |t + st|]; }
        }
      }
      assert RanksBelow(t + st + nu, c);
      AscendingAppend(t + st + nu, c);
    }
  }

  // ------------------------------------------------------------ the rule of the tag endpoints

  /** `{ name: { type: 'string', required: true, minLength: 1 } }` */
  function TagNameRules(): seq<(string, Rule)> {
    [("name", Rule(Some("string"), true, Some(1), None, None, None, None, None))]
  }

  /** Under the tag endpoints' rule a body is accepted exactly when its name is a non-empty string,
      and a missing or empty name is answered with "name is required" alone. */
  lemma TagNameAccepted(name: Value)
    ensures Errors(map["name" := name], TagNameRules()) == [] <==> name.Str? && |name.s| >= 1
    ensures IsBlank(name) ==> Errors(map["name" := name], TagNameRules()) == [ValidationError("name", "name is required")]
  {
    var data := map["name" := name];
    ErrorsEmpty(data, TagNameRules());
    SingleRuleErrors(data, TagNameRules()[0]);
    if IsBlank(name) {
      var fi := FieldIssues("name", name, TagNameRules()[0].1);
      assert "name" + " is required" == "name is required";
      assert fi == [Issue(Required, "name", Plain)];
      assert ErrorsOf(fi) == [ErrorOf(fi[0])];
    }
  }
}
