/** The rule engine that turns request data and per-field rule lists into accumulated error
    messages, the input sanitiser and the session CSRF token. */
module Validation {
  import opened Common
  import opened Db
  import Security

  /** The checks this engine delegates to PHP and the database: `filter_var` for e-mail
      addresses and URLs, `strtotime`, `is_numeric`, the `(float)` cast and the
      `SELECT COUNT(*) FROM table WHERE column = ?` of the `unique` rule. */
  datatype Checks = Checks(
    isEmail: Value -> bool,
    isUrl: Value -> bool,
    parseTime: Value -> Option<int>,
    isNumeric: Value -> bool,
    toReal: Value -> real,
    recordExists: (string, string, Value) -> bool)

  /** A rule as `validateField` hands it to `applyRule`: a bare name, or a name with its value.
      `Unrecognized` is a name that matches no case of the switch. */
  datatype Rule =
    | Required
    | Email
    | MinLength(n: int)
    | MaxLength(n: int)
    | Numeric
    | Min(bound: int)
    | Max(bound: int)
    | In(allowed: seq<string>)
    | Unique(table: string, column: string)
    | Datetime
    | Url
    | AlphaNumeric
    | NoScript
    | Unrecognized(name: string)

  /** `$data[$field] ?? null`. */
  function Lookup(data: map<string, Value>, field: string): Value
  {
    if field in data then data[field] else Null
  }

  const ScriptPatterns: seq<string> := ["<script", "javascript:", "onclick=", "onerror=", "onload=", "eval(", "expression("]

  /** `containsScript`: one of seven fragments occurs, ignoring ASCII case. */
  function ContainsScript(value: string): (r: bool)
    ensures r <==> exists i :: 0 <= i < |ScriptPatterns| && ContainsCI(value, ScriptPatterns[i])
  {
    AnyContainsCI(value, ScriptPatterns)
  }

  predicate IsAsciiAlnum(c: char)
  {
    'a' <= c <= 'z' || 'A' <= c <= 'Z' || '0' <= c <= '9'
  }

  predicate AllAlnum(s: string)
  {
    |s| > 0 && forall i :: 0 <= i < |s| ==> IsAsciiAlnum(s[i])
  }

  /** `preg_match('/^[a-zA-Z0-9]+$/', $s)`; `$` also matches before a final line feed. */
  predicate MatchesAlphaNumeric(s: string)
  {
    AllAlnum(s) || (|s| > 1 && s[|s| - 1] == '\n' && AllAlnum(s[..|s| - 1]))
  }

  /** The values `required` rejects: null, false and "" (so "0" and 0 count as given). */
  predicate IsMissing(v: Value)
  {
    IsEmpty(v) && v != Str("0") && v != Int(0)
  }

  /** What one rule reports about a value it inspects: the body of one case of `applyRule`
      without the emptiness guard the non-required cases put in front of it. */
  function RuleCheck(field: string, value: Value, rule: Rule, checks: Checks): Option<string>
  {
    var name := UcFirst(field);
    var text := ToText(value);
    match rule
    case Required => if IsMissing(value) then Some(name + " is required") else None
    case Email => if !checks.isEmail(value) then Some(name + " must be a valid email address") else None
    case MinLength(n) => if |text| < n then Some(name + " must be at least " + IntToString(n) + " characters") else None
    case MaxLength(n) => if |text| > n then Some(name + " must not exceed " + IntToString(n) + " characters") else None
    case Numeric => if !checks.isNumeric(value) then Some(name + " must be a number") else None
    case Min(bound) => if checks.toReal(value) < bound as real then Some(name + " must be at least " + IntToString(bound)) else None
    case Max(bound) => if checks.toReal(value) > bound as real then Some(name + " must not exceed " + IntToString(bound)) else None
    case In(allowed) => if text !in allowed then Some(name + " must be one of: " + Join(allowed, ", ")) else None
    case Unique(table, column) => if checks.recordExists(table, column, value) then Some(name + " already exists") else None
    case Datetime =>
      if checks.parseTime(value) == None || checks.parseTime(value) == Some(0) then Some(name + " must be a valid date and time") else None
    case Url => if !checks.isUrl(value) then Some(name + " must be a valid URL") else None
    case AlphaNumeric => if !MatchesAlphaNumeric(text) then Some(name + " must contain only letters and numbers") else None
    case NoScript => if ContainsScript(text) then Some(name + " contains invalid content") else None
    case Unrecognized(_) => None
  }

  /** `applyRule` as written: every rule but `required` is skipped when `empty($value)`,
      which also holds for "0" and 0, the values `required` accepts. */
  function RuleErrorAsWritten(field: string, value: Value, rule: Rule, checks: Checks): Option<string>
  {
    if !rule.Required? && IsEmpty(value) then None else RuleCheck(field, value, rule, checks)
  }

  /** `applyRule` as intended: a rule is skipped only for a value `required` would reject,
      so a "0" or 0 that passes `required` is still checked by the rest. */
  function RuleError(field: string, value: Value, rule: Rule, checks: Checks): Option<string>
  {
    if !rule.Required? && IsMissing(value) then None else RuleCheck(field, value, rule, checks)
  }

  /** Which emptiness guard `applyRule` applies: the one the code has, or the corrected one. */
  datatype Guard = AsWritten | Intended

  /** The values the rules other than `required` inspect under a guard. */
  predicate Inspected(g: Guard, value: Value)
  {
    if g.AsWritten? then !IsEmpty(value) else !IsMissing(value)
  }

  /** One rule's outcome under a guard. */
  function RuleOutcome(g: Guard, field: string, value: Value, rule: Rule, checks: Checks): (r: Option<string>)
    ensures g.AsWritten? ==> r == RuleErrorAsWritten(field, value, rule, checks)
    ensures g.Intended? ==> r == RuleError(field, value, rule, checks)
  {
    if g.AsWritten? then RuleErrorAsWritten(field, value, rule, checks) else RuleError(field, value, rule, checks)
  }

  /** The two agree on every value but "0" and 0. */
  lemma RuleErrorAgreesAwayFromZero(field: string, value: Value, rule: Rule, checks: Checks)
    requires value != Str("0") && value != Int(0)
    ensures RuleErrorAsWritten(field, value, rule, checks) == RuleError(field, value, rule, checks)
  {
  }

  /** As written, `['numeric', ['min', 18]]` lets an age of 0 through, and `['required', 'email']`
      lets the address "0" through; as intended both are rejected. */
  lemma ZeroSkipsRulesAsWritten(checks: Checks)
    requires checks.toReal(Int(0)) == 0.0 && !checks.isEmail(Str("0"))
    ensures RuleErrorAsWritten("age", Int(0), Min(18), checks) == None
    ensures RuleErrorAsWritten("email", Str("0"), Email, checks) == None
    ensures RuleErrorAsWritten("email", Str("0"), Required, checks) == None
    ensures RuleError("age", Int(0), Min(18), checks).Some?
    ensures RuleError("email", Str("0"), Email, checks).Some?
  {
  }

  function Messages(e: Option<string>): seq<string>
  {
    if e.Some? then [e.value] else []
  }

  /** The messages `validateField` adds: every rule applied in order, none skipped. */
  function FieldErrors(g: Guard, field: string, value: Value, rules: seq<Rule>, checks: Checks): seq<string>
    decreases |rules|
  {
    if rules == [] then []
    else FieldErrors(g, field, value, rules[..|rules| - 1], checks) + Messages(RuleOutcome(g, field, value, rules[|rules| - 1], checks))
  }

  /** The messages `validate` collects: every field of the rule set in order. */
  function RuleSetErrors(g: Guard, data: map<string, Value>, ruleSet: seq<(string, seq<Rule>)>, checks: Checks): seq<string>
    decreases |ruleSet|
  {
    if ruleSet == [] then []
    else
      var last := ruleSet[|ruleSet| - 1];
      RuleSetErrors(g, data, ruleSet[..|ruleSet| - 1], checks) + FieldErrors(g, last.0, Lookup(data, last.0), last.1, checks)
  }

  /** The validator; `g` selects the guard its `applyRule` uses. */
  class Validator {
    var errors: seq<string>

    constructor ()
      ensures errors == []
    {
      errors := [];
    }

    /** `validate`: earlier errors are discarded; the result says whether this call added none. */
    method Validate(g: Guard, data: map<string, Value>, ruleSet: seq<(string, seq<Rule>)>, checks: Checks) returns (valid: bool)
      modifies this
      ensures errors == RuleSetErrors(g, data, ruleSet, checks)
      ensures valid <==> errors == []
    {
      errors := [];
      var i := 0;
      while i < |ruleSet|
        invariant 0 <= i <= |ruleSet|
        invariant errors == RuleSetErrors(g, data, ruleSet[..i], checks)
      {
        ValidateField(g, ruleSet[i].0, Lookup(data, ruleSet[i].0), ruleSet[i].1, checks);
        RuleSetErrorsStep(g, data, ruleSet, i, checks);
        i := i + 1;
      }
      assert ruleSet[..i] == ruleSet;
      valid := errors == [];
    }

    /** `validateField`: each rule's message, if any, is appended in rule order. */
    method ValidateField(g: Guard, field: string, value: Value, rules: seq<Rule>, checks: Checks)
      modifies this
      ensures errors == old(errors) + FieldErrors(g, field, value, rules, checks)
    {
      var i := 0;
      while i < |rules|
        invariant 0 <= i <= |rules|
        invariant errors == old(errors) + FieldErrors(g, field, value, rules[..i], checks)
      {
        ghost var before := errors;
        ApplyRule(g, field, value, rules[i], checks);
        ErrorsAfterStep(g, old(errors), before, errors, field, value, rules, i, checks);
        i := i + 1;
      }
      assert rules[..i] == rules;
    }

    /** `applyRule`: at most one message appended. */
    method ApplyRule(g: Guard, field: string, value: Value, rule: Rule, checks: Checks)
      modifies this
      ensures errors == old(errors) + Messages(RuleOutcome(g, field, value, rule, checks))
    {
      var e := RuleOutcome(g, field, value, rule, checks);
      if e.Some? {
        errors := errors + [e.value];
      }
    }

    /** `getErrors`: every accumulated message. */
    function GetErrors(): (r: seq<string>)
      reads this
      ensures |r| == |errors| && forall i :: 0 <= i < |r| ==> r[i] == errors[i]
    {
      errors
    }

    /** `getFirstError`: the first accumulated message, or null when there is none. */
    function GetFirstError(): (r: Option<string>)
      reads this
      ensures r == None <==> errors == []
      ensures r.Some? ==> r.value == errors[0]
    {
      if errors == [] then None else Some(errors[0])
    }
  }

  /** `required` fails exactly on null, false and "" (so "0" and 0 pass), with the message
      "<Field> is required", under either guard. */
  lemma RequiredRule(g: Guard, field: string, value: Value, checks: Checks)
    ensures RuleOutcome(g, field, value, Required, checks).Some? <==> value == Null || value == Bool(false) || value == Str("")
    ensures RuleOutcome(g, field, value, Required, checks).Some? ==>
      RuleOutcome(g, field, value, Required, checks).value == UcFirst(field) + " is required"
  {
  }

  /** Every other rule adds nothing for a value its guard skips, and applies its check to any
      other: as written the skipped values are those `empty` holds for, "0" and 0 included; as
      intended only the values `required` rejects. */
  lemma MissingValueSkipsOtherRules(g: Guard, field: string, value: Value, rule: Rule, checks: Checks)
    requires rule != Required
    ensures !Inspected(g, value) ==> RuleOutcome(g, field, value, rule, checks) == None
    ensures Inspected(g, value) ==> RuleOutcome(g, field, value, rule, checks) == RuleCheck(field, value, rule, checks)
    ensures g.AsWritten? ==> (Inspected(g, value) <==> !(value == Null || value == Bool(false) || value == Int(0) || value == Str("") || value == Str("0")))
    ensures g.Intended? ==> (Inspected(g, value) <==> !(value == Null || value == Bool(false) || value == Str("")))
  {
  }

  /** `min_length n` fails iff the guard inspects the value and it is shorter than n characters. */
  lemma MinLengthRule(g: Guard, field: string, value: Value, n: int, checks: Checks)
    ensures RuleOutcome(g, field, value, MinLength(n), checks).Some? <==> Inspected(g, value) && |ToText(value)| < n
    ensures RuleOutcome(g, field, value, MinLength(n), checks).Some? ==>
      RuleOutcome(g, field, value, MinLength(n), checks).value == UcFirst(field) + " must be at least " + IntToString(n) + " characters"
  {
  }

  /** A field's messages for two rule lists in a row are the messages of the first list
      followed by those of the second: no rule short-circuits the rest. */
  lemma FieldErrorsAppend(g: Guard, field: string, value: Value, r1: seq<Rule>, r2: seq<Rule>, checks: Checks)
    ensures FieldErrors(g, field, value, r1 + r2, checks) == FieldErrors(g, field, value, r1, checks) + FieldErrors(g, field, value, r2, checks)
  {
    var f := (r: Rule) => Messages(RuleOutcome(g, field, value, r, checks));
    FieldErrorsByRule(g, field, value, r1 + r2, checks);
    FieldErrorsByRule(g, field, value, r1, checks);
    FieldErrorsByRule(g, field, value, r2, checks);
    ConcatMapAppend(f, r1, r2);
  }

  /** Each rule's messages, one rule after another. */
  function ConcatMap(f: Rule -> seq<string>, rules: seq<Rule>): seq<string>
    decreases |rules|
  {
    if rules == [] then [] else ConcatMap(f, rules[..|rules| - 1]) + f(rules[|rules| - 1])
  }

  lemma {:induction false} ConcatMapAppend(f: Rule -> seq<string>, r1: seq<Rule>, r2: seq<Rule>)
    ensures ConcatMap(f, r1 + r2) == ConcatMap(f, r1) + ConcatMap(f, r2)
    decreases |r2|
  {
    if r2 == [] {
      assert r1 + r2 == r1;
    } else {
      var init := r2[..|r2| - 1];
      ConcatMapAppend(f, r1, init);
      assert (r1 + r2)[..|r1 + r2| - 1] == r1 + init;
    }
  }

  lemma {:induction false} FieldErrorsByRule(g: Guard, field: string, value: Value, rules: seq<Rule>, checks: Checks)
    ensures FieldErrors(g, field, value, rules, checks) == ConcatMap((r: Rule) => Messages(RuleOutcome(g, field, value, r, checks)), rules)
    decreases |rules|
  {
    if rules != [] {
      FieldErrorsByRule(g, field, value, rules[..|rules| - 1], checks);
    }
  }

  lemma FieldErrorsStep(g: Guard, field: string, value: Value, rules: seq<Rule>, i: nat, checks: Checks)
    requires i < |rules|
    ensures FieldErrors(g, field, value, rules[..i + 1], checks) ==
      FieldErrors(g, field, value, rules[..i], checks) + Messages(RuleOutcome(g, field, value, rules[i], checks))
  {
    var pre := rules[..i + 1];
    assert pre != [] && pre[..|pre| - 1] == rules[..i] && pre[|pre| - 1] == rules[i];
  }

  /** The loop step of `validate`: one more rule's message extends the accumulated list. */
  lemma ErrorsAfterStep(g: Guard, initial: seq<string>, before: seq<string>, after: seq<string>,
                        field: string, value: Value, rules: seq<Rule>, i: nat, checks: Checks)
    requires i < |rules|
    requires before == initial + FieldErrors(g, field, value, rules[..i], checks)
    requires after == before + Messages(RuleOutcome(g, field, value, rules[i], checks))
    ensures after == initial + FieldErrors(g, field, value, rules[..i + 1], checks)
  {
    FieldErrorsStep(g, field, value, rules, i, checks);
  }

  lemma RuleSetErrorsStep(g: Guard, data: map<string, Value>, ruleSet: seq<(string, seq<Rule>)>, i: nat, checks: Checks)
    requires i < |ruleSet|
    ensures RuleSetErrors(g, data, ruleSet[..i + 1], checks) ==
      RuleSetErrors(g, data, ruleSet[..i], checks) + FieldErrors(g, ruleSet[i].0, Lookup(data, ruleSet[i].0), ruleSet[i].1, checks)
  {
    var pre := ruleSet[..i + 1];
    assert pre != [] && pre[..|pre| - 1] == ruleSet[..i] && pre[|pre| - 1] == ruleSet[i];
  }

  /** Every rule that fails contributes its message, and every message comes from a failing rule. */
  lemma FieldErrorsComplete(g: Guard, field: string, value: Value, rules: seq<Rule>, checks: Checks)
    ensures forall i :: 0 <= i < |rules| && RuleOutcome(g, field, value, rules[i], checks).Some? ==>
      RuleOutcome(g, field, value, rules[i], checks).value in FieldErrors(g, field, value, rules, checks)
    ensures forall m :: m in FieldErrors(g, field, value, rules, checks) ==>
      exists i :: 0 <= i < |rules| && RuleOutcome(g, field, value, rules[i], checks) == Some(m)
  {
    forall i | 0 <= i < |rules| && RuleOutcome(g, field, value, rules[i], checks).Some?
      ensures RuleOutcome(g, field, value, rules[i], checks).value in FieldErrors(g, field, value, rules, checks)
    {
      FailureReported(g, field, value, rules, i, checks);
    }
    forall m | m in FieldErrors(g, field, value, rules, checks)
      ensures exists i :: 0 <= i < |rules| && RuleOutcome(g, field, value, rules[i], checks) == Some(m)
    {
      ReportedFailure(g, field, value, rules, m, checks);
    }
  }

  lemma {:induction false} FailureReported(g: Guard, field: string, value: Value, rules: seq<Rule>, i: nat, checks: Checks)
    requires i < |rules| && RuleOutcome(g, field, value, rules[i], checks).Some?
    ensures RuleOutcome(g, field, value, rules[i], checks).value in FieldErrors(g, field, value, rules, checks)
    decreases |rules|
  {
    var k := |rules| - 1;
    var init := rules[..k];
    var fi := FieldErrors(g, field, value, init, checks);
    var last := RuleOutcome(g, field, value, rules[k], checks);
    var v := RuleOutcome(g, field, value, rules[i], checks).value;
    assert FieldErrors(g, field, value, rules, checks) == fi + Messages(last);
    if i < k {
      assert init[i] == rules[i];
      FailureReported(g, field, value, init, i, checks);
      InLeftOfAppend(v, fi, Messages(last));
    } else {
      assert Messages(last) == [v];
      assert (fi + [v])[|fi|] == v;
    }
  }

  lemma InLeftOfAppend(v: string, a: seq<string>, b: seq<string>)
    requires v in a
    ensures v in a + b
  {
    var j :| 0 <= j < |a| && a[j] == v;
    assert (a + b)[j] == v;
  }

  lemma {:induction false} ReportedFailure(g: Guard, field: string, value: Value, rules: seq<Rule>, m: string, checks: Checks)
    requires m in FieldErrors(g, field, value, rules, checks)
    ensures exists i :: 0 <= i < |rules| && RuleOutcome(g, field, value, rules[i], checks) == Some(m)
    decreases |rules|
  {
    var k := |rules| - 1;
    var init := rules[..k];
    var fi := FieldErrors(g, field, value, init, checks);
    var last := RuleOutcome(g, field, value, rules[k], checks);
    assert FieldErrors(g, field, value, rules, checks) == fi + Messages(last);
    if m in fi {
      ReportedFailure(g, field, value, init, m, checks);
      var i :| 0 <= i < |init| && RuleOutcome(g, field, value, init[i], checks) == Some(m);
      assert init[i] == rules[i];
    } else {
      assert last == Some(m);
    }
  }

  /** Each field contributes one message per failing rule, so the number of errors is the
      number of failing (field, rule) pairs. */
  function FailingRules(g: Guard, field: string, value: Value, rules: seq<Rule>, checks: Checks): nat
    decreases |rules|
  {
    if rules == [] then 0
    else FailingRules(g, field, value, rules[..|rules| - 1], checks) + (if RuleOutcome(g, field, value, rules[|rules| - 1], checks).Some? then 1 else 0)
  }

  lemma {:induction false} FieldErrorCount(g: Guard, field: string, value: Value, rules: seq<Rule>, checks: Checks)
    ensures |FieldErrors(g, field, value, rules, checks)| == FailingRules(g, field, value, rules, checks)
    decreases |rules|
  {
    if rules != [] {
      FieldErrorCount(g, field, value, rules[..|rules| - 1], checks);
    }
  }

  /** The three-field example of the unit tests: invalid e-mail, short password and an age
      below the minimum yield exactly three errors, one per field and in field order, under
      either guard. */
  lemma MultipleRulesExample(g: Guard, data: map<string, Value>, ruleSet: seq<(string, seq<Rule>)>, checks: Checks)
    requires data == map["email" := Str("invalid-email"), "password" := Str("short"), "age" := Int(15)]
    requires ruleSet == [("email", [Required, Email]), ("password", [Required, MinLength(8)]), ("age", [Numeric, Min(18)])]
    requires !checks.isEmail(Str("invalid-email")) && checks.isNumeric(Int(15)) && checks.toReal(Int(15)) == 15.0
    ensures |RuleSetErrors(g, data, ruleSet, checks)| == 3
    ensures RuleSetErrors(g, data, ruleSet, checks)[0] == UcFirst("email") + " must be a valid email address"
  {
    RuleSetErrorsOfThree(g, data, ruleSet[0], ruleSet[1], ruleSet[2], checks);
    assert ruleSet == [ruleSet[0], ruleSet[1], ruleSet[2]];
    assert Lookup(data, "email") == Str("invalid-email");
    assert Lookup(data, "password") == Str("short");
    assert Lookup(data, "age") == Int(15);
    EmailFieldExample(g, checks);
    PasswordFieldExample(g, checks);
    AgeFieldExample(g, checks);
  }

  lemma RuleSetErrorsOfThree(g: Guard, data: map<string, Value>, a: (string, seq<Rule>), b: (string, seq<Rule>), c: (string, seq<Rule>), checks: Checks)
    ensures RuleSetErrors(g, data, [a, b, c], checks) ==
      FieldErrors(g, a.0, Lookup(data, a.0), a.1, checks) + FieldErrors(g, b.0, Lookup(data, b.0), b.1, checks) + FieldErrors(g, c.0, Lookup(data, c.0), c.1, checks)
  {
    var all := [a, b, c];
    RuleSetErrorsStep(g, data, all, 2, checks);
    assert all[..2] == [a, b] && all[..3] == all;
    RuleSetErrorsOfTwo(g, data, a, b, checks);
  }

  lemma EmailFieldExample(g: Guard, checks: Checks)
    requires !checks.isEmail(Str("invalid-email"))
    ensures FieldErrors(g, "email", Str("invalid-email"), [Required, Email], checks) == [UcFirst("email") + " must be a valid email address"]
  {
    FieldErrorsOfTwo(g, "email", Str("invalid-email"), Required, Email, checks);
  }

  lemma PasswordFieldExample(g: Guard, checks: Checks)
    ensures |FieldErrors(g, "password", Str("short"), [Required, MinLength(8)], checks)| == 1
  {
    FieldErrorsOfTwo(g, "password", Str("short"), Required, MinLength(8), checks);
    assert |"short"| == 5;
  }

  lemma AgeFieldExample(g: Guard, checks: Checks)
    requires checks.isNumeric(Int(15)) && checks.toReal(Int(15)) == 15.0
    ensures |FieldErrors(g, "age", Int(15), [Numeric, Min(18)], checks)| == 1
  {
    FieldErrorsOfTwo(g, "age", Int(15), Numeric, Min(18), checks);
  }

  /** A rule `applyRule` does not know adds no message. */
  lemma UnrecognizedRuleIgnored(g: Guard, field: string, value: Value, rules: seq<Rule>, name: string, checks: Checks)
    ensures FieldErrors(g, field, value, rules + [Unrecognized(name)], checks) == FieldErrors(g, field, value, rules, checks)
  {
    var t := rules + [Unrecognized(name)];
    assert t[..|t| - 1] == rules;
    assert RuleOutcome(g, field, value, Unrecognized(name), checks) == None;
  }

  lemma FieldErrorsOfTwo(g: Guard, field: string, value: Value, r0: Rule, r1: Rule, checks: Checks)
    ensures FieldErrors(g, field, value, [r0, r1], checks) ==
      Messages(RuleOutcome(g, field, value, r0, checks)) + Messages(RuleOutcome(g, field, value, r1, checks))
  {
    assert [r0][..0] == [];
    assert FieldErrors(g, field, value, [r0], checks) == Messages(RuleOutcome(g, field, value, r0, checks));
    assert [r0, r1][..1] == [r0];
    assert FieldErrors(g, field, value, [r0, r1], checks) ==
      FieldErrors(g, field, value, [r0], checks) + Messages(RuleOutcome(g, field, value, r1, checks));
  }

  lemma FieldErrorsOfThree(g: Guard, field: string, value: Value, r0: Rule, r1: Rule, r2: Rule, checks: Checks)
    ensures FieldErrors(g, field, value, [r0, r1, r2], checks) ==
      Messages(RuleOutcome(g, field, value, r0, checks)) + Messages(RuleOutcome(g, field, value, r1, checks)) + Messages(RuleOutcome(g, field, value, r2, checks))
  {
    FieldErrorsOfTwo(g, field, value, r0, r1, checks);
    assert [r0, r1, r2][..2] == [r0, r1];
    assert FieldErrors(g, field, value, [r0, r1, r2], checks) ==
      FieldErrors(g, field, value, [r0, r1], checks) + Messages(RuleOutcome(g, field, value, r2, checks));
  }

  lemma RuleSetErrorsOfTwo(g: Guard, data: map<string, Value>, a: (string, seq<Rule>), b: (string, seq<Rule>), checks: Checks)
    ensures RuleSetErrors(g, data, [a, b], checks) ==
      FieldErrors(g, a.0, Lookup(data, a.0), a.1, checks) + FieldErrors(g, b.0, Lookup(data, b.0), b.1, checks)
  {
    var all := [a, b];
    assert RuleSetErrors(g, data, all[..1], checks) == FieldErrors(g, a.0, Lookup(data, a.0), a.1, checks) by {
      RuleSetErrorsStep(g, data, all, 0, checks);
      assert all[..0] == [];
    }
    RuleSetErrorsStep(g, data, all, 1, checks);
    assert all[..2] == all;
  }

  /** The `in` example of the unit tests: a listed status passes, another one fails. */
  lemma InRuleExample(g: Guard, allowed: seq<string>, checks: Checks)
    requires allowed == ["active", "inactive", "pending"]
    ensures RuleOutcome(g, "status", Str("active"), In(allowed), checks) == None
    ensures RuleOutcome(g, "status", Str("invalid-status"), In(allowed), checks).Some?
  {
    assert "active" == allowed[0];
    assert "invalid-status" !in allowed;
  }

  /** Every fragment `containsScript` looks for is one `detectXSS` looks for too. */
  lemma ScriptImpliesXss(s: string)
    ensures ContainsScript(s) ==> Security.DetectXss(s)
  {
    if ContainsScript(s) {
      var i :| 0 <= i < |ScriptPatterns| && ContainsCI(s, ScriptPatterns[i]);
      var j := [0, 1, 2, 3, 4, 7, 8][i];
      assert ScriptPatterns[i] == Security.XssPatterns[j];
    }
  }

  /** `no_script` rejects exactly the given values holding one of the seven fragments, under
      either guard ("0", which only the written guard skips, holds none). */
  lemma NoScriptRule(g: Guard, field: string, value: string, checks: Checks)
    requires value != ""
    ensures RuleOutcome(g, field, Str(value), NoScript, checks).Some? <==> ContainsScript(value)
  {
    assert !IsMissing(Str(value)) && ToText(Str(value)) == value;
    var message := UcFirst(field) + " contains invalid content";
    assert RuleCheck(field, Str(value), NoScript, checks) == if ContainsScript(value) then Some(message) else None;
    if value == "0" {
      NoFragmentInZero();
    }
  }

  /** A fragment longer than the text does not occur in it. */
  lemma ShortTextLacks(s: string, p: string)
    requires |s| < |p|
    ensures !ContainsCI(s, p)
  {
  }

  /** "0" is too short to hold any of the seven fragments. */
  lemma NoFragmentInZero()
    ensures !ContainsScript("0")
  {
    forall i | 0 <= i < |ScriptPatterns| ensures !ContainsCI("0", ScriptPatterns[i]) {
      ShortTextLacks("0", ScriptPatterns[i]);
    }
  }

  /** The no-script example of the unit tests. */
  lemma NoScriptExample(g: Guard, checks: Checks)
    ensures RuleOutcome(g, "content", Str("<script>alert(\"xss\")</script>"), NoScript, checks).Some?
  {
    ContainsCIAtExact("<script>alert(\"xss\")</script>", ScriptPatterns[0], 0);
  }

  /** A trailing line feed slips through `alpha_numeric`, because `$` matches before it. */
  lemma AlphaNumericAllowsFinalLineFeed()
    ensures MatchesAlphaNumeric("abc\n") && !MatchesAlphaNumeric("ab c")
  {
    assert AllAlnum("abc");
    assert "abc\n"[..3] == "abc";
    assert !IsAsciiAlnum("ab c"[2]);
  }

  // ================================================================ sanitising

  /** `str_replace("\0", '', $s)`: the NUL characters go, the others stay in order (see
      `RemoveNulDrops`). */
  function RemoveNul(s: string): (r: string)
    ensures '\0' !in r && |r| <= |s|
    ensures forall c :: c in r ==> c in s
    ensures '\0' !in s ==> r == s
    decreases |s|
  {
    if s == [] then []
    else
      TailChars(s);
      (if s[0] == '\0' then [] else [s[0]]) + RemoveNul(s[1..])
  }

  /** The tail of a text holds none but the text's characters. */
  lemma TailChars(s: string)
    requires s != []
    ensures forall c :: c in s[1..] ==> c in s
    ensures s == [s[0]] + s[1..]
  {
  }

  lemma {:induction false} RemoveNulAppend(a: string, b: string)
    ensures RemoveNul(a + b) == RemoveNul(a) + RemoveNul(b)
    decreases |a|
  {
    if a == [] {
      assert a + b == b;
    } else {
      assert (a + b)[0] == a[0] && (a + b)[1..] == a[1..] + b;
      RemoveNulAppend(a[1..], b);
    }
  }

  /** Each character is dropped where it stands if it is NUL and kept there otherwise. */
  lemma RemoveNulDrops(a: string, c: char, b: string)
    ensures RemoveNul(a + [c] + b) == RemoveNul(a) + (if c == '\0' then [] else [c]) + RemoveNul(b)
  {
    RemoveNulAppend(a + [c], b);
    RemoveNulAppend(a, [c]);
    assert [c][1..] == [];
  }

  /** The characters `trim` strips by default. */
  predicate IsTrimmed(c: char)
  {
    c == ' ' || c == '\t' || c == '\n' || c == '\r' || c == '\0' || c == '\U{B}'
  }

  /** `ltrim`: the longest blank prefix goes. */
  function TrimStart(s: string): (r: string)
    ensures |r| <= |s| && r == s[|s| - |r|..]
    ensures forall k :: 0 <= k < |s| - |r| ==> IsTrimmed(s[k])
    ensures r != [] ==> !IsTrimmed(r[0])
    decreases |s|
  {
    if s != [] && IsTrimmed(s[0]) then
      var r := TrimStart(s[1..]);
      assert forall k :: 1 <= k < |s| ==> s[k] == s[1..][k - 1];
      r
    else s
  }

  /** `rtrim`: the longest blank suffix goes. */
  function TrimEnd(s: string): (r: string)
    ensures |r| <= |s| && r == s[..|r|]
    ensures forall k :: |r| <= k < |s| ==> IsTrimmed(s[k])
    ensures r != [] ==> !IsTrimmed(r[|r| - 1])
    decreases |s|
  {
    if s != [] && IsTrimmed(s[|s| - 1]) then
      var r := TrimEnd(s[..|s| - 1]);
      assert forall k :: 0 <= k < |s| - 1 ==> s[k] == s[..|s| - 1][k];
      r
    else s
  }

  /** Only blanks lie before position `i` and from position `j` on. */
  predicate OnlyBlanksOutside(s: string, i: int, j: int)
  {
    0 <= i <= j <= |s| && (forall k :: 0 <= k < i ==> IsTrimmed(s[k])) && (forall k :: j <= k < |s| ==> IsTrimmed(s[k]))
  }

  /** `trim`: the text between the longest blank prefix and the longest blank suffix. */
  function Trim(s: string): (r: string)
    ensures exists i, j :: OnlyBlanksOutside(s, i, j) && r == s[i..j]
    ensures r != [] ==> !IsTrimmed(r[0]) && !IsTrimmed(r[|r| - 1])
  {
    var t1 := TrimStart(s);
    var t := TrimEnd(t1);
    var i := |s| - |t1|;
    TrimSlice(s, t1, t);
    assert OnlyBlanksOutside(s, i, i + |t|) && t == s[i..i + |t|];
    assert t != [] ==> t[0] == t1[0];
    t
  }

  /** A blank prefix cut, then a blank suffix cut, leave a slice with only blanks outside it. */
  lemma TrimSlice(s: string, t1: string, t: string)
    requires |t1| <= |s| && t1 == s[|s| - |t1|..] && forall k :: 0 <= k < |s| - |t1| ==> IsTrimmed(s[k])
    requires |t| <= |t1| && t == t1[..|t|] && forall k :: |t| <= k < |t1| ==> IsTrimmed(t1[k])
    ensures OnlyBlanksOutside(s, |s| - |t1|, |s| - |t1| + |t|)
    ensures t == s[|s| - |t1|..|s| - |t1| + |t|]
  {
    var i := |s| - |t1|;
    SliceOfSuffix(s, t1, t, i);
    forall k | i + |t| <= k < |s| ensures IsTrimmed(s[k]) {
      assert s[k] == t1[k - i];
    }
  }

  /** A prefix of a suffix is a slice, and what follows it in the suffix follows it in the whole. */
  lemma SliceOfSuffix(s: string, t1: string, t: string, i: nat)
    requires i <= |s| && t1 == s[i..] && |t| <= |t1| && t == t1[..|t|]
    ensures t == s[i..i + |t|]
    ensures forall k :: i + |t| <= k < |s| ==> s[k] == t1[k - i]
  {
  }

  predicate IsMarkup(c: char)
  {
    c == '&' || c == '<' || c == '>' || c == '"' || c == '\''
  }

  /** The replacement `htmlspecialchars` makes for one character under `ENT_QUOTES`: an entity
      for each markup character, the character itself otherwise. */
  function Entity(c: char): (r: string)
    ensures '<' !in r && '>' !in r && '"' !in r && '\'' !in r
    ensures c != '\0' ==> '\0' !in r
    ensures !IsMarkup(c) ==> r == [c]
    ensures IsMarkup(c) ==> |r| >= 4 && r[0] == '&' && r[|r| - 1] == ';'
  {
    if c == '&' then "&amp;" else if c == '"' then "&quot;" else if c == '\'' then "&#039;"
    else if c == '<' then "&lt;" else if c == '>' then "&gt;" else [c]
  }

  /** `htmlspecialchars($s, ENT_QUOTES)`: the five markup characters become entities, each
      character in its place (see `HtmlEscapeReplaces`). */
  function HtmlEscape(s: string): (r: string)
    ensures '<' !in r && '>' !in r && '"' !in r && '\'' !in r
    ensures '\0' !in s ==> '\0' !in r
    ensures (forall i :: 0 <= i < |s| ==> !IsMarkup(s[i])) ==> r == s
    ensures |r| >= |s|
    decreases |s|
  {
    if s == [] then []
    else
      var t := s[1..];
      assert s[0] in s;
      assert forall x :: x in t ==> x in s;
      assert forall i :: 0 <= i < |t| ==> t[i] == s[i + 1];
      assert [s[0]] + t == s;
      Entity(s[0]) + HtmlEscape(t)
  }

  lemma {:induction false} HtmlEscapeAppend(a: string, b: string)
    ensures HtmlEscape(a + b) == HtmlEscape(a) + HtmlEscape(b)
    decreases |a|
  {
    if a == [] {
      assert a + b == b;
    } else {
      assert (a + b)[0] == a[0] && (a + b)[1..] == a[1..] + b;
      HtmlEscapeAppend(a[1..], b);
    }
  }

  /** Each character is replaced by its entity where it stands. */
  lemma HtmlEscapeReplaces(a: string, c: char, b: string)
    ensures HtmlEscape(a + [c] + b) == HtmlEscape(a) + Entity(c) + HtmlEscape(b)
  {
    HtmlEscapeAppend(a + [c], b);
    HtmlEscapeAppend(a, [c]);
    HtmlEscapeOne(c);
  }

  lemma HtmlEscapeOne(c: char)
    ensures HtmlEscape([c]) == Entity(c)
  {
    assert [c][1..] == [];
  }

  /** The string case of the `array_map` callback: NUL bytes removed, then trimmed, then escaped. */
  function SanitizeValue(v: Value): (r: Value)
    ensures !v.Str? ==> r == v
    ensures v.Str? ==> r.Str? && '<' !in r.s && '>' !in r.s && '"' !in r.s && '\'' !in r.s && '\0' !in r.s
  {
    match v
    case Str(s) => Str(HtmlEscape(Trim(RemoveNul(s))))
    case _ => v
  }

  /** `sanitizeInput`: the same keys, each value passed through the callback. */
  function SanitizeInput(data: map<string, Value>): (r: map<string, Value>)
    ensures r.Keys == data.Keys
    ensures forall k :: k in data ==> r[k] == SanitizeValue(data[k])
    ensures forall k :: k in data && !data[k].Str? ==> r[k] == data[k]
    ensures forall k :: k in data && data[k].Str? ==> r[k].Str? && '<' !in r[k].s && '>' !in r[k].s && '\0' !in r[k].s
  {
    map k | k in data :: SanitizeValue(data[k])
  }

  /** A text with no blank at either end, no NUL and no markup character. */
  predicate CleanText(s: string)
  {
    (s != [] ==> !IsTrimmed(s[0]) && !IsTrimmed(s[|s| - 1])) && '\0' !in s && forall i :: 0 <= i < |s| ==> !IsMarkup(s[i])
  }

  /** A string with nothing to strip or escape comes through unchanged. */
  lemma CleanStringUnchanged(s: string)
    requires CleanText(s)
    ensures SanitizeValue(Str(s)) == Str(s)
  {
    assert Trim(s) == s by {
      assert TrimStart(s) == s;
      assert TrimEnd(s) == s;
    }
  }

  /** Blanks around a NUL-free text are stripped and the text itself is escaped: the result is
      the escape of the text alone. */
  lemma {:induction false} PaddedString(pad1: string, inner: string, pad2: string)
    requires forall i :: 0 <= i < |pad1| ==> pad1[i] == ' '
    requires forall i :: 0 <= i < |pad2| ==> pad2[i] == ' '
    requires inner != [] && !IsTrimmed(inner[0]) && !IsTrimmed(inner[|inner| - 1])
    requires '\0' !in inner
    ensures SanitizeValue(Str(pad1 + inner + pad2)) == Str(HtmlEscape(inner))
  {
    var s := pad1 + inner + pad2;
    PaddedNulFree(pad1, inner, pad2);
    assert RemoveNul(s) == s;
    TrimPadded(pad1, inner, pad2);
  }

  lemma TrimPadded(pad1: string, inner: string, pad2: string)
    requires forall i :: 0 <= i < |pad1| ==> pad1[i] == ' '
    requires forall i :: 0 <= i < |pad2| ==> pad2[i] == ' '
    requires inner != [] && !IsTrimmed(inner[0]) && !IsTrimmed(inner[|inner| - 1])
    ensures Trim(pad1 + inner + pad2) == inner
  {
    assert pad1 + inner + pad2 == pad1 + (inner + pad2);
    TrimStartSpaces(pad1, inner + pad2);
    TrimEndSpaces(inner, pad2);
  }

  lemma PaddedNulFree(pad1: string, inner: string, pad2: string)
    requires forall i :: 0 <= i < |pad1| ==> pad1[i] == ' '
    requires forall i :: 0 <= i < |pad2| ==> pad2[i] == ' '
    requires '\0' !in inner
    ensures '\0' !in pad1 + inner + pad2
  {
    var s := pad1 + inner + pad2;
    forall i | 0 <= i < |s| ensures s[i] != '\0' {
      if |pad1| <= i < |pad1| + |inner| { assert s[i] == inner[i - |pad1|] && inner[i - |pad1|] in inner; }
    }
  }

  lemma {:induction false} TrimStartSpaces(pad: string, rest: string)
    requires forall i :: 0 <= i < |pad| ==> pad[i] == ' '
    requires rest != [] && !IsTrimmed(rest[0])
    ensures TrimStart(pad + rest) == rest
    decreases |pad|
  {
    if pad != [] {
      var s := pad + rest;
      assert s[0] == pad[0] == ' ';
      assert s[1..] == pad[1..] + rest;
      TrimStartSpaces(pad[1..], rest);
      assert TrimStart(s) == TrimStart(s[1..]);
    } else {
      assert pad + rest == rest;
    }
  }

  lemma {:induction false} TrimEndSpaces(rest: string, pad: string)
    requires forall i :: 0 <= i < |pad| ==> pad[i] == ' '
    requires rest != [] && !IsTrimmed(rest[|rest| - 1])
    ensures TrimEnd(rest + pad) == rest
    decreases |pad|
  {
    if pad != [] {
      var s := rest + pad;
      assert s[|s| - 1] == pad[|pad| - 1] == ' ';
      assert s[..|s| - 1] == rest + pad[..|pad| - 1];
      TrimEndSpaces(rest, pad[..|pad| - 1]);
      assert TrimEnd(s) == TrimEnd(s[..|s| - 1]);
    } else {
      assert rest + pad == rest;
    }
  }

  /** The sanitising example of the unit tests: surrounding blanks go. */
  lemma SanitizeNameExample(name: string)
    requires name == "  John Doe  "
    ensures SanitizeValue(Str(name)) == Str("John Doe")
  {
    var inner, pad := "John Doe", "  ";
    NameIsPadded(name, inner, pad);
    PaddedString(pad, inner, pad);
    CleanStringUnchanged(inner);
  }

  lemma NameIsPadded(name: string, inner: string, pad: string)
    requires name == "  John Doe  " && inner == "John Doe" && pad == "  "
    ensures name == pad + inner + pad && CleanText(inner) && inner != []
    ensures forall i :: 0 <= i < |pad| ==> pad[i] == ' '
  {
  }

  /** The sanitising example of the unit tests: an address is kept. */
  lemma SanitizeEmailExample(email: string)
    requires email == "test@example.com"
    ensures SanitizeValue(Str(email)) == Str(email)
  {
    EmailIsClean(email);
    CleanStringUnchanged(email);
  }

  lemma EmailIsClean(s: string)
    requires s == "test@example.com"
    ensures CleanText(s)
  {
  }

  /** Padded markup is trimmed first and escaped after: `" <b> "` becomes `&lt;b&gt;`. */
  lemma SanitizeMarkupExample(s: string)
    requires s == " <b> "
    ensures SanitizeValue(Str(s)) == Str("&lt;b&gt;")
  {
    var inner := "<b>";
    TagIsPadded(s, inner);
    PaddedString(" ", inner, " ");
    EscapeOfTag(inner);
  }

  lemma TagIsPadded(s: string, inner: string)
    requires s == " <b> " && inner == "<b>"
    ensures s == " " + inner + " "
    ensures inner != [] && !IsTrimmed(inner[0]) && !IsTrimmed(inner[|inner| - 1]) && '\0' !in inner
  {
  }

  lemma EscapeOfTag(inner: string)
    requires inner == "<b>"
    ensures HtmlEscape(inner) == "&lt;b&gt;"
  {
    assert inner == [] + ['<'] + "b>";
    HtmlEscapeReplaces([], '<', "b>");
    assert "b>" == "b" + ['>'] + [];
    HtmlEscapeReplaces("b", '>', []);
  }

  // ================================================================ CSRF

  /** `validateCSRFToken` as written: `hash_equals($_SESSION['csrf_token'] ?? '', $token)`,
      where `stored` is the session's token. */
  function ValidateCsrfTokenAsWritten(stored: Option<string>, token: string): bool
  {
    GetOr(stored, "") == token
  }

  /** Without a session token, the empty string is accepted as a valid token. */
  lemma CsrfEmptyTokenAcceptedAsWritten()
    ensures ValidateCsrfTokenAsWritten(None, "")
  {
  }

  /** The check as intended: a token is valid only when the session holds one and it is equal. */
  function ValidateCsrfToken(stored: Option<string>, token: string): (ok: bool)
    ensures ok ==> stored == Some(token)
    ensures stored.Some? ==> (ok <==> ValidateCsrfTokenAsWritten(stored, token))
  {
    stored.Some? && stored.value == token
  }

  /** `generateCSRFToken`: 32 random bytes as 64 lower-case hexadecimal characters, stored in
      the session and returned. */
  method GenerateCsrfToken(session: Session, randomBytes: seq<bv8>) returns (token: string)
    requires |randomBytes| == 32
    modifies session`csrfToken
    ensures token == HexEncode(randomBytes) && |token| == 64
    ensures session.csrfToken == Some(token)
  {
    token := HexEncode(randomBytes);
    session.csrfToken := Some(token);
  }

  /** The freshly generated token validates; the empty string and any text of another length
      do not. */
  lemma GeneratedCsrfToken(randomBytes: seq<bv8>, other: string)
    requires |randomBytes| == 32 && |other| != 64
    ensures ValidateCsrfToken(Some(HexEncode(randomBytes)), HexEncode(randomBytes))
    ensures !ValidateCsrfToken(Some(HexEncode(randomBytes)), other)
    ensures !ValidateCsrfTokenAsWritten(Some(HexEncode(randomBytes)), "")
    ensures !ValidateCsrfToken(None, "")
  {
  }
}
