/**
 * The subset of Laravel's validator that the handlers' rule strings use:
 * rules run per field in the order written, a failed implicit rule (`required`)
 * stops that field, `sometimes` skips an absent field, and a non-implicit rule
 * is skipped for an absent field or a blank string.
 */
module Validation {
  import opened Text
  import opened Framework
  import opened Requests

  datatype Rule = Required | IsString | IsArray | In(options: seq<string>) | Numeric | Email

  /** One line of a rules array: `'field' => 'sometimes|rule|rule'`. */
  datatype FieldRules = FieldRules(field: string, sometimes: bool, rules: seq<Rule>)

  type Schema = seq<FieldRules>

  datatype FieldError = FieldError(field: string, rule: Rule)

  predicate Implicit(rule: Rule) {
    rule.Required?
  }

  function ValueOf(input: Input, field: string): Value {
    if field in input then input[field] else Null
  }

  /** Whether the validator runs `rule` on `field` at all (isValidatable). */
  predicate Applies(input: Input, field: string, sometimes: bool, rule: Rule)
    ensures Applies(input, field, sometimes, rule) && !Implicit(rule) ==>
            field in input && !(input[field].Str? && IsBlank(input[field].s))
    ensures Applies(input, field, sometimes, rule) && sometimes ==> field in input
    ensures Implicit(rule) && (!sometimes || field in input) ==> Applies(input, field, sometimes, rule)
  {
    && (sometimes ==> field in input)
    && if field in input && input[field].Str? && IsBlank(input[field].s)
       then Implicit(rule)
       else field in input || Implicit(rule)
  }

  /** Whether `value` passes `rule`. */
  predicate Passes(lib: Helpers, value: Value, rule: Rule)
    ensures value.Null? && Passes(lib, value, rule) ==> rule.In? && "" in rule.options
    ensures value.Arr? && Passes(lib, value, rule) ==> rule == Required || rule == IsArray
    ensures rule == Email && Passes(lib, value, rule) ==> value.Str?
  {
    match rule
    case Required =>
      (match value
       case Str(s) => !IsBlank(s)
       case Num(_) => true
       case Arr(items) => items != []
       case Null => false)
    case IsString => value.Str?
    case IsArray => value.Arr?
    case In(options) =>
      (match value
       case Str(s) => s in options
       case Num(n) => IntToString(n) in options
       case Arr(_) => false
       case Null => "" in options)
    case Numeric => value.Num? || (value.Str? && lib.isNumeric(value.s))
    case Email => value.Str? && lib.isEmail(value.s)
  }

  /** The errors one field's remaining rules produce. */
  function FieldErrors(lib: Helpers, input: Input, f: FieldRules, rules: seq<Rule>): (r: seq<FieldError>)
    ensures |r| <= |rules|
    ensures forall i :: 0 <= i < |r| ==>
              && r[i].field == f.field && r[i].rule in rules
              && Applies(input, f.field, f.sometimes, r[i].rule)
              && !Passes(lib, ValueOf(input, f.field), r[i].rule)
    decreases |rules|
  {
    if rules == [] then []
    else if !Applies(input, f.field, f.sometimes, rules[0]) || Passes(lib, ValueOf(input, f.field), rules[0])
    then FieldErrors(lib, input, f, rules[1..])
    else if Implicit(rules[0]) then [FieldError(f.field, rules[0])]
    else [FieldError(f.field, rules[0])] + FieldErrors(lib, input, f, rules[1..])
  }

  /** `Validator::make($input, $rules)->errors()`, field by field in schema order. */
  function Validate(lib: Helpers, input: Input, schema: Schema): (r: seq<FieldError>)
    ensures forall i :: 0 <= i < |r| ==> exists j :: 0 <= j < |schema| && r[i].field == schema[j].field
    decreases |schema|
  {
    if schema == [] then []
    else FieldErrors(lib, input, schema[0], schema[0].rules) + Validate(lib, input, schema[1..])
  }

  function RuleName(rule: Rule): string {
    match rule
    case Required => "required"
    case IsString => "string"
    case IsArray => "array"
    case In(_) => "in"
    case Numeric => "numeric"
    case Email => "email"
  }

  /** `errors()->all()`: one message per error, keyed "field.rule". */
  function AllMessages(errors: seq<FieldError>): (m: seq<string>)
    ensures |m| == |errors|
    ensures forall i :: 0 <= i < |errors| ==> m[i] == errors[i].field + "." + RuleName(errors[i].rule)
  {
    if errors == [] then []
    else [errors[0].field + "." + RuleName(errors[0].rule)] + AllMessages(errors[1..])
  }

  /** A schema passes exactly when every one of its fields does. */
  lemma {:induction false} ValidateEmpty(lib: Helpers, input: Input, schema: Schema)
    ensures Validate(lib, input, schema) == [] <==>
            forall i :: 0 <= i < |schema| ==> FieldErrors(lib, input, schema[i], schema[i].rules) == []
  {
    if schema != [] {
      ValidateEmpty(lib, input, schema[1..]);
      assert forall i :: 1 <= i < |schema| ==> schema[i] == schema[1..][i - 1];
    }
  }

  /** A schema with a first field passes exactly when that field and the rest pass. */
  lemma ValidateCons(lib: Helpers, input: Input, schema: Schema)
    requires schema != []
    ensures Validate(lib, input, schema) == [] <==>
            FieldErrors(lib, input, schema[0], schema[0].rules) == [] && Validate(lib, input, schema[1..]) == []
  {
  }

  /** A required string field passes exactly when it holds a non-blank string. */
  lemma RequiredString(lib: Helpers, input: Input, field: string)
    ensures var f := FieldRules(field, false, [Required, IsString]);
            FieldErrors(lib, input, f, f.rules) == [] <==>
            field in input && input[field].Str? && !IsBlank(input[field].s)
  {
    var f := FieldRules(field, false, [Required, IsString]);
    assert f.rules[1..] == [IsString];
    assert f.rules[1..][1..] == [];
  }

  /** An optional string field (`sometimes|string`) passes when absent or when it holds a string. */
  lemma OptionalString(lib: Helpers, input: Input, field: string)
    ensures var f := FieldRules(field, true, [IsString]);
            FieldErrors(lib, input, f, f.rules) == [] <==>
            field !in input || input[field].Str?
  {
    var f := FieldRules(field, true, [IsString]);
    assert f.rules[1..] == [];
  }

  /** A required array field passes exactly when it holds a non-empty list. */
  lemma RequiredArray(lib: Helpers, input: Input, field: string)
    ensures var f := FieldRules(field, false, [Required, IsArray]);
            FieldErrors(lib, input, f, f.rules) == [] <==>
            field in input && input[field].Arr? && input[field].items != []
  {
    var f := FieldRules(field, false, [Required, IsArray]);
    assert f.rules[1..] == [IsArray];
    assert f.rules[1..][1..] == [];
  }

  /**
   * A required `in:` field whose options are words (they start with a letter)
   * passes exactly when it holds one of the options as a string.
   */
  lemma RequiredIn(lib: Helpers, input: Input, field: string, options: seq<string>)
    requires forall o :: o in options ==> |o| > 0 && 'a' <= o[0] <= 'z'
    ensures var f := FieldRules(field, false, [Required, In(options)]);
            FieldErrors(lib, input, f, f.rules) == [] <==>
            field in input && input[field].Str? && input[field].s in options
  {
    var f := FieldRules(field, false, [Required, In(options)]);
    assert f.rules[1..] == [In(options)];
    assert f.rules[1..][1..] == [];
    assert "" !in options;
    if field in input {
      match input[field]
      case Str(s) =>
        if s in options {
          assert 'a' <= s[0] <= 'z';
          assert !IsTrimmable(s[0]);
          assert !IsBlank(s);
          assert Passes(lib, Str(s), Required) && Passes(lib, Str(s), In(options));
          assert FieldErrors(lib, input, f, f.rules[1..][1..]) == [];
          assert FieldErrors(lib, input, f, f.rules[1..]) == [];
        }
      case Num(n) =>
        var printed := IntToString(n);
        assert printed[0] == '-' || '0' <= printed[0] <= '9';
        assert printed !in options;
      case Arr(_) =>
      case Null =>
    }
  }

  /** A required email field passes exactly when it holds a non-blank string the email rule accepts. */
  lemma RequiredEmail(lib: Helpers, input: Input, field: string)
    ensures var f := FieldRules(field, false, [Required, Email]);
            FieldErrors(lib, input, f, f.rules) == [] <==>
            field in input && input[field].Str? && !IsBlank(input[field].s) && lib.isEmail(input[field].s)
  {
    var f := FieldRules(field, false, [Required, Email]);
    assert f.rules[1..] == [Email];
    assert f.rules[1..][1..] == [];
  }

  /** A required numeric field passes exactly when it holds a number or a non-blank numeric string. */
  lemma RequiredNumeric(lib: Helpers, input: Input, field: string)
    ensures var f := FieldRules(field, false, [Required, Numeric]);
            FieldErrors(lib, input, f, f.rules) == [] <==>
            field in input &&
            (input[field].Num? || (input[field].Str? && !IsBlank(input[field].s) && lib.isNumeric(input[field].s)))
  {
    var f := FieldRules(field, false, [Required, Numeric]);
    assert f.rules[1..] == [Numeric];
    assert f.rules[1..][1..] == [];
  }

  /**
   * An optional numeric field (`sometimes|numeric`) passes when absent, when it
   * holds a number or a numeric string, and also when it holds a blank string,
   * which the validator does not check.
   */
  lemma OptionalNumeric(lib: Helpers, input: Input, field: string)
    ensures var f := FieldRules(field, true, [Numeric]);
            FieldErrors(lib, input, f, f.rules) == [] <==>
            field !in input || input[field].Num? ||
            (input[field].Str? && (IsBlank(input[field].s) || lib.isNumeric(input[field].s)))
  {
    var f := FieldRules(field, true, [Numeric]);
    assert f.rules[1..] == [];
  }
}
