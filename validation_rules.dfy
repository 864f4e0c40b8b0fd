/**
 * The vocabulary of the declarative rule strings in the request classes
 * (`required`, `nullable`, `string`, `min:n`, `email`, `unique:users`,
 * `in:ADMIN,NORMAL`, `integer`, `exists:users,id`) and how the framework's
 * validator turns one attribute's rule list into error messages.
 */
module ValidationRules {
  import opened Wrappers
  import opened Accounts
  import opened Input
  import opened Helpers

  datatype Rule =
    | Required
    | Nullable
    | IsString
    | Min(n: nat)
    | IsEmail
    | UniqueEmail
    | InRoles
    | IsInteger
    | ExistsId

  /**
   * Email syntax. The framework's RFC validator is not modelled; this
   * stand-in asks for exactly one '@' with text on both sides and no blanks.
   */
  predicate ValidEmail(s: string)
  {
    exists i :: 0 < i < |s| - 1 && s[i] == '@'
      && (forall j :: 0 <= j < |s| && j != i ==> s[j] != '@')
      && (forall j :: 0 <= j < |s| ==> !IsTrimmed(s[j]))
  }

  predicate IntegerValue(v: Value)
  {
    v.Num? || IsIntegerText(v.s)
  }

  /** The id a route value denotes, when it is an integer. */
  function IdValue(v: Value): (r: Option<int>)
    ensures r.Some? <==> IntegerValue(v)
  {
    match v
    case Num(n) => Some(n)
    case Str(s) => ParseInt(s)
  }

  /** Whether a present, filled-in value passes one rule. */
  predicate Passes(rule: Rule, v: Value, rows: map<int, User>)
  {
    match rule
    case Required => !(v.Str? && Blank(v.s))
    case Nullable => true
    case IsString => v.Str?
    case Min(n) => |Text(v)| >= n
    case IsEmail => v.Str? && ValidEmail(v.s)
    case UniqueEmail => !EmailTaken(Text(v), rows)
    case InRoles => IsRole(Text(v))
    case IsInteger => IntegerValue(v)
    case ExistsId => IdValue(v).Some? && IdValue(v).value in rows
  }

  /** Every rule of the list passes on the value. */
  predicate AllPass(rules: seq<Rule>, v: Value, rows: map<int, User>)
    decreases |rules|
  {
    rules == [] || (Passes(rules[0], v, rows) && AllPass(rules[1..], v, rows))
  }

  lemma AllPassTwo(a: Rule, b: Rule, v: Value, rows: map<int, User>)
    ensures AllPass([a, b], v, rows) <==> Passes(a, v, rows) && Passes(b, v, rows)
  {
    assert [a, b][1..] == [b];
    assert [b][1..] == [];
    assert AllPass([b], v, rows) <==> Passes(b, v, rows);
  }

  lemma AllPassThree(a: Rule, b: Rule, c: Rule, v: Value, rows: map<int, User>)
    ensures AllPass([a, b, c], v, rows) <==> Passes(a, v, rows) && Passes(b, v, rows) && Passes(c, v, rows)
  {
    assert [a, b, c][1..] == [b, c];
    AllPassTwo(b, c, v, rows);
  }

  /** Rules that query the table run only while the attribute has no message yet. */
  predicate QueriesTable(rule: Rule)
  {
    rule.UniqueEmail? || rule.ExistsId?
  }

  /** The framework's default English message for a failed rule on the named attribute. */
  function Message(attribute: string, rule: Rule): string
  {
    match rule
    case Required => "The " + attribute + " field is required."
    case Nullable => ""
    case IsString => "The " + attribute + " field must be a string."
    case Min(n) => "The " + attribute + " field must be at least " + IntToString(n) + " characters."
    case IsEmail => "The " + attribute + " field must be a valid email address."
    case UniqueEmail => "The " + attribute + " has already been taken."
    case InRoles => "The selected " + attribute + " is invalid."
    case IsInteger => "The " + attribute + " field must be an integer."
    case ExistsId => "The selected " + attribute + " is invalid."
  }

  /**
   * Runs the rules left to right on a present value, appending to `prior`
   * the message of each rule that fails; there is no bail, except that a
   * table query is skipped once the attribute already has a message.
   */
  function RuleMessages(attribute: string, v: Value, rules: seq<Rule>, rows: map<int, User>, prior: seq<string>): (r: seq<string>)
    ensures prior <= r
    ensures r == [] <==> prior == [] && AllPass(rules, v, rows)
    decreases |rules|
  {
    if rules == [] then prior
    else
      var rule := rules[0];
      var skipped := QueriesTable(rule) && prior != [];
      var next := if !skipped && !Passes(rule, v, rows) then prior + [Message(attribute, rule)] else prior;
      RuleMessages(attribute, v, rules[1..], rows, next)
  }

  /** A key that is missing, or whose value is blank, counts as not filled in. */
  predicate Absent(v: Option<Value>)
  {
    v.None? || (v.value.Str? && Blank(v.value.s))
  }

  /**
   * The messages for one attribute. A value that is not filled in is only
   * checked by `required` (which then stops the attribute); any other rule
   * skips it.
   */
  function AttributeMessages(attribute: string, v: Option<Value>, rules: seq<Rule>, rows: map<int, User>): (r: seq<string>)
    ensures r == [] <==>
              if Absent(v) then Required !in rules
              else AllPass(rules, v.value, rows)
  {
    if Absent(v) then (if Required in rules then [Message(attribute, Required)] else [])
    else RuleMessages(attribute, v.value, rules, rows, [])
  }

  /** How a field name reads in a message: `last_name` becomes "last name". */
  function DisplayName(field: string): (r: string)
    ensures |r| == |field|
    ensures forall i :: 0 <= i < |field| ==> r[i] == (if field[i] == '_' then ' ' else field[i])
    ensures '_' !in field ==> r == field
  {
    seq(|field|, i requires 0 <= i < |field| => if field[i] == '_' then ' ' else field[i])
  }

  /** The error entry for one field, keyed by the field name, or nothing when it passes. */
  function Check(field: string, v: Option<Value>, rules: seq<Rule>, rows: map<int, User>): (r: seq<FieldErrors>)
    ensures r == [] <==> AttributeMessages(DisplayName(field), v, rules, rows) == []
    ensures r != [] ==> r == [FieldErrors(field, AttributeMessages(DisplayName(field), v, rules, rows))]
  {
    var messages := AttributeMessages(DisplayName(field), v, rules, rows);
    if messages == [] then [] else [FieldErrors(field, messages)]
  }

  /** A present key becomes one entry of the validated payload. */
  function Selected(key: Key, v: Option<Value>): (r: Fields)
    ensures forall k :: Lookup(r, k) == if k == key then v else None
  {
    if v.Some? then
      var r: Fields := [(key, v.value)];
      assert r[..0] == [];
      r
    else []
  }
}
