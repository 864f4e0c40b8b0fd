/**
 * AdminCreateUserRequest: who may create accounts and what a create
 * payload must satisfy. All five fields are required.
 */
module AdminCreateUserRequest {
  import opened Wrappers
  import opened Accounts
  import opened Input
  import opened Helpers
  import opened ValidationRules

  /** Only an authenticated actor whose role is ADMIN may create accounts. */
  function Authorize(actor: Option<User>): (r: bool)
    ensures r <==> actor.Some? && actor.value.role == Admin
  {
    actor.Some? && actor.value.role == "ADMIN"
  }

  const EmailRules: seq<Rule> := [Required, IsEmail, UniqueEmail]
  const PasswordRules: seq<Rule> := [Required, Min(8), IsString]
  const NameRules: seq<Rule> := [Required, Min(2), IsString]
  const LastNameRules: seq<Rule> := [Required, Min(2), IsString]
  const RoleRules: seq<Rule> := [Required, InRoles]

  /** A required value: the key is there and its value is not blank. */
  predicate Filled(v: Option<Value>)
  {
    !Absent(v)
  }

  /** The rule table read as one condition on the payload and the current table. */
  predicate CreateRulesHold(p: Payload, rows: map<int, User>)
  {
    && Filled(p.email) && p.email.value.Str? && ValidEmail(p.email.value.s) && !EmailTaken(p.email.value.s, rows)
    && Filled(p.password) && p.password.value.Str? && |p.password.value.s| >= 8
    && Filled(p.name) && p.name.value.Str? && |p.name.value.s| >= 2
    && Filled(p.lastName) && p.lastName.value.Str? && |p.lastName.value.s| >= 2
    && Filled(p.role) && IsRole(Text(p.role.value))
  }

  /** The per-field messages of a failed validation, in rule order; empty exactly when the rules hold. */
  function CreateErrors(p: Payload, rows: map<int, User>): (r: seq<FieldErrors>)
    ensures r == [] <==> CreateRulesHold(p, rows)
  {
    EmailCheck(p, rows);
    TextFieldCheck("password", p.password, 8, rows);
    TextFieldCheck("name", p.name, 2, rows);
    TextFieldCheck("last_name", p.lastName, 2, rows);
    RoleCheck(p, rows);
    Check("email", p.email, EmailRules, rows)
    + Check("password", p.password, PasswordRules, rows)
    + Check("name", p.name, NameRules, rows)
    + Check("last_name", p.lastName, LastNameRules, rows)
    + Check("role", p.role, RoleRules, rows)
  }

  lemma EmailCheck(p: Payload, rows: map<int, User>)
    ensures Check("email", p.email, EmailRules, rows) == [] <==>
              Filled(p.email) && p.email.value.Str? && ValidEmail(p.email.value.s) && !EmailTaken(p.email.value.s, rows)
  {
    if Filled(p.email) {
      AllPassThree(Required, IsEmail, UniqueEmail, p.email.value, rows);
    }
  }

  lemma TextFieldCheck(field: string, v: Option<Value>, min: nat, rows: map<int, User>)
    ensures Check(field, v, [Required, Min(min), IsString], rows) == [] <==>
              Filled(v) && v.value.Str? && |v.value.s| >= min
  {
    if Filled(v) {
      AllPassThree(Required, Min(min), IsString, v.value, rows);
    }
  }

  lemma RoleCheck(p: Payload, rows: map<int, User>)
    ensures Check("role", p.role, RoleRules, rows) == [] <==> Filled(p.role) && IsRole(Text(p.role.value))
  {
    if Filled(p.role) {
      AllPassTwo(Required, InRoles, p.role.value, rows);
    }
  }

  /** `validated()`: the five values of a payload that passed, as the row to create. */
  function CreateValidated(p: Payload, rows: map<int, User>): (r: NewUser)
    requires CreateRulesHold(p, rows)
    ensures p.email == Some(Str(r.email)) && p.password == Some(Str(r.password))
    ensures p.name == Some(Str(r.name)) && p.lastName == Some(Str(r.lastName))
    ensures r.role == Text(p.role.value)
    ensures ValidEmail(r.email) && !EmailTaken(r.email, rows)
    ensures |r.password| >= 8 && |r.name| >= 2 && |r.lastName| >= 2 && IsRole(r.role)
  {
    NewUser(p.email.value.s, p.password.value.s, p.name.value.s, p.lastName.value.s, Text(p.role.value))
  }
}
