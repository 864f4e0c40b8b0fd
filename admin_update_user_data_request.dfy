/**
 * AdminUpdateUserDataRequest: who may update an account and what a partial
 * update payload must satisfy. The route id is merged into the payload
 * before validation; every other field is optional.
 */
module AdminUpdateUserDataRequest {
  import opened Wrappers
  import opened Accounts
  import opened Input
  import opened Helpers
  import opened ValidationRules

  /** Only an authenticated actor whose role is ADMIN may update accounts. */
  function Authorize(actor: Option<User>): (r: bool)
    ensures r <==> actor.Some? && actor.value.role == Admin
  {
    actor.Some? && actor.value.role == "ADMIN"
  }

  /** `prepareForValidation`: the route segment replaces whatever `id` the body carried. */
  function PrepareForValidation(body: Payload, routeId: string): (r: Payload)
    ensures r.id == Some(Str(routeId))
    ensures r.email == body.email && r.password == body.password && r.name == body.name
    ensures r.lastName == body.lastName && r.role == body.role
  {
    body.(id := Some(Str(routeId)))
  }

  const IdRules: seq<Rule> := [IsInteger, ExistsId]
  const NameRules: seq<Rule> := [Nullable, Min(2), IsString]
  const LastNameRules: seq<Rule> := [Nullable, Min(2), IsString]
  const PasswordRules: seq<Rule> := [Nullable, Min(8), IsString]
  const RoleRules: seq<Rule> := [Nullable, InRoles]
  const EmailRules: seq<Rule> := [Nullable, IsEmail, UniqueEmail]

  /**
   * The rule table read as one condition: each field that is filled in
   * obeys its rules. Email uniqueness is checked against every row,
   * the target's own included.
   */
  predicate UpdateRulesHold(p: Payload, rows: map<int, User>)
  {
    && (Absent(p.id) || (IntegerValue(p.id.value) && IdValue(p.id.value).value in rows))
    && (Absent(p.name) || (p.name.value.Str? && |p.name.value.s| >= 2))
    && (Absent(p.lastName) || (p.lastName.value.Str? && |p.lastName.value.s| >= 2))
    && (Absent(p.password) || (p.password.value.Str? && |p.password.value.s| >= 8))
    && (Absent(p.role) || IsRole(Text(p.role.value)))
    && (Absent(p.email) || (p.email.value.Str? && ValidEmail(p.email.value.s) && !EmailTaken(p.email.value.s, rows)))
  }

  /** The per-field messages of a failed validation, in rule order; empty exactly when the rules hold. */
  function UpdateErrors(p: Payload, rows: map<int, User>): (r: seq<FieldErrors>)
    ensures r == [] <==> UpdateRulesHold(p, rows)
  {
    IdCheck(p, rows);
    TextFieldCheck("name", p.name, 2, rows);
    TextFieldCheck("last_name", p.lastName, 2, rows);
    TextFieldCheck("password", p.password, 8, rows);
    RoleCheck(p, rows);
    EmailCheck(p, rows);
    Check("id", p.id, IdRules, rows)
    + Check("name", p.name, NameRules, rows)
    + Check("last_name", p.lastName, LastNameRules, rows)
    + Check("password", p.password, PasswordRules, rows)
    + Check("role", p.role, RoleRules, rows)
    + Check("email", p.email, EmailRules, rows)
  }

  lemma IdCheck(p: Payload, rows: map<int, User>)
    ensures Check("id", p.id, IdRules, rows) == [] <==>
              Absent(p.id) || (IntegerValue(p.id.value) && IdValue(p.id.value).value in rows)
  {
    if !Absent(p.id) {
      AllPassTwo(IsInteger, ExistsId, p.id.value, rows);
    }
  }

  lemma TextFieldCheck(field: string, v: Option<Value>, min: nat, rows: map<int, User>)
    ensures Check(field, v, [Nullable, Min(min), IsString], rows) == [] <==>
              Absent(v) || (v.value.Str? && |v.value.s| >= min)
  {
    if !Absent(v) {
      AllPassThree(Nullable, Min(min), IsString, v.value, rows);
    }
  }

  lemma RoleCheck(p: Payload, rows: map<int, User>)
    ensures Check("role", p.role, RoleRules, rows) == [] <==> Absent(p.role) || IsRole(Text(p.role.value))
  {
    if !Absent(p.role) {
      AllPassTwo(Nullable, InRoles, p.role.value, rows);
    }
  }

  lemma EmailCheck(p: Payload, rows: map<int, User>)
    ensures Check("email", p.email, EmailRules, rows) == [] <==>
              Absent(p.email) || (p.email.value.Str? && ValidEmail(p.email.value.s) && !EmailTaken(p.email.value.s, rows))
  {
    if !Absent(p.email) {
      AllPassThree(Nullable, IsEmail, UniqueEmail, p.email.value, rows);
    }
  }

  /** `validated()`: the keys the payload carries, in rule order, each with its value. */
  function UpdateValidated(p: Payload): (r: Fields)
    ensures Lookup(r, Id) == p.id && Lookup(r, Name) == p.name && Lookup(r, LastName) == p.lastName
    ensures Lookup(r, Password) == p.password && Lookup(r, Role) == p.role && Lookup(r, Email) == p.email
  {
    var f1 := Selected(Id, p.id);
    var f2 := f1 + Selected(Name, p.name);
    var f3 := f2 + Selected(LastName, p.lastName);
    var f4 := f3 + Selected(Password, p.password);
    var f5 := f4 + Selected(Role, p.role);
    var f6 := f5 + Selected(Email, p.email);
    LookupAll([], f1);
    LookupAll(f1, Selected(Name, p.name));
    LookupAll(f2, Selected(LastName, p.lastName));
    LookupAll(f3, Selected(Password, p.password));
    LookupAll(f4, Selected(Role, p.role));
    LookupAll(f5, Selected(Email, p.email));
    f6
  }

  lemma LookupAll(a: Fields, b: Fields)
    ensures forall key :: Lookup(a + b, key) == if Lookup(b, key).Some? then Lookup(b, key) else Lookup(a, key)
  {
    forall key {
      LookupAppend(a, b, key);
    }
  }

  /** A payload's own email, even the target's current one, is refused when any row has it. */
  lemma OwnEmailIsTaken(p: Payload, rows: map<int, User>, id: int)
    requires id in rows && p.email == Some(Str(rows[id].email))
    ensures !UpdateRulesHold(p, rows) || Blank(rows[id].email)
  {
  }
}
