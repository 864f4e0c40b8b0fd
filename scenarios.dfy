/**
 * The feature tests' situations, replayed on the model: a seeded admin
 * root user with id 1, then creates, deletes and validations as the tests
 * perform them.
 */
module Scenarios {
  import opened Wrappers
  import opened Accounts
  import opened Input
  import opened Helpers
  import opened ValidationRules
  import opened UserService
  import Create = AdminCreateUserRequest
  import Update = AdminUpdateUserDataRequest

  /** The seeded admin root user. */
  const RootData: NewUser := NewUser("example@example.com", "password", "User", "Test", Admin)
  const JuanData: NewUser := NewUser("juan@gmail.com", "juan12345", "Juan Salvador", "Hernandez", Normal)

  /** The seeded root admin (id 1) and one normal user created after it (id 2). */
  method SeededTable() returns (t: UserTable)
    ensures fresh(t) && t.Valid()
    ensures t.rows == map[1 := RowOf(1, RootData), 2 := RowOf(2, JuanData)]
    ensures t.ids == [1, 2] && t.nextId == 3
  {
    t := new UserTable();
    var seeded := t.CreateUser(RootData);
    var created := t.CreateUser(JuanData);
    assert created.status == 201;
  }

  /** Admin 1 deleting itself gets the own-user message, not the root message. */
  method DeleteOwnRecord()
  {
    var t := SeededTable();
    var r := t.DeleteUser(1, 1);
    assert r == Failure(HttpError(403, "You cannot delete your own user"));
    assert |t.rows| == 2;
  }

  /** Another admin deleting id 1 gets the root message. */
  method DeleteRootAdmin()
  {
    var t := SeededTable();
    var r := t.DeleteUser(1, 2);
    assert r == Failure(HttpError(403, "You cannot delete the admin root user"));
    assert |t.rows| == 2;
  }

  /** Deleting an id with no row gets 404. */
  method DeleteMissing()
  {
    var t := SeededTable();
    var r := t.DeleteUser(11, 1);
    assert r == Failure(HttpError(404, "User not found"));
  }

  /** Deleting another user leaves only the root admin. */
  method DeleteOther()
  {
    var t := SeededTable();
    var r := t.DeleteUser(2, 1);
    assert r == Success(Envelope(NoData, "User Deleted", 200, NoErrors));
    assert [1, 2][1..] == [2] && [2][1..] == [];
    assert t.rows.Keys == {1} && t.ids == [1];
  }

  /** An email used by a deleted row is free again, while the id is not reused. */
  method DeleteThenCreate()
  {
    var t := SeededTable();
    var deleted := t.DeleteUser(2, 1);
    assert deleted.Success?;
    assert t.rows == map[1 := RowOf(1, RootData)];
    assert !EmailTaken("juan@gmail.com", t.rows);
    assert [1, 2][1..] == [2] && [2][1..] == [];
    assert t.ids == [1] && t.nextId == 3;
    var again := t.CreateUser(JuanData);
    assert t.ids == [1, 3];
  }

  /** Juan's create payload from the create tests, with the given role. */
  function JuanPayload(role: string): Payload
  {
    Payload(None, Some(Str("juan@gmail.com")), Some(Str("juan12345")),
            Some(Str("Juan Salvador")), Some(Str("Hernandez")), Some(Str(role)))
  }

  /** Juan's email is valid under the model's email predicate. */
  lemma JuanEmailIsValid()
    ensures ValidEmail("juan@gmail.com")
  {
    var e := "juan@gmail.com";
    assert e[4] == '@';
    assert forall j :: 0 <= j < |e| && j != 4 ==> e[j] != '@';
    assert forall j :: 0 <= j < |e| ==> !IsTrimmed(e[j]);
  }

  /**
   * A role outside ADMIN and NORMAL fails only the role field, with the
   * framework's `in` message; the other four fields pass.
   */
  lemma InvalidRoleMessage()
    ensures Create.CreateErrors(JuanPayload("asasas"), map[]) == [FieldErrors("role", ["The selected role is invalid."])]
  {
    var p := JuanPayload("asasas");
    var rows: map<int, User> := map[];
    JuanEmailIsValid();
    assert !Blank("juan@gmail.com") by { assert !IsTrimmed("juan@gmail.com"[0]); }
    assert !Blank("juan12345") by { assert !IsTrimmed("juan12345"[0]); }
    assert !Blank("Juan Salvador") by { assert !IsTrimmed("Juan Salvador"[0]); }
    assert !Blank("Hernandez") by { assert !IsTrimmed("Hernandez"[0]); }
    Create.EmailCheck(p, rows);
    Create.TextFieldCheck("password", p.password, 8, rows);
    Create.TextFieldCheck("name", p.name, 2, rows);
    Create.TextFieldCheck("last_name", p.lastName, 2, rows);
    assert Check("email", p.email, Create.EmailRules, rows) == [];
    assert Check("password", p.password, Create.PasswordRules, rows) == [];
    assert Check("name", p.name, Create.NameRules, rows) == [];
    assert Check("last_name", p.lastName, Create.LastNameRules, rows) == [];
    RoleOnlyMessage(rows);
  }

  /** The role field's entry for the role "asasas". */
  lemma RoleOnlyMessage(rows: map<int, User>)
    ensures Check("role", Some(Str("asasas")), Create.RoleRules, rows) == [FieldErrors("role", ["The selected role is invalid."])]
  {
    var v := Str("asasas");
    assert !Blank("asasas") by { assert !IsTrimmed("asasas"[0]); }
    assert !Passes(InRoles, v, rows);
    assert Passes(Required, v, rows);
    assert Message("role", InRoles) == "The selected role is invalid.";
    assert [InRoles][1..] == [];
    assert RuleMessages("role", v, [InRoles], rows, []) == ["The selected role is invalid."];
    assert Create.RoleRules[1..] == [InRoles];
  }

  /** Leaving `name` out of a create payload gives the `required` message. */
  lemma MissingNameMessage()
    ensures Check("name", None, Create.NameRules, map[]) == [FieldErrors("name", ["The name field is required."])]
  {
    assert Required in Create.NameRules;
    assert DisplayName("name") == "name";
    assert Message("name", Required) == "The name field is required.";
  }

  /** A too-short last name fails `min`, and the message shows the field as "last name". */
  lemma ShortLastNameMessage()
    ensures Check("last_name", Some(Str("H")), Create.LastNameRules, map[]) ==
              [FieldErrors("last_name", [Message("last name", Min(2))])]
  {
    var v := Str("H");
    var shown := DisplayName("last_name");
    assert shown == "last name";
    assert !Blank("H") by { assert !IsTrimmed("H"[0]); }
    assert Passes(Required, v, map[]) && !Passes(Min(2), v, map[]) && Passes(IsString, v, map[]);
    var rules := Create.LastNameRules;
    assert rules[1..] == [Min(2), IsString] && rules[1..][1..] == [IsString] && rules[1..][1..][1..] == [];
    assert RuleMessages(shown, v, rules, map[], []) == [Message(shown, Min(2))];
  }

  /** An update naming only `name` keeps every other column of the row. */
  method UpdateOnlyName()
  {
    var t := SeededTable();
    var before := t.rows[2];
    var r := t.UpdateUser(2, [(Name, Str("Juan"))]);
    OnlyNameChanges(before, Str("Juan"));
    assert r.Success?;
    assert t.rows[2] == before.(name := "Juan");
    assert t.rows[1] == RowOf(1, RootData);
  }
}
