/**
 * UserService: the admin operations on the `users` table (create, delete,
 * fetch one, list, partial update). The table is a class holding the rows
 * by id, the ids in insertion order and the auto-increment counter.
 */
module UserService {
  import opened Wrappers
  import opened Accounts
  import opened Input
  import opened Helpers
  import HttpConstants

  const NotFoundMessage: string := "User not found"
  const OwnUserMessage: string := "You cannot delete your own user"
  const RootUserMessage: string := "You cannot delete the admin root user"

  /** The seeded root admin; nobody may delete it. */
  const RootAdminId: int := 1

  predicate StrictlyIncreasing(s: seq<int>)
  {
    forall i, j :: 0 <= i < j < |s| ==> s[i] < s[j]
  }

  /** The list with every occurrence of `x` taken out, order kept. */
  function Without(s: seq<int>, x: int): (r: seq<int>)
    ensures forall k :: k in r <==> k in s && k != x
    ensures StrictlyIncreasing(s) ==> StrictlyIncreasing(r)
  {
    if s == [] then []
    else
      var rest := Without(s[1..], x);
      if s[0] == x then rest
      else
        var r := [s[0]] + rest;
        assert StrictlyIncreasing(s) ==> StrictlyIncreasing(r) by {
          if StrictlyIncreasing(s) {
            forall k | k in rest ensures s[0] < k {
              var j :| 0 <= j < |s[1..]| && s[1..][j] == k;
              assert s[j + 1] == k;
            }
            forall i, j | 0 <= i < j < |r| ensures r[i] < r[j] {
              assert r[j] == rest[j - 1];
              assert r[j] in rest;
              if i > 0 {
                assert r[i] == rest[i - 1];
              }
            }
          }
        }
        r
  }

  /** The rows named by `ids`, in that order. */
  function InOrder(rows: map<int, User>, ids: seq<int>): (r: seq<User>)
    requires forall i :: 0 <= i < |ids| ==> ids[i] in rows
    ensures |r| == |ids|
    ensures forall i :: 0 <= i < |ids| ==> r[i] == rows[ids[i]]
  {
    if ids == [] then [] else [rows[ids[0]]] + InOrder(rows, ids[1..])
  }

  /** A list without repeats has as many elements as its set of elements. */
  lemma {:induction false} IncreasingCardinality(s: seq<int>)
    requires StrictlyIncreasing(s)
    ensures |set k | k in s| == |s|
  {
    if s != [] {
      IncreasingCardinality(s[1..]);
      var tail := set k | k in s[1..];
      assert (set k | k in s) == {s[0]} + tail;
      assert s[0] !in tail;
    }
  }

  /** A list of all the keys without repeats is as long as the table. */
  lemma KeysListedOnce(rows: map<int, User>, ids: seq<int>)
    requires forall k :: k in rows <==> k in ids
    requires StrictlyIncreasing(ids)
    ensures |ids| == |rows|
  {
    IncreasingCardinality(ids);
    assert forall k :: k in (set k | k in ids) <==> k in rows.Keys;
    assert (set k | k in ids) == rows.Keys;
  }

  lemma EveryRowListed(rows: map<int, User>, ids: seq<int>, users: seq<UserView>)
    requires forall k :: k in rows ==> rows[k].id == k
    requires forall k :: k in rows <==> k in ids
    requires |users| == |ids|
    requires forall i :: 0 <= i < |ids| ==> ids[i] in rows && users[i] == ProjectUser(rows[ids[i]])
    ensures forall k :: k in rows ==> exists i :: 0 <= i < |ids| && users[i].id == k
  {
    forall k | k in rows ensures exists i :: 0 <= i < |ids| && users[i].id == k {
      var i :| 0 <= i < |ids| && ids[i] == k;
      assert users[i].id == k;
    }
  }

  /** `$user[$key] = $text` for an ordinary column. */
  function WithAttribute(u: User, key: Key, text: string): User
    requires key != Id && key != Password
  {
    match key
    case Name => u.(name := text)
    case LastName => u.(lastName := text)
    case Email => u.(email := text)
    case Role => u.(role := text)
  }

  /** One step of the update loop: skip `id`, hash `password`, write any other key as given. */
  function ApplyField(u: User, field: (Key, Value)): User
  {
    var (key, value) := field;
    if key == Id then u
    else if key == Password then u.(password := Hash(Text(value)))
    else WithAttribute(u, key, Text(value))
  }

  /** The row after the update loop has gone over `fields` in order. */
  function ApplyFields(u: User, fields: Fields): User
    decreases |fields|
  {
    if fields == [] then u else ApplyField(ApplyFields(u, fields[..|fields| - 1]), fields[|fields| - 1])
  }

  function TextOr(v: Option<Value>, current: string): string
  {
    if v.Some? then Text(v.value) else current
  }

  /**
   * What the update loop leaves in each column: the id never changes, the
   * password is the digest of the last password given, every other column
   * holds the last value given for it, and a column no key names is untouched.
   */
  lemma {:induction false} ApplyFieldsByKey(u: User, fields: Fields)
    ensures ApplyFields(u, fields) == User(
              u.id,
              TextOr(Lookup(fields, Name), u.name),
              TextOr(Lookup(fields, LastName), u.lastName),
              TextOr(Lookup(fields, Email), u.email),
              if Lookup(fields, Password).Some? then Hash(Text(Lookup(fields, Password).value)) else u.password,
              TextOr(Lookup(fields, Role), u.role))
    decreases |fields|
  {
    if fields != [] {
      ApplyFieldsByKey(u, fields[..|fields| - 1]);
    }
  }

  /** A payload naming only `name` changes the name and nothing else. */
  lemma OnlyNameChanges(u: User, name: Value)
    ensures ApplyFields(u, [(Name, name)]) == u.(name := Text(name))
  {
    ApplyFieldsByKey(u, [(Name, name)]);
    assert [(Name, name)][..0] == [];
  }

  /** After a password update the stored digest verifies the new password and no other. */
  lemma PasswordUpdateVerifies(u: User, fields: Fields, plain: string, other: string)
    requires Lookup(fields, Password) == Some(Str(plain))
    ensures HashCheck(plain, ApplyFields(u, fields).password)
    ensures other != plain ==> !HashCheck(other, ApplyFields(u, fields).password)
  {
    ApplyFieldsByKey(u, fields);
  }

  function RespondWithUserCreated(u: User): Envelope
  {
    CreateResponseData(data := UserData(FormatUserData(u)), message := "User Created", status := HttpConstants.Created)
  }

  function RespondWithUserDeleted(): Envelope
  {
    CreateResponseData(message := "User Deleted")
  }

  function RespondWithUserData(u: User): Envelope
  {
    CreateResponseData(data := UserData(FormatUserData(u)))
  }

  function RespondWithUsersList(users: seq<User>): Envelope
  {
    CreateResponseData(data := UsersData(MapArrayFormatUsersData(users)))
  }

  function RespondWithUserUpdated(u: User): Envelope
  {
    CreateResponseData(data := UserData(FormatUserData(u)), message := "User Updated")
  }

  /** The `users` table together with the operations of the service. */
  class UserTable {
    /** The rows, by primary key. */
    var rows: map<int, User>
    /** The primary keys in the order the rows were inserted, which is the order `User::all()` returns. */
    var ids: seq<int>
    /** The next auto-increment value; ids are never reused. */
    var nextId: int

    ghost predicate Valid()
      reads this
    {
      && 1 <= nextId
      && (forall k :: k in rows ==> rows[k].id == k && 1 <= k < nextId)
      && (forall k :: k in rows <==> k in ids)
      && (forall i :: 0 <= i < |ids| ==> ids[i] in rows)
      && StrictlyIncreasing(ids)
    }

    /** An empty table whose first row will get id 1. */
    constructor ()
      ensures Valid() && rows == map[] && ids == [] && nextId == 1
    {
      rows, ids, nextId := map[], [], 1;
    }

    /** `$user->save()` for a row that exists: the stored row becomes `u`. */
    method Save(u: User)
      requires Valid() && u.id in rows
      modifies this
      ensures Valid()
      ensures rows == old(rows)[u.id := u] && ids == old(ids) && nextId == old(nextId)
    {
      rows := rows[u.id := u];
    }

    /** `createUser`: insert one row under the next id and answer 201 "User Created" with it. */
    method CreateUser(data: NewUser) returns (r: Envelope)
      requires Valid()
      modifies this
      ensures Valid()
      ensures rows == old(rows)[old(nextId) := RowOf(old(nextId), data)] && old(nextId) !in old(rows)
      ensures ids == old(ids) + [old(nextId)] && nextId == old(nextId) + 1
      ensures |rows| == |old(rows)| + 1
      ensures r == Envelope(UserData(FormatUserData(RowOf(old(nextId), data))), "User Created", 201, NoErrors)
    {
      var id := nextId;
      assert forall k :: k in ids ==> k < id;
      var user := RowOf(id, data);
      rows := rows[id := user];
      ghost var before := ids;
      ids := ids + [id];
      assert forall i :: 0 <= i < |before| ==> ids[i] == before[i] && before[i] in before;
      nextId := nextId + 1;
      r := RespondWithUserCreated(user);
    }

    /**
     * `deleteUser`: the guards run in order (missing row, the actor's own
     * row, the root admin) and the first that applies aborts with the
     * table untouched; otherwise exactly that row goes.
     */
    method DeleteUser(id: int, actorId: int) returns (r: Result<Envelope, HttpError>)
      requires Valid()
      modifies this
      ensures Valid()
      ensures id !in old(rows) ==> r == Failure(HttpError(404, NotFoundMessage))
      ensures id in old(rows) && id == actorId ==> r == Failure(HttpError(403, OwnUserMessage))
      ensures id in old(rows) && id != actorId && id == RootAdminId ==> r == Failure(HttpError(403, RootUserMessage))
      ensures r.Failure? ==> rows == old(rows) && ids == old(ids) && nextId == old(nextId)
      ensures r.Success? <==> id in old(rows) && id != actorId && id != RootAdminId
      ensures r.Success? ==> r.value == Envelope(NoData, "User Deleted", 200, NoErrors)
      ensures r.Success? ==> rows == old(rows) - {id} && |rows| == |old(rows)| - 1
      ensures r.Success? ==> ids == Without(old(ids), id) && nextId == old(nextId)
      ensures RootAdminId in old(rows) ==> RootAdminId in rows
      ensures actorId in old(rows) ==> actorId in rows
    {
      if id !in rows {
        return ThrowHttpException(HttpConstants.NotFound, NotFoundMessage);
      }
      if id == actorId {
        return ThrowHttpException(HttpConstants.Forbidden, OwnUserMessage);
      }
      if id == RootAdminId {
        return ThrowHttpException(HttpConstants.Forbidden, RootUserMessage);
      }
      rows := rows - {id};
      ids := Without(ids, id);
      r := Success(RespondWithUserDeleted());
    }

    /** `getUser`: the row's view with "OK", or 404 "User not found". */
    function GetUser(id: int): (r: Result<Envelope, HttpError>)
      reads this
      ensures r.Failure? <==> id !in rows
      ensures r.Failure? ==> r.error == HttpError(404, NotFoundMessage)
      ensures r.Success? ==> r.value == Envelope(UserData(FormatUserData(rows[id])), "OK", 200, NoErrors)
    {
      if id !in rows then ThrowHttpException(HttpConstants.NotFound, NotFoundMessage)
      else Success(RespondWithUserData(rows[id]))
    }

    /** `getUsers`: every row, in insertion order, projected without its password. */
    function GetUsers(): (r: Envelope)
      reads this
      requires Valid()
      ensures r.message == "OK" && r.status == 200 && r.errors == NoErrors && r.data.UsersData?
      ensures |r.data.users| == |rows| == |ids|
      ensures forall i :: 0 <= i < |ids| ==> r.data.users[i] == ProjectUser(rows[ids[i]])
      ensures forall k :: k in rows ==> exists i :: 0 <= i < |ids| && r.data.users[i].id == k
    {
      KeysListedOnce(rows, ids);
      var r := RespondWithUsersList(InOrder(rows, ids));
      EveryRowListed(rows, ids, r.data.users);
      r
    }

    /** `updateUserFields`: the loop over the payload, then `save()` and `fresh()`. */
    method UpdateUserFields(fields: Fields, id: int) returns (updated: User)
      requires Valid() && id in rows
      modifies this
      ensures Valid()
      ensures rows == old(rows)[id := ApplyFields(old(rows)[id], fields)]
      ensures ids == old(ids) && nextId == old(nextId)
      ensures updated == rows[id]
    {
      var user := rows[id];
      var i := 0;
      while i < |fields|
        invariant 0 <= i <= |fields|
        invariant user == ApplyFields(rows[id], fields[..i]) && user.id == id
        invariant unchanged(this)
      {
        var (key, value) := fields[i];
        assert fields[..i + 1][..i] == fields[..i];
        if key == Id {
          // the route id is never written
        } else if key == Password {
          user := user.(password := Hash(Text(value)));
        } else {
          user := WithAttribute(user, key, Text(value));
        }
        i := i + 1;
      }
      assert fields[..i] == fields;
      Save(user);
      updated := rows[id];
    }

    /** `updateUser`: 404 "User not found" for a missing row, else the loop and 200 "User Updated". */
    method UpdateUser(id: int, fields: Fields) returns (r: Result<Envelope, HttpError>)
      requires Valid()
      modifies this
      ensures Valid() && ids == old(ids) && nextId == old(nextId)
      ensures r.Failure? <==> id !in old(rows)
      ensures r.Failure? ==> r.error == HttpError(404, NotFoundMessage) && rows == old(rows)
      ensures r.Success? ==> rows == old(rows)[id := ApplyFields(old(rows)[id], fields)]
      ensures r.Success? ==> r.value == Envelope(UserData(FormatUserData(rows[id])), "User Updated", 200, NoErrors)
    {
      if id !in rows {
        return ThrowHttpException(HttpConstants.NotFound, NotFoundMessage);
      }
      var updated := UpdateUserFields(fields, id);
      r := Success(RespondWithUserUpdated(updated));
    }
  }
}
