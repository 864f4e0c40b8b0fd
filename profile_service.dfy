/**
 * ProfileService: an authenticated user's changes to their own row. The
 * authenticated user is the explicit `actorId`.
 */
module ProfileService {
  import opened Accounts
  import opened Helpers
  import opened UserService

  /** The validated profile payload: the name and last name, nothing else. */
  datatype ProfileData = ProfileData(name: string, lastName: string)

  function RespondWithProfileDataUpdated(user: UserView): Envelope
  {
    CreateResponseData(data := UserData(user), message := "Profile Updated")
  }

  function RespondWithProfilePasswordUpdated(user: UserView): Envelope
  {
    CreateResponseData(data := UserData(user), message := "Profile Password Updated")
  }

  /** `updateData`: the actor's name and last name change; no other column and no other row does. */
  method UpdateData(t: UserTable, actorId: int, data: ProfileData) returns (r: Envelope)
    requires t.Valid() && actorId in t.rows
    modifies t
    ensures t.Valid() && t.ids == old(t.ids) && t.nextId == old(t.nextId)
    ensures t.rows == old(t.rows)[actorId := old(t.rows[actorId]).(name := data.name, lastName := data.lastName)]
    ensures t.rows[actorId].email == old(t.rows[actorId].email) && t.rows[actorId].password == old(t.rows[actorId].password)
    ensures r == Envelope(UserData(FormatUserData(t.rows[actorId])), "Profile Updated", 200, NoErrors)
    ensures old(AllRolesValid(t.rows)) ==> AllRolesValid(t.rows)
    ensures old(EmailsUnique(t.rows)) ==> EmailsUnique(t.rows)
  {
    var user := t.rows[actorId];
    var changed := user.(name := data.name, lastName := data.lastName);
    ReplaceKeepsInvariants(t.rows, actorId, changed);
    t.Save(changed);
    r := RespondWithProfileDataUpdated(FormatUserData(t.rows[actorId]));
  }

  /** `updatePassword`: the actor's stored digest becomes that of the new password; nothing else changes. */
  method UpdatePassword(t: UserTable, actorId: int, password: string) returns (r: Envelope)
    requires t.Valid() && actorId in t.rows
    modifies t
    ensures t.Valid() && t.ids == old(t.ids) && t.nextId == old(t.nextId)
    ensures t.rows == old(t.rows)[actorId := old(t.rows[actorId]).(password := Hash(password))]
    ensures HashCheck(password, t.rows[actorId].password)
    ensures r == Envelope(UserData(FormatUserData(t.rows[actorId])), "Profile Password Updated", 200, NoErrors)
    ensures old(AllRolesValid(t.rows)) ==> AllRolesValid(t.rows)
    ensures old(EmailsUnique(t.rows)) ==> EmailsUnique(t.rows)
  {
    var user := t.rows[actorId];
    var changed := user.(password := Hash(password));
    ReplaceKeepsInvariants(t.rows, actorId, changed);
    t.Save(changed);
    r := RespondWithProfilePasswordUpdated(FormatUserData(t.rows[actorId]));
  }
}
