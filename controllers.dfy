/**
 * The request lifecycle of the two admin endpoints whose request classes
 * are part of the model: merge the route id, authorize, validate, call the
 * service, and render whatever was thrown. POST /users and PUT /users/{id}.
 */
module Controllers {
  import opened Wrappers
  import opened Accounts
  import opened Input
  import opened Helpers
  import opened ExceptionRendering
  import opened UserService
  import Create = AdminCreateUserRequest
  import Update = AdminUpdateUserDataRequest
  import HttpConstants
  import ValidationRules

  /** The message the framework gives a request whose `authorize()` says no. */
  const UnauthorizedMessage: string := "This action is unauthorized."

  /** The response to a request that fails authorization. */
  function ForbiddenResponse(): (r: HttpResponse)
    ensures r == HttpResponse(403, Envelope(NoData, UnauthorizedMessage, 403, Messages([UnauthorizedMessage])))
  {
    JsonResponse(Render(HttpException(HttpConstants.Forbidden, UnauthorizedMessage)))
  }

  /** No field of the body is a blank string (the framework would have turned one into null). */
  predicate NoBlankValues(p: Payload)
  {
    && (p.email.Some? ==> !ValidationRules.Absent(p.email))
    && (p.password.Some? ==> !ValidationRules.Absent(p.password))
    && (p.name.Some? ==> !ValidationRules.Absent(p.name))
    && (p.lastName.Some? ==> !ValidationRules.Absent(p.lastName))
    && (p.role.Some? ==> !ValidationRules.Absent(p.role))
  }

  /** A create that passes validation inserts a row with a valid role and an email no row had. */
  lemma ValidCreateKeepsInvariants(rows: map<int, User>, p: Payload, id: int)
    requires Create.CreateRulesHold(p, rows) && id !in rows
    ensures var rows' := rows[id := RowOf(id, Create.CreateValidated(p, rows))];
            (AllRolesValid(rows) ==> AllRolesValid(rows')) && (EmailsUnique(rows) ==> EmailsUnique(rows'))
  {
    InsertKeepsInvariants(rows, id, RowOf(id, Create.CreateValidated(p, rows)));
  }

  /**
   * An update that passes validation, and has no blank values, leaves a
   * valid role valid and never gives the row an email another row has.
   */
  lemma ValidUpdateKeepsInvariants(rows: map<int, User>, p: Payload, id: int)
    requires Update.UpdateRulesHold(p, rows) && NoBlankValues(p) && id in rows
    ensures var u := ApplyFields(rows[id], Update.UpdateValidated(p));
            u.id == rows[id].id
    ensures var rows' := rows[id := ApplyFields(rows[id], Update.UpdateValidated(p))];
            (AllRolesValid(rows) ==> AllRolesValid(rows')) && (EmailsUnique(rows) ==> EmailsUnique(rows'))
  {
    var fields := Update.UpdateValidated(p);
    var u := ApplyFields(rows[id], fields);
    ApplyFieldsByKey(rows[id], fields);
    assert IsRole(rows[id].role) ==> IsRole(u.role);
    assert u.email == rows[id].email || !EmailTaken(u.email, rows);
    ReplaceKeepsInvariants(rows, id, u);
  }

  /** Integer text is never blank. */
  lemma IntegerTextIsFilled(s: string)
    requires IsIntegerText(s)
    ensures !Blank(s)
  {
    if IsNatText(s) {
      assert IsDigit(s[0]);
    } else {
      assert s[1..][0] == s[1];
      assert IsDigit(s[1]);
    }
  }

  /** A non-blank route segment that is not integer text fails the `integer` rule, so the request gets 422. */
  lemma NonIntegerRouteIsRejected(body: Payload, routeId: string, rows: map<int, User>)
    requires !Blank(routeId) && !IsIntegerText(routeId)
    ensures !Update.UpdateRulesHold(Update.PrepareForValidation(body, routeId), rows)
  {
    Update.IdCheck(Update.PrepareForValidation(body, routeId), rows);
  }

  /** A route segment that passes validation but is not integer text is blank. */
  lemma UnparsedRouteIsBlank(body: Payload, routeId: string, rows: map<int, User>)
    requires Update.UpdateRulesHold(Update.PrepareForValidation(body, routeId), rows)
    requires ParseInt(routeId).None?
    ensures Blank(routeId)
  {
    if !Blank(routeId) {
      NonIntegerRouteIsRejected(body, routeId, rows);
    }
  }

  /** POST /users: `AdminCreateUserRequest`, then `UserService::createUser`. */
  method CreateUser(t: UserTable, actor: Option<User>, body: Payload) returns (resp: HttpResponse)
    requires t.Valid()
    modifies t
    ensures t.Valid()
    ensures !Create.Authorize(actor) ==> resp == ForbiddenResponse() && unchanged(t)
    ensures Create.Authorize(actor) && !Create.CreateRulesHold(body, old(t.rows)) ==>
              resp == JsonResponse(Render(FromValidation(Create.CreateErrors(body, old(t.rows)))))
              && resp.status == 422 && unchanged(t)
    ensures Create.Authorize(actor) && Create.CreateRulesHold(body, old(t.rows)) ==>
              && t.rows == old(t.rows)[old(t.nextId) := RowOf(old(t.nextId), Create.CreateValidated(body, old(t.rows)))]
              && t.ids == old(t.ids) + [old(t.nextId)]
              && resp == HttpResponse(201, Envelope(UserData(FormatUserData(t.rows[old(t.nextId)])), "User Created", 201, NoErrors))
    ensures old(AllRolesValid(t.rows)) ==> AllRolesValid(t.rows)
    ensures old(EmailsUnique(t.rows)) ==> EmailsUnique(t.rows)
  {
    if !Create.Authorize(actor) {
      return ForbiddenResponse();
    }
    var errors := Create.CreateErrors(body, t.rows);
    if errors != [] {
      return JsonResponse(Render(FromValidation(errors)));
    }
    var data := Create.CreateValidated(body, t.rows);
    ValidCreateKeepsInvariants(t.rows, body, t.nextId);
    var envelope := t.CreateUser(data);
    resp := JsonResponse(envelope);
  }

  /** PUT /users/{id}: `AdminUpdateUserDataRequest`, then `UserService::updateUser`. */
  method UpdateUser(t: UserTable, actor: Option<User>, routeId: string, body: Payload) returns (resp: HttpResponse)
    requires t.Valid()
    modifies t
    ensures t.Valid() && t.ids == old(t.ids) && t.nextId == old(t.nextId)
    ensures !Update.Authorize(actor) ==> resp == ForbiddenResponse() && unchanged(t)
    ensures var p := Update.PrepareForValidation(body, routeId);
            Update.Authorize(actor) && !Update.UpdateRulesHold(p, old(t.rows)) ==>
              resp == JsonResponse(Render(FromValidation(Update.UpdateErrors(p, old(t.rows)))))
              && resp.status == 422 && unchanged(t)
    ensures var p := Update.PrepareForValidation(body, routeId);
            Update.Authorize(actor) && Update.UpdateRulesHold(p, old(t.rows)) && ParseInt(routeId).None? ==>
              Blank(routeId) && resp.status == 404 && unchanged(t)
    ensures var p := Update.PrepareForValidation(body, routeId);
            Update.Authorize(actor) && Update.UpdateRulesHold(p, old(t.rows)) && ParseInt(routeId).Some? ==>
              var id := ParseInt(routeId).value;
              && id in old(t.rows)
              && t.rows == old(t.rows)[id := ApplyFields(old(t.rows)[id], Update.UpdateValidated(p))]
              && resp == HttpResponse(200, Envelope(UserData(FormatUserData(t.rows[id])), "User Updated", 200, NoErrors))
    ensures old(AllRolesValid(t.rows)) && NoBlankValues(body) ==> AllRolesValid(t.rows)
    ensures old(EmailsUnique(t.rows)) && NoBlankValues(body) ==> EmailsUnique(t.rows)
  {
    var p := Update.PrepareForValidation(body, routeId);
    if !Update.Authorize(actor) {
      return ForbiddenResponse();
    }
    var errors := Update.UpdateErrors(p, t.rows);
    if errors != [] {
      return JsonResponse(Render(FromValidation(errors)));
    }
    var fields := Update.UpdateValidated(p);
    var id := ParseInt(routeId);
    if id.None? {
      UnparsedRouteIsBlank(body, routeId, t.rows);
      // only a blank segment gets here: the rules skip it and `User::find` finds no row
      return JsonResponse(Render(FromAbort(HttpError(HttpConstants.NotFound, NotFoundMessage))));
    }
    IntegerTextIsFilled(routeId);
    if NoBlankValues(body) {
      ValidUpdateKeepsInvariants(t.rows, p, id.value);
    }
    var result := t.UpdateUser(id.value, fields);
    match result {
      case Success(envelope) => resp := JsonResponse(envelope);
      case Failure(e) => resp := JsonResponse(Render(FromAbort(e)));
    }
  }
}
