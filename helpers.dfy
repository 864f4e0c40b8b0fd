/**
 * The response envelope every endpoint returns, the JSON response built
 * from it, the abort helper, and the projection of user rows that leaves
 * the password out (backend/app/Helpers/helpers.php).
 */
module Helpers {
  import opened Wrappers
  import opened Accounts
  import HttpConstants

  /** A user as the API shows it: every column except the password. */
  datatype UserView = UserView(id: int, name: string, lastName: string, email: string, role: string)

  /** The messages the validator reports for one field. */
  datatype FieldErrors = FieldErrors(field: string, messages: seq<string>)

  /** The `data` member: `[]`, `['user' => ...]` or `['users' => [...]]`. */
  datatype Data = NoData | UserData(user: UserView) | UsersData(users: seq<UserView>)

  /** The `errors` member: a list of messages (`[]` when there are none) or the per-field map. */
  datatype Errors = Messages(list: seq<string>) | ByField(fields: seq<FieldErrors>)

  const NoErrors: Errors := Messages([])

  /** The uniform envelope `{data, message, status, errors}`. */
  datatype Envelope = Envelope(data: Data, message: string, status: int, errors: Errors)

  /** What goes on the wire: a transport status and the JSON body. */
  datatype HttpResponse = HttpResponse(status: int, body: Envelope)

  /** An `abort($status, $message)` the service raises. */
  datatype HttpError = HttpError(status: int, message: string)

  /** `jsonResponse`: the envelope is the body and its own `status` is the transport status. */
  function JsonResponse(envelope: Envelope): (r: HttpResponse)
    ensures r.status == envelope.status && r.body == envelope
  {
    HttpResponse(envelope.status, envelope)
  }

  /** `createResponseData`, with the source's defaults for every argument. */
  function CreateResponseData(data: Data := NoData, message: string := "OK",
                              status: int := HttpConstants.Ok, errors: Errors := NoErrors): Envelope
  {
    Envelope(data, message, status, errors)
  }

  /** Called with nothing, the envelope is `{data: [], message: "OK", status: 200, errors: []}`. */
  lemma CreateResponseDataDefaults()
    ensures CreateResponseData() == Envelope(NoData, "OK", 200, Messages([]))
  {
  }

  /** The envelope carries exactly the four members it was given, unchanged. */
  lemma CreateResponseDataKeepsArguments(data: Data, message: string, status: int, errors: Errors)
    ensures var e := CreateResponseData(data, message, status, errors);
            e.data == data && e.message == message && e.status == status && e.errors == errors
  {
  }

  /** `throwHttpException`: the request ends with this status and message. */
  function ThrowHttpException<T>(status: int, message: string): (r: Result<T, HttpError>)
    ensures r.Failure? && r.error.status == status && r.error.message == message
  {
    Failure(HttpError(status, message))
  }

  /** The array literal of `mapArrayFormatUsersData` for one user. */
  function ProjectUser(u: User): UserView
  {
    UserView(u.id, u.name, u.lastName, u.email, u.role)
  }

  /** The projection reveals nothing of the password: rows that differ only there look the same. */
  lemma ProjectionHidesPassword(u: User, other: PasswordHash)
    ensures ProjectUser(u.(password := other)) == ProjectUser(u)
    ensures var v := ProjectUser(u);
            v.id == u.id && v.name == u.name && v.lastName == u.lastName && v.email == u.email && v.role == u.role
  {
  }

  /** `mapArrayFormatUsersData`: one view per row, same length, same order, fields copied. */
  function MapArrayFormatUsersData(users: seq<User>): (r: seq<UserView>)
    ensures |r| == |users|
    ensures forall i :: 0 <= i < |users| ==> r[i] == ProjectUser(users[i])
    ensures forall i :: 0 <= i < |users| ==>
              r[i].id == users[i].id && r[i].name == users[i].name && r[i].lastName == users[i].lastName
              && r[i].email == users[i].email && r[i].role == users[i].role
  {
    if users == [] then [] else [ProjectUser(users[0])] + MapArrayFormatUsersData(users[1..])
  }

  /** `formatUserData`: the user resource, which shows the same five fields as the list projection. */
  function FormatUserData(u: User): UserView
  {
    ProjectUser(u)
  }
}
