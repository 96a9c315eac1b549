/**
  The four Express handlers of the Lab3 back end.  Each is modelled as the
  decision it makes: which database call it issues, if any, and which
  status and JSON body it sends.  The Supabase client is not modelled: a
  handler takes the reply the database gives to its call as a parameter,
  and a validation failure ignores it because no call is made.
 */
module UserServer {
  import opened Seqs
  import opened Http
  import opened Users

  /** What an awaited Supabase query yields: `{ data, error }`, with the
      error's `message` when there is an error, or a rejected promise. */
  datatype DbReply = Reply(data: Option<seq<User>>, error: Option<string>) | Threw

  predicate Failed(reply: DbReply) {
    reply.Threw? || reply.error.Some?
  }

  /** The database calls the handlers issue. */
  datatype DbCall =
    | Insert(row: Body)
    | SelectAll
    | DeleteWhere(id: string)
    | UpdateWhere(id: string, changes: Body)

  datatype Outcome = Outcome(call: Option<DbCall>, response: Response<seq<User>>)

  /** `!data || data.length === 0` */
  predicate NoRows(data: Option<seq<User>>) {
    data.None? || |data.value| == 0
  }

  // ---------------------------------------------------------------- registerUser

  /** All five fields of a registration are truthy. */
  predicate HasRegistrationFields(body: Body) {
    && Truthy(Field(body, "firstName"))
    && Truthy(Field(body, "lastName"))
    && Truthy(Field(body, "groupName"))
    && Truthy(Field(body, "expectedSalary"))
    && Truthy(Field(body, "expectedDateOfDefense"))
  }

  /** The row inserted: the five fields and nothing else from the body. */
  function RegistrationRow(body: Body): (row: Body)
    ensures row.Keys == {"firstName", "lastName", "groupName", "expectedSalary", "expectedDateOfDefense"}
    ensures forall k :: k in row ==> row[k] == Field(body, k)
  {
    map["firstName" := Field(body, "firstName"),
        "lastName" := Field(body, "lastName"),
        "groupName" := Field(body, "groupName"),
        "expectedSalary" := Field(body, "expectedSalary"),
        "expectedDateOfDefense" := Field(body, "expectedDateOfDefense")]
  }

  /** `POST /registerUser` */
  function RegisterUser(body: Body, reply: DbReply): (r: Outcome)
    ensures r.response.status in {400, 500, 201}
    ensures r.response.status == 400 <==> !HasRegistrationFields(body)
    ensures r.response.status == 400 ==>
              r.call.None? && r.response.payload == ErrorBody("All fields are required")
    ensures HasRegistrationFields(body) ==> r.call == Some(Insert(RegistrationRow(body)))
    ensures r.response.status == 500 <==> HasRegistrationFields(body) && Failed(reply)
    ensures r.response.status == 500 && reply.Threw? ==> r.response.payload == ErrorBody("Internal server error")
    ensures r.response.status == 500 && reply.Reply? ==> r.response.payload == ErrorBody(reply.error.value)
    ensures r.response.status == 201 ==>
              r.response.payload == OkBody(Some("Successfully registered the user!"), None, reply.data)
  {
    if !HasRegistrationFields(body) then
      Outcome(None, Error(400, "All fields are required"))
    else
      var call := Some(Insert(RegistrationRow(body)));
      match reply
      case Threw => Outcome(call, Error(500, "Internal server error"))
      case Reply(data, Some(message)) => Outcome(call, Error(500, message))
      case Reply(data, None) =>
        Outcome(call, Response(201, OkBody(Some("Successfully registered the user!"), None, data)))
  }

  /** A registration with a missing field is answered before the database
      is reached, so whatever the database would have said is irrelevant. */
  lemma RegisterValidationIgnoresDb(body: Body, reply1: DbReply, reply2: DbReply)
    requires !HasRegistrationFields(body)
    ensures RegisterUser(body, reply1) == RegisterUser(body, reply2)
  {
  }

  // ---------------------------------------------------------------- getUsers

  /** `GET /getUsers` */
  function GetUsers(reply: DbReply): (r: Outcome)
    ensures r.call == Some(SelectAll)
    ensures r.response.status in {500, 404, 200}
    ensures r.response.status == 500 <==> Failed(reply)
    ensures r.response.status == 500 && reply.Threw? ==> r.response.payload == ErrorBody("Internal server error")
    ensures r.response.status == 500 && reply.Reply? ==> r.response.payload == ErrorBody(reply.error.value)
    ensures r.response.status == 404 <==> reply.Reply? && reply.error.None? && NoRows(reply.data)
    ensures r.response.status == 404 ==> r.response.payload == ErrorBody("No users found!")
    ensures r.response.status == 200 ==>
              r.response.payload == OkBody(None, None, reply.data) && |reply.data.value| > 0
  {
    match reply
    case Threw => Outcome(Some(SelectAll), Error(500, "Internal server error"))
    case Reply(_, Some(message)) => Outcome(Some(SelectAll), Error(500, message))
    case Reply(data, None) =>
      if NoRows(data) then Outcome(Some(SelectAll), Error(404, "No users found!"))
      else Outcome(Some(SelectAll), Response(200, OkBody(None, None, data)))
  }

  /** Listing and updating read a successful reply the same way: no rows,
      whether `null` or empty, is a 404, and rows are a 200 carrying them. */
  lemma GetUsersAgreesWithUpdate(id: string, body: Body, data: Option<seq<User>>)
    requires id != ""
    ensures GetUsers(Reply(data, None)).response.status == 404 <==>
            UpdateUser(id, body, Reply(data, None)).response.status == 404
    ensures GetUsers(Reply(data, None)).response.status == 200 <==>
            UpdateUser(id, body, Reply(data, None)).response.status == 200
    ensures GetUsers(Reply(data, None)).response.status == 200 ==>
            GetUsers(Reply(data, None)).response.payload.data ==
            UpdateUser(id, body, Reply(data, None)).response.payload.data == data
  {
  }

  // ---------------------------------------------------------------- deleteUser

  /** `DELETE /deleteUser/:id` */
  function DeleteUser(id: string, reply: DbReply): (r: Outcome)
    ensures r.response.status in {400, 500, 200}
    ensures r.response.status == 400 <==> id == ""
    ensures r.response.status == 400 ==> r.call.None? && r.response.payload == ErrorBody("User ID is required")
    ensures id != "" ==> r.call == Some(DeleteWhere(id))
    ensures r.response.status == 500 <==> id != "" && Failed(reply)
    ensures r.response.status == 500 && reply.Threw? ==> r.response.payload == ErrorBody("Internal server error!")
    ensures r.response.status == 500 && reply.Reply? ==> r.response.payload == ErrorBody(reply.error.value)
    ensures r.response.status == 200 ==> r.response.payload == OkBody(Some("User deleted successfully!"), None, None)
  {
    if id == "" then Outcome(None, Error(400, "User ID is required"))
    else
      var call := Some(DeleteWhere(id));
      match reply
      case Threw => Outcome(call, Error(500, "Internal server error!"))
      case Reply(_, Some(message)) => Outcome(call, Error(500, message))
      case Reply(_, None) => Outcome(call, Message(200, "User deleted successfully!"))
  }

  /** A delete that matched no row is still reported as a success: the
      handler never looks at what was deleted. */
  lemma DeleteOfMissingUserSucceeds(id: string, data: Option<seq<User>>)
    requires id != ""
    ensures DeleteUser(id, Reply(data, None)).response.status == 200
    ensures DeleteUser(id, Reply(data, None)) == DeleteUser(id, Reply(Some([]), None))
  {
  }

  // ---------------------------------------------------------------- updateUser

  /** `Object.fromEntries(Object.entries(body).filter(([_, v]) => v !== undefined))` */
  function StripUndefined(body: Body): (r: Body)
    ensures forall k :: k in r <==> k in body && body[k] != Undefined
    ensures forall k :: k in r ==> r[k] == body[k]
  {
    map k | k in body && body[k] != Undefined :: body[k]
  }

  /** Stripping does not change what any field reads as, `null` included:
      a removed entry read as undefined before and after. */
  lemma StripUndefinedKeepsFields(body: Body, key: string)
    ensures Field(StripUndefined(body), key) == Field(body, key)
  {
  }

  /** A body parsed from JSON has no undefined entries, and stripping leaves
      it as it is. */
  lemma StripUndefinedOnJson(body: Body)
    requires forall k :: k in body ==> body[k] != Undefined
    ensures StripUndefined(body) == body
  {
    assert StripUndefined(body).Keys == body.Keys;
  }

  lemma StripUndefinedIdempotent(body: Body)
    ensures StripUndefined(StripUndefined(body)) == StripUndefined(body)
  {
    StripUndefinedOnJson(StripUndefined(body));
  }

  /** `PUT /updateUser/:id` */
  function UpdateUser(id: string, body: Body, reply: DbReply): (r: Outcome)
    ensures r.response.status in {400, 500, 404, 200}
    ensures r.response.status == 400 <==> id == ""
    ensures r.response.status == 400 ==> r.call.None? && r.response.payload == ErrorBody("User ID is required")
    ensures id != "" ==> r.call == Some(UpdateWhere(id, StripUndefined(body)))
    ensures r.response.status == 500 <==> id != "" && Failed(reply)
    ensures r.response.status == 500 && reply.Threw? ==> r.response.payload == ErrorBody("Internal server error!")
    ensures r.response.status == 500 && reply.Reply? ==> r.response.payload == ErrorBody(reply.error.value)
    ensures r.response.status == 404 <==> id != "" && reply.Reply? && reply.error.None? && NoRows(reply.data)
    ensures r.response.status == 404 ==> r.response.payload == ErrorBody("User not found or no changes made")
    ensures r.response.status == 200 ==>
              r.response.payload == OkBody(Some("User updated successfully!"), Some(true), reply.data)
              && |reply.data.value| > 0
  {
    if id == "" then Outcome(None, Error(400, "User ID is required"))
    else
      var call := Some(UpdateWhere(id, StripUndefined(body)));
      match reply
      case Threw => Outcome(call, Error(500, "Internal server error!"))
      case Reply(_, Some(message)) => Outcome(call, Error(500, message))
      case Reply(data, None) =>
        if NoRows(data) then Outcome(call, Error(404, "User not found or no changes made"))
        else Outcome(call, Response(200, OkBody(Some("User updated successfully!"), Some(true), data)))
  }
}
