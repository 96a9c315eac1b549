/**
  The `DisplayUser` screen of the Lab3 client: the list of registered
  users, the error line, and the edit form.  A handler's network round
  trip is replaced by the answer it got: whether `response.ok` held and the
  `error` field of the JSON body, or that the request failed outright.
 */
module DisplayUser {
  import opened Seqs
  import opened Users
  import Http
  import UserServer

  /** `formData`: the form's fields by input name. */
  type FormData = map<string, string>

  datatype Screen = Screen(users: seq<User>, error: string, editing: Option<User>, form: FormData)

  /** What a handler learns from its request. */
  datatype Answer =
    | Answer(ok: bool, error: Option<string>)
    | NoConnection

  const ConnectionError := "Failed to connect to the server"

  /** `data.error || fallback` */
  function ErrorOr(error: Option<string>, fallback: string): string {
    if error.Some? && error.value != "" then error.value else fallback
  }

  /** The error line a failed request leaves: never empty. */
  function FailureMessage(answer: Answer, fallback: string): (m: string)
    requires fallback != ""
    ensures m != ""
    ensures answer.NoConnection? ==> m == ConnectionError
    ensures answer.Answer? && answer.error.Some? && answer.error.value != "" ==> m == answer.error.value
    ensures answer.Answer? && (answer.error.None? || answer.error.value == "") ==> m == fallback
  {
    match answer
    case NoConnection => ConnectionError
    case Answer(_, error) => ErrorOr(error, fallback)
  }

  predicate Succeeded(answer: Answer) {
    answer.Answer? && answer.ok
  }

  /** The form filled from a user, as `setFormData(user)` leaves it. */
  function UserForm(u: User): FormData {
    map["id" := u.id,
        "firstName" := u.firstName,
        "lastName" := u.lastName,
        "groupName" := u.groupName,
        "expectedSalary" := u.expectedSalary,
        "expectedDateOfDefense" := u.expectedDateOfDefense]
  }

  /** `handleEditClick(user)` */
  function HandleEditClick(s: Screen, u: User): (r: Screen)
    ensures r.editing == Some(u) && r.users == s.users && r.error == s.error
    ensures r.form == UserForm(u)
  {
    s.(editing := Some(u), form := UserForm(u))
  }

  /** `handleInputChange`: the named input takes the typed value. */
  function HandleInputChange(s: Screen, name: string, value: string): (r: Screen)
    ensures name in r.form && r.form[name] == value
    ensures r.form.Keys == s.form.Keys + {name}
    ensures forall k :: k in s.form && k != name ==> k in r.form && r.form[k] == s.form[k]
    ensures r.users == s.users && r.editing == s.editing && r.error == s.error
  {
    s.(form := s.form[name := value])
  }

  /** `formData.key || original`: a non-empty form value wins. */
  function MergeField(form: FormData, key: string, original: string): string {
    if key in form && form[key] != "" then form[key] else original
  }

  /** The `updatedUser` built by `handleSave`: the five editable fields. */
  datatype Changes = Changes(
    firstName: string,
    lastName: string,
    groupName: string,
    expectedSalary: string,
    expectedDateOfDefense: string)

  function Merge(form: FormData, u: User): Changes
  {
    Changes(
      MergeField(form, "firstName", u.firstName),
      MergeField(form, "lastName", u.lastName),
      MergeField(form, "groupName", u.groupName),
      MergeField(form, "expectedSalary", u.expectedSalary),
      MergeField(form, "expectedDateOfDefense", u.expectedDateOfDefense))
  }

  predicate NoEmptyField(u: User) {
    u.firstName != "" && u.lastName != "" && u.groupName != "" && u.expectedSalary != "" && u.expectedDateOfDefense != ""
  }

  /** Clearing an input cannot blank a field: a user with every field
      filled in still has every field filled in after any merge. */
  lemma MergeNeverBlanks(form: FormData, u: User)
    requires NoEmptyField(u)
    ensures var c := Merge(form, u);
            c.firstName != "" && c.lastName != "" && c.groupName != "" &&
            c.expectedSalary != "" && c.expectedDateOfDefense != ""
  {
  }

  /** The five inputs of the edit form; the id is not editable. */
  const EditableFields: set<string> := {"firstName", "lastName", "groupName", "expectedSalary", "expectedDateOfDefense"}

  /** The merge, field by field: a non-empty typed value replaces the
      stored one, and an empty or missing one leaves it. */
  lemma MergeTypedValueWins(form: FormData, u: User, k: string)
    requires k in EditableFields
    ensures k in form && form[k] != "" ==> SaveBody(Merge(form, u))[k] == Http.Str(form[k])
    ensures !(k in form && form[k] != "") ==> SaveBody(Merge(form, u))[k] == Http.Str(UserForm(u)[k])
  {
  }

  /** The form as the edit click filled it merges back to the user. */
  lemma MergeUntouchedForm(u: User)
    ensures var c := Merge(UserForm(u), u);
            c == Changes(u.firstName, u.lastName, u.groupName, u.expectedSalary, u.expectedDateOfDefense)
  {
  }

  /** `{ ...user, ...updatedUser }`: the user keeps its id and takes the
      five merged fields. */
  function ApplyChanges(u: User, c: Changes): User {
    User(u.id, c.firstName, c.lastName, c.groupName, c.expectedSalary, c.expectedDateOfDefense)
  }

  /** `JSON.stringify(updatedUser)` as the server parses it. */
  function SaveBody(c: Changes): Http.Body {
    map["firstName" := Http.Str(c.firstName),
        "lastName" := Http.Str(c.lastName),
        "groupName" := Http.Str(c.groupName),
        "expectedSalary" := Http.Str(c.expectedSalary),
        "expectedDateOfDefense" := Http.Str(c.expectedDateOfDefense)]
  }

  datatype Request = Put(id: string, body: Http.Body)

  /** The request `handleSave` sends: `PUT /updateUser/<editing id>` with the
      merged fields, or nothing when no user is being edited. */
  function SaveRequest(s: Screen): (r: Option<Request>)
    ensures r.None? <==> s.editing.None?
    ensures r.Some? ==> r.value.id == s.editing.value.id
    ensures r.Some? ==> r.value.body.Keys == {"firstName", "lastName", "groupName", "expectedSalary", "expectedDateOfDefense"}
    ensures r.Some? ==> forall k :: k in r.value.body ==> r.value.body[k].Str?
    ensures r.Some? ==> r.value.body == SaveBody(Merge(s.form, s.editing.value))
  {
    match s.editing
    case None => None
    case Some(u) => Some(Put(u.id, SaveBody(Merge(s.form, u))))
  }

  /** `handleSave` once its request is answered. */
  function HandleSave(s: Screen, answer: Answer): (r: Screen)
    ensures s.editing.None? ==> r == s
    ensures s.editing.Some? && Succeeded(answer) ==>
              && r.editing.None? && r.error == s.error && r.form == s.form
              && |r.users| == |s.users|
              && (forall i :: 0 <= i < |s.users| && s.users[i].id == s.editing.value.id ==>
                    r.users[i] == ApplyChanges(s.users[i], Merge(s.form, s.editing.value)))
              && (forall i :: 0 <= i < |s.users| && s.users[i].id != s.editing.value.id ==>
                    r.users[i] == s.users[i])
    ensures s.editing.Some? && !Succeeded(answer) ==>
              r == s.(error := FailureMessage(answer, "Failed to update user"))
  {
    match s.editing
    case None => s
    case Some(u) =>
      if Succeeded(answer) then
        var c := Merge(s.form, u);
        s.(users := MapWhere(s.users, UserHasId(u.id), (v: User) => ApplyChanges(v, c)), editing := None)
      else
        s.(error := FailureMessage(answer, "Failed to update user"))
  }

  /** Every saved user keeps its id, so the ids on screen do not change. */
  lemma SaveKeepsIds(s: Screen, answer: Answer)
    ensures |HandleSave(s, answer).users| == |s.users|
    ensures forall i :: 0 <= i < |s.users| ==> HandleSave(s, answer).users[i].id == s.users[i].id
  {
  }

  /** Saving straight after the edit click, with nothing typed, leaves the
      list as it was when every user with the edited id is that user. */
  lemma SaveUntouchedKeepsUsers(s: Screen, u: User)
    requires forall i :: 0 <= i < |s.users| && s.users[i].id == u.id ==> s.users[i] == u
    ensures HandleSave(HandleEditClick(s, u), Answer(true, None)).users == s.users
  {
    MergeUntouchedForm(u);
  }

  /** A row saved from the edit form of `u` with `v` typed into input `k`
      shows `u`'s fields with `v` in place, under the row's own id. */
  lemma ApplyTypedValue(w: User, u: User, k: string, v: string)
    requires k in EditableFields && v != ""
    ensures UserForm(ApplyChanges(w, Merge(UserForm(u)[k := v], u))) == UserForm(u)[k := v]["id" := w.id]
  {
    var form := UserForm(u)[k := v];
    var c := Merge(form, u);
    if k == "firstName" {
      assert c == Changes(v, u.lastName, u.groupName, u.expectedSalary, u.expectedDateOfDefense);
    } else if k == "lastName" {
      assert c == Changes(u.firstName, v, u.groupName, u.expectedSalary, u.expectedDateOfDefense);
    } else if k == "groupName" {
      assert c == Changes(u.firstName, u.lastName, v, u.expectedSalary, u.expectedDateOfDefense);
    } else if k == "expectedSalary" {
      assert c == Changes(u.firstName, u.lastName, u.groupName, v, u.expectedDateOfDefense);
    } else {
      assert c == Changes(u.firstName, u.lastName, u.groupName, u.expectedSalary, v);
    }
  }

  /** Clicking edit, typing a non-empty value into one input and saving
      successfully changes exactly that field of the edited user: every
      row with the user's id shows the user's fields with the typed value
      in place, and keeps its own id; every other row is unchanged. */
  lemma EditTypeSave(s: Screen, u: User, k: string, v: string)
    requires k in EditableFields && v != ""
    ensures var r := HandleSave(HandleInputChange(HandleEditClick(s, u), k, v), Answer(true, None));
            && r.editing.None? && |r.users| == |s.users|
            && (forall i :: 0 <= i < |s.users| && s.users[i].id == u.id ==>
                  UserForm(r.users[i]) == UserForm(u)[k := v]["id" := s.users[i].id])
            && (forall i :: 0 <= i < |s.users| && s.users[i].id != u.id ==> r.users[i] == s.users[i])
  {
    var e := HandleInputChange(HandleEditClick(s, u), k, v);
    assert e.form == UserForm(u)[k := v];
    var r := HandleSave(e, Answer(true, None));
    forall i | 0 <= i < |s.users| && s.users[i].id == u.id
      ensures UserForm(r.users[i]) == UserForm(u)[k := v]["id" := s.users[i].id]
    {
      assert r.users[i] == ApplyChanges(s.users[i], Merge(e.form, u));
      ApplyTypedValue(s.users[i], u, k, v);
    }
  }

  /** `handleDelete(id)` once its request is answered. */
  function HandleDelete(s: Screen, id: string, answer: Answer): (r: Screen)
    ensures Succeeded(answer) ==>
              && r.error == s.error && r.editing == s.editing && r.form == s.form
              && (forall i :: 0 <= i < |r.users| ==> r.users[i].id != id)
              && (forall u: User :: u.id != id ==> multiset(r.users)[u] == multiset(s.users)[u])
              && IsSubsequence(r.users, s.users)
    ensures !Succeeded(answer) ==> r == s.(error := FailureMessage(answer, "Failed to delete user"))
  {
    if Succeeded(answer) then s.(users := Filter(s.users, UserLacksId(id)))
    else s.(error := FailureMessage(answer, "Failed to delete user"))
  }

  /** A successful delete of an id nobody has leaves the screen as it was. */
  lemma DeleteAbsentId(s: Screen, id: string)
    requires forall i :: 0 <= i < |s.users| ==> s.users[i].id != id
    ensures HandleDelete(s, id, Answer(true, None)) == s
  {
    FilterAllPass(s.users, UserLacksId(id));
  }

  // ------------------------------------------------------- client and server

  /** How the client reads a response of the Lab3 server. */
  function AnswerOf<T>(response: Http.Response<T>): Answer {
    Answer(Http.IsOk(response.status),
           if response.payload.ErrorBody? then Some(response.payload.error) else None)
  }

  /** The save request passes the server's undefined-stripping untouched,
      so the update the server issues carries exactly the merged fields. */
  lemma SaveReachesServerIntact(s: Screen, reply: UserServer.DbReply)
    requires s.editing.Some? && s.editing.value.id != ""
    ensures var req := SaveRequest(s).value;
            UserServer.UpdateUser(req.id, req.body, reply).call ==
              Some(UserServer.UpdateWhere(s.editing.value.id, SaveBody(Merge(s.form, s.editing.value))))
  {
    var req := SaveRequest(s).value;
    UserServer.StripUndefinedOnJson(req.body);
  }

  /** A delete the database accepts removes the user on screen too; one it
      refuses leaves the list and shows the database's message, or the
      fallback when that message is empty. */
  lemma DeleteFollowsServer(s: Screen, id: string, reply: UserServer.DbReply)
    requires id != ""
    ensures var r := HandleDelete(s, id, AnswerOf(UserServer.DeleteUser(id, reply).response));
            && (!UserServer.Failed(reply) ==> r.users == Filter(s.users, UserLacksId(id)))
            && (UserServer.Failed(reply) ==> r.users == s.users && r.error != "")
  {
  }
}
