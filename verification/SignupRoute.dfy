/**
  The `/signup` route of the back end: it only checks that the three
  fields are present, and answers with exactly one response.
 */
module SignupRoute {
  import opened Seqs
  import opened Http

  predicate HasSignupFields(body: Body) {
    Truthy(Field(body, "email")) && Truthy(Field(body, "userName")) && Truthy(Field(body, "password"))
  }

  /** `POST /signup` */
  function Signup(body: Body): (r: Response<()>)
    ensures r.status == 400 <==> !HasSignupFields(body)
    ensures r.status == 400 ==> r.payload == ErrorBody("All fields are required")
    ensures r.status == 201 <==> HasSignupFields(body)
    ensures r.status == 201 ==> r.payload == OkBody(Some("User registered successfully!"), None, None)
  {
    if !HasSignupFields(body) then Error(400, "All fields are required")
    else Message(201, "User registered successfully!")
  }

  /** Presence is all that is checked: any email text and any password
      length are accepted once the three fields are non-empty strings. */
  lemma SignupChecksPresenceOnly(email: string, userName: string, password: string)
    requires email != "" && userName != "" && password != ""
    ensures Signup(map["email" := Str(email), "userName" := Str(userName), "password" := Str(password)]).status == 201
  {
  }

  /** Any of the three fields sent as `0`, `false` or `null` counts as
      missing. */
  lemma FalsyFieldIsMissing(body: Body, k: string, v: Value)
    requires k in {"email", "userName", "password"}
    requires v in {Num(0), Bool(false), Null}
    ensures Signup(body[k := v]).status == 400
  {
  }
}
