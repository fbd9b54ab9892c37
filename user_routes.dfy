/** backend/routes/user_routes.py: the sign-up endpoint around
    `get_or_create_name`. Its only handler is `except Exception`, which
    also catches the endpoint's own 400. */
module UserRoutes {

  import opened Outcomes
  import opened Text
  import opened Tables
  import opened UserService

  const EMPTY_NAME: string := "Name cannot be empty"
  const FAILURE_PREFIX: string := "Failed to get or create name: "

  datatype NameReply = NameReply(id: int, name: string, isNewName: int, status: string)

  /** `get_or_create_name_endpoint`: a blank name is refused, but the refusal
      surfaces as a 500 whose text carries the 400; otherwise the service
      gets the trimmed name and its answer is echoed. */
  method GetOrCreateNameEndpoint(users: Table<string>, name: string) returns (r: Http<NameReply>)
    requires users.Valid()
    modifies users
    ensures users.Valid()
    ensures IsBlank(name) ==>
      && r == Fail(500, FAILURE_PREFIX + HttpExceptionText(400, EMPTY_NAME))
      && unchanged(users)
    ensures !IsBlank(name) ==>
      && r.Ok?
      && r.body.name == Strip(name)
      && r.body.status == "success"
      && ExistingUser(users.rows, Strip(name)) == Some(Row(r.body.id, Strip(name)))
      && (r.body.isNewName == 0 <==> ExistingUser(old(users.rows), Strip(name)).Some?)
      && (r.body.isNewName == 0 ==> users.rows == old(users.rows))
      && (r.body.isNewName == 1 ==> users.rows == old(users.rows) + [Row(r.body.id, Strip(name))])
  {
    if name == [] || IsBlank(name) {
      return Fail(500, FAILURE_PREFIX + HttpExceptionText(400, EMPTY_NAME));
    }
    var result := GetOrCreateName(users, Strip(name));
    return Ok(NameReply(result.id, result.name, result.isNewName, "success"));
  }
}
