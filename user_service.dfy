/** `get_or_create_name` of backend/services/user_service.py: look a name up
    in the user table and insert it when it is not there. */
module UserService {

  import opened Outcomes
  import opened Tables
  import opened Database

  /** The dictionary the service returns; `isNewName` is 1 or 0. */
  datatype NameResult = NameResult(id: int, name: string, isNewName: int)

  /** `WHERE name = ?` */
  function HasName(name: string): Row<string> -> bool {
    (r: Row<string>) => r.value == name
  }

  /** `fetchone` of `SELECT id, name FROM user WHERE name = ?`: the earliest
      row holding the name, if any. */
  function ExistingUser(rows: seq<UserRow>, name: string): (r: Option<UserRow>)
    ensures r.None? <==> forall k :: 0 <= k < |rows| ==> rows[k].value != name
    ensures r.Some? ==>
      && r.value.value == name
      && exists i :: 0 <= i < |rows| && rows[i] == r.value
                     && forall j :: 0 <= j < i ==> rows[j].value != name
  {
    SelectEmpty(rows, HasName(name));
    var matching := Select(rows, HasName(name));
    if matching != [] then
      SelectFirst(rows, HasName(name));
      FetchOne(matching)
    else
      FetchOne(matching)
  }

  /** `get_or_create_name`: a known name comes back with its stored id and
      `is_new_name` 0, and nothing is inserted; an unknown one is inserted
      once and comes back with its new id and `is_new_name` 1. Either way
      the name's first row afterwards is the one returned. */
  method GetOrCreateName(users: Table<string>, name: string) returns (r: NameResult)
    requires users.Valid()
    modifies users
    ensures users.Valid()
    ensures r.name == name
    ensures ExistingUser(old(users.rows), name).Some? ==>
      && r.isNewName == 0
      && ExistingUser(old(users.rows), name) == Some(Row(r.id, name))
      && users.rows == old(users.rows) && users.lastId == old(users.lastId)
    ensures ExistingUser(old(users.rows), name).None? ==>
      && r.isNewName == 1
      && r.id == old(users.lastId) + 1
      && users.rows == old(users.rows) + [Row(r.id, name)]
    ensures ExistingUser(users.rows, name) == Some(Row(r.id, name))
  {
    var existing := ExistingUser(users.rows, name);
    if existing.Some? {
      return NameResult(existing.value.id, existing.value.value, 0);
    }
    ghost var before := users.rows;
    var userId := users.Insert(name);
    SelectAppend(before, Row(userId, name), HasName(name));
    SelectEmpty(before, HasName(name));
    return NameResult(userId, name, 1);
  }

  /** Signing up twice with one name: the second call finds the row the
      first one made or found, so both return the same id and the second
      reports the name as known. */
  method GetOrCreateNameTwice(users: Table<string>, name: string) returns (first: NameResult, second: NameResult)
    requires users.Valid()
    modifies users
    ensures users.Valid()
    ensures first.id == second.id && first.name == second.name
    ensures second.isNewName == 0
    ensures |old(users.rows)| <= |users.rows| <= |old(users.rows)| + 1
    ensures users.rows[..|old(users.rows)|] == old(users.rows)
  {
    first := GetOrCreateName(users, name);
    ghost var afterFirst := users.rows;
    second := GetOrCreateName(users, name);
    assert users.rows == afterFirst;
  }
}
