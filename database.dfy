/** The schema and the user-table operations of backend/database.py. Each
    call opens its own connection and commits; here a call is one step on
    the in-memory tables. */
module Database {

  import opened Outcomes
  import opened Tables

  datatype TableName = UserTable | ImageMatchTable | UserAnalysisTable

  const ALL_TABLES: set<TableName> := {UserTable, ImageMatchTable, UserAnalysisTable}

  /** The user table holds only a name beside its id. */
  type UserRow = Row<string>

  /** The columns of `image_match` beside `image_id`. */
  datatype ImageMatch = ImageMatch(imageName: string, userId: int)

  /** The 18 columns of `user_analysis` beside `object_id`. */
  datatype AnalysisFields = AnalysisFields(
    imageName: string,
    objectIdInImage: int,
    areaPx2: real,
    topLeftX: int,
    topLeftY: int,
    bottomRightX: int,
    bottomRightY: int,
    center: string,
    widthPx: real,
    lengthPx: real,
    volumePx3: real,
    solidity: real,
    strictSolidity: real,
    lwRatio: real,
    areaIn2: real,
    weightOz: real,
    grade: string,
    userId: int)

  /** Which tables exist in the database file. */
  class Schema {
    var tables: set<TableName>

    constructor ()
      ensures tables == {}
    {
      tables := {};
    }

    /** `init_db`: `CREATE TABLE IF NOT EXISTS` for the three tables. Tables
        that already exist keep their rows, and running it again changes
        nothing. */
    method InitDb(users: Table<string>, imageMatches: Table<ImageMatch>, analyses: Table<AnalysisFields>)
      modifies this
      ensures tables == old(tables) + ALL_TABLES
      ensures old(tables) == ALL_TABLES ==> tables == old(tables)
      ensures unchanged(users) && unchanged(imageMatches) && unchanged(analyses)
    {
      tables := tables + ALL_TABLES;
    }
  }

  /** `add_user`: one new row, no check for a name already present. */
  method AddUser(users: Table<string>, name: string) returns (userId: int)
    requires users.Valid()
    modifies users
    ensures users.Valid()
    ensures users.rows == old(users.rows) + [Row(userId, name)]
    ensures userId == old(users.lastId) + 1 == users.lastId
    ensures forall k :: 0 <= k < |old(users.rows)| ==> old(users.rows)[k].id < userId
  {
    userId := users.Insert(name);
  }

  /** `add_user` twice with one name: two rows, two different ids. */
  method AddUserTwice(users: Table<string>, name: string) returns (first: int, second: int)
    requires users.Valid()
    modifies users
    ensures users.Valid()
    ensures first != second
    ensures users.rows == old(users.rows) + [Row(first, name), Row(second, name)]
  {
    first := AddUser(users, name);
    second := AddUser(users, name);
  }

  /** `get_user`: `fetchone` of `SELECT id, name FROM user WHERE id = ?`. */
  function GetUser(users: Table<string>, userId: int): (r: Option<UserRow>)
    reads users
    ensures r.Some? ==> r.value in users.rows && r.value.id == userId
    ensures r.None? ==> forall k :: 0 <= k < |users.rows| ==> users.rows[k].id != userId
  {
    SelectExact(users.rows, HasId(userId));
    assert forall k :: 0 <= k < |users.rows| && users.rows[k].id == userId ==>
      users.rows[k] in Select(users.rows, HasId(userId));
    FetchOne(Select(users.rows, HasId(userId)))
  }

  /** `get_all_users`: every row, each id once, in rowid order. */
  function GetAllUsers(users: Table<string>): (r: seq<UserRow>)
    reads users
    ensures forall x :: x in r <==> x in users.rows
    ensures users.Valid() ==> IdsIncreasing(r)
  {
    users.rows
  }

  /** `delete_user`: removes the row with that id, if any, and reports how
      many rows went, which is 0 or 1. */
  method DeleteUser(users: Table<string>, userId: int) returns (rowsAffected: nat)
    requires users.Valid()
    modifies users
    ensures users.Valid()
    ensures users.rows == Select(old(users.rows), Not(HasId(userId)))
    ensures forall x :: x in users.rows <==> x in old(users.rows) && x.id != userId
    ensures rowsAffected <= 1
    ensures rowsAffected == 1 <==> exists k :: 0 <= k < |old(users.rows)| && old(users.rows)[k].id == userId
  {
    SelectById(users.rows, userId);
    SelectExact(users.rows, Not(HasId(userId)));
    rowsAffected := users.Delete(HasId(userId));
  }
}
