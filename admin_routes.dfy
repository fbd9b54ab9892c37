/** backend/routes/admin_routes.py: the read-only query console and the
    image listing of the admin page. What SQLite answers to a query and
    what the output directory holds are inputs. */
module AdminRoutes {

  import opened Outcomes
  import opened Text
  import Server

  /** A value SQLite hands back in a result row: NULL, INTEGER, REAL, TEXT
      or BLOB. */
  datatype SqlValue = Null | Integer(i: int) | Float(f: real) | TextValue(s: string) | Blob(bytes: seq<bv8>)

  /** What the connection does with an admitted query: it fails with a
      message, or it runs, with a `cursor.description` (None when the
      statement yields no columns) and the fetched rows. */
  datatype QueryRun =
    | QueryFailed(error: string)
    | QueryRan(description: Option<seq<string>>, rows: seq<seq<SqlValue>>)

  datatype QueryReply = QueryReply(
    status: string,
    columns: seq<string>,
    data: seq<map<string, SqlValue>>,
    rowCount: nat)

  const SELECT_ONLY: string := "Only SELECT queries are allowed for safety reasons"

  /** The guard: the stripped, upper-cased query starts with "SELECT". */
  predicate IsSelectQuery(query: string) {
    StartsWith(Upper(Strip(query)), "SELECT")
  }

  /** `dict(zip(columns, row))` over the first n pairs: keys are inserted
      left to right. */
  function Zip(columns: seq<string>, row: seq<SqlValue>, n: nat): (d: map<string, SqlValue>)
    requires n <= |columns| && n <= |row|
    ensures forall c :: c in d <==> exists j :: 0 <= j < n && columns[j] == c
  {
    if n == 0 then map[]
    else Zip(columns, row, n - 1)[columns[n - 1] := row[n - 1]]
  }

  /** A column name that is not repeated later maps to its own value; so a
      repeated name keeps its last value. */
  lemma {:induction false} ZipValue(columns: seq<string>, row: seq<SqlValue>, n: nat, j: nat)
    requires j < n <= |columns| && n <= |row|
    requires forall l :: j < l < n ==> columns[l] != columns[j]
    ensures columns[j] in Zip(columns, row, n) && Zip(columns, row, n)[columns[j]] == row[j]
  {
    if j < n - 1 {
      ZipValue(columns, row, n - 1, j);
      assert columns[n - 1] != columns[j];
    }
  }

  /** One result row as a dictionary; `zip` stops at the shorter side. */
  function RowDict(columns: seq<string>, row: seq<SqlValue>): map<string, SqlValue> {
    Zip(columns, row, if |columns| <= |row| then |columns| else |row|)
  }

  /** `execute_query`: a query that is not a SELECT is refused with 400,
      passed through unchanged by `except HTTPException: raise`; a query
      the database rejects is a 500; otherwise every row becomes a
      dictionary keyed by the column names. */
  method ExecuteQuery(query: string, run: QueryRun) returns (r: Http<QueryReply>)
    ensures !IsSelectQuery(query) ==> r == Fail(400, SELECT_ONLY)
    ensures IsSelectQuery(query) && run.QueryFailed? ==>
      r == Fail(500, "Query execution failed: " + run.error)
    ensures IsSelectQuery(query) && run.QueryRan? ==>
      && r.Ok?
      && r.body.status == "success"
      && r.body.columns == (if run.description.Some? then run.description.value else [])
      && |r.body.data| == |run.rows| == r.body.rowCount
      && forall k :: 0 <= k < |run.rows| ==> r.body.data[k] == RowDict(r.body.columns, run.rows[k])
  {
    if !IsSelectQuery(query) {
      return Fail(400, SELECT_ONLY);
    }
    match run
    case QueryFailed(e) =>
      return Fail(500, "Query execution failed: " + e);
    case QueryRan(description, rows) =>
      var columns := if description.Some? then description.value else [];
      var results: seq<map<string, SqlValue>> := [];
      for i := 0 to |rows|
        invariant |results| == i
        invariant forall k :: 0 <= k < i ==> results[k] == RowDict(columns, rows[k])
      {
        results := results + [RowDict(columns, rows[i])];
      }
      return Ok(QueryReply("success", columns, results, |results|));
  }

  /** Leading whitespace is skipped: the stripped text starts where the
      first non-space character is. */
  lemma StripSkipsLeadingSpace(ws: string, s: string)
    requires AllSpace(ws) && s != [] && !IsSpace(s[0])
    ensures |ws| + |Strip(ws + s)| <= |ws + s|
    ensures Strip(ws + s) == (ws + s)[|ws|..|ws| + |Strip(ws + s)|]
    ensures forall k :: |ws| + |Strip(ws + s)| <= k < |ws + s| ==> IsSpace((ws + s)[k])
  {
    var t := ws + s;
    assert t[|ws|] == s[0];
  }

  /** The guard is a case-insensitive prefix test and nothing more: any
      spelling of "select" after any whitespace admits whatever follows,
      such as "select 1; DROP TABLE user". */
  lemma GuardIsPrefixTest(ws: string, keyword: string, rest: string)
    requires AllSpace(ws) && |keyword| == 6 && Upper(keyword) == "SELECT"
    ensures IsSelectQuery(ws + keyword + rest)
  {
    var s := keyword + rest;
    assert !IsSpace(s[0]) by {
      assert UpperChar(s[0]) == 'S';
    }
    assert !IsSpace(s[5]) by {
      assert UpperChar(s[5]) == 'T';
    }
    assert ws + keyword + rest == ws + s;
    StripSkipsLeadingSpace(ws, s);
    var r := Strip(ws + s);
    assert |r| >= 6 by {
      assert !IsSpace((ws + s)[|ws| + 5]);
    }
    assert r[..6] == keyword by {
      forall k | 0 <= k < 6 ensures r[k] == keyword[k] {
        assert r[k] == (ws + s)[|ws| + k];
      }
    }
    assert Upper(r)[..6] == Upper(keyword) by {
      forall k | 0 <= k < 6 ensures Upper(r)[k] == Upper(keyword)[k] {
      }
    }
  }

  /** The six extensions the image listing keeps (".webp" beside the
      five the file listing calls images). */
  const LISTED_IMAGE_EXTENSIONS: set<string> := {".jpg", ".jpeg", ".png", ".gif", ".bmp", ".webp"}

  datatype ImageEntry = ImageEntry(filename: string, size: nat, url: string)

  predicate IsListedImage(e: Server.DirEntry) {
    e.isFile && Lower(Extension(e.name)) in LISTED_IMAGE_EXTENSIONS
  }

  function ImageEntryOf(e: Server.DirEntry): (i: ImageEntry)
    ensures i.url == "/output/file/" + e.name
  {
    ImageEntry(e.name, e.size, "/output/file/" + e.name)
  }

  /** The images of a listing, in listing order. */
  function OutputImages(entries: seq<Server.DirEntry>): seq<ImageEntry> {
    if entries == [] then []
    else
      var last := entries[|entries| - 1];
      OutputImages(entries[..|entries| - 1]) + (if IsListedImage(last) then [ImageEntryOf(last)] else [])
  }

  /** Exactly the regular files with a listed extension appear, each with
      the URL the file endpoint serves it under. */
  lemma {:induction false} OutputImagesExact(entries: seq<Server.DirEntry>)
    ensures forall i :: i in OutputImages(entries) <==>
      exists e :: e in entries && IsListedImage(e) && i == ImageEntryOf(e)
  {
    if entries != [] {
      var init := entries[..|entries| - 1];
      OutputImagesExact(init);
      assert entries == init + [entries[|entries| - 1]];
    }
  }

  /** The admin listing's images are the file listing's images plus
      ".webp" files, which the file listing calls "other". */
  lemma ListedImagesVersusFileTypes(e: Server.DirEntry)
    requires e.isFile
    ensures IsListedImage(e) <==> (Server.FileType(e.name) == "image" || Lower(Extension(e.name)) == ".webp")
    ensures Lower(Extension(e.name)) == ".webp" ==> Server.FileType(e.name) == "other"
  {
  }

  datatype ImageListing =
    | NoOutputDir(status: string, images: seq<ImageEntry>, message: string)
    | Images(status: string, images: seq<ImageEntry>, count: nat)

  /** `list_output_images`; `listing` is None when the directory is missing. */
  method ListOutputImages(listing: Option<seq<Server.DirEntry>>) returns (r: ImageListing)
    ensures listing.None? ==> r == NoOutputDir("success", [], "Output directory does not exist")
    ensures listing.Some? ==>
      && r.Images?
      && r.status == "success"
      && r.images == OutputImages(listing.value)
      && r.count == |r.images|
  {
    if listing.None? {
      return NoOutputDir("success", [], "Output directory does not exist");
    }
    var entries := listing.value;
    var images: seq<ImageEntry> := [];
    for i := 0 to |entries|
      invariant images == OutputImages(entries[..i])
    {
      assert entries[..i + 1][..i] == entries[..i];
      var entry := entries[i];
      if entry.isFile {
        var ext := Lower(Extension(entry.name));
        if ext in LISTED_IMAGE_EXTENSIONS {
          images := images + [ImageEntry(entry.name, entry.size, "/output/file/" + entry.name)];
        }
      }
    }
    assert entries[..|entries|] == entries;
    return Images("success", images, |images|);
  }
}
