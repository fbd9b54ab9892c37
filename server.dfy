/** The file endpoints of backend/server.py. The file system is an input:
    a directory listing, what a path names, the rows `csv.reader` yields,
    and whether writing an upload succeeds. */
module Server {

  import opened Outcomes
  import opened Text

  const OUTPUT_DIR: string := "output"
  const INPUT_DIR: string := "input"

  /** `os.path.join(dir, name)` for a relative name. */
  function JoinPath(dir: string, name: string): string {
    dir + "/" + name
  }

  // ---------------------------------------------------------------------
  // POST /upload

  /** One uploaded part: its name, its declared content type (None when the
      client sent none), and the error text if saving it fails. */
  datatype UploadPart = UploadPart(filename: string, contentType: Option<string>, writeError: Option<string>)

  datatype UploadReply = UploadReply(message: string, files: seq<string>, status: string)

  predicate IsImagePart(p: UploadPart) {
    p.contentType.Some? && p.contentType.value != [] && StartsWith(p.contentType.value, "image/")
  }

  /** The part at which the upload loop stops, if any. */
  predicate PartFails(p: UploadPart) {
    !IsImagePart(p) || p.writeError.Some?
  }

  /** What the broad handler reports for the failing part: the 400 raised
      for a non-image (as text), or the write error. */
  function FailureText(p: UploadPart): string
    requires PartFails(p)
  {
    if !IsImagePart(p) then HttpExceptionText(400, "File " + p.filename + " is not an image")
    else p.writeError.value
  }

  /** The index of the first part that fails. */
  function FirstFailure(parts: seq<UploadPart>): (r: Option<nat>)
    ensures r.None? ==> forall j :: 0 <= j < |parts| ==> !PartFails(parts[j])
    ensures r.Some? ==>
      && r.value < |parts| && PartFails(parts[r.value])
      && forall j :: 0 <= j < r.value ==> !PartFails(parts[j])
  {
    if parts == [] then None
    else if PartFails(parts[0]) then Some(0)
    else match FirstFailure(parts[1..])
      case None => None
      case Some(i) => Some(i + 1)
  }

  function FileNames(parts: seq<UploadPart>): (r: seq<string>)
    ensures |r| == |parts| && forall k :: 0 <= k < |parts| ==> r[k] == parts[k].filename
  {
    seq(|parts|, k requires 0 <= k < |parts| => parts[k].filename)
  }

  /** `upload_files`: parts are saved into the input directory in order.
      The first non-image part or failed write ends the request with 500
      (the handler's own 400 is caught by its `except Exception`), leaving
      the parts before it saved. Otherwise every part is saved and listed. */
  method UploadFiles(parts: seq<UploadPart>) returns (r: Http<UploadReply>, saved: seq<string>)
    ensures FirstFailure(parts).None? ==>
      && saved == FileNames(parts)
      && r == Ok(UploadReply("Successfully uploaded " + NatToString(|parts|) + " files", saved, "success"))
    ensures FirstFailure(parts).Some? ==>
      var i := FirstFailure(parts).value;
      && saved == FileNames(parts[..i])
      && r == Fail(500, FailureText(parts[i]))
  {
    saved := [];
    for i := 0 to |parts|
      invariant saved == FileNames(parts[..i])
      invariant forall j :: 0 <= j < i ==> !PartFails(parts[j])
    {
      var part := parts[i];
      if part.contentType.None? || part.contentType.value == [] || !StartsWith(part.contentType.value, "image/") {
        return Fail(500, HttpExceptionText(400, "File " + part.filename + " is not an image")), saved;
      }
      if part.writeError.Some? {
        return Fail(500, part.writeError.value), saved;
      }
      saved := saved + [part.filename];
    }
    assert parts[..|parts|] == parts;
    return Ok(UploadReply("Successfully uploaded " + NatToString(|saved|) + " files", saved, "success")), saved;
  }

  /** A 400 raised inside `upload_files` never reaches the client as 400. */
  lemma UploadNeverAnswers400(parts: seq<UploadPart>, i: nat)
    requires i < |parts| && !IsImagePart(parts[i])
    requires forall j :: 0 <= j < i ==> !PartFails(parts[j])
    ensures FirstFailure(parts) == Some(i)
    ensures FailureText(parts[i]) == HttpExceptionText(400, "File " + parts[i].filename + " is not an image")
  {
    var r := FirstFailure(parts);
    assert PartFails(parts[i]);
    assert r.Some?;
    assert r.value <= i;
    assert r.value >= i;
  }

  // ---------------------------------------------------------------------
  // GET /output/files

  const IMAGE_EXTENSIONS: set<string> := {".jpg", ".jpeg", ".png", ".gif", ".bmp"}

  /** The `type` of a listed file, from its lower-cased extension. */
  function FileType(filename: string): (t: string)
    ensures t == "image" <==> Lower(Extension(filename)) in IMAGE_EXTENSIONS
    ensures t == "csv" <==> Lower(Extension(filename)) == ".csv"
    ensures t == "other" <==> Lower(Extension(filename)) !in IMAGE_EXTENSIONS + {".csv"}
  {
    var ext := Lower(Extension(filename));
    if ext in IMAGE_EXTENSIONS then "image" else if ext == ".csv" then "csv" else "other"
  }

  /** The last dot sits at the same place after lower-casing. */
  lemma {:induction false} LastDotLower(s: string)
    ensures LastDot(Lower(s)) == LastDot(s)
  {
    if s != [] {
      LastDotLower(s[..|s| - 1]);
      assert Lower(s)[..|s| - 1] == Lower(s[..|s| - 1]);
    }
  }

  /** Lower-casing commutes with taking the extension. */
  lemma ExtensionLower(s: string)
    ensures Extension(Lower(s)) == Lower(Extension(s))
  {
    LastDotLower(s);
    match LastDot(s)
    case None =>
    case Some(d) =>
      if exists i :: 0 <= i < d && s[i] != '.' {
        var i :| 0 <= i < d && s[i] != '.';
        assert Lower(s)[i] != '.';
        assert Lower(s)[d..] == Lower(s[d..]);
      } else {
        assert !exists i :: 0 <= i < d && Lower(s)[i] != '.';
      }
  }

  /** Lower-casing twice is lower-casing once. */
  lemma LowerIdempotent(s: string)
    ensures Lower(Lower(s)) == Lower(s)
  {
    assert forall i :: 0 <= i < |s| ==> Lower(Lower(s))[i] == Lower(s)[i];
  }

  /** The type does not depend on letter case: "A.JPG" is an image like "a.jpg". */
  lemma FileTypeIgnoresCase(filename: string)
    ensures FileType(Lower(filename)) == FileType(filename)
  {
    ExtensionLower(filename);
    LowerIdempotent(Extension(filename));
  }

  /** A dot after which no dot follows is the last dot. */
  lemma LastDotIs(s: string, d: nat)
    requires d < |s| && s[d] == '.'
    requires forall j :: d < j < |s| ==> s[j] != '.'
    ensures LastDot(s) == Some(d)
  {
  }

  /** A name that starts with its only dot has no extension: ".png" is
      listed as "other". */
  lemma LeadingDotIsOther()
    ensures FileType(".png") == "other"
  {
    LastDotIs(".png", 0);
    assert Extension(".png") == [];
  }

  /** "scan.PNG" is listed as an image. */
  lemma UpperCaseImage()
    ensures FileType("scan.PNG") == "image"
  {
    LastDotIs("scan.PNG", 4);
    assert "scan.PNG"[0] != '.';
    var e := Extension("scan.PNG");
    assert e == ".PNG";
    assert Lower(e) == ".png";
  }

  /** One entry of `os.listdir(OUTPUT_DIR)`: its name, whether it is a
      regular file, and its size. */
  datatype DirEntry = DirEntry(name: string, isFile: bool, size: nat)

  datatype OutputFile = OutputFile(filename: string, fileType: string, size: nat)

  function Describe(e: DirEntry): OutputFile {
    OutputFile(e.name, FileType(e.name), e.size)
  }

  /** The regular files of a listing, described, in listing order. */
  function RegularFiles(entries: seq<DirEntry>): seq<OutputFile> {
    if entries == [] then []
    else
      var last := entries[|entries| - 1];
      RegularFiles(entries[..|entries| - 1]) + (if last.isFile then [Describe(last)] else [])
  }

  /** Exactly the regular files are listed, each with its type and size. */
  lemma {:induction false} RegularFilesExact(entries: seq<DirEntry>)
    ensures forall f :: f in RegularFiles(entries) <==> exists e :: e in entries && e.isFile && f == Describe(e)
  {
    if entries != [] {
      var init := entries[..|entries| - 1];
      RegularFilesExact(init);
      assert entries == init + [entries[|entries| - 1]];
    }
  }

  datatype FileListing =
    | NoOutputDir(files: seq<OutputFile>, message: string)
    | Listing(files: seq<OutputFile>, count: nat, status: string)

  /** `list_output_files`; `listing` is None when the directory is missing. */
  method ListOutputFiles(listing: Option<seq<DirEntry>>) returns (r: FileListing)
    ensures listing.None? ==> r == NoOutputDir([], "Output directory does not exist")
    ensures listing.Some? ==>
      && r.Listing?
      && r.files == RegularFiles(listing.value)
      && r.count == |r.files|
      && r.status == "success"
  {
    if listing.None? {
      return NoOutputDir([], "Output directory does not exist");
    }
    var entries := listing.value;
    var files: seq<OutputFile> := [];
    for i := 0 to |entries|
      invariant files == RegularFiles(entries[..i])
    {
      assert entries[..i + 1][..i] == entries[..i];
      var entry := entries[i];
      if entry.isFile {
        files := files + [OutputFile(entry.name, FileType(entry.name), entry.size)];
      }
    }
    assert entries[..|entries|] == entries;
    return Listing(files, |files|, "success");
  }

  // ---------------------------------------------------------------------
  // GET /output/file/{filename}

  /** What a path in the output directory names. A regular file comes with
      the guess of `mimetypes.guess_type`, if it has one. */
  datatype PathKind =
    | Absent
    | NotAFile
    | RegularFile(guessedType: Option<string>)
    | Inaccessible(error: string)

  datatype FileResponse = FileResponse(path: string, mediaType: string, filename: string)

  const OCTET_STREAM: string := "application/octet-stream"

  /** `get_output_file`: 404 for a missing path and 400 for one that is not
      a file, both passed through by `except HTTPException: raise`; any
      other error is 500; a type `mimetypes` cannot guess is served as
      `application/octet-stream`. */
  function GetOutputFile(filename: string, kind: PathKind): (r: Http<FileResponse>)
    ensures kind == Absent <==> r == Fail(404, "File not found")
    ensures kind == NotAFile <==> r == Fail(400, "Path is not a file")
    ensures kind.Inaccessible? ==> r == Fail(500, kind.error)
    ensures r.Ok? <==> kind.RegularFile?
    ensures r.Ok? ==>
      && r.body.path == JoinPath(OUTPUT_DIR, filename)
      && r.body.filename == filename
      && (kind.guessedType.Some? ==> r.body.mediaType == kind.guessedType.value)
      && (kind.guessedType.None? ==> r.body.mediaType == OCTET_STREAM)
  {
    var path := JoinPath(OUTPUT_DIR, filename);
    match kind
    case Absent => Fail(404, "File not found")
    case NotAFile => Fail(400, "Path is not a file")
    case Inaccessible(e) => Fail(500, e)
    case RegularFile(guess) =>
      Ok(FileResponse(path, if guess.None? then OCTET_STREAM else guess.value, filename))
  }

  // ---------------------------------------------------------------------
  // GET /output/csv/{filename}

  /** The CSV file as `csv.reader` sees it. */
  datatype CsvSource =
    | CsvMissing
    | CsvUnreadable(error: string)
    | CsvRows(rows: seq<seq<string>>)

  datatype CsvReply =
    | EmptyCsv(headers: seq<string>, data: seq<seq<string>>, message: string)
    | CsvTable(filename: string, headers: seq<string>, data: seq<seq<string>>, rowCount: nat, status: string)

  /** `get_csv_content`: only names ending in ".csv" (letter case counts),
      404 for a missing file, an empty reply for an empty file, and
      otherwise the first row as headers and the rest as data. */
  method GetCsvContent(filename: string, source: CsvSource) returns (r: Http<CsvReply>)
    ensures !EndsWith(filename, ".csv") ==> r == Fail(400, "File is not a CSV")
    ensures EndsWith(filename, ".csv") ==>
      && (source.CsvMissing? ==> r == Fail(404, "CSV file not found"))
      && (source.CsvUnreadable? ==> r == Fail(500, source.error))
      && (source.CsvRows? && source.rows == [] ==> r == Ok(EmptyCsv([], [], "CSV file is empty")))
      && (source.CsvRows? && source.rows != [] ==>
            && r.Ok? && r.body.CsvTable?
            && r.body.filename == filename
            && [r.body.headers] + r.body.data == source.rows
            && r.body.rowCount == |source.rows| - 1
            && r.body.status == "success")
  {
    if !EndsWith(filename, ".csv") {
      return Fail(400, "File is not a CSV");
    }
    match source
    case CsvMissing =>
      return Fail(404, "CSV file not found");
    case CsvUnreadable(e) =>
      return Fail(500, e);
    case CsvRows(reader) =>
      var rows: seq<seq<string>> := [];
      for i := 0 to |reader|
        invariant rows == reader[..i]
      {
        rows := rows + [reader[i]];
      }
      assert rows == reader;
      if rows == [] {
        return Ok(EmptyCsv([], [], "CSV file is empty"));
      }
      var headers := rows[0];
      var data := if |rows| > 1 then rows[1..] else [];
      assert [headers] + data == rows;
      return Ok(CsvTable(filename, headers, data, |data|, "success"));
  }

  /** A ".CSV" name is refused although the listing calls it a csv. */
  lemma CsvCaseMismatch()
    ensures FileType("a.CSV") == "csv"
    ensures !EndsWith("a.CSV", ".csv")
  {
    LastDotIs("a.CSV", 1);
    assert "a.CSV"[0] != '.';
    assert Extension("a.CSV") == ".CSV";
    assert Lower(".CSV") == ".csv";
  }
}
