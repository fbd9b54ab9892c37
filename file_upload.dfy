/** The upload list of frontend/src/components/FileUpload.tsx: which files
    are accepted, how each accepted file's entry moves from pending through
    uploading to success or error, and how an entry is removed. The random
    id, the preview URL and the answer of the upload request are inputs,
    carried by each chosen file. */
module FileUpload {

  import opened Outcomes

  /** The `File` fields the component looks at. */
  datatype FileInfo = FileInfo(name: string, mimeType: string, size: int)

  datatype Status = Pending | Uploading | Success | Error

  /** One `UploadedFile` entry of the list. */
  datatype UploadedFile = UploadedFile(file: FileInfo, preview: string, status: Status, id: string)

  /** A file the user chose, with the values the browser will produce for
      it: its `generateId()`, its object URL, and whether `uploadFile`
      resolves to true. */
  datatype ChosenFile = ChosenFile(file: FileInfo, id: string, preview: string, uploadSucceeds: bool)

  const VALID_TYPES: seq<string> := ["image/jpeg", "image/jpg", "image/png", "image/gif", "image/webp"]
  const MAX_SIZE: int := 10 * 1024 * 1024

  const TYPE_ALERT: string := "Please upload only image files (JPEG, PNG, GIF, WebP)"
  const SIZE_ALERT: string := "File size must be less than 10MB"

  /** `validateFile`: the verdict and the alert it shows, if any. The type
      is checked before the size. */
  function ValidateFile(f: FileInfo): (r: (bool, Option<string>))
    ensures r.0 <==> f.mimeType in VALID_TYPES && f.size <= MAX_SIZE
    ensures r.0 <==> r.1.None?
    ensures f.mimeType !in VALID_TYPES ==> r.1 == Some(TYPE_ALERT)
    ensures f.mimeType in VALID_TYPES && f.size > MAX_SIZE ==> r.1 == Some(SIZE_ALERT)
  {
    if f.mimeType !in VALID_TYPES then (false, Some(TYPE_ALERT))
    else if f.size > MAX_SIZE then (false, Some(SIZE_ALERT))
    else (true, None)
  }

  /** Exactly 10 MiB is accepted; one byte more is not. */
  lemma SizeLimitIsInclusive(name: string)
    ensures ValidateFile(FileInfo(name, "image/png", MAX_SIZE)).0
    ensures !ValidateFile(FileInfo(name, "image/png", MAX_SIZE + 1)).0
  {
  }

  predicate Accepted(c: ChosenFile) {
    ValidateFile(c.file).0
  }

  /** The new entry a valid file gets. */
  function PendingEntry(c: ChosenFile): UploadedFile {
    UploadedFile(c.file, c.preview, Pending, c.id)
  }

  /** The valid files, in the order they were chosen, as pending entries. */
  function NewEntries(chosen: seq<ChosenFile>): seq<UploadedFile> {
    if chosen == [] then []
    else
      var last := chosen[|chosen| - 1];
      NewEntries(chosen[..|chosen| - 1]) + (if Accepted(last) then [PendingEntry(last)] else [])
  }

  /** The files whose upload is attempted: the valid ones, in order. */
  function AcceptedFiles(chosen: seq<ChosenFile>): (r: seq<ChosenFile>)
    ensures |r| == |NewEntries(chosen)|
    ensures forall k :: 0 <= k < |r| ==> NewEntries(chosen)[k] == PendingEntry(r[k]) && Accepted(r[k])
  {
    if chosen == [] then []
    else
      var last := chosen[|chosen| - 1];
      AcceptedFiles(chosen[..|chosen| - 1]) + (if Accepted(last) then [last] else [])
  }

  /** Exactly the valid files are kept. */
  lemma {:induction false} AcceptedFilesExact(chosen: seq<ChosenFile>)
    ensures forall c :: c in AcceptedFiles(chosen) <==> c in chosen && Accepted(c)
  {
    if chosen != [] {
      var init := chosen[..|chosen| - 1];
      AcceptedFilesExact(init);
      assert chosen == init + [chosen[|chosen| - 1]];
    }
  }

  /** `prev.map(f => f.id === id ? {...f, status} : f)`: the entries keep
      their order, and each keeps its id, file and preview; only the status
      of the entries with that id changes. */
  function WithStatus(list: seq<UploadedFile>, id: string, status: Status): (r: seq<UploadedFile>)
    ensures |r| == |list|
    ensures forall k :: 0 <= k < |list| ==> r[k].(status := list[k].status) == list[k]
    ensures forall k :: 0 <= k < |list| ==> r[k].status == (if list[k].id == id then status else list[k].status)
  {
    seq(|list|, k requires 0 <= k < |list| => if list[k].id == id then list[k].(status := status) else list[k])
  }

  /** Setting a status twice keeps only the second: "uploading" leaves no
      trace once the result is in. */
  lemma LastStatusWins(list: seq<UploadedFile>, id: string, first: Status, second: Status)
    ensures WithStatus(WithStatus(list, id, first), id, second) == WithStatus(list, id, second)
  {
  }

  function Outcome(c: ChosenFile): Status {
    if c.uploadSucceeds then Success else Error
  }

  /** The list after the upload loop has gone through the given files. */
  function Settle(list: seq<UploadedFile>, done: seq<ChosenFile>): seq<UploadedFile> {
    if done == [] then list
    else
      var c := done[|done| - 1];
      WithStatus(WithStatus(Settle(list, done[..|done| - 1]), c.id, Uploading), c.id, Outcome(c))
  }

  predicate DistinctIds(files: seq<ChosenFile>) {
    forall i, j :: 0 <= i < j < |files| ==> files[i].id != files[j].id
  }

  /** With distinct ids, the loop gives each uploaded file its own outcome
      and leaves every entry with another id as it was. */
  lemma {:induction false} SettleOutcome(list: seq<UploadedFile>, done: seq<ChosenFile>)
    requires DistinctIds(done)
    ensures |Settle(list, done)| == |list|
    ensures forall k, j :: 0 <= k < |list| && 0 <= j < |done| && list[k].id == done[j].id ==>
      Settle(list, done)[k] == list[k].(status := Outcome(done[j]))
    ensures forall k :: 0 <= k < |list| && (forall j :: 0 <= j < |done| ==> done[j].id != list[k].id) ==>
      Settle(list, done)[k] == list[k]
  {
    if done != [] {
      var init := done[..|done| - 1];
      SettleOutcome(list, init);
      var c := done[|done| - 1];
      LastStatusWins(Settle(list, init), c.id, Uploading, Outcome(c));
      forall k, j | 0 <= k < |list| && 0 <= j < |done| && list[k].id == done[j].id
        ensures Settle(list, done)[k] == list[k].(status := Outcome(done[j]))
      {
        if j < |done| - 1 {
          assert done[j] == init[j];
        }
      }
      forall k | 0 <= k < |list| && (forall j :: 0 <= j < |done| ==> done[j].id != list[k].id)
        ensures Settle(list, done)[k] == list[k]
      {
        assert forall j :: 0 <= j < |init| ==> init[j].id != list[k].id by {
          forall j | 0 <= j < |init| ensures init[j].id != list[k].id {
            assert init[j] == done[j];
          }
        }
      }
    }
  }

  /** `ImageUploadComponent`'s `uploadedFiles` state. */
  class UploadList {
    var files: seq<UploadedFile>

    constructor ()
      ensures files == []
    {
      files := [];
    }

    /** `handleFiles`: the valid files are appended as pending entries, in
        the order chosen; then each is marked uploading and, once its
        upload answers, success or error. */
    method HandleFiles(chosen: seq<ChosenFile>)
      modifies this
      ensures files == Settle(old(files) + NewEntries(chosen), AcceptedFiles(chosen))
    {
      var newFiles: seq<UploadedFile> := [];
      var toUpload: seq<ChosenFile> := [];
      for i := 0 to |chosen|
        invariant newFiles == NewEntries(chosen[..i])
        invariant toUpload == AcceptedFiles(chosen[..i])
      {
        assert chosen[..i + 1][..i] == chosen[..i];
        var c := chosen[i];
        var (valid, _) := ValidateFile(c.file);
        if valid {
          newFiles := newFiles + [UploadedFile(c.file, c.preview, Pending, c.id)];
          toUpload := toUpload + [c];
        }
      }
      assert chosen[..|chosen|] == chosen;
      files := files + newFiles;
      ghost var base := files;
      for i := 0 to |toUpload|
        invariant files == Settle(base, toUpload[..i])
      {
        assert toUpload[..i + 1][..i] == toUpload[..i];
        var c := toUpload[i];
        files := WithStatus(files, c.id, Uploading);
        files := WithStatus(files, c.id, if c.uploadSucceeds then Success else Error);
      }
      assert toUpload[..|toUpload|] == toUpload;
    }

    /** `removeFile`: entries with that id go; the rest keep their order. */
    method RemoveFile(id: string)
      modifies this
      ensures files == Without(old(files), id)
    {
      files := Without(files, id);
    }
  }

  /** `prev.filter(f => f.id !== id)` */
  function Without(list: seq<UploadedFile>, id: string): seq<UploadedFile> {
    if list == [] then []
    else
      var last := list[|list| - 1];
      Without(list[..|list| - 1], id) + (if last.id == id then [] else [last])
  }

  /** Exactly the entries with another id remain. */
  lemma {:induction false} WithoutExact(list: seq<UploadedFile>, id: string)
    ensures forall f :: f in Without(list, id) <==> f in list && f.id != id
  {
    if list != [] {
      var init := list[..|list| - 1];
      WithoutExact(init, id);
      assert list == init + [list[|list| - 1]];
    }
  }

  /** Removal works piece by piece, so the remaining entries keep their
      relative order. */
  lemma {:induction false} WithoutConcat(a: seq<UploadedFile>, b: seq<UploadedFile>, id: string)
    ensures Without(a + b, id) == Without(a, id) + Without(b, id)
  {
    if b != [] {
      var init := b[..|b| - 1];
      WithoutConcat(a, init, id);
      assert (a + b)[..|a + b| - 1] == a + init;
    } else {
      assert a + b == a;
    }
  }

  /** Entries whose ids no chosen file uses come through a batch untouched. */
  lemma {:induction false} BatchKeepsEarlier(before: seq<UploadedFile>, chosen: seq<ChosenFile>)
    requires DistinctIds(AcceptedFiles(chosen))
    requires forall k, c :: 0 <= k < |before| && c in chosen ==> before[k].id != c.id
    ensures var after := Settle(before + NewEntries(chosen), AcceptedFiles(chosen));
      |after| == |before| + |AcceptedFiles(chosen)| && after[..|before|] == before
  {
    var accepted := AcceptedFiles(chosen);
    var list := before + NewEntries(chosen);
    SettleOutcome(list, accepted);
    AcceptedFilesExact(chosen);
    forall k | 0 <= k < |before| ensures Settle(list, accepted)[k] == before[k] {
      assert list[k] == before[k];
      forall j | 0 <= j < |accepted| ensures accepted[j].id != list[k].id {
        assert accepted[j] in chosen;
      }
    }
  }

  /** Each valid file of a batch ends as its upload answered. */
  lemma {:induction false} BatchSettlesNew(before: seq<UploadedFile>, chosen: seq<ChosenFile>)
    requires DistinctIds(AcceptedFiles(chosen))
    ensures var after := Settle(before + NewEntries(chosen), AcceptedFiles(chosen));
      var accepted := AcceptedFiles(chosen);
      && |after| == |before| + |accepted|
      && forall j :: 0 <= j < |accepted| ==>
           after[|before| + j] == UploadedFile(accepted[j].file, accepted[j].preview, Outcome(accepted[j]), accepted[j].id)
  {
    var accepted := AcceptedFiles(chosen);
    var entries := NewEntries(chosen);
    var list := before + entries;
    SettleOutcome(list, accepted);
    forall j | 0 <= j < |accepted|
      ensures Settle(list, accepted)[|before| + j] == UploadedFile(accepted[j].file, accepted[j].preview, Outcome(accepted[j]), accepted[j].id)
    {
      assert list[|before| + j] == entries[j] == PendingEntry(accepted[j]);
    }
  }

  /** What the user ends up seeing after one batch: the earlier entries,
      then one entry per valid file in the order chosen, each finished as
      its upload answered, provided the generated ids are all new. */
  lemma HandleFilesOutcome(before: seq<UploadedFile>, chosen: seq<ChosenFile>)
    requires DistinctIds(AcceptedFiles(chosen))
    requires forall k, c :: 0 <= k < |before| && c in chosen ==> before[k].id != c.id
    ensures var after := Settle(before + NewEntries(chosen), AcceptedFiles(chosen));
      var accepted := AcceptedFiles(chosen);
      && |after| == |before| + |accepted|
      && after[..|before|] == before
      && forall j :: 0 <= j < |accepted| ==>
           after[|before| + j] == UploadedFile(accepted[j].file, accepted[j].preview, Outcome(accepted[j]), accepted[j].id)
  {
    BatchKeepsEarlier(before, chosen);
    BatchSettlesNew(before, chosen);
  }
}
