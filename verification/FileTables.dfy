/**
 * The file tables, the changes that the four version writers and DELETE can commit, and
 * the numbering of versions.
 */
module FileTables {
  import opened Sql

  /** `<file id>/<version id>.bin`, relative to the storage root. */
  type Path = (string, string)

  datatype FileRow = FileRow(workspaceId: string, fileName: string, currentVersion: string)

  datatype VersionRow = VersionRow(versionId: string, fileId: string, number: int, path: Path)

  datatype Db = Db(files: map<string, FileRow>, versions: seq<VersionRow>)

  function Row(fileId: string, versionId: string, number: int): VersionRow {
    VersionRow(versionId, fileId, number, (fileId, versionId))
  }

  // ------------------------------------------------------ queries

  /** SELECT ... FROM file_versions WHERE file_id = ?, in the order of insertion. */
  function VersionsOf(rows: seq<VersionRow>, fileId: string): seq<VersionRow> {
    if rows == [] then []
    else
      var last := rows[|rows| - 1];
      VersionsOf(rows[..|rows| - 1], fileId) + if last.fileId == fileId then [last] else []
  }

  /** SELECT COALESCE(MAX(version_number), 0) WHERE file_id = ?. */
  function MaxNumber(rows: seq<VersionRow>, fileId: string): int {
    if rows == [] then 0
    else
      var front := MaxNumber(rows[..|rows| - 1], fileId);
      var last := rows[|rows| - 1];
      if last.fileId != fileId then front
      else if VersionsOf(rows[..|rows| - 1], fileId) == [] then last.number
      else Max(front, last.number)
  }

  /** The number of the next version; a query that fails answers 1. */
  function NextNumber(rows: seq<VersionRow>, fileId: string, fails: bool): int {
    if fails then 1 else MaxNumber(rows, fileId) + 1
  }

  function WithoutFile(rows: seq<VersionRow>, fileId: string): seq<VersionRow> {
    if rows == [] then []
    else
      var last := rows[|rows| - 1];
      WithoutFile(rows[..|rows| - 1], fileId) + if last.fileId == fileId then [] else [last]
  }

  predicate NameTaken(files: map<string, FileRow>, workspaceId: string, fileName: string) {
    exists f :: f in files && files[f].workspaceId == workspaceId && files[f].fileName == fileName
  }

  // ------------------------------------------------------ what a call can commit

  datatype Change =
    | Unchanged
    | FileAdded(fileId: string, workspaceId: string, fileName: string, versionId: string, number: int)
    | VersionAdded(fileId: string, versionId: string, number: int)
    | RowOnly(fileId: string, versionId: string, number: int)
    | Deleted(fileId: string)

  /** UPDATE files SET current_version WHERE file_id: nothing happens, and nothing fails, when the file is gone. */
  function WithCurrent(files: map<string, FileRow>, fileId: string, versionId: string): map<string, FileRow> {
    if fileId in files then files[fileId := files[fileId].(currentVersion := versionId)] else files
  }

  function Apply(db: Db, change: Change): Db {
    match change
    case Unchanged => db
    case FileAdded(f, workspaceId, fileName, v, number) =>
      Db(db.files[f := FileRow(workspaceId, fileName, v)], db.versions + [Row(f, v, number)])
    case VersionAdded(f, v, number) => Db(WithCurrent(db.files, f, v), db.versions + [Row(f, v, number)])
    case RowOnly(f, v, number) => Db(db.files, db.versions + [Row(f, v, number)])
    case Deleted(f) => Db(db.files - {f}, WithoutFile(db.versions, f))
  }

  // ------------------------------------------------------ numbering

  /** The versions of a file are numbered 1..n in the order they were added, n >= 1, and number n is current. */
  predicate WellNumbered(rows: seq<VersionRow>, currentVersion: string) {
    && rows != []
    && (forall i :: 0 <= i < |rows| ==> rows[i].number == i + 1)
    && rows[|rows| - 1].versionId == currentVersion
  }

  predicate Numbered(db: Db) {
    forall f :: f in db.files ==> WellNumbered(VersionsOf(db.versions, f), db.files[f].currentVersion)
  }

  lemma VersionsOfAppend(rows: seq<VersionRow>, row: VersionRow, fileId: string)
    ensures VersionsOf(rows + [row], fileId) == VersionsOf(rows, fileId) + if row.fileId == fileId then [row] else []
  {
    assert (rows + [row])[..|rows|] == rows;
  }

  lemma {:induction false} VersionsOfWithout(rows: seq<VersionRow>, gone: string, fileId: string)
    ensures VersionsOf(WithoutFile(rows, gone), fileId) == if fileId == gone then [] else VersionsOf(rows, fileId)
  {
    if rows == [] {
    } else {
      var front, last := rows[..|rows| - 1], rows[|rows| - 1];
      VersionsOfWithout(front, gone, fileId);
      if last.fileId == gone {
        assert WithoutFile(rows, gone) == WithoutFile(front, gone);
      } else {
        VersionsOfAppend(WithoutFile(front, gone), last, fileId);
      }
    }
  }

  lemma {:induction false} WithoutFileRows(rows: seq<VersionRow>, gone: string, row: VersionRow)
    ensures row in WithoutFile(rows, gone) <==> row in rows && row.fileId != gone
  {
    if rows == [] {
    } else {
      WithoutFileRows(rows[..|rows| - 1], gone, row);
      assert rows == rows[..|rows| - 1] + [rows[|rows| - 1]];
    }
  }

  lemma {:induction false} NoRowNoVersion(rows: seq<VersionRow>, fileId: string)
    requires forall row :: row in rows ==> row.fileId != fileId
    ensures VersionsOf(rows, fileId) == [] && MaxNumber(rows, fileId) == 0
  {
    if rows == [] {
    } else {
      assert rows[|rows| - 1] in rows;
      NoRowNoVersion(rows[..|rows| - 1], fileId);
    }
  }

  /** The largest number is that of the last version, so counting and taking the maximum agree. */
  lemma {:induction false} MaxNumberIsCount(rows: seq<VersionRow>, fileId: string)
    requires forall i :: 0 <= i < |VersionsOf(rows, fileId)| ==> VersionsOf(rows, fileId)[i].number == i + 1
    ensures MaxNumber(rows, fileId) == |VersionsOf(rows, fileId)|
  {
    if rows == [] {
    } else {
      var front, last := rows[..|rows| - 1], rows[|rows| - 1];
      var before, all := VersionsOf(front, fileId), VersionsOf(rows, fileId);
      assert forall i :: 0 <= i < |before| ==> before[i] == all[i];
      MaxNumberIsCount(front, fileId);
      if last.fileId == fileId {
        assert all[|before|] == last;
      }
    }
  }

  /** One more version of a well-numbered file: right exactly when it carries the next number and becomes current. */
  lemma OneMoreVersion(rows: seq<VersionRow>, current: string, row: VersionRow, current': string)
    requires WellNumbered(rows, current) && row.versionId != current
    ensures WellNumbered(rows + [row], current') <==> row.number == |rows| + 1 && current' == row.versionId
  {
    var more := rows + [row];
    assert more[|rows|] == row;
    if row.number == |rows| + 1 {
      forall i | 0 <= i < |more| ensures more[i].number == i + 1 {
        if i < |rows| { assert more[i] == rows[i]; }
      }
    }
  }

  /** The changes that keep the numbering. */
  predicate Sound(db: Db, change: Change) {
    match change
    case Unchanged => true
    case FileAdded(f, _, _, _, number) => number == 1
    case VersionAdded(f, _, number) => f in db.files ==> number == |VersionsOf(db.versions, f)| + 1
    case RowOnly(f, _, _) => f !in db.files
    case Deleted(_) => true
  }

  predicate FreshIds(db: Db, change: Change) {
    match change
    case Unchanged => true
    case FileAdded(f, _, _, v, _) => f !in db.files && forall row :: row in db.versions ==> row.fileId != f
    case VersionAdded(f, v, _) => f in db.files ==> v != db.files[f].currentVersion
    case RowOnly(f, v, _) => f in db.files ==> v != db.files[f].currentVersion
    case Deleted(_) => true
  }

  function Adds(change: Change): Option<VersionRow> {
    match change
    case Unchanged => None
    case FileAdded(f, _, _, v, number) => Some(Row(f, v, number))
    case VersionAdded(f, v, number) => Some(Row(f, v, number))
    case RowOnly(f, v, number) => Some(Row(f, v, number))
    case Deleted(_) => None
  }

  /** Files that the change does not name keep their versions. */
  lemma OtherFiles(db: Db, change: Change, f: string)
    requires change.Unchanged? || change.fileId != f
    ensures VersionsOf(Apply(db, change).versions, f) == VersionsOf(db.versions, f)
    ensures f in Apply(db, change).files <==> f in db.files
    ensures f in db.files ==> Apply(db, change).files[f] == db.files[f]
  {
    hide VersionsOf, WithoutFile;
    if Adds(change).Some? { VersionsOfAppend(db.versions, Adds(change).value, f); }
    if change.Deleted? { VersionsOfWithout(db.versions, change.fileId, f); }
  }

  lemma NamedFile(db: Db, change: Change)
    requires Numbered(db) && FreshIds(db, change) && !change.Unchanged?
    ensures var f := change.fileId; var after := Apply(db, change);
            Sound(db, change) <==> (f in after.files
                                    ==> WellNumbered(VersionsOf(after.versions, f), after.files[f].currentVersion))
  {
    hide VersionsOf, WithoutFile, MaxNumber;
    var f, after := change.fileId, Apply(db, change);
    if Adds(change).Some? {
      var row := Adds(change).value;
      VersionsOfAppend(db.versions, row, f);
      if change.FileAdded? {
        NoRowNoVersion(db.versions, f);
        assert VersionsOf(after.versions, f) == [row];
      } else if f in db.files {
        OneMoreVersion(VersionsOf(db.versions, f), db.files[f].currentVersion, row, after.files[f].currentVersion);
      }
    }
  }

  /** Exactly the sound changes keep every file numbered. */
  lemma NumberingKept(db: Db, change: Change)
    requires Numbered(db) && FreshIds(db, change)
    ensures Numbered(Apply(db, change)) <==> Sound(db, change)
  {
    hide VersionsOf, WithoutFile, MaxNumber, WellNumbered, FreshIds;
    var after := Apply(db, change);
    if !change.Unchanged? {
      NamedFile(db, change);
      forall f | f in after.files && f != change.fileId
        ensures WellNumbered(VersionsOf(after.versions, f), after.files[f].currentVersion)
      {
        OtherFiles(db, change, f);
      }
    }
  }
}
