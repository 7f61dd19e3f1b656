/**
 * The file service: a blob store on disk beside the tables. The four writers save the bytes
 * first and the rows in a transaction afterwards; DELETE works the other way round. Every
 * write to disk or tables is recorded, so that what a crash could leave behind is visible.
 */
module FileServer {
  import opened FileTables
  import opened DocumentKeys
  import opened Sql

  type Bytes = seq<int>

  /** The SQL statements and disk operations of one call. */
  datatype Operation =
    | FindFile | SaveBlob | RemoveBlob(path: Path)
    | BeginTransaction | CommitTransaction
    | SelectMaxNumber | InsertFile | InsertVersion | UpdateCurrent
    | SelectPaths | DeleteVersions | DeleteFileRow

  /** The operations of a call that fail. */
  type Faults = set<Operation>

  datatype KeyCheck = FileMissing | StaleKey | Proceed

  // ------------------------------------------------------ rows and blobs

  /** The row's blob exists and holds the bytes that were handed over for its version. */
  ghost predicate RowOk(row: VersionRow, blobs: map<Path, Bytes>, saved: map<string, Bytes>) {
    && row.path == (row.fileId, row.versionId)
    && row.versionId in saved && row.path in blobs && blobs[row.path] == saved[row.versionId]
  }

  ghost predicate BlobsOk(rows: seq<VersionRow>, blobs: map<Path, Bytes>, saved: map<string, Bytes>) {
    forall row :: row in rows ==> RowOk(row, blobs, saved)
  }

  datatype Moment = Moment(rows: seq<VersionRow>, blobs: map<Path, Bytes>)

  ghost predicate MomentsOk(moments: seq<Moment>, saved: map<string, Bytes>) {
    forall i :: 0 <= i < |moments| ==> BlobsOk(moments[i].rows, moments[i].blobs, saved)
  }

  lemma BlobSaved(rows: seq<VersionRow>, blobs: map<Path, Bytes>, saved: map<string, Bytes>, fileId: string,
                  versionId: string, data: Bytes)
    requires BlobsOk(rows, blobs, saved) && versionId !in saved
    ensures BlobsOk(rows, blobs[(fileId, versionId) := data], saved[versionId := data])
  {
    forall row | row in rows ensures RowOk(row, blobs[(fileId, versionId) := data], saved[versionId := data]) {
      assert RowOk(row, blobs, saved);
    }
  }

  lemma MomentsStay(moments: seq<Moment>, saved: map<string, Bytes>, versionId: string, data: Bytes)
    requires MomentsOk(moments, saved) && versionId !in saved
    ensures MomentsOk(moments, saved[versionId := data])
  {
    hide RowOk;
    forall i | 0 <= i < |moments| ensures BlobsOk(moments[i].rows, moments[i].blobs, saved[versionId := data]) {
      RowsStay(moments[i].rows, moments[i].blobs, saved, versionId, data);
    }
  }

  lemma RowsStay(rows: seq<VersionRow>, blobs: map<Path, Bytes>, saved: map<string, Bytes>, versionId: string,
                 data: Bytes)
    requires BlobsOk(rows, blobs, saved) && versionId !in saved
    ensures BlobsOk(rows, blobs, saved[versionId := data])
  {
    forall row | row in rows ensures RowOk(row, blobs, saved[versionId := data]) {
      assert RowOk(row, blobs, saved);
    }
  }

  lemma BlobRemoved(rows: seq<VersionRow>, blobs: map<Path, Bytes>, saved: map<string, Bytes>, path: Path)
    requires BlobsOk(rows, blobs, saved) && forall row :: row in rows ==> row.path != path
    ensures BlobsOk(rows, blobs - {path}, saved)
  {
    forall row | row in rows ensures RowOk(row, blobs - {path}, saved) {
      assert RowOk(row, blobs, saved);
    }
  }

  lemma ChangeKeepsBlobsOk(db: Db, change: Change, blobs: map<Path, Bytes>, saved: map<string, Bytes>)
    requires BlobsOk(db.versions, blobs, saved)
    requires Adds(change).Some? ==> RowOk(Adds(change).value, blobs, saved)
    ensures BlobsOk(Apply(db, change).versions, blobs, saved)
  {
    hide RowOk, WithoutFile;
    if change.Deleted? {
      forall row | row in WithoutFile(db.versions, change.fileId) ensures row in db.versions {
        WithoutFileRows(db.versions, change.fileId, row);
      }
    }
  }

  // ------------------------------------------------------ transactions

  /** INSERT INTO files, INSERT INTO file_versions, UPDATE files: the transaction of PUT and POST. */
  method VersionTransaction(db: Db, isNew: bool, workspaceId: string, fileName: string, fileId: string,
                            versionId: string,
                            number: int, faults: Faults)
    returns (ok: bool, working: Db)
    requires isNew || fileId in db.files
    ensures ok ==> working == Apply(db, if isNew then FileAdded(fileId, workspaceId, fileName, versionId, number)
                                        else VersionAdded(fileId, versionId, number))
    ensures ok <==>
              && BeginTransaction !in faults && InsertVersion !in faults && UpdateCurrent !in faults
              && CommitTransaction !in faults
              && (isNew ==>
                    InsertFile !in faults && fileId !in db.files && !NameTaken(db.files, workspaceId, fileName))
  {
    if BeginTransaction in faults { return false, db; }
    working := db;
    if isNew {
      if InsertFile in faults || fileId in db.files || NameTaken(db.files, workspaceId, fileName) { return false, db; }
      working := working.(files := working.files[fileId := FileRow(workspaceId, fileName, "")]);
    }
    if InsertVersion in faults { return false, db; }
    working := working.(versions := working.versions + [Row(fileId, versionId, number)]);
    if UpdateCurrent in faults { return false, db; }
    working := working.(files := WithCurrent(working.files, fileId, versionId));
    ok := CommitTransaction !in faults;
  }

  /** SELECT storage_path WHERE file_id = ?. */
  function PathsOf(rows: seq<VersionRow>, fileId: string): seq<Path> {
    if rows == [] then []
    else
      var last := rows[|rows| - 1];
      PathsOf(rows[..|rows| - 1], fileId) + if last.fileId == fileId then [last.path] else []
  }

  lemma {:induction false} PathsOfRows(rows: seq<VersionRow>, fileId: string, path: Path)
    ensures path in PathsOf(rows, fileId) <==> exists row :: row in rows && row.fileId == fileId && row.path == path
  {
    if rows == [] {
    } else {
      PathsOfRows(rows[..|rows| - 1], fileId, path);
      assert rows == rows[..|rows| - 1] + [rows[|rows| - 1]];
      assert rows[|rows| - 1] in rows;
    }
  }

  // ------------------------------------------------------ numbering

  /** The number a writer uses is the next one exactly when its query for the largest succeeds. */
  lemma NextNumberIsNext(db: Db, fileId: string, versionId: string, fails: bool)
    requires Numbered(db) && fileId in db.files
    ensures Sound(db, VersionAdded(fileId, versionId, NextNumber(db.versions, fileId, fails))) <==> !fails
  {
    assert WellNumbered(VersionsOf(db.versions, fileId), db.files[fileId].currentVersion);
    MaxNumberIsCount(db.versions, fileId);
  }

  lemma VersionNumbering(s: Server, step: Step, fails: bool)
    requires KeysInv(s) && Numbered(s.db) && (step.Write? || step.Save?) && Enabled(s, step)
             && step.change.VersionAdded?
    requires step.change.number == NextNumber(s.db.versions, step.change.fileId, fails)
    ensures Numbered(Next(s, step).db) <==> step.change.fileId in s.db.files ==> !fails
  {
    hide KeysInv, Numbered, Enabled, FreshFor, VersionsOf, MaxNumber, Next, NextNumber;
    StepNumbering(s, step);
    if step.change.fileId in s.db.files {
      NextNumberIsNext(s.db, step.change.fileId, step.change.versionId, fails);
    }
  }

  /** A row that does not become current breaks the numbering of its file, if the file still exists. */
  lemma StrayNumbering(s: Server, step: Step)
    requires KeysInv(s) && Numbered(s.db) && (step.Write? || step.Save?) && Enabled(s, step) && step.change.RowOnly?
    ensures Numbered(Next(s, step).db) <==> step.change.fileId !in s.db.files
  {
    hide KeysInv, Numbered, Enabled, FreshFor, VersionsOf, Next;
    StepNumbering(s, step);
  }

  lemma NewFileNumbering(s: Server, change: Change)
    requires KeysInv(s) && Numbered(s.db) && Enabled(s, Write(change)) && change.FileAdded? && change.number == 1
    ensures Numbered(Next(s, Write(change)).db)
  {
    hide KeysInv, Numbered, FreshFor, VersionsOf, Next;
    StepNumbering(s, Write(change));
  }

  lemma DeleteNumbering(s: Server, fileId: string)
    requires KeysInv(s) && Numbered(s.db)
    ensures Numbered(Next(s, Write(Deleted(fileId))).db)
  {
    hide KeysInv, Numbered, FreshFor, VersionsOf, Next;
    StepNumbering(s, Write(Deleted(fileId)));
  }

  lemma WriteNumbering(s: Server, change: Change, fails: bool)
    requires KeysInv(s) && Numbered(s.db) && Enabled(s, Write(change)) && !change.Unchanged? && !change.Deleted?
    requires if change.FileAdded? then change.number == 1
             else change.fileId in s.db.files && change.number == NextNumber(s.db.versions, change.fileId, fails)
    ensures Numbered(Next(s, Write(change)).db) <==> change.FileAdded? || (change.VersionAdded? && !fails)
  {
    hide KeysInv, Numbered, Enabled, Next, NextNumber;
    match change
    case FileAdded(_, _, _, _, _) => NewFileNumbering(s, change);
    case VersionAdded(_, _, _) => VersionNumbering(s, Write(change), fails);
    case RowOnly(_, _, _) => StrayNumbering(s, Write(change));
  }

  lemma SaveNumbering(s: Server, change: Change, fails: bool)
    requires KeysInv(s) && Numbered(s.db) && Enabled(s, Save(change)) && change.fileId in s.db.files
    requires change.number == NextNumber(s.db.versions, change.fileId, fails)
    ensures Numbered(Next(s, Save(change)).db) <==> change.VersionAdded? && !fails
  {
    hide KeysInv, Numbered, Next, NextNumber, FreshFor;
    if change.VersionAdded? { VersionNumbering(s, Save(change), fails); } else { StrayNumbering(s, Save(change)); }
  }

  // ------------------------------------------------------ publishing a change

  lemma NothingWritten(s: Server)
    ensures Next(s, Write(Unchanged)) == s && Enabled(s, Write(Unchanged))
  {
    assert s.issued + {} == s.issued && s.knownFiles + {} == s.knownFiles;
  }

  /** No two files of a workspace have the same name. */
  ghost predicate NamesUnique(files: map<string, FileRow>) {
    forall f, g :: f in files && g in files && SameName(files[f], files[g]) ==> f == g
  }

  /** A new file keeps the names unique if its name is free; every other change does in any case. */
  lemma ChangeKeepsNames(db: Db, change: Change)
    requires NamesUnique(db.files)
    requires change.FileAdded? ==>
               forall f :: f in db.files
                 ==> f == change.fileId || !Named(db.files[f], change.workspaceId, change.fileName)
    ensures NamesUnique(Apply(db, change).files)
  {
    hide WithoutFile;
  }

  lemma StepKeepsNames(s: Server, step: Step)
    requires NamesUnique(s.db.files)
    requires (step.Write? || step.Save?) && step.change.FileAdded? ==>
               !NameTaken(s.db.files, step.change.workspaceId, step.change.fileName)
    ensures NamesUnique(Next(s, step).db.files)
  {
    hide NamesUnique, Apply, FreshFor, Adds;
    if step.Write? || step.Save? { ChangeKeepsNames(s.db, step.change); }
  }

  lemma Publishable(s: Server, step: Step, blobs: map<Path, Bytes>, saved: map<string, Bytes>)
    requires BlobsOk(s.db.versions, blobs, saved) && s.issued <= saved.Keys
    requires step.Write? || step.Save?
    requires Enabled(s, step) && (Adds(step.change).Some? ==> RowOk(Adds(step.change).value, blobs, saved))
    ensures BlobsOk(Next(s, step).db.versions, blobs, saved) && Next(s, step).issued <= saved.Keys
  {
    hide BlobsOk, Apply, FreshFor, Adds;
    ChangeKeepsBlobsOk(s.db, step.change, blobs, saved);
  }

  /** A file that exists may get a version with an id never used before. */
  lemma VersionEnabled(s: Server, fileId: string, versionId: string, number: int)
    requires KeysInv(s) && versionId !in s.issued && fileId in s.db.files
    ensures Enabled(s, Write(VersionAdded(fileId, versionId, number)))
            && Enabled(s, Write(RowOnly(fileId, versionId, number)))
  {
    hide PendingOk, SavesOk, RowsKnown;
  }

  lemma SaveEnabled(s: Server, change: Change)
    requires KeysInv(s) && (change.VersionAdded? || change.RowOnly?) && change.versionId !in s.issued
             && change.fileId in s.pending
    ensures Enabled(s, Save(change))
  {
    hide FilesKnown, SavesOk, RowsKnown;
  }

  /** A save is entered under the key of its callback; either way the callback is over. */
  lemma CallbackEnds(s: Server, change: Change)
    requires change.VersionAdded? || change.RowOnly?
    requires Enabled(s, Save(change))
    ensures var s' := Next(s, Save(change));
            && change.fileId !in s'.pending
            && s'.saves == s.saves + if change.VersionAdded? then [(change.fileId, s.pending[change.fileId])] else []
  {
    hide FreshFor, Apply, Adds;
    assert s.saves + [] == s.saves;
  }

  lemma CallbackGivesUp(s: Server, fileId: string)
    ensures var s' := Next(s, GiveUp(fileId));
           fileId !in s'.pending && s'.saves == s.saves + [] && s'.db == s.db && s'.issued == s.issued
  {
    assert s.saves + [] == s.saves;
  }

  lemma DeleteEnabled(s: Server, fileId: string)
    ensures Enabled(s, Write(Deleted(fileId))) && Next(s, Write(Deleted(fileId))).db == Apply(s.db, Deleted(fileId))
  {
  }

  lemma OwnRow(change: Change, content: Bytes, blobs: map<Path, Bytes>, saved: map<string, Bytes>)
    requires change.VersionAdded? || change.RowOnly?
    requires change.versionId in saved && saved[change.versionId] == content
    requires (change.fileId, change.versionId) in blobs && blobs[(change.fileId, change.versionId)] == content
    ensures Adds(change).Some? && RowOk(Adds(change).value, blobs, saved)
  {
  }

  /** Once its rows are gone, no row names a path of the deleted file. */
  lemma DeletedPaths(db: Db, fileId: string, paths: seq<Path>, fails: bool, blobs: map<Path, Bytes>,
                     saved: map<string, Bytes>)
    requires BlobsOk(db.versions, blobs, saved) && paths == if fails then [] else PathsOf(db.versions, fileId)
    ensures forall i :: 0 <= i < |paths| ==> paths[i].0 == fileId
    ensures forall row :: row in Apply(db, Deleted(fileId)).versions ==> row.path !in paths
    ensures !fails ==> forall row :: row in db.versions && row.fileId == fileId ==> row.path in paths
  {
    hide WithoutFile, PathsOf;
    forall i | 0 <= i < |paths| ensures paths[i].0 == fileId {
      PathsOfRows(db.versions, fileId, paths[i]);
      assert paths[i] in paths;
      var row :| row in db.versions && row.fileId == fileId && row.path == paths[i];
      assert RowOk(row, blobs, saved);
    }
    forall row | row in WithoutFile(db.versions, fileId) ensures row.path !in paths {
      WithoutFileRows(db.versions, fileId, row);
      assert RowOk(row, blobs, saved);
    }
    if !fails {
      forall row | row in db.versions && row.fileId == fileId ensures row.path in paths {
        PathsOfRows(db.versions, fileId, row.path);
      }
    }
  }

  predicate Named(row: FileRow, workspaceId: string, fileName: string) {
    row.workspaceId == workspaceId && row.fileName == fileName
  }

  /** SELECT ... FROM files WHERE workspace_id = ? AND file_name = ?. */
  method FindFileByName(files: map<string, FileRow>, workspaceId: string, fileName: string)
      returns (found: Option<string>)
    ensures found.Some? ==> found.value in files && Named(files[found.value], workspaceId, fileName)
    ensures found.Some? <==> NameTaken(files, workspaceId, fileName)
  {
    if f :| f in files && Named(files[f], workspaceId, fileName) {
      return Some(f);
    }
    return None;
  }

  lemma NewFileIsNew(s: Server, fileId: string, fails: bool)
    requires KeysInv(s) && fileId !in s.knownFiles
    ensures fileId !in s.db.files && NextNumber(s.db.versions, fileId, fails) == 1
  {
    hide PendingOk, SavesOk, MaxNumber;
    NoRowNoVersion(s.db.versions, fileId);
  }

  lemma NoRowYet(rows: seq<VersionRow>, blobs: map<Path, Bytes>, saved: map<string, Bytes>, fileId: string,
                 versionId: string)
    requires BlobsOk(rows, blobs, saved) && versionId !in saved
    ensures forall row :: row in rows ==> row.path != (fileId, versionId)
  {
    forall row | row in rows ensures row.path != (fileId, versionId) {
      assert RowOk(row, blobs, saved);
    }
  }

  lemma SavedThenRemoved(blobs: map<Path, Bytes>, path: Path, data: Bytes)
    requires path !in blobs
    ensures blobs[path := data] - {path} == blobs
  {
  }

  /** The version has been added last and is the current one of its file; everything else is as before. */
  ghost predicate Selected(before: Db, after: Db, fileId: string, versionId: string) {
    && |after.versions| == |before.versions| + 1 && before.versions <= after.versions
    && (var row := after.versions[|before.versions|];
        row.versionId == versionId && row.fileId == fileId && row.path == (fileId, versionId))
    && fileId in after.files && after.files[fileId].currentVersion == versionId
    && (fileId in before.files ==> SameName(before.files[fileId], after.files[fileId]))
    && OthersStay(before, after, fileId)
  }

  predicate SameName(row: FileRow, row': FileRow) {
    row'.workspaceId == row.workspaceId && row'.fileName == row.fileName
  }

  ghost predicate OthersStay(before: Db, after: Db, fileId: string) {
    forall f :: f != fileId ==>
      (f in after.files <==> f in before.files) && (f in before.files ==> after.files[f] == before.files[f])
  }

  /** The file and its versions are gone; everything else is as before, in the order it was in. */
  ghost predicate FileGone(before: Db, after: Db, fileId: string) {
    && fileId !in after.files && OthersStay(before, after, fileId)
    && (forall row :: row in after.versions <==> row in before.versions && row.fileId != fileId)
    && (forall f :: f != fileId ==> VersionsOf(after.versions, f) == VersionsOf(before.versions, f))
  }

  lemma WriteSelects(s: Server, change: Change)
    requires KeysInv(s) && Enabled(s, Write(change)) && (change.VersionAdded? || change.FileAdded?)
    ensures Selected(s.db, Next(s, Write(change)).db, change.fileId, change.versionId)
    ensures change.FileAdded? ==>
              Named(Next(s, Write(change)).db.files[change.fileId], change.workspaceId, change.fileName)
  {
    hide Adds, RowsKnown, PendingOk, SavesOk;
  }

  lemma SaveSelects(s: Server, change: Change)
    requires Enabled(s, Save(change)) && change.VersionAdded? && change.fileId in s.db.files
    ensures Selected(s.db, Next(s, Save(change)).db, change.fileId, change.versionId)
  {
    hide FreshFor, Adds;
  }

  lemma DeleteRemoves(s: Server, fileId: string)
    ensures FileGone(s.db, Next(s, Write(Deleted(fileId))).db, fileId)
  {
    hide VersionsOf, WithoutFile;
    DeleteEnabled(s, fileId);
    forall row ensures row in WithoutFile(s.db.versions, fileId) <==> row in s.db.versions && row.fileId != fileId {
      WithoutFileRows(s.db.versions, fileId, row);
    }
    forall f | f != fileId ensures VersionsOf(WithoutFile(s.db.versions, fileId), f) == VersionsOf(s.db.versions, f) {
      VersionsOfWithout(s.db.versions, fileId, f);
    }
  }

  /** Every blob belongs to a version id that has been handed out. */
  ghost predicate BlobsNamed(blobs: map<Path, Bytes>, saved: map<string, Bytes>) {
    forall p :: p in blobs ==> p.1 in saved
  }

  // ------------------------------------------------------ the service

  class FileService {
    var server: Server
    var blobs: map<Path, Bytes>
    ghost var saved: map<string, Bytes>
    ghost var moments: seq<Moment>

    /** At every moment so far, each version row had its blob with the bytes saved for it; file names are unique. */
    ghost predicate Valid()
      reads this
    {
      && KeysInv(server)
      && server.issued <= saved.Keys
      && BlobsOk(server.db.versions, blobs, saved)
      && MomentsOk(moments, saved)
      && BlobsNamed(blobs, saved) && NamesUnique(server.db.files)
    }

    constructor ()
      ensures Valid() && server == EMPTY && blobs == map[]
    {
      server, blobs, saved, moments := EMPTY, map[], map[], [];
    }

    /** saveFile: one blob for each version, under the file's directory. */
    method SaveFile(fileId: string, versionId: string, data: Bytes, faults: Faults) returns (ok: bool)
      requires Valid() && versionId !in saved
      modifies this`blobs, this`saved, this`moments
      ensures Valid() && ok == (SaveBlob !in faults)
      ensures blobs == if ok then old(blobs)[(fileId, versionId) := data] else old(blobs)
      ensures saved == if ok then old(saved)[versionId := data] else old(saved)
      ensures moments == old(moments) + if ok then [Moment(server.db.versions, blobs)] else []
      ensures (fileId, versionId) !in old(blobs)
              && forall row :: row in server.db.versions ==> row.path != (fileId, versionId)
    {
      hide KeysInv, RowOk, BlobsOk, NamesUnique;
      NoRowYet(server.db.versions, blobs, saved, fileId, versionId);
      if SaveBlob in faults { return false; }
      BlobSaved(server.db.versions, blobs, saved, fileId, versionId, data);
      MomentsStay(moments, saved, versionId, data);
      blobs := blobs[(fileId, versionId) := data];
      saved := saved[versionId := data];
      moments := moments + [Moment(server.db.versions, blobs)];
      ok := true;
    }

    /** deleteFile, for a path that no row names. */
    method DeleteBlob(path: Path, faults: Faults)
      requires Valid() && forall row :: row in server.db.versions ==> row.path != path
      modifies this`blobs, this`moments
      ensures Valid()
      ensures blobs == if RemoveBlob(path) in faults then old(blobs) else old(blobs) - {path}
      ensures moments == old(moments) + if RemoveBlob(path) in faults then [] else [Moment(server.db.versions, blobs)]
    {
      hide KeysInv, RowOk, BlobsOk, NamesUnique;
      if RemoveBlob(path) in faults { return; }
      BlobRemoved(server.db.versions, blobs, saved, path);
      blobs := blobs - {path};
      moments := moments + [Moment(server.db.versions, blobs)];
    }

    /** Makes the outcome of a call visible to the others. */
    method Publish(step: Step)
      requires Valid() && BlobsOk(Next(server, step).db.versions, blobs, saved)
               && Next(server, step).issued <= saved.Keys && NamesUnique(Next(server, step).db.files)
      modifies this`server, this`moments
      ensures Valid() && server == Next(old(server), step)
      ensures moments == old(moments) + [Moment(server.db.versions, blobs)]
    {
      hide KeysInv, RowOk, BlobsOk, NamesUnique, Next;
      StepKeepsKeysInv(server, step);
      server := Next(server, step);
      moments := moments + [Moment(server.db.versions, blobs)];
    }

    /** COMMIT of a change whose bytes, if it adds a version, have just been saved. */
    method Commit(step: Step)
      requires Valid() && (step.Write? || step.Save?) && Enabled(server, step)
      requires Adds(step.change).Some? ==> RowOk(Adds(step.change).value, blobs, saved)
      requires step.change.FileAdded? ==>
                 !NameTaken(server.db.files, step.change.workspaceId, step.change.fileName)
      modifies this`server, this`moments
      ensures Valid() && server == Next(old(server), step)
      ensures moments == old(moments) + [Moment(server.db.versions, blobs)]
    {
      hide KeysInv, RowOk, BlobsOk, NamesUnique, Next, Enabled, Adds;
      Publishable(server, step, blobs, saved);
      StepKeepsNames(server, step);
      Publish(step);
    }

    /** The second half of PUT and POST: the transaction, and if it fails the blob just saved is removed again. */
    method CommitOrCleanUp(isNew: bool, workspaceId: string, fileName: string, fileId: string, versionId: string,
                           faults: Faults)
      returns (ok: bool, change: Change)
      requires Valid() && versionId !in server.issued && versionId in saved
      requires (fileId, versionId) in blobs && blobs[(fileId, versionId)] == saved[versionId]
      requires forall row :: row in server.db.versions ==> row.path != (fileId, versionId)
      requires if isNew then fileId !in server.knownFiles else fileId in server.db.files
      modifies this`server, this`blobs, this`moments
      ensures Valid() && old(moments) <= moments && server == Next(old(server), Write(change))
              && Enabled(old(server), Write(change))
      ensures change == if !ok then Unchanged
                        else if isNew then FileAdded(fileId, workspaceId, fileName, versionId, 1)
                        else VersionAdded(fileId, versionId,
                                          NextNumber(old(server).db.versions, fileId, SelectMaxNumber in faults))
      ensures blobs == if ok || RemoveBlob((fileId, versionId)) in faults then old(blobs)
              else old(blobs) - {(fileId, versionId)}
      ensures ok && isNew ==> !NameTaken(old(server).db.files, workspaceId, fileName)
      ensures faults == {} && (isNew ==> !NameTaken(old(server).db.files, workspaceId, fileName)) ==> ok
    {
      hide KeysInv, BlobsOk, NamesUnique, NextNumber, Next, NameTaken;
      var number := NextNumber(server.db.versions, fileId, SelectMaxNumber in faults);
      var working;
      ok, working := VersionTransaction(server.db, isNew, workspaceId, fileName, fileId, versionId, number, faults);
      if ok {
        if isNew {
          NewFileIsNew(server, fileId, SelectMaxNumber in faults);
          change := FileAdded(fileId, workspaceId, fileName, versionId, 1);
        } else {
          VersionEnabled(server, fileId, versionId, number);
          change := VersionAdded(fileId, versionId, number);
        }
        Commit(Write(change));
      } else {
        if isNew { NewFileIsNew(server, fileId, false); }
        NothingWritten(server);
        change := Unchanged;
        DeleteBlob((fileId, versionId), faults);
      }
    }

    /** PUT: a new version of the file with this name, or a new file. */
    method PutFile(workspaceId: string, fileName: string, data: Bytes, newFileId: string, versionId: string,
                   faults: Faults)
      returns (ok: bool, fileId: string, change: Change)
      requires Valid() && versionId !in saved && newFileId !in server.knownFiles
      modifies this
      ensures Valid() && old(moments) <= moments && server == Next(old(server), Write(change))
              && Enabled(old(server), Write(change))
      ensures if fileId in old(server).db.files then Named(old(server).db.files[fileId], workspaceId, fileName)
              else
                && fileId == newFileId
                && (ok || FindFile !in faults ==>
                      forall f :: f in old(server).db.files ==> !Named(old(server).db.files[f], workspaceId, fileName))
      ensures !ok ==> change == Unchanged && (blobs == old(blobs) || RemoveBlob((fileId, versionId)) in faults)
      ensures ok ==> blobs == old(blobs)[(fileId, versionId) := data] && saved == old(saved)[versionId := data]
      ensures ok ==> change == if fileId !in old(server).db.files
                               then FileAdded(fileId, workspaceId, fileName, versionId, 1)
                               else VersionAdded(fileId, versionId,
                                                 NextNumber(old(server).db.versions, fileId, SelectMaxNumber in faults))
      ensures ok && Numbered(old(server).db)
              ==> (Numbered(server.db) <==> SelectMaxNumber !in faults || fileId !in old(server).db.files)
      ensures ok ==> Selected(old(server).db, server.db, fileId, versionId)
                     && Named(server.db.files[fileId], workspaceId, fileName)
      ensures faults == {} ==> ok
    {
      hide KeysInv, BlobsOk, NamesUnique, NextNumber, Next, Numbered, Enabled, Adds;
      var existing := None;
      if FindFile !in faults { existing := FindFileByName(server.db.files, workspaceId, fileName); }
      fileId := if existing.Some? then existing.value else newFileId;
      if existing.None? { NewFileIsNew(server, fileId, false); }
      NothingWritten(server);
      var wrote := SaveFile(fileId, versionId, data, faults);
      if !wrote { return false, fileId, Unchanged; }
      SavedThenRemoved(old(blobs), (fileId, versionId), data);
      ghost var before := server;
      ok, change := CommitOrCleanUp(existing.None?, workspaceId, fileName, fileId, versionId, faults);
      if ok { WriteSelects(before, change); }
      if ok && Numbered(before.db) { WriteNumbering(before, change, SelectMaxNumber in faults); }
    }

    /** POST: a new version of a file that exists. */
    method PostVersion(fileId: string, data: Bytes, versionId: string, faults: Faults)
        returns (ok: bool, change: Change)
      requires Valid() && versionId !in saved
      modifies this
      ensures Valid() && old(moments) <= moments && server == Next(old(server), Write(change))
              && Enabled(old(server), Write(change))
      ensures ok ==> fileId in old(server).db.files
      ensures !ok ==> change == Unchanged && (blobs == old(blobs) || RemoveBlob((fileId, versionId)) in faults)
      ensures ok ==> blobs == old(blobs)[(fileId, versionId) := data] && saved == old(saved)[versionId := data]
      ensures ok ==> change == VersionAdded(fileId, versionId,
                                            NextNumber(old(server).db.versions, fileId, SelectMaxNumber in faults))
      ensures ok && Numbered(old(server).db) ==> (Numbered(server.db) <==> SelectMaxNumber !in faults)
      ensures ok ==> Selected(old(server).db, server.db, fileId, versionId)
      ensures faults == {} && fileId in old(server).db.files ==> ok
    {
      hide KeysInv, BlobsOk, NamesUnique, NextNumber, Next, Numbered, Enabled, Adds;
      NothingWritten(server);
      if FindFile in faults || fileId !in server.db.files { return false, Unchanged; }
      var wrote := SaveFile(fileId, versionId, data, faults);
      if !wrote { return false, Unchanged; }
      SavedThenRemoved(old(blobs), (fileId, versionId), data);
      ghost var before := server;
      ok, change := CommitOrCleanUp(false, "", "", fileId, versionId, faults);
      if ok { WriteSelects(before, change); }
      if ok && Numbered(before.db) { WriteNumbering(before, change, SelectMaxNumber in faults); }
    }

    /**
     * The rows of WOPI PutFile and of the editor callback. Neither looks at the answers of BEGIN and COMMIT. If
     * BEGIN fails, the INSERT is visible at once and stays when the UPDATE fails; if COMMIT fails, nothing is
     * saved although the call reports success.
     */
    method InsertAndSelect(fileId: string, versionId: string, ghost content: Bytes, faults: Faults)
        returns (ok: bool, change: Change)
      requires Valid() && versionId !in server.issued && versionId in saved && saved[versionId] == content
      requires (fileId, versionId) in blobs && blobs[(fileId, versionId)] == content
      modifies this`moments
      ensures Valid() && old(moments) <= moments
      ensures ok <==> InsertVersion !in faults && UpdateCurrent !in faults
      ensures change.VersionAdded? <==> ok && (BeginTransaction in faults || CommitTransaction !in faults)
      ensures change.RowOnly? <==> InsertVersion !in faults && UpdateCurrent in faults && BeginTransaction in faults
      ensures var number := NextNumber(server.db.versions, fileId, SelectMaxNumber in faults);
              change == Unchanged || change == VersionAdded(fileId, versionId, number)
                || change == RowOnly(fileId, versionId, number)
    {
      hide KeysInv, BlobsOk, NamesUnique, NextNumber, Next;
      var number := NextNumber(server.db.versions, fileId, SelectMaxNumber in faults);
      if InsertVersion in faults { return false, Unchanged; }
      if BeginTransaction in faults {
        var inserted := RowOnly(fileId, versionId, number);
        ChangeKeepsBlobsOk(server.db, inserted, blobs, saved);
        moments := moments + [Moment(Apply(server.db, inserted).versions, blobs)];
      }
      if UpdateCurrent in faults {
        return false, if BeginTransaction in faults then RowOnly(fileId, versionId, number) else Unchanged;
      }
      change := if BeginTransaction !in faults && CommitTransaction in faults then Unchanged
        else VersionAdded(fileId, versionId, number);
      return true, change;
    }

    /**
     * WOPI PutFile, once the token and the lock have been accepted. The blob of a failed call stays; success is
     * reported although nothing is saved exactly when COMMIT fails.
     */
    method WopiPutFile(fileId: string, content: Bytes, versionId: string, faults: Faults)
        returns (status: int, change: Change)
      requires Valid() && versionId !in saved
      modifies this
      ensures Valid() && old(moments) <= moments && server == Next(old(server), Write(change))
              && Enabled(old(server), Write(change))
      ensures status == 404 <==> FindFile in faults || fileId !in old(server).db.files
      ensures status == 200 <==>
                status != 404 && SaveBlob !in faults && InsertVersion !in faults && UpdateCurrent !in faults
      ensures status == 200 || status == 404 || status == 500
      ensures change.VersionAdded? <==> status == 200 && (BeginTransaction in faults || CommitTransaction !in faults)
      ensures change.RowOnly? <==> && status == 500 && SaveBlob !in faults && InsertVersion !in faults
                                   && BeginTransaction in faults && UpdateCurrent in faults
      ensures var number := NextNumber(old(server).db.versions, fileId, SelectMaxNumber in faults);
              change == Unchanged || change == VersionAdded(fileId, versionId, number)
                || change == RowOnly(fileId, versionId, number)
      ensures blobs == if status == 404 || SaveBlob in faults then old(blobs)
              else old(blobs)[(fileId, versionId) := content]
      ensures change.VersionAdded? ==> Selected(old(server).db, server.db, fileId, versionId)
      ensures Numbered(old(server).db)
              ==> (Numbered(server.db) <==> change.Unchanged? || (change.VersionAdded? && SelectMaxNumber !in faults))
    {
      hide KeysInv, BlobsOk, NamesUnique, NextNumber, Next, Numbered, Enabled, Adds;
      NothingWritten(server);
      change := Unchanged;
      if FindFile in faults || fileId !in server.db.files { return 404, Unchanged; }
      var wrote := SaveFile(fileId, versionId, content, faults);
      if !wrote { return 500, Unchanged; }
      ghost var before := server;
      var ok;
      ok, change := InsertAndSelect(fileId, versionId, content, faults);
      if !change.Unchanged? {
        VersionEnabled(server, fileId, versionId, change.number);
        OwnRow(change, content, blobs, saved);
        Commit(Write(change));
        if change.VersionAdded? { WriteSelects(before, change); }
        if Numbered(before.db) { WriteNumbering(before, change, SelectMaxNumber in faults); }
      }
      status := if ok then 200 else 500;
    }

    /** The editor page of a file carries the key under which the editor will call back. */
    method OpenEditor(fileId: string, faults: Faults) returns (key: Option<string>)
      requires Valid()
      ensures key.Some? <==> FindFile !in faults && fileId in server.db.files
      ensures key.Some? ==> Current(server.db.files, fileId, key.value)
    {
      if FindFile in faults || fileId !in server.db.files { return None; }
      var version := server.db.files[fileId].currentVersion;
      return Some(fileId + "_" + version);
    }

    /** The first half of a callback: does its key name the current version? Nobody else may hold the file's mutex. */
    method CheckCallback(fileId: string, key: string, faults: Faults) returns (check: KeyCheck)
      requires Valid() && fileId !in server.pending
      modifies this`server, this`moments
      ensures Valid()
      ensures check.FileMissing? <==> FindFile in faults || fileId !in old(server).db.files
      ensures check.Proceed? <==> FindFile !in faults && Enabled(old(server), CheckKey(fileId, key))
      ensures check.Proceed? <==>
                && FindFile !in faults && fileId in old(server).db.files
                && key == fileId + "_" + old(server).db.files[fileId].currentVersion
      ensures server == if check.Proceed? then Next(old(server), CheckKey(fileId, key)) else old(server)
      ensures Retired(old(server), fileId, key) ==> !check.Proceed?
    {
      hide KeysInv, BlobsOk, NamesUnique;
      if FindFile in faults || fileId !in server.db.files { return FileMissing; }
      var expectedKey := DocumentKey(fileId, server.db.files[fileId].currentVersion);
      if key != expectedKey { return StaleKey; }
      StepKeepsNames(server, CheckKey(fileId, key));
      Publish(CheckKey(fileId, key));
      return Proceed;
    }

    /**
     * The second half, after the download: saves what arrived, under the key of the first half whether or not that
     * is still current, and releases the mutex. Again success is reported although nothing is saved exactly when
     * COMMIT fails.
     */
    method SaveCallback(fileId: string, content: Bytes, versionId: string, faults: Faults)
        returns (ok: bool, ghost change: Change)
      requires Valid() && fileId in server.pending && versionId !in saved
      modifies this
      ensures Valid() && old(moments) <= moments && fileId !in server.pending
      ensures server == Next(old(server), if change.Unchanged? then GiveUp(fileId) else Save(change))
      ensures server.saves == old(server).saves + if change.VersionAdded? then [(fileId, old(server).pending[fileId])]
              else []
      ensures ok <==> content != [] && SaveBlob !in faults && InsertVersion !in faults && UpdateCurrent !in faults
      ensures change.VersionAdded? <==> ok && (BeginTransaction in faults || CommitTransaction !in faults)
      ensures change.RowOnly? <==> && content != [] && SaveBlob !in faults && InsertVersion !in faults
                                   && BeginTransaction in faults && UpdateCurrent in faults
      ensures var number := NextNumber(old(server).db.versions, fileId, SelectMaxNumber in faults);
              change == Unchanged || change == VersionAdded(fileId, versionId, number)
                || change == RowOnly(fileId, versionId, number)
      ensures blobs == if content == [] || SaveBlob in faults then old(blobs)
              else old(blobs)[(fileId, versionId) := content]
      ensures change.VersionAdded? && fileId in old(server).db.files ==>
                Selected(old(server).db, server.db, fileId, versionId)
      ensures Numbered(old(server).db) && fileId in old(server).db.files ==>
                (Numbered(server.db) <==> change.Unchanged? || (change.VersionAdded? && SelectMaxNumber !in faults))
    {
      hide KeysInv, BlobsOk, NamesUnique, NextNumber, Numbered, Adds, FreshFor, Changed, Next;
      CallbackGivesUp(server, fileId);
      change := Unchanged;
      var wrote := false;
      if content != [] {
        wrote := SaveFile(fileId, versionId, content, faults);
      }
      if !wrote {
        StepKeepsNames(server, GiveUp(fileId));
        Publish(GiveUp(fileId));
        return false, Unchanged;
      }
      ghost var before := server;
      var saving;
      ok, saving := InsertAndSelect(fileId, versionId, content, faults);
      change := saving;
      if saving.Unchanged? {
        StepKeepsNames(server, GiveUp(fileId));
        Publish(GiveUp(fileId));
        return ok, change;
      }
      SaveEnabled(server, change);
      CallbackEnds(server, change);
      OwnRow(change, content, blobs, saved);
      Commit(Save(saving));
      if change.VersionAdded? && fileId in before.db.files { SaveSelects(before, change); }
      if Numbered(before.db) && fileId in before.db.files { SaveNumbering(before, change, SelectMaxNumber in faults); }
    }

    /** DELETE: the rows go in one transaction, their blobs afterwards. */
    method DeleteFile(fileId: string, faults: Faults) returns (status: int)
      requires Valid()
      modifies this`server, this`blobs, this`moments
      ensures Valid() && old(moments) <= moments
      ensures status == 204 || status == 404 || status == 500
      ensures status == 404 <==> FindFile in faults || fileId !in old(server).db.files
      ensures server == if status == 204 then Next(old(server), Write(Deleted(fileId))) else old(server)
      ensures Numbered(old(server).db) ==> Numbered(server.db)
      ensures status == 204 ==> FileGone(old(server).db, server.db, fileId)
      ensures status != 204 ==> blobs == old(blobs)
      ensures forall p :: p in blobs ==> p in old(blobs) && blobs[p] == old(blobs)[p]
      ensures forall p :: p in old(blobs) && p !in blobs ==> p.0 == fileId
      ensures status == 204 && SelectPaths !in faults ==>
                forall row :: row in old(server).db.versions && row.fileId == fileId && row.path in blobs
                  ==> RemoveBlob(row.path) in faults
      ensures faults == {} && fileId in old(server).db.files ==> status == 204
    {
      hide KeysInv, BlobsOk, NamesUnique, Enabled, Next, PathsOf, RowOk, MomentsOk, BlobsNamed, Numbered;
      if FindFile in faults || fileId !in server.db.files { return 404; }
      var paths := if SelectPaths in faults then [] else PathsOf(server.db.versions, fileId);
      if BeginTransaction in faults || DeleteVersions in faults || DeleteFileRow in faults
         || CommitTransaction in faults { return 500; }
      ghost var rows := server.db.versions;
      DeletedPaths(server.db, fileId, paths, SelectPaths in faults, blobs, saved);
      DeleteEnabled(server, fileId);
      if Numbered(server.db) { DeleteNumbering(server, fileId); }
      Commit(Write(Deleted(fileId)));
      DeleteRemoves(old(server), fileId);
      status := 204;
      for i := 0 to |paths|
        invariant Valid() && old(moments) <= moments && server == Next(old(server), Write(Deleted(fileId)))
        invariant FileGone(old(server).db, server.db, fileId)
        invariant forall row :: row in server.db.versions ==> row.path !in paths
        invariant forall p :: p in blobs ==> p in old(blobs) && blobs[p] == old(blobs)[p]
        invariant forall p :: p in old(blobs) && p !in blobs ==> p.0 == fileId
        invariant forall j :: 0 <= j < i && paths[j] in blobs ==> RemoveBlob(paths[j]) in faults
      {
        DeleteBlob(paths[i], faults);
      }
    }
  }
}
