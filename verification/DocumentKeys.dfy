/**
 * Saving from the document editor. A callback first compares the document key with the current
 * version; it saves only after a download, during which every other writer may run. The
 * per-file mutex keeps a second callback for the same file out for that time.
 */
module DocumentKeys {
  import opened FileTables

  /** The key under which a version of a file is opened in the editor. */
  function DocumentKey(fileId: string, versionId: string): string {
    fileId + "_" + versionId
  }

  lemma KeyNamesVersion(fileId: string, v: string, w: string)
    requires DocumentKey(fileId, v) == DocumentKey(fileId, w)
    ensures v == w
  {
    assert DocumentKey(fileId, v)[|fileId| + 1..] == v;
    assert DocumentKey(fileId, w)[|fileId| + 1..] == w;
  }

  /**
   * The tables, the callbacks now downloading (file and key), and what has happened so far: the version and
   * file ids handed out, the callbacks that made a version current, and those that failed but left their row behind.
   */
  datatype Server = Server(db: Db, pending: map<string, string>,
                           issued: set<string>, knownFiles: set<string>,
                           saves: seq<(string, string)>, strays: seq<(string, string)>)

  datatype Step =
    | Write(change: Change)                   // what PUT, POST, WOPI PutFile or DELETE commits
    | CheckKey(fileId: string, key: string)   // a callback arrives
    | Save(change: Change)                    // its second half leaves a version row
    | GiveUp(fileId: string)                  // its second half changes nothing

  predicate FreshFor(s: Server, change: Change) {
    && (Adds(change).Some? ==> Adds(change).value.versionId !in s.issued)
    && (change.FileAdded? ==> change.fileId !in s.knownFiles)
    && (change.VersionAdded? || change.RowOnly? ==> change.fileId in s.knownFiles)
  }

  /**
   * When a step can happen: ids are fresh, a writer has found its file, a callback proceeds only with the current
   * key and only while it holds the mutex.
   */
  predicate Enabled(s: Server, step: Step) {
    match step
    case Write(change) => FreshFor(s, change)
      && (change.VersionAdded? || change.RowOnly? ==> change.fileId in s.db.files)
    case CheckKey(f, key) => f !in s.pending && f in s.db.files && key == DocumentKey(f, s.db.files[f].currentVersion)
    case Save(change) => (change.VersionAdded? || change.RowOnly?) && change.fileId in s.pending && FreshFor(s, change)
    case GiveUp(f) => f in s.pending
  }

  function Changed(s: Server, change: Change): Server {
    s.(db := Apply(s.db, change),
       issued := s.issued + if Adds(change).Some? then {Adds(change).value.versionId} else {},
       knownFiles := s.knownFiles + if change.FileAdded? then {change.fileId} else {})
  }

  function Next(s: Server, step: Step): Server {
    if !Enabled(s, step) then s
    else match step
      case Write(change) => Changed(s, change)
      case CheckKey(f, key) => s.(pending := s.pending[f := key])
      case Save(change) =>
        var saved := Changed(s, change).(pending := s.pending - {change.fileId});
        var entry := (change.fileId, s.pending[change.fileId]);
        if change.RowOnly? then saved.(strays := s.strays + [entry]) else saved.(saves := s.saves + [entry])
      case GiveUp(f) => s.(pending := s.pending - {f})
  }

  function Run(s: Server, steps: seq<Step>): Server {
    if steps == [] then s else Next(Run(s, steps[..|steps| - 1]), steps[|steps| - 1])
  }

  const EMPTY := Server(Db(map[], []), map[], {}, {}, [], [])

  // ------------------------------------------------------ the invariant

  ghost predicate KeyOfIssued(issued: set<string>, fileId: string, key: string) {
    exists v :: v in issued && key == DocumentKey(fileId, v)
  }

  predicate Current(files: map<string, FileRow>, fileId: string, key: string) {
    fileId in files && key == DocumentKey(fileId, files[fileId].currentVersion)
  }

  /** The key names a version that is not current: no callback with this key will ever proceed. */
  ghost predicate Retired(s: Server, fileId: string, key: string) {
    fileId in s.knownFiles && KeyOfIssued(s.issued, fileId, key) && !Current(s.db.files, fileId, key)
  }

  ghost predicate FilesKnown(files: map<string, FileRow>, issued: set<string>, knownFiles: set<string>) {
    forall f :: f in files ==> f in knownFiles && files[f].currentVersion in issued
  }

  ghost predicate RowsKnown(rows: seq<VersionRow>, knownFiles: set<string>) {
    forall row :: row in rows ==> row.fileId in knownFiles
  }

  ghost predicate PendingOk(s: Server) {
    forall f :: f in s.pending ==>
      f in s.knownFiles && KeyOfIssued(s.issued, f, s.pending[f]) && (f, s.pending[f]) !in s.saves
  }

  ghost predicate SavesOk(s: Server) {
    && (forall i, j :: 0 <= i < j < |s.saves| ==> s.saves[i] != s.saves[j])
    && (forall i :: 0 <= i < |s.saves| ==> Retired(s, s.saves[i].0, s.saves[i].1))
  }

  ghost predicate KeysInv(s: Server) {
    FilesKnown(s.db.files, s.issued, s.knownFiles) && RowsKnown(s.db.versions, s.knownFiles) && PendingOk(s)
      && SavesOk(s)
  }

  lemma ChangedFiles(s: Server, change: Change, f: string)
    requires FreshFor(s, change)
    ensures var s' := Changed(s, change);
            f in s'.db.files ==>
              || (f in s.db.files && s'.db.files[f].currentVersion == s.db.files[f].currentVersion)
              || (Adds(change).Some? && !change.RowOnly? && f == change.fileId
                  && s'.db.files[f].currentVersion == Adds(change).value.versionId
                  && (f in s.db.files || f !in s.knownFiles))
  {
    hide VersionsOf, WithoutFile;
  }

  lemma ChangeKeepsFilesKnown(s: Server, change: Change)
    requires FilesKnown(s.db.files, s.issued, s.knownFiles) && FreshFor(s, change)
    ensures var s' := Changed(s, change); FilesKnown(s'.db.files, s'.issued, s'.knownFiles)
  {
    hide WithoutFile, VersionsOf;
  }

  lemma ChangeKeepsRowsKnown(s: Server, change: Change)
    requires RowsKnown(s.db.versions, s.knownFiles) && FreshFor(s, change)
    ensures var s' := Changed(s, change); RowsKnown(s'.db.versions, s'.knownFiles)
  {
    hide WithoutFile;
    if change.Deleted? {
      forall row | row in WithoutFile(s.db.versions, change.fileId) ensures row in s.db.versions {
        WithoutFileRows(s.db.versions, change.fileId, row);
      }
    }
  }

  /** A new version has a new id, so a key that is out of date stays so, whatever is written. */
  lemma ChangeKeepsRetired(s: Server, change: Change, f: string, key: string)
    requires FreshFor(s, change) && Retired(s, f, key)
    ensures Retired(Changed(s, change), f, key)
  {
    hide WithoutFile, VersionsOf, Apply, DocumentKey, FreshFor;
    var s' := Changed(s, change);
    KeyStaysIssued(s, change, f, key);
    if Current(s'.db.files, f, key) {
      ChangedFiles(s, change, f);
      if f !in s.db.files || s'.db.files[f].currentVersion != s.db.files[f].currentVersion {
        NewIdIsNoOldKey(s, change, f, key);
      }
    }
  }

  lemma KeyStaysIssued(s: Server, change: Change, f: string, key: string)
    requires KeyOfIssued(s.issued, f, key)
    ensures KeyOfIssued(Changed(s, change).issued, f, key)
  {
    hide WithoutFile, VersionsOf, Apply, DocumentKey;
    var v :| v in s.issued && key == DocumentKey(f, v);
    assert v in Changed(s, change).issued;
  }

  lemma NewIdIsNoOldKey(s: Server, change: Change, f: string, key: string)
    requires FreshFor(s, change) && KeyOfIssued(s.issued, f, key) && Adds(change).Some?
    ensures key != DocumentKey(f, Adds(change).value.versionId)
  {
    var v :| v in s.issued && key == DocumentKey(f, v);
    if key == DocumentKey(f, Adds(change).value.versionId) {
      KeyNamesVersion(f, v, Adds(change).value.versionId);
    }
  }

  lemma ChangeKeepsKeysInv(s: Server, change: Change)
    requires KeysInv(s) && FreshFor(s, change)
    ensures KeysInv(Changed(s, change))
  {
    hide WithoutFile, VersionsOf, Apply, FreshFor, Retired, KeyOfIssued, FilesKnown, RowsKnown, Adds;
    var s' := Changed(s, change);
    ChangeKeepsFilesKnown(s, change);
    ChangeKeepsRowsKnown(s, change);
    forall f | f in s.pending ensures KeyOfIssued(s'.issued, f, s.pending[f]) {
      KeyStaysIssued(s, change, f, s.pending[f]);
    }
    forall i | 0 <= i < |s.saves| ensures Retired(s', s.saves[i].0, s.saves[i].1) {
      ChangeKeepsRetired(s, change, s.saves[i].0, s.saves[i].1);
    }
  }

  /** A save that makes its version current retires its key. */
  lemma SaveRetires(s: Server, change: Change)
    requires KeysInv(s) && Enabled(s, Save(change)) && change.VersionAdded?
    ensures Retired(Changed(s, change), change.fileId, s.pending[change.fileId])
  {
    hide WithoutFile, VersionsOf, FilesKnown, RowsKnown, SavesOk, DocumentKey;
    var f := change.fileId;
    var key := s.pending[f];
    KeyStaysIssued(s, change, f, key);
    NewIdIsNoOldKey(s, change, f, key);
  }

  lemma StepKeepsKeysInv(s: Server, step: Step)
    requires KeysInv(s)
    ensures KeysInv(Next(s, step))
  {
    hide WithoutFile, VersionsOf, Apply, FreshFor, FilesKnown, RowsKnown, Adds, DocumentKey, Changed, KeyOfIssued;
    if Enabled(s, step) {
      match step
      case Write(change) => ChangeKeepsKeysInv(s, change);
      case CheckKey(f, key) => CheckKeepsKeysInv(s, f, key);
      case Save(change) => SaveKeepsKeysInv(s, change);
      case GiveUp(f) =>
    }
  }

  lemma CheckKeepsKeysInv(s: Server, f: string, key: string)
    requires KeysInv(s) && Enabled(s, CheckKey(f, key))
    ensures KeysInv(Next(s, CheckKey(f, key)))
  {
    hide WithoutFile, VersionsOf, Apply, FreshFor, Adds, DocumentKey, Changed, RowsKnown;
    assert s.db.files[f].currentVersion in s.issued;
    assert KeyOfIssued(s.issued, f, key);
    forall i | 0 <= i < |s.saves| ensures s.saves[i] != (f, key) {
      assert Retired(s, s.saves[i].0, s.saves[i].1);
    }
  }

  lemma SaveKeepsKeysInv(s: Server, change: Change)
    requires KeysInv(s) && Enabled(s, Save(change))
    ensures KeysInv(Next(s, Save(change)))
  {
    hide WithoutFile, VersionsOf, Apply, FreshFor, FilesKnown, RowsKnown, Adds, DocumentKey, KeyOfIssued;
    ChangeKeepsKeysInv(s, change);
    var s', f := Next(s, Save(change)), change.fileId;
    var key := s.pending[f];
    if change.VersionAdded? {
      SaveRetires(s, change);
      forall i | 0 <= i < |s.saves| ensures Retired(s', s.saves[i].0, s.saves[i].1) && s.saves[i] != (f, key) {
        assert Retired(Changed(s, change), s.saves[i].0, s.saves[i].1);
      }
    }
  }

  lemma {:induction false} RunKeepsKeysInv(s: Server, steps: seq<Step>)
    requires KeysInv(s)
    ensures KeysInv(Run(s, steps))
  {
    hide KeysInv, Next;
    if steps == [] {
    } else {
      RunKeepsKeysInv(s, steps[..|steps| - 1]);
      StepKeepsKeysInv(Run(s, steps[..|steps| - 1]), steps[|steps| - 1]);
    }
  }

  // ------------------------------------------------------ the theorems

  /**
   * Keys are single-use: whatever the interleaving with the other writers, and whatever fails, at most
   * one callback per file and key makes its version current.
   */
  lemma KeysAreSingleUse(steps: seq<Step>, i: nat, j: nat)
    requires i < j < |Run(EMPTY, steps).saves|
    ensures Run(EMPTY, steps).saves[i] != Run(EMPTY, steps).saves[j]
  {
    RunKeepsKeysInv(EMPTY, steps);
  }

  /** A key that has been overtaken, by whichever writer, never lets a callback in again. */
  lemma {:induction false} RetiredForGood(s: Server, steps: seq<Step>, f: string, key: string)
    requires KeysInv(s) && Retired(s, f, key)
    ensures Retired(Run(s, steps), f, key) && !Enabled(Run(s, steps), CheckKey(f, key))
  {
    hide KeysInv, Changed, FreshFor;
    if steps == [] {
    } else {
      var before, step := Run(s, steps[..|steps| - 1]), steps[|steps| - 1];
      RetiredForGood(s, steps[..|steps| - 1], f, key);
      if Enabled(before, step) && (step.Write? || step.Save?) {
        ChangeKeepsRetired(before, step.change, f, key);
      }
    }
  }

  /** How many versions callbacks with a key have created, counting rows that did not become current. */
  ghost function Uses(s: Server, f: string, key: string): nat {
    multiset(s.saves)[(f, key)] + multiset(s.strays)[(f, key)]
  }

  predicate Downloading(s: Server, f: string, key: string) {
    f in s.pending && s.pending[f] == key
  }

  lemma StepWithoutUse(s: Server, step: Step, f: string, key: string)
    requires KeysInv(s) && Retired(s, f, key) && !Downloading(s, f, key)
    ensures !Downloading(Next(s, step), f, key) && Uses(Next(s, step), f, key) == Uses(s, f, key)
  {
    hide KeysInv, FreshFor, KeyOfIssued, Apply, Adds, DocumentKey;
  }

  /** A key that no longer names the current version creates none, unless a callback is already downloading under it. */
  lemma {:induction false} RetiredCreatesNone(s: Server, steps: seq<Step>, f: string, key: string)
    requires KeysInv(s) && Retired(s, f, key) && !Downloading(s, f, key)
    ensures !Downloading(Run(s, steps), f, key) && Uses(Run(s, steps), f, key) == Uses(s, f, key)
  {
    hide KeysInv, Next, Retired, Uses, Downloading;
    if steps == [] {
    } else {
      var front := steps[..|steps| - 1];
      RetiredCreatesNone(s, front, f, key);
      RunKeepsKeysInv(s, front);
      RetiredForGood(s, front, f, key);
      StepWithoutUse(Run(s, front), steps[|steps| - 1], f, key);
    }
  }

  lemma SaveIsAUse(s: Server, f: string, key: string, b: string, number: int)
    requires Downloading(s, f, key) && f in s.knownFiles && b !in s.issued
    ensures Enabled(s, Save(VersionAdded(f, b, number)))
    ensures Uses(Next(s, Save(VersionAdded(f, b, number))), f, key) == Uses(s, f, key) + 1
  {
    hide Apply, DocumentKey;
  }

  /**
   * When exactly an out-of-date key can still create a version: some continuation does so if and only if a
   * callback that passed the check in time is still downloading under it.
   */
  lemma RetiredCreatesExactly(s: Server, f: string, key: string, b: string, number: int)
    requires KeysInv(s) && Retired(s, f, key) && b !in s.issued
    ensures (exists steps :: Uses(Run(s, steps), f, key) > Uses(s, f, key)) <==> Downloading(s, f, key)
  {
    hide KeysInv, KeyOfIssued, Next, Uses, Run, Enabled;
    if Downloading(s, f, key) {
      SaveIsAUse(s, f, key, b, number);
      OneStep(s, Save(VersionAdded(f, b, number)));
      assert Uses(Run(s, [Save(VersionAdded(f, b, number))]), f, key) > Uses(s, f, key);
    } else {
      forall steps ensures Uses(Run(s, steps), f, key) == Uses(s, f, key) {
        RetiredCreatesNone(s, steps, f, key);
      }
    }
  }

  lemma OneStep(s: Server, step: Step)
    ensures Run(s, [step]) == Next(s, step)
  {
    hide Next;
    assert [step][..0] == [];
  }

  // ------------------------------------------------------ overtaken during the download

  /** A new version of the file, or its deletion. */
  predicate Overtakes(change: Change, f: string) {
    (change.VersionAdded? || change.Deleted?) && change.fileId == f
  }

  /** Some step along the run overtakes the file's current version. */
  predicate Overtaken(s: Server, steps: seq<Step>, f: string) {
    steps != [] && (Overtaken(s, steps[..|steps| - 1], f)
                    || Overtakes(ChangeOf(Run(s, steps[..|steps| - 1]), steps[|steps| - 1]), f))
  }

  lemma StepOvertakes(s: Server, step: Step, f: string, key: string)
    requires KeysInv(s) && Current(s.db.files, f, key)
    ensures Current(Next(s, step).db.files, f, key) <==> !Overtakes(ChangeOf(s, step), f)
  {
    hide PendingOk, SavesOk, RowsKnown, DocumentKey, WithoutFile, VersionsOf;
    var change := ChangeOf(s, step);
    ChangeIsApplied(s, step);
    CurrentIsIssued(s, f, key);
    if change.VersionAdded? && change.fileId == f {
      NewIdIsNoOldKey(s, change, f, key);
    }
  }

  lemma CurrentIsIssued(s: Server, f: string, key: string)
    requires KeysInv(s) && Current(s.db.files, f, key)
    ensures f in s.knownFiles && KeyOfIssued(s.issued, f, key)
  {
    hide PendingOk, SavesOk, RowsKnown, DocumentKey;
    assert s.db.files[f].currentVersion in s.issued;
  }

  lemma StepStaysRetired(s: Server, step: Step, f: string, key: string)
    requires Retired(s, f, key)
    ensures Retired(Next(s, step), f, key)
  {
    hide Changed, FreshFor, KeyOfIssued, DocumentKey;
    if Enabled(s, step) && (step.Write? || step.Save?) { ChangeKeepsRetired(s, step.change, f, key); }
  }

  /** Over any run, a key that is current stays so if and only if no step adds a version to its file or deletes it. */
  lemma {:induction false} CurrentUntilOvertaken(s: Server, steps: seq<Step>, f: string, key: string)
    requires KeysInv(s) && Current(s.db.files, f, key)
    ensures Current(Run(s, steps).db.files, f, key) <==> !Overtaken(s, steps, f)
    ensures f in Run(s, steps).knownFiles && KeyOfIssued(Run(s, steps).issued, f, key)
  {
    hide KeysInv, Next, KeyOfIssued, ChangeOf, Overtakes, Current;
    if steps == [] {
      CurrentIsIssued(s, f, key);
    } else {
      var front, step := steps[..|steps| - 1], steps[|steps| - 1];
      CurrentUntilOvertaken(s, front, f, key);
      RunKeepsKeysInv(s, front);
      var before := Run(s, front);
      if Current(before.db.files, f, key) {
        StepOvertakes(before, step, f, key);
      } else {
        StepStaysRetired(before, step, f, key);
      }
      StepKeepsKnown(before, step, f, key);
    }
  }

  lemma StepKeepsKnown(s: Server, step: Step, f: string, key: string)
    requires f in s.knownFiles && KeyOfIssued(s.issued, f, key)
    ensures f in Next(s, step).knownFiles && KeyOfIssued(Next(s, step).issued, f, key)
  {
    hide FreshFor, DocumentKey, KeyOfIssued, Apply;
    if step.Write? || step.Save? { KeyStaysIssued(s, step.change, f, key); }
  }

  predicate SavesFor(step: Step, f: string) {
    step.Save? && (step.change.VersionAdded? || step.change.RowOnly?) && step.change.fileId == f
  }

  /** The steps of the other writers and of callbacks for other files. */
  predicate OthersOnly(steps: seq<Step>, f: string) {
    forall i :: 0 <= i < |steps| ==> steps[i] != GiveUp(f) && !SavesFor(steps[i], f)
  }

  lemma {:induction false} DownloadLasts(s: Server, steps: seq<Step>, f: string, key: string)
    requires Downloading(s, f, key) && OthersOnly(steps, f)
    ensures Downloading(Run(s, steps), f, key)
  {
    hide FreshFor, DocumentKey, Apply, Adds;
    if steps == [] {
    } else {
      DownloadLasts(s, steps[..|steps| - 1], f, key);
    }
  }

  /**
   * A callback that has passed the check saves whatever happens during its download. Its key is out of date by
   * then, and a version is created under it all the same, exactly when a writer has overtaken the file meanwhile.
   */
  lemma SaveUnderStaleKey(s: Server, f: string, key: string, during: seq<Step>, b: string, number: int)
    requires KeysInv(s) && Enabled(s, CheckKey(f, key)) && OthersOnly(during, f)
    requires b !in Run(Next(s, CheckKey(f, key)), during).issued
    ensures var started := Next(s, CheckKey(f, key));
            var before := Run(started, during);
            && Enabled(before, Save(VersionAdded(f, b, number)))
            && Next(before, Save(VersionAdded(f, b, number))).saves == before.saves + [(f, key)]
            && (Retired(before, f, key) <==> Overtaken(started, during, f))
  {
    hide KeysInv, Run, KeyOfIssued, DocumentKey, Apply, Overtaken;
    var started := Next(s, CheckKey(f, key));
    StepKeepsKeysInv(s, CheckKey(f, key));
    CurrentUntilOvertaken(started, during, f, key);
    DownloadLasts(started, during, f, key);
    SaveIsAUse(Run(started, during), f, key, b, number);
  }

  /** It does occur: a version written during the download does not stop the callback, whose version becomes current. */
  lemma OvertakenCallbackSaves(f: string, workspaceId: string, name: string, a: string, b: string, c: string)
    requires a != b && b != c && a != c
    ensures var key := DocumentKey(f, a);
            var s := Run(EMPTY, [Write(FileAdded(f, workspaceId, name, a, 1)), CheckKey(f, key),
                                 Write(VersionAdded(f, b, 2))]);
            var s' := Next(s, Save(VersionAdded(f, c, 3)));
            && Retired(s, f, key) && !Enabled(s, CheckKey(f, key)) && Enabled(s, Save(VersionAdded(f, c, 3)))
            && s'.saves == [(f, key)] && f in s'.db.files && s'.db.files[f].currentVersion == c
  {
    hide VersionsOf, WithoutFile, KeyOfIssued, DocumentKey;
    var key := DocumentKey(f, a);
    var steps := [Write(FileAdded(f, workspaceId, name, a, 1)), CheckKey(f, key), Write(VersionAdded(f, b, 2))];
    Run3(EMPTY, steps);
    DownloadStarts(f, workspaceId, name, a);
    var s0 := CheckedFile(f, workspaceId, name, a);
    assert a in s0.issued;
    IssuedKey(s0.issued, f, a);
    KeyStaysIssued(s0, VersionAdded(f, b, 2), f, key);
    NewIdIsNoOldKey(s0, VersionAdded(f, b, 2), f, key);
  }

  lemma IssuedKey(issued: set<string>, f: string, v: string)
    requires v in issued
    ensures KeyOfIssued(issued, f, DocumentKey(f, v))
  {
  }

  // ------------------------------------------------------ a second use

  /**
   * When exactly a second callback could use the key of a save that left a row: only if that row did
   * not become current, and the key was still the current one when it was inserted.
   */
  lemma KeyReusable(s: Server, change: Change)
    requires KeysInv(s) && Enabled(s, Save(change))
    ensures var f, key := change.fileId, s.pending[change.fileId];
            Enabled(Next(s, Save(change)), CheckKey(f, key)) <==> change.RowOnly? && Current(s.db.files, f, key)
  {
    hide WithoutFile, VersionsOf, FilesKnown, RowsKnown, SavesOk, DocumentKey;
    if change.VersionAdded? {
      SaveRetires(s, change);
    }
  }

  // ------------------------------------------------------ numbering

  /** The change a step commits, if it is enabled. */
  function ChangeOf(s: Server, step: Step): Change {
    if Enabled(s, step) && (step.Write? || step.Save?) then step.change else Unchanged
  }

  /** Every change along the run carries the next number, and none leaves its row behind without making it current. */
  ghost predicate AllSound(s: Server, steps: seq<Step>) {
    steps == [] || (AllSound(s, steps[..|steps| - 1])
                    && Sound(Run(s, steps[..|steps| - 1]).db,
                             ChangeOf(Run(s, steps[..|steps| - 1]), steps[|steps| - 1])))
  }

  lemma FreshForIsFresh(s: Server, change: Change)
    requires KeysInv(s) && FreshFor(s, change)
    ensures FreshIds(s.db, change)
  {
    hide WithoutFile, VersionsOf, Apply, DocumentKey, PendingOk, SavesOk;
  }

  lemma StepNumbering(s: Server, step: Step)
    requires KeysInv(s) && Numbered(s.db)
    ensures Numbered(Next(s, step).db) <==> Sound(s.db, ChangeOf(s, step))
  {
    hide KeysInv, Numbered, Sound, FreshFor, FreshIds, Apply, VersionsOf, WithoutFile, Adds;
    var change := ChangeOf(s, step);
    assert Next(s, step).db == Apply(s.db, change) by { ChangeIsApplied(s, step); }
    if change.Unchanged? { NothingIsFresh(s.db); } else { FreshForIsFresh(s, change); }
    NumberingKept(s.db, change);
  }

  lemma ChangeIsApplied(s: Server, step: Step)
    ensures Next(s, step).db == Apply(s.db, ChangeOf(s, step))
    ensures !ChangeOf(s, step).Unchanged? ==> FreshFor(s, ChangeOf(s, step))
  {
    hide FreshFor, Adds, VersionsOf, WithoutFile, DocumentKey;
  }

  lemma NothingIsFresh(db: Db)
    ensures FreshIds(db, Unchanged)
  {
  }

  /** Over a run of sound changes every file stays numbered 1..n with number n current. */
  lemma {:induction false} RunNumbering(steps: seq<Step>)
    requires AllSound(EMPTY, steps)
    ensures Numbered(Run(EMPTY, steps).db)
  {
    hide KeysInv, Next, Sound;
    if steps == [] {
    } else {
      RunNumbering(steps[..|steps| - 1]);
      EmptyKeysInv();
      RunKeepsKeysInv(EMPTY, steps[..|steps| - 1]);
      StepNumbering(Run(EMPTY, steps[..|steps| - 1]), steps[|steps| - 1]);
    }
  }

  /** The numbering does break: a second version whose number query failed is number 1 again. */
  lemma FailedQueryRepeatsNumber(f: string, workspaceId: string, name: string, a: string, b: string)
    requires a != b
    ensures var number := NextNumber([Row(f, a, 1)], f, true);
            var s := Run(EMPTY, [Write(FileAdded(f, workspaceId, name, a, 1)), Write(VersionAdded(f, b, number))]);
            s.db.versions == [Row(f, a, 1), Row(f, b, 1)] && !Numbered(s.db)
  {
    hide VersionsOf, WithoutFile;
    var steps := [Write(FileAdded(f, workspaceId, name, a, 1)), Write(VersionAdded(f, b, 1))];
    assert steps[..1] == [steps[0]] && [steps[0]][..0] == [];
    assert Run(EMPTY, [steps[0]]) == Next(EMPTY, steps[0]);
    var s := Next(Next(EMPTY, steps[0]), steps[1]);
    assert Run(EMPTY, steps) == s;
    VersionsOfAppend([Row(f, a, 1)], Row(f, b, 1), f);
    VersionsOfAppend([], Row(f, a, 1), f);
    NoRowNoVersion([], f);
    assert [] + [Row(f, a, 1)] == [Row(f, a, 1)] && [Row(f, a, 1)] + [Row(f, b, 1)] == s.db.versions;
    assert VersionsOf(s.db.versions, f) == [Row(f, a, 1), Row(f, b, 1)];
    assert VersionsOf(s.db.versions, f)[1].number == 1 && f in s.db.files;
  }

  // ------------------------------------------------------ rows without a file

  predicate NoOrphans(db: Db) {
    forall row :: row in db.versions ==> row.fileId in db.files
  }

  lemma ChangeOrphans(db: Db, change: Change)
    requires NoOrphans(db)
    ensures NoOrphans(Apply(db, change)) <==> change.VersionAdded? || change.RowOnly? ==> change.fileId in db.files
  {
    hide WithoutFile, VersionsOf;
    var after := Apply(db, change);
    if Adds(change).Some? {
      assert after.versions[|db.versions|] == Adds(change).value;
    }
    if change.Deleted? {
      forall row | row in after.versions
        ensures row.fileId in after.files { WithoutFileRows(db.versions, change.fileId, row); }
    }
  }

  /** A version row without a file comes about exactly when a callback saves a file that is gone by then. */
  lemma OrphansExactly(s: Server, step: Step)
    requires NoOrphans(s.db)
    ensures NoOrphans(Next(s, step).db) <==> !(Enabled(s, step) && step.Save? && step.change.fileId !in s.db.files)
  {
    hide NoOrphans, Apply, FreshFor, Adds, DocumentKey;
    if Enabled(s, step) && (step.Write? || step.Save?) { ChangeOrphans(s.db, step.change); }
  }

  lemma EmptyKeysInv()
    ensures KeysInv(EMPTY)
  {
  }

  lemma Run3(s: Server, steps: seq<Step>)
    requires |steps| == 3
    ensures Run(s, steps) == Next(Next(Next(s, steps[0]), steps[1]), steps[2])
  {
    hide Next;
    assert steps[..2] == [steps[0], steps[1]] && steps[..2][..1] == [steps[0]] && [steps[0]][..0] == [];
    assert Run(s, [steps[0]]) == Next(s, steps[0]);
    assert Run(s, steps[..2]) == Next(Next(s, steps[0]), steps[1]);
  }

  lemma Run5(s: Server, steps: seq<Step>)
    requires |steps| == 5
    ensures Run(s, steps) == Next(Next(Run(s, steps[..3]), steps[3]), steps[4])
  {
    hide Next;
    assert steps[..4][..3] == steps[..3];
  }

  /** A file just added, and a callback for it that has passed the key check. */
  function CheckedFile(f: string, workspaceId: string, name: string, a: string): Server {
    Server(Db(map[f := FileRow(workspaceId, name, a)], [Row(f, a, 1)]), map[f := DocumentKey(f, a)], {a}, {f}, [], [])
  }

  lemma DownloadStarts(f: string, workspaceId: string, name: string, a: string)
    ensures Next(Next(EMPTY, Write(FileAdded(f, workspaceId, name, a, 1))), CheckKey(f, DocumentKey(f, a)))
            == CheckedFile(f, workspaceId, name, a)
  {
  }

  /** The same after a save whose row has stayed without becoming current. */
  function WithStray(f: string, workspaceId: string, name: string, a: string, b: string): Server {
    Server(Db(map[f := FileRow(workspaceId, name, a)], [Row(f, a, 1), Row(f, b, 2)]), map[], {a, b}, {f}, [],
           [(f, DocumentKey(f, a))])
  }

  lemma StrayStays(f: string, workspaceId: string, name: string, a: string, b: string)
    requires a != b
    ensures Next(CheckedFile(f, workspaceId, name, a), Save(RowOnly(f, b, 2))) == WithStray(f, workspaceId, name, a, b)
  {
    hide DocumentKey, VersionsOf, WithoutFile;
    var s := CheckedFile(f, workspaceId, name, a);
    assert s.pending - {f} == map[] && s.issued + {b} == {a, b} && s.knownFiles + {} == {f};
  }

  lemma KeyAgain(f: string, workspaceId: string, name: string, a: string, b: string, c: string)
    requires a != b && b != c && a != c
    ensures var key := DocumentKey(f, a);
            var s := Next(Next(WithStray(f, workspaceId, name, a, b), CheckKey(f, key)), Save(VersionAdded(f, c, 3)));
            s.strays == [(f, key)] && s.saves == [(f, key)]
              && s.db.versions == [Row(f, a, 1), Row(f, b, 2), Row(f, c, 3)]
  {
    hide DocumentKey, VersionsOf, WithoutFile;
  }

  /** A stray row does occur: the UPDATE fails outside a transaction, and one key creates two versions. */
  lemma StrayRowLetsKeyRepeat(f: string, workspaceId: string, name: string, a: string, b: string, c: string)
    requires a != b && b != c && a != c
    ensures var key := DocumentKey(f, a);
            var s := Run(EMPTY, [Write(FileAdded(f, workspaceId, name, a, 1)), CheckKey(f, key), Save(RowOnly(f, b, 2)),
                                 CheckKey(f, key), Save(VersionAdded(f, c, 3))]);
            s.strays == [(f, key)] && s.saves == [(f, key)]
              && s.db.versions == [Row(f, a, 1), Row(f, b, 2), Row(f, c, 3)]
  {
    hide Next, Run, DocumentKey, CheckedFile, WithStray;
    var key := DocumentKey(f, a);
    var steps := [Write(FileAdded(f, workspaceId, name, a, 1)), CheckKey(f, key), Save(RowOnly(f, b, 2)),
                  CheckKey(f, key), Save(VersionAdded(f, c, 3))];
    Run5(EMPTY, steps);
    Run3(EMPTY, steps[..3]);
    DownloadStarts(f, workspaceId, name, a);
    StrayStays(f, workspaceId, name, a, b);
    KeyAgain(f, workspaceId, name, a, b, c);
  }

  /** A file deleted during the download leaves the new version as a row without a file. */
  lemma DeletedDuringDownload(f: string, workspaceId: string, name: string, a: string, b: string)
    requires a != b
    ensures var key := DocumentKey(f, a);
            var s := Run(EMPTY, [Write(FileAdded(f, workspaceId, name, a, 1)), CheckKey(f, key), Write(Deleted(f)),
                                 Save(VersionAdded(f, b, 1))]);
            f !in s.db.files && s.db.versions == [Row(f, b, 1)] && s.saves == [(f, key)]
  {
    hide VersionsOf, WithoutFile;
    var key := DocumentKey(f, a);
    var steps := [Write(FileAdded(f, workspaceId, name, a, 1)), CheckKey(f, key), Write(Deleted(f)),
                  Save(VersionAdded(f, b, 1))];
    assert steps[..3] + [steps[3]] == steps && (steps[..3] + [steps[3]])[..3] == steps[..3];
    Run3(EMPTY, steps[..3]);
    DownloadStarts(f, workspaceId, name, a);
    NoRowsLeft(Row(f, a, 1));
  }

  lemma NoRowsLeft(row: VersionRow)
    ensures WithoutFile([row], row.fileId) == []
  {
    assert [row][..0] == [];
  }
}
