/** The cleanup of chat files: first by age, then, if the rest exceeds the quota, oldest first until it does not. */
module ChatCleanup {
  import opened Sql

  datatype ChatFile = ChatFile(chatFileId: string, fileSize: nat, createdAtMs: int)

  const DAY_MS := 86400000
  const OLDEST_LIMIT: nat := 500

  /** What fails during a run: queries that answer with nothing, and the ids whose DELETE fails. */
  datatype Faults = Faults(selectExpired: bool, selectTotal: bool, selectOldest: bool, stuck: set<string>)

  function Created(f: ChatFile): int {
    f.createdAtMs
  }

  function Sum(files: seq<ChatFile>): nat {
    if files == [] then 0 else Sum(files[..|files| - 1]) + files[|files| - 1].fileSize
  }

  /** The rows whose id is not among `ids`. */
  function Remove(rows: seq<ChatFile>, ids: set<string>): seq<ChatFile> {
    if rows == [] then []
    else
      var last := rows[|rows| - 1];
      Remove(rows[..|rows| - 1], ids) + if last.chatFileId in ids then [] else [last]
  }

  function CreatedBy(rows: seq<ChatFile>, cutoffMs: int): seq<ChatFile> {
    if rows == [] then []
    else
      var last := rows[|rows| - 1];
      CreatedBy(rows[..|rows| - 1], cutoffMs) + if last.createdAtMs <= cutoffMs then [last] else []
  }

  function Ids(files: seq<ChatFile>): set<string> {
    set f | f in files :: f.chatFileId
  }

  ghost predicate DistinctIds(rows: seq<ChatFile>) {
    forall i, j :: 0 <= i < j < |rows| ==> rows[i].chatFileId != rows[j].chatFileId
  }

  // ------------------------------------------------------ queries

  /** SELECT ... WHERE created_at_ms <= cutoff ORDER BY created_at_ms ASC. */
  function ExpiredChatFiles(rows: seq<ChatFile>, cutoffMs: int, faults: Faults): seq<ChatFile> {
    if faults.selectExpired then [] else OrderBy(CreatedBy(rows, cutoffMs), Created)
  }

  function TotalSize(rows: seq<ChatFile>, faults: Faults): nat {
    if faults.selectTotal then 0 else Sum(rows)
  }

  /** SELECT ... ORDER BY created_at_ms ASC LIMIT 500. */
  function OldestChatFiles(rows: seq<ChatFile>, faults: Faults): seq<ChatFile> {
    if faults.selectOldest then [] else Limit(OrderBy(rows, Created), OLDEST_LIMIT)
  }

  // ------------------------------------------------------ what a run chooses

  /** The files that no download is using. */
  function Idle(files: seq<ChatFile>, active: set<string>): seq<ChatFile> {
    Remove(files, active)
  }

  /** How many of the candidates, oldest first, have to go before the total is within the quota. */
  function Needed(candidates: seq<ChatFile>, total: int, quota: int): (n: nat)
    ensures n <= |candidates|
  {
    if candidates == [] || total <= quota then 0
    else 1 + Needed(candidates[1..], total - candidates[0].fileSize, quota)
  }

  function Overdue(rows: seq<ChatFile>, active: set<string>, cutoffMs: int, faults: Faults): seq<ChatFile> {
    Idle(ExpiredChatFiles(rows, cutoffMs, faults), active)
  }

  function AfterPhaseOne(rows: seq<ChatFile>, active: set<string>, cutoffMs: int, faults: Faults): seq<ChatFile> {
    Remove(rows, Ids(Overdue(rows, active, cutoffMs, faults)) - faults.stuck)
  }

  function Surplus(rows: seq<ChatFile>, active: set<string>, quota: int, faults: Faults): seq<ChatFile> {
    var candidates := Idle(OldestChatFiles(rows, faults), active);
    candidates[..Needed(candidates, TotalSize(rows, faults), quota)]
  }

  function AfterPhaseTwo(rows: seq<ChatFile>, active: set<string>, quota: int, faults: Faults): seq<ChatFile> {
    Remove(rows, Ids(Surplus(rows, active, quota, faults)) - faults.stuck)
  }

  // ------------------------------------------------------ the run

  lemma RemoveAppend(rows: seq<ChatFile>, f: ChatFile, ids: set<string>)
    ensures Remove(rows + [f], ids) == Remove(rows, ids) + if f.chatFileId in ids then [] else [f]
  {
    assert (rows + [f])[..|rows|] == rows;
  }

  lemma SumAppend(rows: seq<ChatFile>, f: ChatFile)
    ensures Sum(rows + [f]) == Sum(rows) + f.fileSize
  {
    assert (rows + [f])[..|rows|] == rows;
  }

  lemma {:induction false} RemoveTwice(rows: seq<ChatFile>, a: set<string>, b: set<string>)
    ensures Remove(Remove(rows, a), b) == Remove(rows, a + b)
  {
    if rows == [] {
    } else {
      var front, last := rows[..|rows| - 1], rows[|rows| - 1];
      RemoveTwice(front, a, b);
      if last.chatFileId in a {
        assert Remove(rows, a) == Remove(front, a);
      } else {
        RemoveAppend(Remove(front, a), last, b);
      }
    }
  }

  lemma {:induction false} RemoveNothing(rows: seq<ChatFile>)
    ensures Remove(rows, {}) == rows
  {
    if rows == [] {
    } else {
      RemoveNothing(rows[..|rows| - 1]);
      assert rows == rows[..|rows| - 1] + [rows[|rows| - 1]];
    }
  }

  lemma {:induction false} RemoveKeeps(rows: seq<ChatFile>, ids: set<string>, f: ChatFile)
    ensures f in Remove(rows, ids) <==> f in rows && f.chatFileId !in ids
  {
    if rows == [] {
    } else {
      RemoveKeeps(rows[..|rows| - 1], ids, f);
      assert rows == rows[..|rows| - 1] + [rows[|rows| - 1]];
    }
  }

  lemma {:induction false} SumFirst(files: seq<ChatFile>)
    requires files != []
    ensures Sum(files) == files[0].fileSize + Sum(files[1..])
  {
    if |files| > 1 {
      SumFirst(files[..|files| - 1]);
      assert files[..|files| - 1][1..] == files[1..][..|files| - 2];
    }
  }

  lemma DeleteOne(rows: seq<ChatFile>, chosen: seq<ChatFile>, f: ChatFile, stuck: set<string>)
    ensures Remove(Remove(rows, Ids(chosen) - stuck), if f.chatFileId in stuck then {} else {f.chatFileId})
            == Remove(rows, Ids(chosen + [f]) - stuck)
  {
    RemoveTwice(rows, Ids(chosen) - stuck, if f.chatFileId in stuck then {} else {f.chatFileId});
    assert Ids(chosen + [f]) == Ids(chosen) + {f.chatFileId};
    assert Ids(chosen + [f]) - stuck == (Ids(chosen) - stuck) + if f.chatFileId in stuck then {} else {f.chatFileId};
  }

  /** DELETE FROM chat_files WHERE chat_file_id = ?, whose failure the run does not notice. */
  function DeleteById(rows: seq<ChatFile>, id: string, faults: Faults): seq<ChatFile> {
    Remove(rows, if id in faults.stuck then {} else {id})
  }

  lemma NothingChosen(rows: seq<ChatFile>, stuck: set<string>)
    ensures Remove(rows, Ids([]) - stuck) == rows
  {
    RemoveNothing(rows);
    assert Ids([]) - stuck == {};
  }

  lemma {:induction false} RemoveConcat(a: seq<ChatFile>, b: seq<ChatFile>, ids: set<string>)
    ensures Remove(a + b, ids) == Remove(a, ids) + Remove(b, ids)
  {
    hide Remove;
    if b == [] {
      EmptyRemove(ids);
      assert a + b == a;
    } else {
      var front, last := b[..|b| - 1], b[|b| - 1];
      var kept := if last.chatFileId in ids then [] else [last];
      RemoveConcat(a, front, ids);
      assert a + b == (a + front) + [last] && b == front + [last];
      RemoveAppend(a + front, last, ids);
      RemoveAppend(front, last, ids);
      assert (Remove(a, ids) + Remove(front, ids)) + kept == Remove(a, ids) + (Remove(front, ids) + kept);
    }
  }

  /** Phase one: everything that is overdue and idle. */
  method DeleteOverdue(rows: seq<ChatFile>, expired: seq<ChatFile>, active: set<string>, faults: Faults)
    returns (left: seq<ChatFile>, deletedCount: nat, freedBytes: nat)
    ensures var chosen := Idle(expired, active);
            left == Remove(rows, Ids(chosen) - faults.stuck) && deletedCount == |chosen| && freedBytes == Sum(chosen)
  {
    hide Remove, Ids, Sum;
    left, deletedCount, freedBytes := rows, 0, 0;
    ghost var chosen := Idle(expired[..0], active);
    NothingChosen(rows, faults.stuck);
    EmptyRemove(active);
    for i := 0 to |expired|
      invariant chosen == Idle(expired[..i], active) && left == Remove(rows, Ids(chosen) - faults.stuck)
      invariant deletedCount == |chosen| && freedBytes == Sum(chosen)
    {
      RemoveAppend(expired[..i], expired[i], active);
      assert expired[..i + 1] == expired[..i] + [expired[i]];
      if expired[i].chatFileId in active { continue; }
      DeleteOne(rows, chosen, expired[i], faults.stuck);
      SumAppend(chosen, expired[i]);
      left := DeleteById(left, expired[i].chatFileId, faults);
      freedBytes := freedBytes + expired[i].fileSize;
      deletedCount := deletedCount + 1;
      chosen := chosen + [expired[i]];
    }
    assert expired[..|expired|] == expired;
  }

  lemma EmptyRemove(ids: set<string>)
    ensures Remove([], ids) == [] && Sum([]) == 0
  {
  }

  /** What is still to come when `total` is left: the next idle file counts, an active one is passed over. */
  lemma NeededNext(oldest: seq<ChatFile>, i: nat, active: set<string>, total: int, quota: int)
    requires i < |oldest| && total > quota
    ensures Needed(Idle(oldest[i..], active), total, quota)
            == if oldest[i].chatFileId in active then Needed(Idle(oldest[i + 1..], active), total, quota)
               else 1 + Needed(Idle(oldest[i + 1..], active), total - oldest[i].fileSize, quota)
  {
    hide Remove;
    RemoveConcat([oldest[i]], oldest[i + 1..], active);
    assert oldest[i..] == [oldest[i]] + oldest[i + 1..];
    EmptyRemove(active);
    RemoveAppend([], oldest[i], active);
    assert [] + [oldest[i]] == [oldest[i]];
    var rest := Idle(oldest[i + 1..], active);
    if oldest[i].chatFileId in active {
      assert [] + rest == rest;
    } else {
      assert Idle(oldest[i..], active) == [oldest[i]] + rest && ([oldest[i]] + rest)[1..] == rest;
    }
  }

  /** Phase two: idle files, oldest first, until the total is within the quota. */
  method DeleteSurplus(rows: seq<ChatFile>, oldest: seq<ChatFile>, active: set<string>, total: int, quota: int,
                       faults: Faults)
    returns (left: seq<ChatFile>, deletedCount: nat, freedBytes: nat)
    ensures var chosen := Idle(oldest, active)[..Needed(Idle(oldest, active), total, quota)];
            left == Remove(rows, Ids(chosen) - faults.stuck) && deletedCount == |chosen| && freedBytes == Sum(chosen)
  {
    hide Remove, Ids, Sum, Needed;
    left, deletedCount, freedBytes := rows, 0, 0;
    var totalSize := total;
    ghost var chosen := Idle(oldest[..0], active);
    NothingChosen(rows, faults.stuck);
    EmptyRemove(active);
    assert oldest[0..] == oldest;
    var i := 0;
    while i < |oldest| && totalSize > quota
      invariant i <= |oldest|
      invariant chosen == Idle(oldest[..i], active) && left == Remove(rows, Ids(chosen) - faults.stuck)
      invariant deletedCount == |chosen| && freedBytes == Sum(chosen) && totalSize == total - Sum(chosen)
      invariant Needed(Idle(oldest, active), total, quota) == |chosen|
                + Needed(Idle(oldest[i..], active), totalSize, quota)
    {
      NeededNext(oldest, i, active, totalSize, quota);
      RemoveAppend(oldest[..i], oldest[i], active);
      assert oldest[..i + 1] == oldest[..i] + [oldest[i]];
      if oldest[i].chatFileId !in active {
        DeleteOne(rows, chosen, oldest[i], faults.stuck);
        SumAppend(chosen, oldest[i]);
        left := DeleteById(left, oldest[i].chatFileId, faults);
        freedBytes := freedBytes + oldest[i].fileSize;
        totalSize := totalSize - oldest[i].fileSize;
        deletedCount := deletedCount + 1;
        chosen := chosen + [oldest[i]];
      }
      i := i + 1;
    }
    NeededEnds(oldest, i, active, totalSize, quota);
    RemoveConcat(oldest[..i], oldest[i..], active);
    assert oldest == oldest[..i] + oldest[i..];
  }

  lemma NeededEnds(oldest: seq<ChatFile>, i: nat, active: set<string>, total: int, quota: int)
    requires i == |oldest| || (i < |oldest| && total <= quota)
    ensures Needed(Idle(oldest[i..], active), total, quota) == 0
  {
  }

  method StartChatFileCleanup(rows: seq<ChatFile>, active: set<string>, ttlDays: int, quotaMb: int, nowMs: int,
                              faults: Faults)
    returns (left: seq<ChatFile>, deletedCount: nat, freedBytes: nat)
    ensures var cutoffMs, quota := nowMs - ttlDays * 86_400_000, quotaMb * 1_048_576;
            var kept := AfterPhaseOne(rows, active, cutoffMs, faults);
            && left == AfterPhaseTwo(kept, active, quota, faults)
            && deletedCount == |Overdue(rows, active, cutoffMs, faults)| + |Surplus(kept, active, quota, faults)|
            && freedBytes == Sum(Overdue(rows, active, cutoffMs, faults)) + Sum(Surplus(kept, active, quota, faults))
  {
    hide Remove, Ids, Sum, Needed, OldestChatFiles, ExpiredChatFiles, TotalSize;
    var cutoffMs, quotaBytes := nowMs - ttlDays * DAY_MS, quotaMb * 1024 * 1024;
    var expired := ExpiredChatFiles(rows, cutoffMs, faults);
    left, deletedCount, freedBytes := DeleteOverdue(rows, expired, active, faults);
    var totalSize := TotalSize(left, faults);
    if totalSize > quotaBytes {
      var oldest := OldestChatFiles(left, faults);
      var more, bytes;
      left, more, bytes := DeleteSurplus(left, oldest, active, totalSize, quotaBytes, faults);
      deletedCount, freedBytes := deletedCount + more, freedBytes + bytes;
    } else {
      NoSurplus(left, active, quotaBytes, faults);
    }
  }

  lemma NoSurplus(rows: seq<ChatFile>, active: set<string>, quota: int, faults: Faults)
    requires TotalSize(rows, faults) <= quota
    ensures Surplus(rows, active, quota, faults) == [] && AfterPhaseTwo(rows, active, quota, faults) == rows
            && Sum([]) == 0
  {
    hide Remove;
    assert Surplus(rows, active, quota, faults) == [];
    NothingChosen(rows, faults.stuck);
  }

  // ------------------------------------------------------ what a run guarantees

  lemma {:induction false} CreatedBySelects(rows: seq<ChatFile>, cutoffMs: int, f: ChatFile)
    ensures f in CreatedBy(rows, cutoffMs) <==> f in rows && f.createdAtMs <= cutoffMs
  {
    if rows == [] {
    } else {
      CreatedBySelects(rows[..|rows| - 1], cutoffMs, f);
      assert rows == rows[..|rows| - 1] + [rows[|rows| - 1]];
    }
  }

  lemma OrderByMember(rows: seq<ChatFile>, f: ChatFile)
    ensures f in OrderBy(rows, Created) <==> f in rows
  {
    hide OrderBy;
    OrderBySorts(rows, Created);
    assert f in multiset(rows) <==> f in rows;
    assert f in multiset(OrderBy(rows, Created)) <==> f in OrderBy(rows, Created);
  }

  lemma OverdueMember(rows: seq<ChatFile>, active: set<string>, cutoffMs: int, faults: Faults, f: ChatFile)
    ensures f in Overdue(rows, active, cutoffMs, faults)
            <==> !faults.selectExpired && f in rows && f.createdAtMs <= cutoffMs && f.chatFileId !in active
  {
    hide Remove, CreatedBy, OrderBy;
    RemoveKeeps(ExpiredChatFiles(rows, cutoffMs, faults), active, f);
    CreatedBySelects(rows, cutoffMs, f);
    OrderByMember(CreatedBy(rows, cutoffMs), f);
  }

  lemma SurplusMember(rows: seq<ChatFile>, active: set<string>, quota: int, faults: Faults, f: ChatFile)
    requires f in Surplus(rows, active, quota, faults)
    ensures f in rows && f.chatFileId !in active
  {
    hide Remove, OrderBy, Needed;
    RemoveKeeps(OldestChatFiles(rows, faults), active, f);
    OrderByMember(rows, f);
  }

  lemma SameId(rows: seq<ChatFile>, f: ChatFile, g: ChatFile)
    requires DistinctIds(rows) && f in rows && g in rows && f.chatFileId == g.chatFileId
    ensures f == g
  {
  }

  lemma InIds(files: seq<ChatFile>, id: string)
    ensures id in Ids(files) <==> exists f :: f in files && f.chatFileId == id
  {
  }

  /** A file in use survives both phases, whatever fails. */
  lemma ActiveSurvives(rows: seq<ChatFile>, active: set<string>, cutoffMs: int, quota: int, faults: Faults, f: ChatFile)
    requires f in rows && f.chatFileId in active
    ensures f in AfterPhaseTwo(AfterPhaseOne(rows, active, cutoffMs, faults), active, quota, faults)
  {
    hide Remove, Overdue, Surplus, Ids;
    var gone, kept := Overdue(rows, active, cutoffMs, faults), AfterPhaseOne(rows, active, cutoffMs, faults);
    forall g | g in gone ensures g.chatFileId !in active { OverdueMember(rows, active, cutoffMs, faults, g); }
    InIds(gone, f.chatFileId);
    RemoveKeeps(rows, Ids(gone) - faults.stuck, f);
    var more := Surplus(kept, active, quota, faults);
    forall g | g in more ensures g.chatFileId !in active { SurplusMember(kept, active, quota, faults, g); }
    InIds(more, f.chatFileId);
    RemoveKeeps(kept, Ids(more) - faults.stuck, f);
  }

  /** Phase one leaves a file exactly when it is in use, newer than the cutoff, or could not be deleted. */
  lemma PhaseOneLeaves(rows: seq<ChatFile>, active: set<string>, cutoffMs: int, faults: Faults, f: ChatFile)
    requires DistinctIds(rows)
    ensures f in AfterPhaseOne(rows, active, cutoffMs, faults)
            <==> f in rows && (f.chatFileId in active || f.createdAtMs > cutoffMs || f.chatFileId in faults.stuck
                               || faults.selectExpired)
  {
    hide Remove, Overdue, Ids, DistinctIds;
    var gone := Overdue(rows, active, cutoffMs, faults);
    RemoveKeeps(rows, Ids(gone) - faults.stuck, f);
    InIds(gone, f.chatFileId);
    if f in rows {
      forall g | g in gone && g.chatFileId == f.chatFileId ensures g == f {
        OverdueMember(rows, active, cutoffMs, faults, g);
        SameId(rows, g, f);
      }
      OverdueMember(rows, active, cutoffMs, faults, f);
    }
  }

  /**
   * Phase two takes idle files oldest first and stops at the first point where the total is within the quota:
   * every shorter choice would still be above it.
   */
  lemma {:induction false} NeededIsFirst(candidates: seq<ChatFile>, total: int, quota: int, k: nat)
    requires k <= |candidates|
    ensures k < Needed(candidates, total, quota) ==> total - Sum(candidates[..k]) > quota
    ensures k == Needed(candidates, total, quota) ==> total - Sum(candidates[..k]) <= quota || k == |candidates|
    decreases |candidates|
  {
    if k > 0 && total > quota {
      NeededIsFirst(candidates[1..], total - candidates[0].fileSize, quota, k - 1);
      SumFirst(candidates[..k]);
      assert candidates[..k][1..] == candidates[1..][..k - 1];
    }
  }

  // ------------------------------------------------------ oldest first

  lemma {:induction false} RemoveKeepsOrder(files: seq<ChatFile>, ids: set<string>)
    requires Ascending(files, Created)
    ensures Ascending(Remove(files, ids), Created)
  {
    if files == [] {
    } else {
      var front, last := files[..|files| - 1], files[|files| - 1];
      RemoveKeepsOrder(front, ids);
      forall i | 0 <= i < |Remove(front, ids)| ensures Created(Remove(front, ids)[i]) <= Created(last) {
        RemoveKeeps(front, ids, Remove(front, ids)[i]);
      }
    }
  }

  /** The query returns 500 rows, or all if there are fewer. */
  lemma OldestAreBounded(rows: seq<ChatFile>, faults: Faults)
    ensures |OldestChatFiles(rows, faults)|
            == if faults.selectOldest then 0 else if |rows| < 500 then |rows| else 500
  {
    hide OrderBy;
    OrderBySorts(rows, Created);
    assert |multiset(OrderBy(rows, Created))| == |multiset(rows)|;
  }

  /** The candidates come in order of age, and no row that the query left out is older than one it returned. */
  lemma CandidatesByAge(rows: seq<ChatFile>, active: set<string>, faults: Faults)
    ensures Ascending(Idle(OldestChatFiles(rows, faults), active), Created)
    ensures !faults.selectOldest ==>
              forall f, g :: f in OldestChatFiles(rows, faults) && g in rows && g !in OldestChatFiles(rows, faults)
                ==> f.createdAtMs <= g.createdAtMs
  {
    hide OrderBy, Remove;
    var oldest, all := OldestChatFiles(rows, faults), OrderBy(rows, Created);
    OrderBySorts(rows, Created);
    RemoveKeepsOrder(oldest, active);
    if !faults.selectOldest {
      forall f, g | f in oldest && g in rows && g !in oldest ensures f.createdAtMs <= g.createdAtMs {
        OrderByMember(rows, g);
        OlderThanRest(all, oldest, f, g);
      }
    }
  }

  lemma OlderThanRest(all: seq<ChatFile>, oldest: seq<ChatFile>, f: ChatFile, g: ChatFile)
    requires Ascending(all, Created) && oldest <= all && f in oldest && g in all && g !in oldest
    ensures f.createdAtMs <= g.createdAtMs
  {
    var i :| 0 <= i < |oldest| && oldest[i] == f;
    var j :| 0 <= j < |all| && all[j] == g;
    assert all[i] == oldest[i];
    forall k | 0 <= k < |oldest| ensures all[k] != g { assert all[k] == oldest[k]; }
    assert Created(all[i]) <= Created(all[j]);
  }

  /** Without the total, or without candidates, phase two deletes nothing. */
  lemma FailedQueriesDeleteNothing(rows: seq<ChatFile>, active: set<string>, quota: int, faults: Faults)
    requires (faults.selectTotal && quota >= 0) || faults.selectOldest
    ensures Surplus(rows, active, quota, faults) == [] && AfterPhaseTwo(rows, active, quota, faults) == rows
  {
    hide Remove, OrderBy, Sum;
    if faults.selectOldest { EmptyRemove(active); }
    assert Surplus(rows, active, quota, faults) == [];
    NothingChosen(rows, faults.stuck);
  }

  // ------------------------------------------------------ what is freed

  lemma {:induction false} RemoveKeepsDistinct(rows: seq<ChatFile>, ids: set<string>)
    requires DistinctIds(rows)
    ensures DistinctIds(Remove(rows, ids))
  {
    if rows == [] {
    } else {
      var front, last := rows[..|rows| - 1], rows[|rows| - 1];
      RemoveKeepsDistinct(front, ids);
      forall i | 0 <= i < |Remove(front, ids)| ensures Remove(front, ids)[i].chatFileId != last.chatFileId {
        RemoveKeeps(front, ids, Remove(front, ids)[i]);
      }
    }
  }

  lemma {:induction false} CreatedByKeepsDistinct(rows: seq<ChatFile>, cutoffMs: int)
    requires DistinctIds(rows)
    ensures DistinctIds(CreatedBy(rows, cutoffMs))
  {
    if rows == [] {
    } else {
      var front, last := rows[..|rows| - 1], rows[|rows| - 1];
      CreatedByKeepsDistinct(front, cutoffMs);
      forall i | 0 <= i < |CreatedBy(front, cutoffMs)|
        ensures CreatedBy(front, cutoffMs)[i].chatFileId != last.chatFileId {
        CreatedBySelects(front, cutoffMs, CreatedBy(front, cutoffMs)[i]);
      }
    }
  }

  lemma {:induction false} InsertKeepsDistinct(f: ChatFile, rows: seq<ChatFile>)
    requires DistinctIds(rows) && forall g :: g in rows ==> g.chatFileId != f.chatFileId
    ensures DistinctIds(InsertByKey(f, rows, Created))
  {
    if rows != [] && Created(f) < Created(rows[|rows| - 1]) {
      var front, last := rows[..|rows| - 1], rows[|rows| - 1];
      InsertKeepsDistinct(f, front);
      InsertByKeyInserts(f, front, Created);
      var r := InsertByKey(f, front, Created);
      forall i | 0 <= i < |r| ensures r[i].chatFileId != last.chatFileId {
        assert r[i] in multiset(r);
        assert r[i] == f || r[i] in front;
      }
    }
  }

  lemma {:induction false} OrderByKeepsDistinct(rows: seq<ChatFile>)
    requires DistinctIds(rows)
    ensures DistinctIds(OrderBy(rows, Created))
  {
    if rows == [] {
    } else {
      var front, last := rows[..|rows| - 1], rows[|rows| - 1];
      OrderByKeepsDistinct(front);
      forall g | g in OrderBy(front, Created) ensures g.chatFileId != last.chatFileId {
        OrderByMember(front, g);
      }
      InsertKeepsDistinct(last, OrderBy(front, Created));
    }
  }

  lemma {:induction false} DeleteOneSum(rows: seq<ChatFile>, f: ChatFile)
    requires DistinctIds(rows) && f in rows
    ensures Sum(Remove(rows, {f.chatFileId})) == Sum(rows) - f.fileSize
  {
    var front, last := rows[..|rows| - 1], rows[|rows| - 1];
    assert rows == front + [last];
    if last == f {
      NoSuchId(front, f.chatFileId);
      assert Remove(rows, {f.chatFileId}) == front;
    } else {
      DeleteOneSum(front, f);
      SumAppend(Remove(front, {f.chatFileId}), last);
    }
  }

  lemma {:induction false} NoSuchId(rows: seq<ChatFile>, id: string)
    requires forall g :: g in rows ==> g.chatFileId != id
    ensures Remove(rows, {id}) == rows
  {
    if rows == [] {
    } else {
      assert rows == rows[..|rows| - 1] + [rows[|rows| - 1]];
      NoSuchId(rows[..|rows| - 1], id);
    }
  }

  /** The chosen files whose DELETE failed. */
  function StuckAmong(files: seq<ChatFile>, stuck: set<string>): seq<ChatFile> {
    if files == [] then []
    else
      var last := files[|files| - 1];
      StuckAmong(files[..|files| - 1], stuck) + if last.chatFileId in stuck then [last] else []
  }

  lemma {:induction false} RemovedSum(rows: seq<ChatFile>, chosen: seq<ChatFile>, stuck: set<string>)
    requires DistinctIds(rows) && DistinctIds(chosen) && forall f :: f in chosen ==> f in rows
    ensures Sum(Remove(rows, Ids(chosen) - stuck)) + Sum(chosen) == Sum(rows) + Sum(StuckAmong(chosen, stuck))
  {
    hide Remove, Ids;
    if chosen == [] {
      NothingChosen(rows, stuck);
    } else {
      var front, f := chosen[..|chosen| - 1], chosen[|chosen| - 1];
      RemovedSum(rows, front, stuck);
      DeleteOne(rows, front, f, stuck);
      assert chosen == front + [f];
      var left := Remove(rows, Ids(front) - stuck);
      if f.chatFileId in stuck {
        RemoveNothing(left);
        SumAppend(StuckAmong(front, stuck), f);
      } else {
        InIds(front, f.chatFileId);
        RemoveKeeps(rows, Ids(front) - stuck, f);
        RemoveKeepsDistinct(rows, Ids(front) - stuck);
        DeleteOneSum(left, f);
        assert StuckAmong(chosen, stuck) == StuckAmong(front, stuck);
      }
    }
  }

  lemma PhaseOneSum(rows: seq<ChatFile>, active: set<string>, cutoffMs: int, faults: Faults)
    requires DistinctIds(rows)
    ensures var gone := Overdue(rows, active, cutoffMs, faults);
            Sum(AfterPhaseOne(rows, active, cutoffMs, faults)) + Sum(gone) == Sum(rows)
              + Sum(StuckAmong(gone, faults.stuck))
    ensures DistinctIds(AfterPhaseOne(rows, active, cutoffMs, faults))
  {
    hide Remove, Ids, Sum, DistinctIds, StuckAmong, CreatedBy, OrderBy;
    var gone := Overdue(rows, active, cutoffMs, faults);
    NoneDistinct();
    CreatedByKeepsDistinct(rows, cutoffMs);
    OrderByKeepsDistinct(CreatedBy(rows, cutoffMs));
    RemoveKeepsDistinct(ExpiredChatFiles(rows, cutoffMs, faults), active);
    forall f | f in gone ensures f in rows { OverdueMember(rows, active, cutoffMs, faults, f); }
    RemovedSum(rows, gone, faults.stuck);
    RemoveKeepsDistinct(rows, Ids(gone) - faults.stuck);
  }

  lemma NoneDistinct()
    ensures DistinctIds([])
  {
  }

  lemma PrefixDistinct(files: seq<ChatFile>, n: nat)
    requires DistinctIds(files) && n <= |files|
    ensures DistinctIds(files[..n])
  {
  }

  lemma PhaseTwoSum(rows: seq<ChatFile>, active: set<string>, quota: int, faults: Faults)
    requires DistinctIds(rows)
    ensures var gone := Surplus(rows, active, quota, faults);
            Sum(AfterPhaseTwo(rows, active, quota, faults)) + Sum(gone) == Sum(rows)
              + Sum(StuckAmong(gone, faults.stuck))
  {
    hide Remove, Ids, Sum, DistinctIds, StuckAmong, OrderBy, Needed;
    var gone, oldest := Surplus(rows, active, quota, faults), OldestChatFiles(rows, faults);
    NoneDistinct();
    OrderByKeepsDistinct(rows);
    PrefixDistinct(OrderBy(rows, Created), |Limit(OrderBy(rows, Created), OLDEST_LIMIT)|);
    RemoveKeepsDistinct(oldest, active);
    PrefixDistinct(Idle(oldest, active), |gone|);
    forall f | f in gone ensures f in rows { SurplusMember(rows, active, quota, faults, f); }
    RemovedSum(rows, gone, faults.stuck);
  }

  /**
   * Conservation: the bytes reported as freed are what the table lost, plus the files that were counted
   * although their DELETE failed. The report is right exactly when those hold no bytes.
   */
  lemma FreedBytes(rows: seq<ChatFile>, active: set<string>, cutoffMs: int, quota: int, faults: Faults)
    requires DistinctIds(rows)
    ensures var kept := AfterPhaseOne(rows, active, cutoffMs, faults);
            var left := AfterPhaseTwo(kept, active, quota, faults);
            var one, two := Overdue(rows, active, cutoffMs, faults), Surplus(kept, active, quota, faults);
            Sum(one) + Sum(two) == Sum(rows) - Sum(left) <==>
              Sum(StuckAmong(one, faults.stuck)) + Sum(StuckAmong(two, faults.stuck)) == 0
  {
    hide Sum, AfterPhaseOne, AfterPhaseTwo, Overdue, Surplus, StuckAmong, DistinctIds;
    PhaseOneSum(rows, active, cutoffMs, faults);
    PhaseTwoSum(AfterPhaseOne(rows, active, cutoffMs, faults), active, quota, faults);
  }

  /** The report is wrong for an expired file whose DELETE fails: its bytes are counted as freed, and it is still
    * there. */
  lemma StuckFileIsReported(f: ChatFile, cutoffMs: int, quota: int)
    requires f.createdAtMs <= cutoffMs && 0 < f.fileSize <= quota
    ensures var faults := Faults(false, false, false, {f.chatFileId});
            var kept := AfterPhaseOne([f], {}, cutoffMs, faults);
            && AfterPhaseTwo(kept, {}, quota, faults) == [f]
            && Sum(Overdue([f], {}, cutoffMs, faults)) + Sum(Surplus(kept, {}, quota, faults)) == f.fileSize
  {
    var faults := Faults(false, false, false, {f.chatFileId});
    OneFile(f, cutoffMs);
    RemoveNothing([f]);
    assert Overdue([f], {}, cutoffMs, faults) == [f];
    assert Ids([f]) - faults.stuck == {} by { assert Ids([f]) == {f.chatFileId}; }
    assert AfterPhaseOne([f], {}, cutoffMs, faults) == [f];
    NoSurplus([f], {}, quota, faults);
  }

  lemma OneFile(f: ChatFile, cutoffMs: int)
    ensures Sum([f]) == f.fileSize
    ensures f.createdAtMs <= cutoffMs ==> CreatedBy([f], cutoffMs) == [f]
    ensures OrderBy([f], Created) == [f]
  {
    assert [f][..0] == [];
    assert [] + [f] == [f];
    assert InsertByKey(f, [], Created) == [f];
  }

  /**
   * The result is within the quota, up to files whose DELETE failed, or every idle file among the 500 oldest
   * is gone, again up to those; only a failing query for the total keeps phase two from trying.
   */
  lemma QuotaOrExhausted(rows: seq<ChatFile>, active: set<string>, quota: int, faults: Faults)
    requires DistinctIds(rows) && !faults.selectTotal
    ensures var left, gone := AfterPhaseTwo(rows, active, quota, faults), Surplus(rows, active, quota, faults);
            || Sum(left) <= quota + Sum(StuckAmong(gone, faults.stuck))
            || forall f ::
                 f in OldestChatFiles(rows, faults) && f.chatFileId !in active && f.chatFileId !in faults.stuck ==>
                   f !in left
  {
    hide Sum, Ids, Remove, DistinctIds, StuckAmong, OrderBy, Needed;
    var gone, candidates := Surplus(rows, active, quota, faults), Idle(OldestChatFiles(rows, faults), active);
    PhaseTwoSum(rows, active, quota, faults);
    NeededIsFirst(candidates, Sum(rows), quota, Needed(candidates, Sum(rows), quota));
    if |gone| == |candidates| {
      assert gone == candidates;
      forall f | f in OldestChatFiles(rows, faults) && f.chatFileId !in active && f.chatFileId !in faults.stuck
        ensures f !in AfterPhaseTwo(rows, active, quota, faults)
      {
        RemoveKeeps(OldestChatFiles(rows, faults), active, f);
        InIds(gone, f.chatFileId);
        RemoveKeeps(rows, Ids(gone) - faults.stuck, f);
      }
    }
  }
}
