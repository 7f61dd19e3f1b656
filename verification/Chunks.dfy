/** File transfers in chunks: how many bytes the completed chunks stand for. */
module Chunks {

  datatype FileTransferTask = FileTransferTask(fileSize: int, chunkSize: int)

  function ChunkBytesForTask(task: FileTransferTask, chunkIndex: int): (n: int)
    ensures 0 <= n && (task.fileSize > 0 ==> n <= task.fileSize)
    ensures task.fileSize <= 0 || task.chunkSize <= 0 || chunkIndex < 0 ==> n == 0
  {
    if task.fileSize <= 0 || task.chunkSize <= 0 || chunkIndex < 0 then 0
    else
      var chunkOffset := chunkIndex * task.chunkSize;
      if chunkOffset >= task.fileSize then 0
      else if task.chunkSize < task.fileSize - chunkOffset then task.chunkSize
      else task.fileSize - chunkOffset
  }

  function TotalBytes(task: FileTransferTask, chunks: seq<int>): int {
    if chunks == [] then 0
    else TotalBytes(task, chunks[..|chunks| - 1]) + ChunkBytesForTask(task, chunks[|chunks| - 1])
  }

  method CompletedBytesForTask(task: FileTransferTask, completedChunks: seq<int>) returns (bytesCompleted: int)
    ensures bytesCompleted == TotalBytes(task, completedChunks)
  {
    bytesCompleted := 0;
    for i := 0 to |completedChunks|
      invariant bytesCompleted == TotalBytes(task, completedChunks[..i])
    {
      assert completedChunks[..i + 1][..i] == completedChunks[..i];
      bytesCompleted := bytesCompleted + ChunkBytesForTask(task, completedChunks[i]);
    }
    assert completedChunks[..|completedChunks|] == completedChunks;
  }

  // ------------------------------------------------------ conservation

  /** The number of chunks: the size divided by the chunk size, rounded up. */
  function ChunkCount(task: FileTransferTask): (n: nat)
    requires task.fileSize >= 0 && task.chunkSize > 0
  {
    (task.fileSize + task.chunkSize - 1) / task.chunkSize
  }

  lemma CountCovers(task: FileTransferTask)
    requires task.fileSize > 0 && task.chunkSize > 0
    ensures var n := ChunkCount(task); n > 0 && (n - 1) * task.chunkSize < task.fileSize <= n * task.chunkSize
  {
    var n, c := ChunkCount(task), task.chunkSize;
    assert (task.fileSize + c - 1) == n * c + (task.fileSize + c - 1) % c;
    assert (n - 1) * c == n * c - c;
  }

  /** A chunk stands for some bytes exactly when it is one of the file's. */
  lemma ChunkIsOneOfTheFile(task: FileTransferTask, i: int)
    requires task.fileSize > 0 && task.chunkSize > 0
    ensures ChunkBytesForTask(task, i) > 0 <==> 0 <= i < ChunkCount(task)
  {
    CountCovers(task);
    var n, c := ChunkCount(task), task.chunkSize;
    if 0 <= i < n {
      Monotone(i, n - 1, c);
    } else if i >= n {
      Monotone(n, i, c);
    }
  }

  lemma Monotone(i: int, j: int, c: int)
    requires i <= j && c >= 0
    ensures i * c <= j * c
  {
    assert (j - i) * c >= 0;
    assert j * c == i * c + (j - i) * c;
  }

  /** The bytes of the chunks below `k` that are not listed. */
  function MissingBytes(task: FileTransferTask, chunks: seq<int>, k: nat): int {
    if k == 0 then 0
    else MissingBytes(task, chunks, k - 1) + if k - 1 in chunks then 0 else ChunkBytesForTask(task, k - 1)
  }

  /** With nothing listed the first `k` chunks stand for the first k * chunkSize bytes, or for the whole file. */
  lemma {:induction false} AllMissing(task: FileTransferTask, k: nat)
    requires task.fileSize > 0 && task.chunkSize > 0
    ensures MissingBytes(task, [], k) == if k * task.chunkSize < task.fileSize then k * task.chunkSize
            else task.fileSize
  {
    if k == 0 {
    } else {
      AllMissing(task, k - 1);
      assert k * task.chunkSize == (k - 1) * task.chunkSize + task.chunkSize;
    }
  }

  lemma {:induction false} OneMoreListed(task: FileTransferTask, chunks: seq<int>, c: int, k: nat)
    requires c !in chunks
    ensures MissingBytes(task, chunks + [c], k)
            == MissingBytes(task, chunks, k) - if 0 <= c < k then ChunkBytesForTask(task, c) else 0
  {
    hide ChunkBytesForTask;
    if k == 0 {
    } else {
      OneMoreListed(task, chunks, c, k - 1);
    }
  }

  predicate Distinct(chunks: seq<int>) {
    forall i, j :: 0 <= i < j < |chunks| ==> chunks[i] != chunks[j]
  }

  lemma {:induction false} ListedAndMissing(task: FileTransferTask, chunks: seq<int>)
    requires task.fileSize > 0 && task.chunkSize > 0 && Distinct(chunks)
    ensures TotalBytes(task, chunks) + MissingBytes(task, chunks, ChunkCount(task)) == task.fileSize
  {
    hide ChunkBytesForTask, ChunkCount;
    var n := ChunkCount(task);
    if chunks == [] {
      CountCovers(task);
      AllMissing(task, n);
    } else {
      var front, c := chunks[..|chunks| - 1], chunks[|chunks| - 1];
      ListedAndMissing(task, front);
      assert chunks == front + [c];
      OneMoreListed(task, front, c, n);
      ChunkIsOneOfTheFile(task, c);
    }
  }

  lemma {:induction false} NothingMissing(task: FileTransferTask, chunks: seq<int>, k: nat)
    requires task.fileSize > 0 && task.chunkSize > 0 && k <= ChunkCount(task)
    ensures MissingBytes(task, chunks, k) >= 0
    ensures MissingBytes(task, chunks, k) == 0 <==> forall i :: 0 <= i < k ==> i in chunks
  {
    hide ChunkBytesForTask, ChunkCount;
    if k == 0 {
    } else {
      NothingMissing(task, chunks, k - 1);
      ChunkIsOneOfTheFile(task, k - 1);
    }
  }

  /**
   * Conservation: distinct chunks never stand for more than the file, and for exactly the file
   * if and only if every chunk from 0 to ceil(size / chunk) - 1 is listed.
   */
  lemma CompletedBytesAreConserved(task: FileTransferTask, chunks: seq<int>)
    requires task.fileSize > 0 && task.chunkSize > 0 && Distinct(chunks)
    ensures TotalBytes(task, chunks) <= task.fileSize
    ensures TotalBytes(task, chunks) == task.fileSize <==> forall i :: 0 <= i < ChunkCount(task) ==> i in chunks
  {
    hide TotalBytes, MissingBytes, ChunkCount;
    ListedAndMissing(task, chunks);
    NothingMissing(task, chunks, ChunkCount(task));
  }

  /** A chunk listed twice is counted twice. */
  lemma DuplicatesCountTwice(task: FileTransferTask)
    requires 0 < task.fileSize <= task.chunkSize
    ensures TotalBytes(task, [0, 0]) == 2 * task.fileSize
  {
    assert [0, 0][..1] == [0] && [0][..0] == [];
    assert TotalBytes(task, [0]) == task.fileSize;
  }

  /** Nothing leaves the 64-bit range: not the offset of a 32-bit index, nor any partial sum over distinct chunks. */
  lemma NoOverflow(task: FileTransferTask, chunks: seq<int>, k: nat)
    requires 0 < task.fileSize <= 0x7fff_ffff_ffff_ffff && 0 < task.chunkSize <= 0x8000_0000
    requires Distinct(chunks) && k <= |chunks| && forall i ::
                                                   0 <= i < |chunks| ==> -0x8000_0000 <= chunks[i] < 0x8000_0000
    ensures 0 <= TotalBytes(task, chunks[..k]) <= 0x7fff_ffff_ffff_ffff
    ensures k < |chunks| && chunks[k] >= 0 ==> 0 <= chunks[k] * task.chunkSize <= 0x7fff_ffff_ffff_ffff
  {
    hide ChunkBytesForTask, TotalBytes;
    CompletedBytesAreConserved(task, chunks[..k]);
    NonNegative(task, chunks[..k]);
    if k < |chunks| && chunks[k] >= 0 {
      Monotone(0, chunks[k], task.chunkSize);
      Monotone(chunks[k], 0x8000_0000, task.chunkSize);
    }
  }

  lemma {:induction false} NonNegative(task: FileTransferTask, chunks: seq<int>)
    ensures TotalBytes(task, chunks) >= 0
  {
    if chunks == [] {
    } else {
      NonNegative(task, chunks[..|chunks| - 1]);
    }
  }
}
