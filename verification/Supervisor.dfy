/** The service host's supervisor: it restarts a crashed child after a growing delay and gives up after too many
  * crashes. */
module Supervisor {

  const CRASH_WINDOW_MS := 5 * 60 * 1000
  const MAX_CRASHES_PER_WINDOW := 10

  /**
   * How one round of the loop goes: stopped before it starts, or the child's fate after it ran for some time, and
   * how much longer than its delay the wait took or whether a stop cut it short.
   */
  datatype Outcome = StartFailed | Stopped | ExitedNormally | Crashed

  datatype Round = Round(stopFirst: bool, outcome: Outcome, ranMs: nat, stopInWait: bool, lateMs: nat)

  datatype Exit = Running | Finished | GaveUp

  function RestartDelayMs(recentCrashCount: int): int {
    if recentCrashCount <= 0 then 5000
    else if recentCrashCount == 1 then 30000
    else 60000
  }

  // ------------------------------------------------------ crashes in a window

  predicate Recent(crashMs: int, nowMs: int) {
    nowMs - CRASH_WINDOW_MS <= crashMs <= nowMs
  }

  function RecentCrashes(crashTimesMs: seq<int>, nowMs: int): (n: nat)
    ensures n <= |crashTimesMs|
  {
    if crashTimesMs == [] then 0
    else
      RecentCrashes(crashTimesMs[..|crashTimesMs| - 1], nowMs)
        + if Recent(crashTimesMs[|crashTimesMs| - 1], nowMs) then 1 else 0
  }

  lemma {:induction false} RecentIsCount(crashTimesMs: seq<int>, nowMs: int)
    ensures RecentCrashes(crashTimesMs, nowMs)
            == |set i | 0 <= i < |crashTimesMs| && nowMs - 300_000 <= crashTimesMs[i] <= nowMs|
  {
    if crashTimesMs == [] {
    } else {
      var n := |crashTimesMs| - 1;
      RecentIsCount(crashTimesMs[..n], nowMs);
      var before := set i | 0 <= i < n && nowMs - 300_000 <= crashTimesMs[..n][i] <= nowMs;
      var all := set i | 0 <= i < n + 1 && nowMs - 300_000 <= crashTimesMs[i] <= nowMs;
      assert all == before + if Recent(crashTimesMs[n], nowMs) then {n} else {};
    }
  }

  method ShouldRestartAfterCrash(crashTimesMs: seq<int>, nowMs: int) returns (restart: bool)
    ensures restart <==> |set i | 0 <= i < |crashTimesMs| && nowMs - 300_000 <= crashTimesMs[i] <= nowMs| < 10
  {
    var recentCrashes := 0;
    var windowStartMs := nowMs - CRASH_WINDOW_MS;
    for i := 0 to |crashTimesMs|
      invariant recentCrashes == RecentCrashes(crashTimesMs[..i], nowMs)
    {
      assert crashTimesMs[..i + 1][..i] == crashTimesMs[..i];
      if crashTimesMs[i] >= windowStartMs && crashTimesMs[i] <= nowMs {
        recentCrashes := recentCrashes + 1;
      }
    }
    assert crashTimesMs[..|crashTimesMs|] == crashTimesMs;
    RecentIsCount(crashTimesMs, nowMs);
    return recentCrashes < MAX_CRASHES_PER_WINDOW;
  }

  // ------------------------------------------------------ the spacing of crashes

  /** The clock does not run backwards and the delay after crash i has been waited out. */
  predicate Spaced(crashTimesMs: seq<int>) {
    forall i :: 0 <= i < |crashTimesMs| - 1 ==> crashTimesMs[i] + RestartDelayMs(i) <= crashTimesMs[i + 1]
  }

  lemma {:induction false} Rises(crashTimesMs: seq<int>, i: nat, j: nat)
    requires Spaced(crashTimesMs) && i <= j < |crashTimesMs|
    ensures crashTimesMs[i] <= crashTimesMs[j]
    decreases j
  {
    if i < j {
      Rises(crashTimesMs, i, j - 1);
      assert crashTimesMs[j - 1] + RestartDelayMs(j - 1) <= crashTimesMs[j - 1 + 1];
    }
  }

  /** Eight crashes in a row take longer than the window. */
  lemma EightCrashesTakeLonger(crashTimesMs: seq<int>, i: nat)
    requires Spaced(crashTimesMs) && i + 7 < |crashTimesMs|
    ensures crashTimesMs[i + 7] - crashTimesMs[i] > CRASH_WINDOW_MS
  {
    var t := crashTimesMs;
    assert t[i] + RestartDelayMs(i) <= t[i + 1] && t[i + 1] + RestartDelayMs(i + 1) <= t[i + 2];
    assert t[i + 2] + RestartDelayMs(i + 2) <= t[i + 3] && t[i + 3] + RestartDelayMs(i + 3) <= t[i + 4];
    assert t[i + 4] + RestartDelayMs(i + 4) <= t[i + 5] && t[i + 5] + RestartDelayMs(i + 5) <= t[i + 6];
    assert t[i + 6] + RestartDelayMs(i + 6) <= t[i + 7];
  }

  lemma {:induction false} NoneRecent(crashTimesMs: seq<int>, nowMs: int)
    requires forall i :: 0 <= i < |crashTimesMs| ==> crashTimesMs[i] < nowMs - CRASH_WINDOW_MS
    ensures RecentCrashes(crashTimesMs, nowMs) == 0
  {
    if crashTimesMs == [] {
    } else {
      NoneRecent(crashTimesMs[..|crashTimesMs| - 1], nowMs);
    }
  }

  lemma {:induction false} AtMostTheRest(crashTimesMs: seq<int>, k: nat, nowMs: int)
    requires k <= |crashTimesMs|
    ensures RecentCrashes(crashTimesMs, nowMs) <= RecentCrashes(crashTimesMs[..k], nowMs) + |crashTimesMs| - k
  {
    if k == |crashTimesMs| {
      assert crashTimesMs[..k] == crashTimesMs;
    } else {
      AtMostTheRest(crashTimesMs[..|crashTimesMs| - 1], k, nowMs);
      assert crashTimesMs[..|crashTimesMs| - 1][..k] == crashTimesMs[..k];
    }
  }

  lemma SpacedPrefix(crashTimesMs: seq<int>, n: nat)
    requires Spaced(crashTimesMs) && n <= |crashTimesMs|
    ensures Spaced(crashTimesMs[..n])
  {
    forall i | 0 <= i < n - 1 ensures crashTimesMs[..n][i] + RestartDelayMs(i) <= crashTimesMs[..n][i + 1] {
      assert crashTimesMs[i] + RestartDelayMs(i) <= crashTimesMs[i + 1];
    }
  }

  /** Whatever the moment, the five minutes before it contain at most seven crashes. */
  lemma {:induction false} AtMostSevenCrashes(crashTimesMs: seq<int>, nowMs: int)
    requires Spaced(crashTimesMs)
    ensures RecentCrashes(crashTimesMs, nowMs) <= 7
  {
    var n := |crashTimesMs|;
    if n > 7 {
      var last := crashTimesMs[n - 1];
      if Recent(last, nowMs) {
        EightCrashesTakeLonger(crashTimesMs, n - 8);
        var early := crashTimesMs[..n - 7];
        forall i | 0 <= i < |early| ensures early[i] < nowMs - CRASH_WINDOW_MS {
          Rises(crashTimesMs, i, n - 8);
        }
        NoneRecent(early, nowMs);
        AtMostTheRest(crashTimesMs, n - 7, nowMs);
      } else {
        SpacedPrefix(crashTimesMs, n - 1);
        AtMostSevenCrashes(crashTimesMs[..n - 1], nowMs);
      }
    }
  }

  /** Seven do occur, so the bound is exact. */
  lemma SevenCrashesOccur()
    ensures var t := [0, 5000, 35000, 95000, 155000, 215000, 275000]; Spaced(t) && RecentCrashes(t, 275000) == 7
  {
    var t := [0, 5000, 35000, 95000, 155000, 215000, 275000];
    assert t[..6][..5] == t[..5] && t[..5][..4] == t[..4] && t[..4][..3] == t[..3] && t[..3][..2] == t[..2]
           && t[..2][..1] == t[..1];
    assert RecentCrashes(t[..1], 275000) == 1;
    assert RecentCrashes(t[..2], 275000) == 2;
    assert RecentCrashes(t[..3], 275000) == 3;
    assert RecentCrashes(t[..4], 275000) == 4;
    assert RecentCrashes(t[..5], 275000) == 5;
    assert RecentCrashes(t[..6], 275000) == 6;
  }

  // ------------------------------------------------------ the loop

  predicate IsCrash(r: Round) {
    !r.stopFirst && (r.outcome.Crashed? || r.outcome.StartFailed?)
  }

  /** A round after which the loop goes round again, as long as it does not give up. */
  predicate GoesOn(r: Round) {
    IsCrash(r) && !r.stopInWait
  }

  /** The clock when round i starts: every earlier round ran, crashed, and waited its delay. */
  function StartMs(rounds: seq<Round>, firstMs: int, i: nat): int
    requires i <= |rounds|
  {
    if i == 0 then firstMs
    else StartMs(rounds, firstMs, i - 1) + rounds[i - 1].ranMs + RestartDelayMs(i - 1) + rounds[i - 1].lateMs
  }

  function CrashMs(rounds: seq<Round>, firstMs: int, i: nat): int
    requires i < |rounds|
  {
    StartMs(rounds, firstMs, i) + rounds[i].ranMs
  }

  /** The crashes recorded so far are those of the first rounds, each at the time of its round. */
  predicate Recorded(rounds: seq<Round>, firstMs: int, crashTimesMs: seq<int>) {
    |crashTimesMs| <= |rounds| && forall i :: 0 <= i < |crashTimesMs| ==> crashTimesMs[i] == CrashMs(rounds, firstMs, i)
  }

  predicate AllGoOn(rounds: seq<Round>, n: nat) {
    n <= |rounds| && forall i :: 0 <= i < n ==> GoesOn(rounds[i])
  }

  lemma OneMoreCrash(rounds: seq<Round>, firstMs: int, crashTimesMs: seq<int>, nowMs: int)
    requires Recorded(rounds, firstMs, crashTimesMs) && Spaced(crashTimesMs) && |crashTimesMs| < |rounds|
    requires nowMs == StartMs(rounds, firstMs, |crashTimesMs|) + rounds[|crashTimesMs|].ranMs
    ensures Recorded(rounds, firstMs, crashTimesMs + [nowMs]) && Spaced(crashTimesMs + [nowMs])
  {
    hide StartMs, RestartDelayMs, Spaced;
    var n := |crashTimesMs|;
    if n > 0 {
      NextStart(rounds, firstMs, n - 1);
      assert crashTimesMs[n - 1] == CrashMs(rounds, firstMs, n - 1);
    }
    SpacedAppend(crashTimesMs, nowMs);
  }

  lemma SpacedAppend(crashTimesMs: seq<int>, nowMs: int)
    requires Spaced(crashTimesMs)
    requires crashTimesMs != [] ==> crashTimesMs[|crashTimesMs| - 1] + RestartDelayMs(|crashTimesMs| - 1) <= nowMs
    ensures Spaced(crashTimesMs + [nowMs])
  {
    hide RestartDelayMs;
    var all := crashTimesMs + [nowMs];
    forall i | 0 <= i < |all| - 1 ensures all[i] + RestartDelayMs(i) <= all[i + 1] {
      assert all[i] == crashTimesMs[i];
      if i + 1 < |crashTimesMs| { assert all[i + 1] == crashTimesMs[i + 1]; }
    }
  }

  lemma NextStart(rounds: seq<Round>, firstMs: int, i: nat)
    requires i < |rounds|
    ensures StartMs(rounds, firstMs, i + 1) == StartMs(rounds, firstMs, i) + rounds[i].ranMs + RestartDelayMs(i)
            + rounds[i].lateMs
  {
  }

  /** The first restart waits five seconds, the second thirty, every later one a minute. */
  lemma RecordedGaps(rounds: seq<Round>, firstMs: int, crashTimesMs: seq<int>)
    requires Recorded(rounds, firstMs, crashTimesMs)
    ensures crashTimesMs != [] ==> crashTimesMs[0] == firstMs + rounds[0].ranMs
    ensures forall i :: 0 <= i < |crashTimesMs| - 1 ==>
              crashTimesMs[i + 1] == crashTimesMs[i] + (if i == 0 then 5000 else if i == 1 then 30000 else 60000)
                                     + rounds[i].lateMs + rounds[i + 1].ranMs
  {
    hide StartMs;
    NothingRecorded(rounds, firstMs);
    forall i | 0 <= i < |crashTimesMs| - 1
      ensures crashTimesMs[i + 1] == crashTimesMs[i] + RestartDelayMs(i) + rounds[i].lateMs + rounds[i + 1].ranMs
    {
      NextStart(rounds, firstMs, i);
    }
  }

  lemma NothingRecorded(rounds: seq<Round>, firstMs: int)
    ensures StartMs(rounds, firstMs, 0) == firstMs && Recorded(rounds, firstMs, []) && Spaced([])
  {
  }

  /**
   * superviseChild, against any course of events. The clock moves by what the children run and by the delays of the
   * loop itself, so that it never gives up. It ends with the first round that is stopped or whose child exits
   * normally, and has recorded every crash until then.
   */
  method SuperviseChild(rounds: seq<Round>, firstMs: int)
      returns (exit: Exit, crashTimesMs: seq<int>, restartCount: nat)
    ensures exit != GaveUp
    ensures exit == Running <==> AllGoOn(rounds, |rounds|)
    ensures Ends(rounds, restartCount, exit) && |crashTimesMs| == restartCount
    ensures Recorded(rounds, firstMs, crashTimesMs) && Spaced(crashTimesMs)
    ensures forall i :: 0 <= i < |crashTimesMs| ==>
              !rounds[i].stopFirst && (rounds[i].outcome == Crashed || rounds[i].outcome == StartFailed)
              && (i < |crashTimesMs| - 1 ==> !rounds[i].stopInWait)
    ensures var n := |crashTimesMs|;
            if exit == Running then n == |rounds| && (n > 0 ==> !rounds[n - 1].stopInWait)
            else (n > 0 && rounds[n - 1].stopInWait)
                 || (n < |rounds| && (rounds[n].stopFirst || rounds[n].outcome == ExitedNormally
                                      || rounds[n].outcome == Outcome.Stopped))
    ensures crashTimesMs != [] ==> crashTimesMs[0] == firstMs + rounds[0].ranMs
    ensures forall i :: 0 <= i < |crashTimesMs| - 1 ==>
              crashTimesMs[i + 1] == crashTimesMs[i] + (if i == 0 then 5000 else if i == 1 then 30000 else 60000)
                                     + rounds[i].lateMs + rounds[i + 1].ranMs
  {
    hide RecentCrashes, RestartDelayMs, StartMs, CrashMs, Spaced, Recorded, Recent;
    crashTimesMs, restartCount := [], 0;
    var nowMs := firstMs;
    var i := 0;
    NothingRecorded(rounds, firstMs);
    while i < |rounds| && !rounds[i].stopFirst
      invariant i <= |rounds| && restartCount == i == |crashTimesMs|
      invariant nowMs == StartMs(rounds, firstMs, i)
      invariant AllGoOn(rounds, i)
      invariant Recorded(rounds, firstMs, crashTimesMs) && Spaced(crashTimesMs)
    {
      NextStart(rounds, firstMs, i);
      nowMs := nowMs + rounds[i].ranMs;
      if rounds[i].outcome.Stopped? || rounds[i].outcome.ExitedNormally? {
        RecordedGaps(rounds, firstMs, crashTimesMs);
        return Finished, crashTimesMs, restartCount;
      }
      OneMoreCrash(rounds, firstMs, crashTimesMs, nowMs);
      crashTimesMs := crashTimesMs + [nowMs];
      AtMostSevenCrashes(crashTimesMs, nowMs);
      RecentIsCount(crashTimesMs, nowMs);
      var restart := ShouldRestartAfterCrash(crashTimesMs, nowMs);
      RecordedGaps(rounds, firstMs, crashTimesMs);
      if !restart { return GaveUp, crashTimesMs, restartCount; }
      var delayMs := RestartDelayMs(restartCount);
      restartCount := restartCount + 1;
      if rounds[i].stopInWait {
        RecordedGaps(rounds, firstMs, crashTimesMs);
        return Finished, crashTimesMs, restartCount;
      }
      nowMs := nowMs + delayMs + rounds[i].lateMs;
      i := i + 1;
    }
    RecordedGaps(rounds, firstMs, crashTimesMs);
    exit := if i < |rounds| then Finished else Running;
  }

  /** The loop has recorded `n` crashes: every earlier round went on, and it is over unless all rounds were such. */
  predicate Ends(rounds: seq<Round>, n: nat, exit: Exit) {
    && n <= |rounds| && (forall i :: 0 <= i < n ==> IsCrash(rounds[i]))
    && (forall i :: 0 <= i < n - 1 ==> GoesOn(rounds[i]))
    && match exit
       case Running => n == |rounds| && (n > 0 ==> GoesOn(rounds[n - 1]))
       case Finished => (n > 0 && IsCrash(rounds[n - 1]) && rounds[n - 1].stopInWait)
                        || (n < |rounds| && !IsCrash(rounds[n]) && (n > 0 ==> GoesOn(rounds[n - 1])))
       case GaveUp => false
  }
}
