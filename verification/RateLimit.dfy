/** The request limiter in front of the message service: a fixed window for each client and operation. */
module RateLimit {
  import opened Text
  import opened Sql

  datatype Operation = PostMessage | SyncMessages | DeliveryAck | ReadAck | EventsStream | SessionHeartbeat

  function OperationKey(operation: Operation): string {
    match operation
    case PostMessage => "post_message"
    case SyncMessages => "sync_messages"
    case DeliveryAck => "delivery_ack"
    case ReadAck => "read_ack"
    case EventsStream => "events_stream"
    case SessionHeartbeat => "session_heartbeat"
  }

  function Total(): string { "total" }

  function BucketKey(clientId: string, operation: Operation): string {
    Trimmed(clientId) + "|" + OperationKey(operation)
  }

  /** One answered request, as the audit records it. */
  datatype Entry = Entry(atMs: int, clientId: string, operation: Operation, accepted: bool, retryAfterMs: int)

  function KeyOf(e: Entry): string {
    BucketKey(e.clientId, e.operation)
  }

  datatype Bucket = Bucket(windowStartMs: int, count: int)

  const NO_BUCKET := Bucket(0, 0)

  // ------------------------------------------------------ the fixed window

  /** The window a request falls in: the bucket's own, or a new one that starts with the request. */
  function Opened(b: Bucket, nowMs: int, windowMs: int): Bucket {
    if b.windowStartMs <= 0 || nowMs - b.windowStartMs >= windowMs then Bucket(nowMs, 0) else b
  }

  function Counted(b: Bucket, nowMs: int, max: int, windowMs: int): Bucket {
    var o := Opened(b, nowMs, windowMs);
    if o.count >= max then o else o.(count := o.count + 1)
  }

  /** The bucket of a key after a history of requests. */
  function BucketAfter(entries: seq<Entry>, key: string, max: int, windowMs: int): Bucket {
    if entries == [] then NO_BUCKET
    else
      var before := BucketAfter(entries[..|entries| - 1], key, max, windowMs);
      var e := entries[|entries| - 1];
      if KeyOf(e) == key then Counted(before, e.atMs, max, windowMs) else before
  }

  /** The answer the limiter owes to a request after a history. */
  predicate Answers(entries: seq<Entry>, e: Entry, max: int, windowMs: int) {
    var b := Opened(BucketAfter(entries, KeyOf(e), max, windowMs), e.atMs, windowMs);
    && e.accepted == (b.count < max)
    && e.retryAfterMs == if e.accepted then 0 else Max(0, windowMs - (e.atMs - b.windowStartMs))
  }

  /** A history the limiter can produce under one limit, with a positive clock that never runs backwards. */
  predicate History(entries: seq<Entry>, max: int, windowMs: int) {
    && max >= 1 && windowMs >= 1
    && (forall i, j :: 0 <= i < j < |entries| ==> entries[i].atMs <= entries[j].atMs)
    && (forall i :: 0 <= i < |entries| ==> entries[i].atMs > 0 && Answers(entries[..i], entries[i], max, windowMs))
  }

  /** How many requests of a key were accepted from `lo` up to but not including `hi`. */
  function Accepted(entries: seq<Entry>, key: string, lo: int, hi: int): nat {
    if entries == [] then 0
    else
      var e := entries[|entries| - 1];
      Accepted(entries[..|entries| - 1], key, lo, hi) + if KeyOf(e) == key && e.accepted && lo <= e.atMs < hi then 1
        else 0
  }

  lemma {:induction false} AcceptedSplits(entries: seq<Entry>, key: string, lo: int, mid: int, hi: int)
    requires lo <= mid <= hi
    ensures Accepted(entries, key, lo, hi) == Accepted(entries, key, lo, mid) + Accepted(entries, key, mid, hi)
  {
    if entries == [] {
    } else {
      AcceptedSplits(entries[..|entries| - 1], key, lo, mid, hi);
    }
  }

  lemma {:induction false} NarrowerIsFewer(entries: seq<Entry>, key: string, lo: int, hi: int, lo': int, hi': int)
    requires lo' <= lo && hi <= hi'
    ensures Accepted(entries, key, lo, hi) <= Accepted(entries, key, lo', hi')
  {
    if entries == [] {
    } else {
      NarrowerIsFewer(entries[..|entries| - 1], key, lo, hi, lo', hi');
    }
  }

  lemma HistoryPrefix(entries: seq<Entry>, max: int, windowMs: int, n: nat)
    requires History(entries, max, windowMs) && n <= |entries|
    ensures History(entries[..n], max, windowMs)
  {
    hide Answers;
    forall i | 0 <= i < n ensures entries[..n][i].atMs > 0
      && Answers(entries[..n][..i], entries[..n][i], max, windowMs) {
      assert entries[..n][..i] == entries[..i];
    }
  }

  // ------------------------------------------------------ the bound

  predicate AllBefore(entries: seq<Entry>, key: string, end: int) {
    forall i :: 0 <= i < |entries| && KeyOf(entries[i]) == key && entries[i].accepted ==> entries[i].atMs < end
  }

  lemma {:induction false} NoneBeyond(entries: seq<Entry>, key: string, lo: int, hi: int)
    requires AllBefore(entries, key, lo)
    ensures Accepted(entries, key, lo, hi) == 0
  {
    if entries == [] {
    } else {
      NoneBeyond(entries[..|entries| - 1], key, lo, hi);
    }
  }

  /**
   * The bucket counts what was accepted in its window, no accepted request lies beyond that window, and in
   * the stretch of one window before it at most `max` were accepted.
   */
  ghost predicate WindowOk(entries: seq<Entry>, key: string, b: Bucket, max: int, windowMs: int) {
    && b.windowStartMs >= 0 && 0 <= b.count <= max
    && Accepted(entries, key, b.windowStartMs, b.windowStartMs + windowMs) == b.count
    && AllBefore(entries, key, if b.windowStartMs > 0 then b.windowStartMs + windowMs else 0)
    && Accepted(entries, key, b.windowStartMs - windowMs, b.windowStartMs) <= max
    && b.windowStartMs <= if entries == [] then 0 else entries[|entries| - 1].atMs
  }

  lemma NoWindowYet(key: string, max: int, windowMs: int)
    requires max >= 0
    ensures WindowOk([], key, NO_BUCKET, max, windowMs)
  {
  }

  /** A new window starts: what the old one accepted is all that can lie in the stretch before it. */
  lemma NewWindow(entries: seq<Entry>, key: string, b: Bucket, max: int, windowMs: int, nowMs: int)
    requires WindowOk(entries, key, b, max, windowMs) && windowMs >= 1
    requires b.windowStartMs <= 0 || nowMs - b.windowStartMs >= windowMs
    requires nowMs > 0
    ensures Accepted(entries, key, nowMs, nowMs + windowMs) == 0
            && Accepted(entries, key, nowMs - windowMs, nowMs) <= max
    ensures AllBefore(entries, key, nowMs)
  {
    hide Accepted, KeyOf;
    NoneBeyond(entries, key, nowMs, nowMs + windowMs);
    if b.windowStartMs > 0 {
      var end := b.windowStartMs + windowMs;
      NoneBeyond(entries, key, end, nowMs);
      NarrowerIsFewer(entries, key, nowMs - windowMs, nowMs, b.windowStartMs, nowMs);
      AcceptedSplits(entries, key, b.windowStartMs, end, nowMs);
    } else {
      NarrowerIsFewer(entries, key, nowMs - windowMs, nowMs, -windowMs, nowMs);
      AcceptedSplits(entries, key, -windowMs, 0, nowMs);
      NoneBeyond(entries, key, 0, nowMs);
    }
  }

  lemma OneMoreEntry(front: seq<Entry>, e: Entry, key: string, lo: int, hi: int)
    ensures Accepted(front + [e], key, lo, hi)
            == Accepted(front, key, lo, hi) + if KeyOf(e) == key && e.accepted && lo <= e.atMs < hi then 1 else 0
  {
    assert (front + [e])[..|front|] == front;
  }

  lemma WindowStep(front: seq<Entry>, e: Entry, b: Bucket, max: int, windowMs: int)
    requires WindowOk(front, KeyOf(e), b, max, windowMs) && max >= 1 && windowMs >= 1
    requires e.atMs > 0 && (front != [] ==> front[|front| - 1].atMs <= e.atMs)
             && e.accepted == (Opened(b, e.atMs, windowMs).count < max)
    ensures WindowOk(front + [e], KeyOf(e), Counted(b, e.atMs, max, windowMs), max, windowMs)
  {
    hide Accepted, KeyOf;
    var key, b' := KeyOf(e), Counted(b, e.atMs, max, windowMs);
    var start := b'.windowStartMs;
    OneMoreEntry(front, e, key, start, start + windowMs);
    OneMoreEntry(front, e, key, start - windowMs, start);
    if start != b.windowStartMs || b.windowStartMs <= 0 || e.atMs - b.windowStartMs >= windowMs {
      NewWindow(front, key, b, max, windowMs, e.atMs);
    }
  }

  lemma {:induction false} WindowsOk(entries: seq<Entry>, key: string, max: int, windowMs: int)
    requires History(entries, max, windowMs)
    ensures WindowOk(entries, key, BucketAfter(entries, key, max, windowMs), max, windowMs)
  {
    hide KeyOf, Counted, Opened, WindowOk, Accepted, History, BucketAfter;
    if entries == [] {
      HistoryLimits(entries, max, windowMs);
      NoWindowYet(key, max, windowMs);
      NoBucketYet(key, max, windowMs);
    } else {
      var front, e := entries[..|entries| - 1], entries[|entries| - 1];
      HistoryLimits(entries, max, windowMs);
      HistoryPrefix(entries, max, windowMs, |front|);
      WindowsOk(front, key, max, windowMs);
      assert entries == front + [e];
      BucketStep(front, e, key, max, windowMs);
      if KeyOf(e) == key {
        WindowStep(front, e, BucketAfter(front, key, max, windowMs), max, windowMs);
      } else {
        OtherKey(front, e, key, BucketAfter(front, key, max, windowMs), max, windowMs);
      }
    }
  }

  lemma NoBucketYet(key: string, max: int, windowMs: int)
    ensures BucketAfter([], key, max, windowMs) == NO_BUCKET
  {
  }

  lemma BucketStep(front: seq<Entry>, e: Entry, key: string, max: int, windowMs: int)
    ensures var before := BucketAfter(front, key, max, windowMs);
            BucketAfter(front + [e], key, max, windowMs)
              == if KeyOf(e) == key then Counted(before, e.atMs, max, windowMs) else before
  {
    hide KeyOf, Counted;
    assert (front + [e])[..|front|] == front;
  }

  /** What the last entry of a history brings along. */
  lemma HistoryLimits(entries: seq<Entry>, max: int, windowMs: int)
    requires History(entries, max, windowMs)
    ensures max >= 1 && windowMs >= 1
    ensures entries != [] ==>
              var front, e := entries[..|entries| - 1], entries[|entries| - 1];
              && e.atMs > 0 && (front != [] ==> front[|front| - 1].atMs <= e.atMs)
              && e.accepted == (Opened(BucketAfter(front, KeyOf(e), max, windowMs), e.atMs, windowMs).count < max)
  {
    hide KeyOf, BucketAfter, Opened;
    if entries != [] {
      assert Answers(entries[..|entries| - 1], entries[|entries| - 1], max, windowMs);
    }
  }

  lemma OtherKey(front: seq<Entry>, e: Entry, key: string, b: Bucket, max: int, windowMs: int)
    requires WindowOk(front, key, b, max, windowMs) && KeyOf(e) != key
             && (front != [] ==> front[|front| - 1].atMs <= e.atMs) && e.atMs > 0
    ensures WindowOk(front + [e], key, b, max, windowMs)
  {
    hide Accepted, KeyOf;
    OneMoreEntry(front, e, key, b.windowStartMs, b.windowStartMs + windowMs);
    OneMoreEntry(front, e, key, b.windowStartMs - windowMs, b.windowStartMs);
  }

  lemma LastIsInWindow(entries: seq<Entry>, max: int, windowMs: int)
    requires History(entries, max, windowMs) && entries != []
    ensures var e := entries[|entries| - 1]; var b := BucketAfter(entries, KeyOf(e), max, windowMs);
            0 < b.windowStartMs <= e.atMs < b.windowStartMs + windowMs
  {
    hide KeyOf;
    var front, e := entries[..|entries| - 1], entries[|entries| - 1];
    HistoryPrefix(entries, max, windowMs, |front|);
    WindowsOk(front, KeyOf(e), max, windowMs);
  }

  /**
   * The bound: any stretch of time one window long, both ends included, contains at most twice the limit
   * of accepted requests of one client and operation.
   */
  lemma {:induction false} RateIsBounded(entries: seq<Entry>, key: string, max: int, windowMs: int, lo: int)
    requires History(entries, max, windowMs)
    ensures Accepted(entries, key, lo, lo + windowMs + 1) <= 2 * max
  {
    hide KeyOf, Counted, Opened, AllBefore;
    if entries == [] {
    } else {
      var front, e := entries[..|entries| - 1], entries[|entries| - 1];
      if KeyOf(e) == key && e.accepted && lo <= e.atMs < lo + windowMs + 1 {
        WindowsOk(entries, key, max, windowMs);
        LastIsInWindow(entries, max, windowMs);
        var start := BucketAfter(entries, key, max, windowMs).windowStartMs;
        TwoWindows(entries, key, BucketAfter(entries, key, max, windowMs), max, windowMs, lo);
      } else {
        HistoryPrefix(entries, max, windowMs, |front|);
        RateIsBounded(front, key, max, windowMs, lo);
      }
    }
  }

  lemma TwoWindows(entries: seq<Entry>, key: string, b: Bucket, max: int, windowMs: int, lo: int)
    requires WindowOk(entries, key, b, max, windowMs) && b.windowStartMs > 0 && windowMs >= 1
    requires b.windowStartMs - windowMs <= lo
    ensures Accepted(entries, key, lo, lo + windowMs + 1) <= 2 * max
  {
    hide Accepted, KeyOf, AllBefore;
    var start := b.windowStartMs;
    var end := start + windowMs;
    var hi := Max(end, lo + windowMs + 1);
    NarrowerIsFewer(entries, key, lo, lo + windowMs + 1, start - windowMs, hi);
    AcceptedSplits(entries, key, start - windowMs, start, hi);
    AcceptedSplits(entries, key, start, end, hi);
    NoneBeyond(entries, key, end, hi);
  }

  // ------------------------------------------------------ the promise of a rejection

  /** A rejected request is told how long its window still lasts. */
  lemma RejectionTellsWindowEnd(entries: seq<Entry>, i: nat, max: int, windowMs: int)
    requires History(entries, max, windowMs) && i < |entries| && !entries[i].accepted
    ensures 0 < entries[i].retryAfterMs <= windowMs
    ensures var b := BucketAfter(entries[..i + 1], KeyOf(entries[i]), max, windowMs);
            b.windowStartMs > 0 && b.windowStartMs + windowMs == entries[i].atMs + entries[i].retryAfterMs
              && b.count >= max
  {
    hide KeyOf;
    assert entries[..i + 1][..i] == entries[..i];
    HistoryPrefix(entries, max, windowMs, i + 1);
    LastIsInWindow(entries[..i + 1], max, windowMs);
  }

  /** Until that window ends its bucket stays as it is. */
  lemma {:induction false} FullUntil(entries: seq<Entry>, key: string, b: Bucket, i: nat, j: nat, max: int,
                                     windowMs: int)
    requires i < j <= |entries| && b == BucketAfter(entries[..i + 1], key, max, windowMs)
    requires b.windowStartMs > 0 && b.count >= max
    requires forall m :: i < m < j && KeyOf(entries[m]) == key ==> entries[m].atMs < b.windowStartMs + windowMs
    ensures BucketAfter(entries[..j], key, max, windowMs) == b
    decreases j
  {
    hide KeyOf;
    if j > i + 1 {
      FullUntil(entries, key, b, i, j - 1, max, windowMs);
      assert entries[..j][..j - 1] == entries[..j - 1];
      assert entries[..j][j - 1] == entries[j - 1];
    }
  }

  /** The first request of the bucket at or after the promised time is accepted, and the promise is at most one
    * window away. */
  lemma RetryIsHonoured(entries: seq<Entry>, i: nat, j: nat, max: int, windowMs: int)
    requires History(entries, max, windowMs) && i < j < |entries|
    requires !entries[i].accepted && KeyOf(entries[j]) == KeyOf(entries[i])
    requires entries[j].atMs >= entries[i].atMs + entries[i].retryAfterMs
    requires forall m ::
              i < m < j && KeyOf(entries[m]) == KeyOf(entries[i]) ==>
                entries[m].atMs < entries[i].atMs + entries[i].retryAfterMs
    ensures entries[j].accepted && 0 < entries[i].retryAfterMs <= windowMs
  {
    hide KeyOf, BucketAfter;
    RejectionTellsWindowEnd(entries, i, max, windowMs);
    FullUntil(entries, KeyOf(entries[i]), BucketAfter(entries[..i + 1], KeyOf(entries[i]), max, windowMs), i, j, max,
              windowMs);
    assert Answers(entries[..j], entries[j], max, windowMs);
  }

  /** Before that time every request of the bucket is rejected. */
  lemma RejectedUntil(entries: seq<Entry>, i: nat, j: nat, max: int, windowMs: int)
    requires History(entries, max, windowMs) && i < j < |entries|
    requires !entries[i].accepted && KeyOf(entries[j]) == KeyOf(entries[i])
    requires entries[j].atMs < entries[i].atMs + entries[i].retryAfterMs
    ensures !entries[j].accepted
  {
    hide KeyOf, BucketAfter;
    RejectionTellsWindowEnd(entries, i, max, windowMs);
    FullUntil(entries, KeyOf(entries[i]), BucketAfter(entries[..i + 1], KeyOf(entries[i]), max, windowMs), i, j, max,
              windowMs);
    assert Answers(entries[..j], entries[j], max, windowMs);
  }

  /** Twice the limit does occur, and so does a rejection whose promise is kept: three requests under a limit of one. */
  lemma TwiceTheLimitOccurs(clientId: string, operation: Operation, windowMs: int)
    requires windowMs > 1
    ensures var entries := [Entry(1, clientId, operation, true, 0), Entry(2, clientId, operation, false, windowMs - 1),
                            Entry(windowMs + 1, clientId, operation, true, 0)];
            History(entries, 1, windowMs) && Accepted(entries, BucketKey(clientId, operation), 1, windowMs + 2) == 2
  {
    hide BucketKey;
    var a, b := Entry(1, clientId, operation, true, 0), Entry(2, clientId, operation, false, windowMs - 1);
    var c := Entry(windowMs + 1, clientId, operation, true, 0);
    var key := BucketKey(clientId, operation);
    var entries := [a, b, c];
    assert entries[..0] == [] && entries[..1] == [a] && entries[..2] == [a, b] && [a, b][..1] == [a] && [a][..0] == [];
    assert BucketAfter([a], key, 1, windowMs) == Bucket(1, 1);
    assert BucketAfter([a, b], key, 1, windowMs) == Bucket(1, 1);
    assert Accepted([a], key, 1, windowMs + 2) == 1;
    assert Accepted([a, b], key, 1, windowMs + 2) == 1;
  }

  // ------------------------------------------------------ the limiter

  lemma OperationKeysArePipeFree(operation: Operation)
    ensures PipeFree(OperationKey(operation))
  {
  }

  lemma OperationKeysDiffer(o: Operation, p: Operation)
    requires OperationKey(o) == OperationKey(p)
    ensures o == p
  {
    var s, t := OperationKey(o), OperationKey(p);
    assert |s| == |t| && s[0] == t[0] && s[2] == t[2];
  }

  /** Two requests share a bucket only when they come from the same client for the same operation. */
  lemma BucketsAreSeparate(c: string, o: Operation, d: string, p: Operation)
    ensures BucketKey(c, o) == BucketKey(d, p) <==> Trimmed(c) == Trimmed(d) && o == p
  {
    hide Trimmed, OperationKey;
    OperationKeysArePipeFree(o);
    OperationKeysArePipeFree(p);
    if BucketKey(c, o) == BucketKey(d, p) {
      LastPipe(Trimmed(c), OperationKey(o), Trimmed(d), OperationKey(p));
      OperationKeysDiffer(o, p);
    }
  }

  function Get(counters: map<string, int>, key: string): int {
    if key in counters then counters[key] else 0
  }

  function Incremented(counters: map<string, int>, operation: Operation): map<string, int> {
    var one := counters[OperationKey(operation) := Get(counters, OperationKey(operation)) + 1];
    one[Total() := Get(one, Total()) + 1]
  }

  /** How many requests for one operation were accepted, or rejected. */
  function Tally(audit: seq<Entry>, operation: Operation, accepted: bool): nat {
    if audit == [] then 0
    else
      var e := audit[|audit| - 1];
      Tally(audit[..|audit| - 1], operation, accepted) + if e.operation == operation && e.accepted == accepted then 1
        else 0
  }

  function TallyAll(audit: seq<Entry>, accepted: bool): nat {
    if audit == [] then 0
    else TallyAll(audit[..|audit| - 1], accepted) + if audit[|audit| - 1].accepted == accepted then 1 else 0
  }

  ghost predicate CountersOk(counters: map<string, int>, audit: seq<Entry>, accepted: bool) {
    && (forall o: Operation :: Get(counters, OperationKey(o)) == Tally(audit, o, accepted))
    && Get(counters, Total()) == TallyAll(audit, accepted)
  }

  lemma CountedOnce(counters: map<string, int>, audit: seq<Entry>, accepted: bool, e: Entry)
    requires CountersOk(counters, audit, accepted)
    ensures CountersOk(if e.accepted == accepted then Incremented(counters, e.operation)
                       else counters, audit + [e], accepted)
  {
    hide OperationKey, Total;
    assert (audit + [e])[..|audit|] == audit;
    forall o: Operation ensures OperationKey(o) != Total()
      && (OperationKey(o) == OperationKey(e.operation) ==> o == e.operation) {
      NoOperationIsTotal(o);
      if OperationKey(o) == OperationKey(e.operation) { OperationKeysDiffer(o, e.operation); }
    }
  }

  lemma NoOperationIsTotal(o: Operation)
    ensures OperationKey(o) != Total()
  {
    assert |OperationKey(o)| != |Total()|;
  }

  /** The total is the sum over the operations, and every request is counted once. */
  lemma {:induction false} TotalsAddUp(audit: seq<Entry>)
    ensures forall accepted :: TallyAll(audit, accepted) ==
              Tally(audit, PostMessage, accepted) + Tally(audit, SyncMessages, accepted)
                + Tally(audit, DeliveryAck, accepted)
              + Tally(audit, ReadAck, accepted) + Tally(audit, EventsStream, accepted)
                + Tally(audit, SessionHeartbeat, accepted)
    ensures TallyAll(audit, true) + TallyAll(audit, false) == |audit|
  {
    if audit == [] {
    } else {
      TotalsAddUp(audit[..|audit| - 1]);
    }
  }

  const MAX_RECENT_AUDIT: nat := 100

  function Recent(audit: seq<Entry>): seq<Entry> {
    if |audit| <= MAX_RECENT_AUDIT then audit else audit[|audit| - MAX_RECENT_AUDIT..]
  }

  /** Everything, or the last hundred entries. */
  lemma RecentIsLastHundred(audit: seq<Entry>)
    ensures |Recent(audit)| == (if |audit| < 100 then |audit| else 100)
    ensures Recent(audit) == audit[|audit| - |Recent(audit)|..]
  {
  }

  /** The audit keeps the last hundred entries. */
  method AppendAudit(recentAudit: seq<Entry>, entry: Entry, ghost audit: seq<Entry>) returns (recent: seq<Entry>)
    requires recentAudit == Recent(audit)
    ensures recent == Recent(audit + [entry])
  {
    recent := recentAudit + [entry];
    while |recent| > MAX_RECENT_AUDIT
      invariant |recent| <= |audit| + 1 && recent == (audit + [entry])[|audit| + 1 - |recent|..]
      invariant |recent| >= MAX_RECENT_AUDIT || recent == audit + [entry]
    {
      recent := recent[1..];
    }
  }

  ghost predicate BucketsOk(buckets: map<string, Bucket>, requests: seq<Entry>, max: int, windowMs: int) {
    forall k :: (if k in buckets then buckets[k] else NO_BUCKET) == BucketAfter(requests, k, max, windowMs)
  }

  lemma BucketIs(buckets: map<string, Bucket>, requests: seq<Entry>, max: int, windowMs: int, key: string)
    requires BucketsOk(buckets, requests, max, windowMs)
    ensures (if key in buckets then buckets[key] else NO_BUCKET) == BucketAfter(requests, key, max, windowMs)
  {
  }

  lemma BucketUpdated(buckets: map<string, Bucket>, requests: seq<Entry>, max: int, windowMs: int, e: Entry, b: Bucket)
    requires BucketsOk(buckets, requests, max, windowMs)
    requires b == Counted(if KeyOf(e) in buckets then buckets[KeyOf(e)] else NO_BUCKET, e.atMs, max, windowMs)
    ensures BucketsOk(buckets[KeyOf(e) := b], requests + [e], max, windowMs)
  {
    hide KeyOf, Counted;
    assert (requests + [e])[..|requests|] == requests;
  }

  lemma HistoryGrows(requests: seq<Entry>, max: int, windowMs: int, e: Entry)
    requires History(requests, max, windowMs) && e.atMs > 0
             && (requests != [] ==> requests[|requests| - 1].atMs <= e.atMs)
    requires Answers(requests, e, max, windowMs)
    ensures History(requests + [e], max, windowMs)
  {
    hide Answers;
    var all := requests + [e];
    forall i | 0 <= i < |all| ensures all[i].atMs > 0 && Answers(all[..i], all[i], max, windowMs) {
      assert all[..i] == requests[..i];
      if i == |requests| { assert requests[..i] == requests; } else { assert all[i] == requests[i]; }
    }
    forall i, j | 0 <= i < j < |all| ensures all[i].atMs <= all[j].atMs {
      assert all[i] == requests[i];
      if j < |requests| { assert all[j] == requests[j]; }
    }
  }

  lemma PromiseInRange(requests: seq<Entry>, e: Entry, max: int, windowMs: int)
    requires History(requests + [e], max, windowMs)
    ensures !e.accepted ==> 0 < e.retryAfterMs <= windowMs
  {
    hide History, KeyOf;
    assert (requests + [e])[|requests|] == e;
    if !e.accepted { RejectionTellsWindowEnd(requests + [e], |requests|, max, windowMs); }
  }

  /** The answer that a bucket gives: a full window rejects and tells when it ends. */
  method Decide(before: Bucket, nowMs: int, max: int, windowMs: int)
      returns (accepted: bool, retryAfterMs: int, bucket: Bucket)
    ensures bucket == Counted(before, nowMs, max, windowMs)
    ensures var o := Opened(before, nowMs, windowMs);
            accepted == (o.count < max) && retryAfterMs == if accepted then 0
              else Max(0, windowMs - (nowMs - o.windowStartMs))
  {
    bucket := before;
    if bucket.windowStartMs <= 0 || nowMs - bucket.windowStartMs >= windowMs {
      bucket := Bucket(nowMs, 0);
    }
    if bucket.count >= max {
      return false, Max(0, windowMs - (nowMs - bucket.windowStartMs)), bucket;
    }
    bucket := bucket.(count := bucket.count + 1);
    return true, 0, bucket;
  }

  class MessageServiceOperations {
    var maxRequestsPerWindow: int
    var windowMs: int
    var buckets: map<string, Bucket>
    var acceptedCounters: map<string, int>
    var rejectedCounters: map<string, int>
    var recentAudit: seq<Entry>
    ghost var audit: seq<Entry>
    ghost var since: nat

    /** The requests answered since the limit was last set. */
    ghost function Requests(): seq<Entry>
      requires since <= |audit|
      reads this
    {
      audit[since..]
    }

    ghost predicate Valid()
      reads this
    {
      && since <= |audit| && History(Requests(), maxRequestsPerWindow, windowMs)
      && BucketsOk(buckets, Requests(), maxRequestsPerWindow, windowMs)
      && CountersOk(acceptedCounters, audit, true) && CountersOk(rejectedCounters, audit, false)
      && recentAudit == Recent(audit)
    }

    constructor ()
      ensures Valid() && maxRequestsPerWindow == 600 && windowMs == 60000 && audit == []
    {
      maxRequestsPerWindow, windowMs, buckets := 600, 60000, map[];
      acceptedCounters, rejectedCounters, recentAudit := map[], map[], [];
      audit, since := [], 0;
    }

    /** A new limit starts with empty buckets; counters and audit go on. */
    method SetRateLimit(maxRequests: int, window: int)
      requires Valid()
      modifies this
      ensures Valid() && Requests() == [] && audit == old(audit)
      ensures maxRequestsPerWindow == Max(1, maxRequests) && windowMs == Max(1000, window)
    {
      hide CountersOk, Recent;
      maxRequestsPerWindow, windowMs := Max(1, maxRequests), Max(1000, window);
      buckets := map[];
      since := |audit|;
    }

    /** Answers one request and records it. */
    method Accept(clientId: string, operation: Operation, nowMs: int) returns (accepted: bool, retryAfterMs: int)
      requires Valid() && nowMs > 0 && (audit != [] ==> audit[|audit| - 1].atMs <= nowMs)
      modifies this
      ensures Valid() && maxRequestsPerWindow == old(maxRequestsPerWindow) && windowMs == old(windowMs)
              && since == old(since)
      ensures audit == old(audit) + [Entry(nowMs, Trimmed(clientId), operation, accepted, retryAfterMs)]
      ensures accepted ==> retryAfterMs == 0
      ensures !accepted ==> 0 < retryAfterMs <= windowMs
    {
      hide Trimmed, OperationKey, BucketAfter, CountersOk, History, BucketsOk, Incremented, Counted, Opened, Recent,
           BucketKey;
      var normalizedClientId := Trimmed(clientId);
      var key := BucketKey(normalizedClientId, operation);
      ghost var requests := Requests();
      BucketIs(buckets, requests, maxRequestsPerWindow, windowMs, key);
      var bucket := if key in buckets then buckets[key] else NO_BUCKET;
      accepted, retryAfterMs, bucket := Decide(bucket, nowMs, maxRequestsPerWindow, windowMs);
      if accepted {
        acceptedCounters := Incremented(acceptedCounters, operation);
      } else {
        rejectedCounters := Incremented(rejectedCounters, operation);
      }
      var entry := Entry(nowMs, normalizedClientId, operation, accepted, retryAfterMs);
      CountedOnce(old(acceptedCounters), audit, true, entry);
      CountedOnce(old(rejectedCounters), audit, false, entry);
      BucketUpdated(buckets, requests, maxRequestsPerWindow, windowMs, entry, bucket);
      HistoryGrows(requests, maxRequestsPerWindow, windowMs, entry);
      PromiseInRange(requests, entry, maxRequestsPerWindow, windowMs);
      buckets := buckets[key := bucket];
      recentAudit := AppendAudit(recentAudit, entry, audit);
      audit := audit + [entry];
      assert audit[since..] == requests + [entry];
    }
  }
}
