/** Delivery of one message to the members of a group: in one go, or in batches driven by a timer. */
module FanOut {
  import opened Sql

  datatype Payload = Payload(targetId: string, body: string)

  datatype Disposition = Written | Queued | Failed

  datatype Result = Result(attemptedCount: nat, writtenCount: nat, queuedCount: nat, failedCount: nat,
                           deliveredCount: nat)

  const NOTHING := Result(0, 0, 0, 0, 0)

  /** The payloads from `begin` up to `end` that are written; `sent(i)` is what the sender makes of payload i. */
  function WrittenIn(payloads: seq<Payload>, sent: nat -> Disposition, begin: nat, end: nat): seq<Payload>
    requires begin <= end <= |payloads|
    decreases end
  {
    if begin == end then []
    else WrittenIn(payloads, sent, begin, end - 1) + if sent(end - 1).Written? then [payloads[end - 1]] else []
  }

  function CountIn(sent: nat -> Disposition, d: Disposition, begin: nat, end: nat): nat
    requires begin <= end
    decreases end
  {
    if begin == end then 0 else CountIn(sent, d, begin, end - 1) + if sent(end - 1) == d then 1 else 0
  }

  /** The counts of one batch are those of its dispositions, and attempted = written + queued + failed. */
  ghost predicate Tallies(r: Result, sent: nat -> Disposition, begin: nat, end: nat)
    requires begin <= end
  {
    && r.attemptedCount == end - begin
    && r.writtenCount == r.deliveredCount == CountIn(sent, Written, begin, end)
    && r.queuedCount == CountIn(sent, Queued, begin, end)
    && r.failedCount == CountIn(sent, Failed, begin, end)
    && r.attemptedCount == r.writtenCount + r.queuedCount + r.failedCount
  }

  lemma {:induction false} WrittenInJoins(payloads: seq<Payload>, sent: nat -> Disposition, begin: nat, mid: nat,
                                          end: nat)
    requires begin <= mid <= end <= |payloads|
    ensures WrittenIn(payloads, sent, begin, mid) + WrittenIn(payloads, sent, mid, end)
            == WrittenIn(payloads, sent, begin, end)
    decreases end
  {
    if mid < end { WrittenInJoins(payloads, sent, begin, mid, end - 1); }
  }

  /** A single payload is among the written ones exactly if the sender says so. */
  lemma WrittenInOne(payloads: seq<Payload>, sent: nat -> Disposition, i: nat)
    requires i < |payloads|
    ensures WrittenIn(payloads, sent, i, i) == []
    ensures WrittenIn(payloads, sent, i, i + 1) == if sent(i) == Written then [payloads[i]] else []
  {
  }

  ghost function Those(sent: nat -> Disposition, d: Disposition, begin: nat, end: nat): set<nat> {
    set i: nat | begin <= i < end && sent(i) == d
  }

  lemma OneMore(sent: nat -> Disposition, d: Disposition, begin: nat, end: nat)
    requires begin < end
    ensures |Those(sent, d, begin, end)| == |Those(sent, d, begin, end - 1)| + if sent(end - 1) == d then 1 else 0
  {
    ThoseBefore(sent, d, begin, end);
    hide Those;
    var before, all := Those(sent, d, begin, end - 1), Those(sent, d, begin, end);
    var last := if sent(end - 1) == d then {end - 1} else {};
    SameMembers(all, before + last);
  }

  lemma SameMembers(a: set<nat>, b: set<nat>)
    requires forall i :: i in a <==> i in b
    ensures a == b
  {
  }

  lemma ThoseBefore(sent: nat -> Disposition, d: Disposition, begin: nat, end: nat)
    requires begin < end
    ensures forall i: nat :: i in Those(sent, d, begin, end) <==>
              i in Those(sent, d, begin, end - 1) || (i == end - 1 && sent(end - 1) == d)
    ensures end - 1 !in Those(sent, d, begin, end - 1)
  {
  }

  lemma {:induction false} CountIsCount(sent: nat -> Disposition, d: Disposition, begin: nat, end: nat)
    requires begin <= end
    ensures CountIn(sent, d, begin, end) == |Those(sent, d, begin, end)|
    decreases end
  {
    hide Those;
    if begin < end {
      CountIsCount(sent, d, begin, end - 1);
      OneMore(sent, d, begin, end);
    } else {
      NoneThere(sent, d, begin);
    }
  }

  lemma NoneThere(sent: nat -> Disposition, d: Disposition, begin: nat)
    ensures Those(sent, d, begin, begin) == {}
  {
  }

  /** How far the attempts have come after some whole batches. */
  function Reached(batches: nat, batchSize: nat, count: nat): (n: nat)
    ensures n <= count
  {
    if batches == 0 then 0 else Min(Reached(batches - 1, batchSize, count) + batchSize, count)
  }

  lemma {:induction false} ReachedIsWholeBatches(batches: nat, batchSize: nat, count: nat)
    ensures Reached(batches, batchSize, count) == Min(batches * batchSize, count)
  {
    if batches == 0 {
    } else {
      ReachedIsWholeBatches(batches - 1, batchSize, count);
      assert batches * batchSize == (batches - 1) * batchSize + batchSize;
    }
  }

  lemma ReachedNext(batches: nat, batchSize: nat, count: nat)
    ensures Reached(0, batchSize, count) == 0
    ensures Reached(batches + 1, batchSize, count) == Min(Reached(batches, batchSize, count) + batchSize, count)
  {
  }

  lemma {:induction false} ReachedStays(batches: nat, later: nat, batchSize: nat, count: nat)
    requires batches <= later
    ensures Reached(batches, batchSize, count) == count ==> Reached(later, batchSize, count) == count
  {
    if batches < later { ReachedStays(batches, later - 1, batchSize, count); }
  }

  class GroupFanOut {
    const payloads: seq<Payload>
    const batchSize: nat
    const sent: nat -> Disposition
    var attempts: seq<Payload>
    var delivered: seq<Payload>
    var timer: Option<nat> // the offset of the next batch, while one is scheduled
    ghost var batches: nat

    /** A whole number of batches has been attempted, in order; the callback has been called for the written ones. */
    ghost predicate Valid()
      reads this
    {
      && batchSize >= 1 && attempts <= payloads
      && delivered == WrittenIn(payloads, sent, 0, |attempts|)
      && (timer.Some? ==> timer.value == |attempts| < |payloads|)
      && (attempts == payloads || |attempts| == Reached(batches, batchSize, |payloads|))
    }

    /** deliverStatusRange. */
    method DeliverRange(begin: nat, end: nat) returns (result: Result)
      requires begin <= end <= |payloads|
      modifies this`attempts, this`delivered
      ensures attempts == old(attempts) + payloads[begin..end]
      ensures delivered == old(delivered) + WrittenIn(payloads, sent, begin, end)
      ensures Tallies(result, sent, begin, end)
      ensures result.attemptedCount == end - begin
              && result.writtenCount == |set i: nat | begin <= i < end && sent(i) == Written|
              && result.queuedCount == |set i: nat | begin <= i < end && sent(i) == Queued|
              && result.failedCount == |set i: nat | begin <= i < end && sent(i) == Failed|
              && result.deliveredCount == result.writtenCount
              && result.attemptedCount == result.writtenCount + result.queuedCount + result.failedCount
    {
      forall d: Disposition
        ensures CountIn(sent, d, begin, end) == |Those(sent, d, begin, end)| {
        CountIsCount(sent, d, begin, end);
      }
      result := NOTHING;
      for i := begin to end
        invariant attempts == old(attempts) + payloads[begin..i]
        invariant delivered == old(delivered) + WrittenIn(payloads, sent, begin, i)
        invariant Tallies(result, sent, begin, i)
      {
        result := result.(attemptedCount := result.attemptedCount + 1);
        attempts := attempts + [payloads[i]];
        match sent(i)
        case Written =>
          result := result.(writtenCount := result.writtenCount + 1, deliveredCount := result.deliveredCount + 1);
          delivered := delivered + [payloads[i]];
        case Queued =>
          result := result.(queuedCount := result.queuedCount + 1);
        case Failed =>
          result := result.(failedCount := result.failedCount + 1);
      }
    }

    /** One batch from where the attempts end; afterwards the timer is set for the next one, if there is one. */
    method SendBatch() returns (result: Result)
      requires Valid() && |attempts| < |payloads|
      modifies this
      ensures Valid()
      ensures attempts == payloads[..Min(|old(attempts)| + batchSize, |payloads|)]
      ensures timer.Some? <==> |attempts| < |payloads|
      ensures batches == old(batches) + 1
      ensures Tallies(result, sent, |old(attempts)|, |attempts|)
    {
      hide Tallies;
      var offset := |attempts|;
      var end := Min(offset + batchSize, |payloads|);
      result := DeliverRange(offset, end);
      WrittenInJoins(payloads, sent, 0, offset, end);
      assert attempts == payloads[..end];
      batches := batches + 1;
      timer := if end < |payloads| then Some(end) else None;
    }

    constructor (payloads: seq<Payload>, batchSize: int, sent: nat -> Disposition)
      ensures Valid() && this.payloads == payloads && this.batchSize == Max(1, batchSize) && this.sent == sent
      ensures attempts == [] && timer == None && batches == 0
    {
      this.payloads, this.batchSize, this.sent := payloads, Max(1, batchSize), sent;
      attempts, delivered, timer, batches := [], [], None, 0;
    }

    /** deliverGroupFanOutPayloadsWithStatus: everything at once without a context or for a small group, else the
      * first batch. */
    method Deliver(hasContext: bool) returns (result: Result)
      requires Valid() && attempts == [] && timer == None && batches == 0
      modifies this
      ensures Valid()
      ensures attempts == payloads || batches == 1
      ensures attempts == if hasContext then payloads[..Min(batchSize, |payloads|)] else payloads
      ensures timer.Some? <==> |attempts| < |payloads|
      ensures Tallies(result, sent, 0, |attempts|)
    {
      hide Tallies;
      if payloads == [] || !hasContext || |payloads| <= batchSize {
        result := DeliverRange(0, |payloads|);
        assert payloads[0..|payloads|] == payloads;
        return;
      }
      result := SendBatch();
    }

    /** The timer fires: nothing more happens once the context is gone. */
    method TimerFires(contextAlive: bool)
      requires Valid() && timer.Some?
      modifies this
      ensures Valid()
      ensures attempts == if contextAlive then payloads[..Min(|old(attempts)| + batchSize, |payloads|)]
              else old(attempts)
      ensures timer.Some? <==> contextAlive && |attempts| < |payloads|
      ensures batches == old(batches) + if contextAlive then 1 else 0
    {
      hide Tallies, WrittenIn, Reached;
      timer := None;
      if contextAlive {
        var result := SendBatch();
      }
    }

    /**
     * A whole delivery with a context that lives for `lives` further batches. What is attempted is a prefix of
     * whole batches, and, when the context lives long enough, what a delivery in one go attempts and delivers.
     */
    method Run(lives: nat)
      requires Valid() && attempts == [] && timer == None && batches == 0
      modifies this
      ensures Valid() && timer == None
      ensures attempts == payloads[..Reached(lives + 1, batchSize, |payloads|)]
      ensures Reached(lives + 1, batchSize, |payloads|) == |payloads| ==>
                attempts == payloads && delivered == WrittenIn(payloads, sent, 0, |payloads|)
    {
      hide Reached, Tallies, WrittenIn;
      var first := Deliver(true);
      var fired := 0;
      ReachedNext(0, batchSize, |payloads|);
      while timer.Some? && fired < lives
        invariant Valid() && fired <= lives
        invariant |attempts| == Reached(fired + 1, batchSize, |payloads|)
        invariant timer.Some? <==> |attempts| < |payloads|
      {
        ReachedNext(fired + 1, batchSize, |payloads|);
        TimerFires(true);
        fired := fired + 1;
      }
      if timer.Some? {
        TimerFires(false);
      }
      ReachedStays(fired + 1, lives + 1, batchSize, |payloads|);
    }
  }
}
