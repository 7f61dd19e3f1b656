/** Retrying a store: one message, a stable identity, and the union of everybody ever addressed. */
module Retries {
  import opened Text
  import opened Sql
  import opened MessageTables
  import opened MessageRuns

  predicate IsRetryOf(op: Op, m: StoredMessage) {
    op.Store? && Trimmed(op.req.senderId) == m.senderId && Trimmed(op.req.clientMessageId) == m.clientMessageId
  }

  /** Every store under the message's key repeats its immutable content and is well formed. */
  predicate FaithfulRetries(ops: seq<Op>, m: StoredMessage) {
    forall i :: 0 <= i < |ops| ==> FaithfulRetry(ops[i], m)
  }

  predicate FaithfulRetry(op: Op, m: StoredMessage) {
    IsRetryOf(op, m) ==> WellFormed(op.req) && SameImmutable(m, op.req)
  }

  /** Whom one call addresses as a retry of the message. */
  function AddressedBy(op: Op, m: StoredMessage): set<string> {
    if IsRetryOf(op, m) then set r | r in Recipients(op.req.recipientIds, m.senderId) else {}
  }

  /** Whom the retries among the calls address. */
  function Addressed(ops: seq<Op>, m: StoredMessage): set<string> {
    if ops == [] then {} else Addressed(ops[..|ops| - 1], m) + AddressedBy(ops[|ops| - 1], m)
  }

  /** How many of the retries address somebody new, given those who already have a row. */
  function Expansions(ops: seq<Op>, m: StoredMessage, known: set<string>): nat {
    if ops == [] then 0
    else
      var front, last := ops[..|ops| - 1], ops[|ops| - 1];
      Expansions(front, m, known) + if AddressedBy(last, m) <= known + Addressed(front, m) then 0 else 1
  }

  /** Who has a delivery row for the message. */
  function RowsOf(t: Tables, m: StoredMessage): (r: set<string>)
    ensures forall x :: x in r <==> (m.serverMessageId, x) in t.deliveries
  {
    var r := set k | k in t.deliveries && k.0 == m.serverMessageId :: k.1;
    assert forall x :: (m.serverMessageId, x) in t.deliveries ==> (m.serverMessageId, x).1 in r;
    r
  }

  /** What one call does to a stored message: its row stays, its recipients grow by those of a retry, and it is
    * announced only when they do. */
  lemma OneCall(t: Tables, op: Op, m: StoredMessage)
    requires Inv(t) && ValidOp(op) && m in t.messages && FaithfulRetry(op, m)
    ensures m in Apply(t, op).messages
    ensures RowsOf(Apply(t, op), m) == RowsOf(t, m) + AddressedBy(op, m)
    ensures CreatedCount(Apply(t, op).events, m.serverMessageId) == CreatedCount(t.events, m.serverMessageId) +
              (if IsRetryOf(op, m) && !(AddressedBy(op, m) <= RowsOf(t, m)) then 1 else 0)
  {
    hide Inv, Trimmed;
    RowsAfter(t, op, m);
    CreatedAfter(t, op, m);
    ApplyAdvances(t, op);
  }

  /** A store under this key finds this message. */
  lemma RetryFinds(t: Tables, op: Op, m: StoredMessage)
    requires Inv(t) && op.Store? && m in t.messages && StoreAccepts(t, op.req, op.newId)
    ensures IsRetryOf(op, m) <==> Duplicate(t, op.req) == Some(m)
    ensures Duplicate(t, op.req).Some? ==> Duplicate(t, op.req).value in t.messages
    ensures !IsRetryOf(op, m) && Duplicate(t, op.req).Some?
            ==> Duplicate(t, op.req).value.serverMessageId != m.serverMessageId
    ensures Duplicate(t, op.req).None? ==> op.newId != m.serverMessageId
  {
    hide Trimmed, WellFormed, Clean;
    FindByKeyFinds(t.messages, Trimmed(op.req.senderId), Trimmed(op.req.clientMessageId));
    FindByIdFinds(t.messages, op.newId);
    var i :| 0 <= i < |t.messages| && t.messages[i] == m;
    match Duplicate(t, op.req)
    case Some(d) =>
      var j :| 0 <= j < |t.messages| && t.messages[j] == d;
      assert i != j ==> m.serverMessageId != d.serverMessageId;
    case None =>
  }

  lemma RowsAfter(t: Tables, op: Op, m: StoredMessage)
    requires Inv(t) && m in t.messages && FaithfulRetry(op, m)
    ensures RowsOf(Apply(t, op), m) == RowsOf(t, m) + AddressedBy(op, m)
  {
    hide Inv, Trimmed, Recipients, FindById, FindByKey, AddMembers, AddDeliveries, UpsertMember, MaxSeq, AddsRecipient,
         UpsertCursor, Duplicate;
    if op.Store? && StoreAccepts(t, op.req, op.newId) {
      RetryFinds(t, op, m);
      RowsAfterStore(t, op, m);
    } else if op.Store? && IsRetryOf(op, m) {
      RetryIsAccepted(t, op, m);
    }
  }

  lemma RetryIsAccepted(t: Tables, op: Op, m: StoredMessage)
    requires op.Store? && m in t.messages && IsRetryOf(op, m) && WellFormed(op.req)
    ensures StoreAccepts(t, op.req, op.newId)
  {
    hide Trimmed, WellFormed;
    FindByKeyFinds(t.messages, Trimmed(op.req.senderId), Trimmed(op.req.clientMessageId));
  }

  lemma RowsAfterStore(t: Tables, op: Op, m: StoredMessage)
    requires op.Store? && StoreAccepts(t, op.req, op.newId) && m in t.messages && FaithfulRetry(op, m)
    requires IsRetryOf(op, m) <==> Duplicate(t, op.req) == Some(m)
    requires !IsRetryOf(op, m) && Duplicate(t, op.req).Some?
             ==> Duplicate(t, op.req).value.serverMessageId != m.serverMessageId
    requires Duplicate(t, op.req).None? ==> op.newId != m.serverMessageId
    ensures RowsOf(Apply(t, op), m) == RowsOf(t, m) + AddressedBy(op, m)
  {
    hide Trimmed, Recipients, FindById, AddMembers, AddDeliveries, UpsertMember, MaxSeq, AddsRecipient, Duplicate,
         WellFormed;
  }

  lemma CreatedAfter(t: Tables, op: Op, m: StoredMessage)
    requires Inv(t) && ValidOp(op) && m in t.messages && FaithfulRetry(op, m)
    ensures CreatedCount(Apply(t, op).events, m.serverMessageId) == CreatedCount(t.events, m.serverMessageId) +
              (if IsRetryOf(op, m) && !(AddressedBy(op, m) <= RowsOf(t, m)) then 1 else 0)
  {
    hide Inv, Trimmed, Recipients, FindById, FindByKey, MaxSeq, Duplicate, WellFormed, Apply;
    ApplyLogs(t, op);
    var news := NewEvents(t, op);
    if news == [] { assert t.events + news == t.events; }
       else { AppendedEvent(t.events, news[0]); assert news == [news[0]]; }
    if op.Store? {
      if StoreAccepts(t, op.req, op.newId) { RetryFinds(t, op, m); }
      if IsRetryOf(op, m) {
        RetryIsAccepted(t, op, m);
        AddsSomebody(t, op, m);
      }
    }
  }

  lemma AddsSomebody(t: Tables, op: Op, m: StoredMessage)
    requires IsRetryOf(op, m)
    ensures AddsRecipient(t, m.serverMessageId, Recipients(op.req.recipientIds, m.senderId))
            <==> !(AddressedBy(op, m) <= RowsOf(t, m))
  {
    hide Trimmed, Recipients;
  }

  /**
   * Over any run in which the stores under the message's key repeat its content: the row never
   * changes, the delivery rows are those before plus everybody the retries addressed, in whatever
   * order, and the created events grow by one for each retry that added somebody.
   */
  lemma {:induction false} RetriesConverge(t: Tables, ops: seq<Op>, m: StoredMessage)
    requires Inv(t) && ValidOps(ops) && m in t.messages && FaithfulRetries(ops, m)
    ensures m in Run(t, ops).messages
    ensures RowsOf(Run(t, ops), m) == RowsOf(t, m) + Addressed(ops, m)
    ensures CreatedCount(Run(t, ops).events, m.serverMessageId)
            == CreatedCount(t.events, m.serverMessageId) + Expansions(ops, m, RowsOf(t, m))
  {
    hide Inv, Apply, Trimmed, Recipients, CreatedCount;
    if ops == [] {
    } else {
      var front, last := ops[..|ops| - 1], ops[|ops| - 1];
      assert ops == front + [last];
      RetriesConverge(t, front, m);
      RunKeepsInv(t, front);
      OneCall(Run(t, front), last, m);
    }
  }

  /** The first store of a message creates one row, one created event and exactly its own recipients. */
  lemma FirstStore(t: Tables, op: Op)
    requires Inv(t) && op.Store? && StoreAccepts(t, op.req, op.newId) && Duplicate(t, op.req).None?
    ensures var m, t' := NewMessage(t, op.req, op.newId, op.nowMs), Apply(t, op);
            && t'.messages == t.messages + [m] && IsRetryOf(op, m) && SameImmutable(m, op.req)
            && RowsOf(t', m) == AddressedBy(op, m)
            && CreatedCount(t'.events, m.serverMessageId) == CreatedCount(t.events, m.serverMessageId) + 1
  {
    hide Inv, Trimmed, Recipients, FindById, FindByKey, AddMembers, AddDeliveries, UpsertMember, MaxSeq, WellFormed;
    var m, t' := NewMessage(t, op.req, op.newId, op.nowMs), Apply(t, op);
    ApplyLogs(t, op);
    AppendedEvent(t.events, NewEvents(t, op)[0]);
    assert forall r :: (op.newId, r) !in t.deliveries by { NoRowsYet(t, op.newId); }
  }

  lemma NoRowsYet(t: Tables, id: string)
    requires Inv(t) && FindById(t.messages, id).None?
    ensures forall r :: (id, r) !in t.deliveries
  {
    hide Clean;
    assert forall r :: (id, r) in t.deliveries ==> DeliveryOk(t.messages, t.members, (id, r));
  }

  /**
   * Idempotent retry, from the first store on: however the later retries are ordered and whatever
   * else happens between them, the message keeps its server id and sequence number, its recipients
   * are the union of all calls, and it has been announced once for the first store and once for
   * every retry that added somebody.
   */
  lemma RetryIdempotence(t: Tables, first: Op, rest: seq<Op>)
    requires Inv(t) && first.Store? && StoreAccepts(t, first.req, first.newId) && Duplicate(t, first.req).None?
    requires ValidOps(rest) && FaithfulRetries(rest, NewMessage(t, first.req, first.newId, first.nowMs))
    ensures var m, end := NewMessage(t, first.req, first.newId, first.nowMs), Run(Apply(t, first), rest);
            && Duplicate(end, first.req) == Some(m)
            && RowsOf(end, m) == Addressed([first] + rest, m)
            && CreatedCount(end.events, m.serverMessageId)
               == CreatedCount(t.events, m.serverMessageId) + 1 + Expansions(rest, m, AddressedBy(first, m))
  {
    hide Inv, Apply, Run, Trimmed, Recipients, CreatedCount, Expansions, StoreAccepts, NewMessage, FindByKey,
         FaithfulRetries;
    var m, t1 := NewMessage(t, first.req, first.newId, first.nowMs), Apply(t, first);
    FirstStore(t, first);
    ApplyKeepsInv(t, first);
    RetriesConverge(t1, rest, m);
    RunKeepsInv(t1, rest);
    FoundAgain(Run(t1, rest), first, m);
    AddressedJoins(first, rest, m);
  }

  lemma FoundAgain(t: Tables, op: Op, m: StoredMessage)
    requires Inv(t) && op.Store? && m in t.messages && IsRetryOf(op, m)
    ensures Duplicate(t, op.req) == Some(m)
  {
    hide Trimmed, Clean;
    FindByKeyFinds(t.messages, m.senderId, m.clientMessageId);
    var d := Duplicate(t, op.req).value;
    var i :| 0 <= i < |t.messages| && t.messages[i] == m;
    var j :| 0 <= j < |t.messages| && t.messages[j] == d;
    assert i == j;
  }

  lemma {:induction false} AddressedJoins(first: Op, rest: seq<Op>, m: StoredMessage)
    ensures Addressed([first] + rest, m) == AddressedBy(first, m) + Addressed(rest, m)
  {
    hide AddressedBy;
    var ops := [first] + rest;
    if rest != [] {
      AddressedJoins(first, rest[..|rest| - 1], m);
      assert ops[..|ops| - 1] == [first] + rest[..|rest| - 1];
    } else {
      assert ops == [first] && ops[..0] == [];
    }
  }
}
