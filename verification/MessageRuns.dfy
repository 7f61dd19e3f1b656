/** What holds over whole runs of the message service: any interleaving of stores, retries, acknowledgements and
  * session events. */
module MessageRuns {
  import opened Text
  import opened Sql
  import opened MessageTables
  import opened MessageInvariant

  function Run(t: Tables, ops: seq<Op>): Tables {
    if ops == [] then t else Apply(Run(t, ops[..|ops| - 1]), ops[|ops| - 1])
  }

  predicate ValidOps(ops: seq<Op>) {
    forall i :: 0 <= i < |ops| ==> ValidOp(ops[i])
  }

  lemma ApplyKeepsInv(t: Tables, op: Op)
    requires Inv(t) && ValidOp(op)
    ensures Inv(Apply(t, op))
  {
    hide Inv;
    match op
    case Store(req, newId, nowMs) => if StoreAccepts(t, req, newId) { StoreKeepsInv(t, req, newId, nowMs); }
    case AckDelivered(id, r, n, nowMs) => if AckAccepts(t, id, r) { DeliveredKeepsInv(t, id, r, n, nowMs); }
    case AckRead(id, r, n, nowMs) => if AckAccepts(t, id, r) { ReadKeepsInv(t, id, r, n, nowMs); }
    case SessionEvent(w, payload, nowMs, outcome) => SessionEventKeepsInv(t, w, payload, nowMs, outcome);
    case RolledBack =>
  }

  /** The invariant of the tables holds after every run from the empty database. */
  lemma {:induction false} RunKeepsInv(t: Tables, ops: seq<Op>)
    requires Inv(t) && ValidOps(ops)
    ensures Inv(Run(t, ops))
  {
    hide Inv;
    if ops == [] {
    } else {
      RunKeepsInv(t, ops[..|ops| - 1]);
      ApplyKeepsInv(Run(t, ops[..|ops| - 1]), ops[|ops| - 1]);
    }
  }

  /**
   * The store after any run: the sequence numbers of a conversation are 1..n and n is the largest, no two messages
   * share a server id or a key of sender and client id, a delivery belongs to a member who is not the sender, and a
   * member has the role `sender` exactly when a message of theirs is stored in the conversation.
   */
  lemma StoreOfEveryRun(ops: seq<Op>, c: string)
    requires ValidOps(ops)
    ensures var t := Run(EMPTY, ops);
            && Numbered(InConversation(t.messages, c)) && MaxSeq(t.messages, c) == |InConversation(t.messages, c)|
            && DistinctKeys(t.messages)
            && (forall key :: key in t.deliveries ==> DeliveryOk(t.messages, t.members, key))
            && (forall key ::
                 key in t.members ==> (t.members[key].role == SenderRole <==> Sent(t.messages, key.0, key.1)))
  {
    hide CleanMessages, LogOrdered, AcksOk, CursorsOk, DistinctKeys, DeliveryOk, Sent, MaxSeq;
    EmptyOk();
    RunKeepsInv(EMPTY, ops);
    MaxSeqIsLength(Run(EMPTY, ops).messages, c);
  }

  /**
   * Acknowledgements after any run: there is one read event exactly when the row is read, at most one delivered
   * event, none after the read event and none while pending, and the timestamps agree with the state.
   */
  lemma AcksOfEveryRun(ops: seq<Op>, id: string, r: string)
    requires ValidOps(ops)
    ensures var t := Run(EMPTY, ops); var state := StateOf(t.deliveries, id, r);
            && ReadCount(t.events, id, r) <= 1 && (ReadCount(t.events, id, r) == 1 <==> state == Read)
            && DeliveredCount(t.events, id, r) <= 1 && (state == Pending ==> DeliveredCount(t.events, id, r) == 0)
            && (state == Delivered ==> DeliveredCount(t.events, id, r) == 1)
            && (forall i, j ::
                 0 <= i < j < |t.events| ==> !(IsRead(t.events[i], id, r) && IsDelivered(t.events[j], id, r)))
            && ((id, r) in t.deliveries ==> RowAgrees(t.deliveries[(id, r)]))
  {
    hide Sequenced, DistinctKeys, CleanMessages, DeliveriesOk, RolesOk, LogOrdered, CursorsOk;
    EmptyOk();
    RunKeepsInv(EMPTY, ops);
    assert AckLogOk(Run(EMPTY, ops).events, id, r, StateOf(Run(EMPTY, ops).deliveries, id, r));
  }

  // ------------------------------------------------------ nothing is taken back

  function Rank(s: DeliveryState): int {
    match s case Pending => 0 case Delivered => 1 case Read => 2
  }

  predicate DeliveriesAdvance(d: map<(string, string), Delivery>, d': map<(string, string), Delivery>) {
    forall k :: k in d ==>
      k in d' && Rank(d[k].state) <= Rank(d'[k].state)
        && (d[k].deliveredAtMs != 0 ==> d'[k].deliveredAtMs == d[k].deliveredAtMs)
  }

  predicate CursorsAdvance(c: map<(string, string), Cursor>, c': map<(string, string), Cursor>) {
    forall k :: k in c ==>
      k in c' && c[k].lastReceivedSeq <= c'[k].lastReceivedSeq && c[k].lastReadSeq <= c'[k].lastReadSeq
  }

  predicate MembersAdvance(m: map<(string, string), Member>, m': map<(string, string), Member>) {
    forall k :: k in m ==>
      k in m' && m'[k].joinedAtMs == m[k].joinedAtMs && (m[k].role == SenderRole ==> m'[k].role == SenderRole)
  }

  /** Messages and events are only appended, members stay, states and cursors never go back, a delivery time is set
    * once. */
  ghost predicate Advances(t: Tables, t': Tables) {
    && t.messages <= t'.messages && t.events <= t'.events && t.lastEventId <= t'.lastEventId
    && DeliveriesAdvance(t.deliveries, t'.deliveries)
    && CursorsAdvance(t.cursors, t'.cursors)
    && MembersAdvance(t.members, t'.members)
  }

  lemma JoiningAdvances(members: map<(string, string), Member>, c: string, sender: string, rs: seq<string>,
                        senderMs: int, nowMs: int)
    ensures MembersAdvance(members, AddMembers(members, c, rs, nowMs))
    ensures MembersAdvance(members, AddMembers(UpsertMember(members, c, sender, SenderRole, senderMs), c, rs, nowMs))
  {
    hide AddMembers;
  }

  lemma NewRowsAdvance(deliveries: map<(string, string), Delivery>, id: string, rs: seq<string>)
    ensures DeliveriesAdvance(deliveries, AddDeliveries(deliveries, id, rs))
  {
    hide AddDeliveries;
  }

  lemma StoreAdvances(t: Tables, req: StoreRequest, newId: string, nowMs: int)
    ensures Advances(t, StoreCommitted(t, req, newId, nowMs))
  {
    hide Trimmed, Recipients, AddMembers, AddDeliveries, UpsertMember, FindByKey, MaxSeq, AddsRecipient, SameImmutable,
         MembersAdvance, DeliveriesAdvance;
    var rs := Recipients(req.recipientIds, Trimmed(req.senderId));
    var m := match Duplicate(t, req) case Some(m) => m case None => NewMessage(t, req, newId, nowMs);
    JoiningAdvances(t.members, m.conversationId, m.senderId, rs, m.createdAtMs, nowMs);
    JoiningAdvances(t.members, m.conversationId, m.senderId, rs, m.createdAtMs, m.createdAtMs);
    NewRowsAdvance(t.deliveries, m.serverMessageId, rs);
    assert MembersAdvance(t.members, t.members) && DeliveriesAdvance(t.deliveries, t.deliveries) by { Unchanged(t); }
  }

  lemma Unchanged(t: Tables)
    ensures MembersAdvance(t.members, t.members) && DeliveriesAdvance(t.deliveries, t.deliveries)
  {
  }

  lemma RowAdvances(deliveries: map<(string, string), Delivery>, key: (string, string), nowMs: int)
    requires key in deliveries
    ensures DeliveriesAdvance(deliveries, deliveries[key := DeliveredRow(deliveries[key], nowMs)])
    ensures DeliveriesAdvance(deliveries, deliveries[key := ReadRow(deliveries[key], nowMs)])
  {
  }

  lemma CursorAdvances(cursors: map<(string, string), Cursor>, key: (string, string), received: int, read: int,
                       nowMs: int)
    ensures CursorsAdvance(cursors, UpsertCursor(cursors, key, received, read, nowMs))
  {
  }

  lemma AckAdvances(t: Tables, id: string, r: string, n: int, nowMs: int)
    requires AckAccepts(t, id, r)
    ensures Advances(t, DeliveredCommitted(t, id, r, n, nowMs))
    ensures Advances(t, ReadCommitted(t, id, r, n, nowMs))
  {
    hide FindById, CursorsAdvance, DeliveriesAdvance, UpsertCursor, DeliveredRow, ReadRow;
    var key := (FindById(t.messages, id).value.conversationId, r);
    RowAdvances(t.deliveries, (id, r), nowMs);
    CursorAdvances(t.cursors, key, n, 0, nowMs);
    CursorAdvances(t.cursors, key, n, n, nowMs);
  }

  lemma ApplyAdvances(t: Tables, op: Op)
    ensures Advances(t, Apply(t, op))
  {
    hide StoreCommitted, DeliveredCommitted, ReadCommitted;
    match op
    case Store(req, newId, nowMs) => StoreAdvances(t, req, newId, nowMs);
    case AckDelivered(id, r, n, nowMs) => if AckAccepts(t, id, r) { AckAdvances(t, id, r, n, nowMs); }
    case AckRead(id, r, n, nowMs) => if AckAccepts(t, id, r) { AckAdvances(t, id, r, n, nowMs); }
    case SessionEvent(w, payload, nowMs, outcome) =>
    case RolledBack =>
  }

  /** Along every run: no message, event or member is lost, and no acknowledgement or cursor goes back. */
  lemma {:induction false} RunAdvances(t: Tables, ops: seq<Op>)
    requires Inv(t) && ValidOps(ops)
    ensures Advances(t, Run(t, ops))
  {
    hide Inv, Apply;
    if ops == [] {
    } else {
      RunAdvances(t, ops[..|ops| - 1]);
      RunKeepsInv(t, ops[..|ops| - 1]);
      ApplyAdvances(Run(t, ops[..|ops| - 1]), ops[|ops| - 1]);
    }
  }

  /** A row read before any delivered event was written never gets one. */
  lemma {:induction false} ReadSuppressesDelivered(t: Tables, ops: seq<Op>, id: string, r: string)
    requires Inv(t) && ValidOps(ops)
    requires StateOf(t.deliveries, id, r) == Read && DeliveredCount(t.events, id, r) == 0
    ensures StateOf(Run(t, ops).deliveries, id, r) == Read && DeliveredCount(Run(t, ops).events, id, r) == 0
  {
    if ops == [] {
    } else {
      var before, op := Run(t, ops[..|ops| - 1]), ops[|ops| - 1];
      ReadSuppressesDelivered(t, ops[..|ops| - 1], id, r);
      RunKeepsInv(t, ops[..|ops| - 1]);
      OneStepSuppresses(before, op, id, r);
    }
  }

  lemma OneStepSuppresses(t: Tables, op: Op, id: string, r: string)
    requires Inv(t) && ValidOp(op)
    requires StateOf(t.deliveries, id, r) == Read && DeliveredCount(t.events, id, r) == 0
    ensures StateOf(Apply(t, op).deliveries, id, r) == Read && DeliveredCount(Apply(t, op).events, id, r) == 0
  {
    hide Apply, FindById, Duplicate;
    ApplyAdvances(t, op);
    ApplyLogs(t, op);
    assert RowAgrees(t.deliveries[(id, r)]);
    var news := NewEvents(t, op);
    if news != [] {
      AppendedEvent(t.events, news[0]);
    } else {
      assert t.events + news == t.events;
    }
  }

  /** Delivered events are never taken out of the log. */
  lemma {:induction false} DeliveredCountGrows(events: seq<Event>, events': seq<Event>, id: string, r: string)
    requires events <= events'
    ensures DeliveredCount(events, id, r) <= DeliveredCount(events', id, r)
    decreases |events'|
  {
    if events == events' {
    } else {
      DeliveredCountGrows(events, events'[..|events'| - 1], id, r);
    }
  }

  /**
   * When the delivered event is missing: after the first read acknowledgement of a row, whatever follows, the log
   * holds a delivered event if and only if the row had been acknowledged as delivered before.
   */
  lemma DeliveredEventAfterRead(t: Tables, ops: seq<Op>, id: string, r: string, n: int, nowMs: int)
    requires Inv(t) && AckAccepts(t, id, r) && nowMs > 0 && ValidOps(ops)
    requires StateOf(t.deliveries, id, r) != Read
    ensures DeliveredCount(Run(Apply(t, AckRead(id, r, n, nowMs)), ops).events, id, r)
            == if StateOf(t.deliveries, id, r) == Delivered then 1 else 0
  {
    hide Inv, Run, DeliveredCount, Apply, FindById, StateOf, AckAccepts;
    var op := AckRead(id, r, n, nowMs);
    var t1 := Apply(t, op);
    ApplyKeepsInv(t, op);
    RunKeepsInv(t1, ops);
    ReadMarksRow(t, id, r, n, nowMs);
    AckCounts(t, id, r);
    AckCounts(Run(t1, ops), id, r);
    if StateOf(t.deliveries, id, r) == Delivered {
      RunAdvances(t1, ops);
      DeliveredCountGrows(t1.events, Run(t1, ops).events, id, r);
    } else {
      ReadSuppressesDelivered(t1, ops, id, r);
    }
  }

  lemma AckCounts(t: Tables, id: string, r: string)
    requires Inv(t)
    ensures DeliveredCount(t.events, id, r) <= 1
    ensures StateOf(t.deliveries, id, r) == Delivered ==> DeliveredCount(t.events, id, r) == 1
    ensures StateOf(t.deliveries, id, r) == Pending ==> DeliveredCount(t.events, id, r) == 0
  {
    hide Sequenced, DistinctKeys, CleanMessages, DeliveriesOk, RolesOk, LogOrdered, CursorsOk, StateOf;
    assert AckLogOk(t.events, id, r, StateOf(t.deliveries, id, r));
  }

  /** A read acknowledgement makes the row read and writes no delivered event. */
  lemma ReadMarksRow(t: Tables, id: string, r: string, n: int, nowMs: int)
    requires AckAccepts(t, id, r) && StateOf(t.deliveries, id, r) != Read
    ensures var t1 := Apply(t, AckRead(id, r, n, nowMs));
            StateOf(t1.deliveries, id, r) == Read && DeliveredCount(t1.events, id, r) == DeliveredCount(t.events, id, r)
  {
    hide FindById, UpsertCursor;
    var op := AckRead(id, r, n, nowMs);
    ApplyLogs(t, op);
    var news := NewEvents(t, op);
    if news == [] {
      assert t.events + news == t.events;
    } else {
      assert news == [news[0]];
      AppendedEvent(t.events, news[0]);
    }
  }

  /**
   * Such a row does occur: whenever a first message is stored and one of its recipients reads it before
   * acknowledging its delivery, the log ends without a delivered event.
   */
  lemma ReadFirstHidesDelivered(req: StoreRequest, newId: string, r: string, nowMs: int)
    requires StoreAccepts(EMPTY, req, newId) && nowMs > 0 && r in Recipients(req.recipientIds, Trimmed(req.senderId))
    ensures var t := Run(EMPTY,
                         [Store(req, newId, nowMs), AckRead(newId, r, 1, nowMs), AckDelivered(newId, r, 1, nowMs)]);
            StateOf(t.deliveries, newId, r) == Read && DeliveredCount(t.events, newId, r) == 0
              && ReadCount(t.events, newId, r) == 1
  {
    hide Inv, Run, DeliveredCount, Apply, FindById, AckAccepts, Recipients, Trimmed, StoreAccepts, ReadCount;
    var store, read, late := Store(req, newId, nowMs), AckRead(newId, r, 1, nowMs), AckDelivered(newId, r, 1, nowMs);
    EmptyOk();
    var t1 := Apply(EMPTY, store);
    ApplyKeepsInv(EMPTY, store);
    StoredFirst(req, newId, r, nowMs);
    ReadMarksRow(t1, newId, r, 1, nowMs);
    DeliveredEventAfterRead(t1, [late], newId, r, 1, nowMs);
    Run3(EMPTY, store, read, late);
    var t3 := Run(EMPTY, [store, read, late]);
    ApplyKeepsInv(t1, read);
    RunAdvances(Apply(t1, read), [late]);
    AcksOfEveryRun([store, read, late], newId, r);
  }

  lemma Run3(t: Tables, a: Op, b: Op, c: Op)
    ensures Run(t, [a, b, c]) == Run(Apply(Apply(t, a), b), [c]) == Apply(Apply(Apply(t, a), b), c)
  {
    hide Apply;
    assert [a, b, c][..2] == [a, b] && [a, b][..1] == [a] && [a][..0] == [] && [c][..0] == [];
    assert Run(t, [a]) == Apply(t, a);
    assert Run(t, [a, b]) == Apply(Apply(t, a), b);
  }

  /** A first message has a pending row for every recipient. */
  lemma StoredFirst(req: StoreRequest, newId: string, r: string, nowMs: int)
    requires StoreAccepts(EMPTY, req, newId) && r in Recipients(req.recipientIds, Trimmed(req.senderId))
    ensures var t := Apply(EMPTY, Store(req, newId, nowMs));
           AckAccepts(t, newId, r) && StateOf(t.deliveries, newId, r) == Pending
  {
    hide Recipients, Trimmed, WellFormed, MaxSeq, AddMembers, UpsertMember;
    AppendedMessage([], NewMessage(EMPTY, req, newId, nowMs));
  }

  // ------------------------------------------------------ what a call writes to the log

  /** The events a call appends: none or one. */
  function NewEvents(t: Tables, op: Op): (news: seq<Event>)
    ensures |news| <= 1
  {
    var next := t.lastEventId + 1;
    match op
    case Store(req, newId, nowMs) =>
      (match Announced(t, op)
       case Some(m) => [Event(next, m.workspaceId, m.conversationId, CreatedPayload(m), nowMs)]
       case None => [])
    case AckDelivered(id, r, n, nowMs) =>
      if AckAccepts(t, id, r) && t.deliveries[(id, r)].deliveredAtMs <= 0 && t.deliveries[(id, r)].readAtMs <= 0 then
        var m := FindById(t.messages, id).value;
        [Event(next, m.workspaceId, m.conversationId, MessageDelivered(id, r, m.serverSeq, Max(0, n)), nowMs)]
      else []
    case AckRead(id, r, n, nowMs) =>
      if AckAccepts(t, id, r) && t.deliveries[(id, r)].readAtMs <= 0 then
        var m := FindById(t.messages, id).value;
        [Event(next, m.workspaceId, m.conversationId, MessageRead(id, r, m.serverSeq, Max(0, n)), nowMs)]
      else []
    case SessionEvent(w, payload, nowMs, outcome) =>
      (match outcome
       case Appended => [Event(next, w, Sessions(), payload, nowMs)]
       case LeftUnfilled => [Event(next, w, Sessions(), Unfilled, nowMs)]
       case _ => [])
    case RolledBack => []
  }

  /** The message a store announces: a new one, or a known one whose retry adds a recipient. */
  function Announced(t: Tables, op: Op): Option<StoredMessage>
    requires op.Store?
  {
    if !StoreAccepts(t, op.req, op.newId) then None
    else match Duplicate(t, op.req)
      case None => Some(NewMessage(t, op.req, op.newId, op.nowMs))
      case Some(m) =>
        if SameImmutable(m, op.req)
           && AddsRecipient(t, m.serverMessageId, Recipients(op.req.recipientIds, Trimmed(op.req.senderId)))
        then Some(m) else None
  }

  lemma ApplyLogs(t: Tables, op: Op)
    ensures Apply(t, op).events == t.events + NewEvents(t, op)
    ensures Apply(t, op).lastEventId >= t.lastEventId + |NewEvents(t, op)|
  {
    hide FindById, FindByKey, Trimmed, Recipients, AddMembers, AddDeliveries, AddsRecipient, MaxSeq, WellFormed,
         UpsertMember, UpsertCursor, Sessions;
    assert t.events + [] == t.events;
  }
}
