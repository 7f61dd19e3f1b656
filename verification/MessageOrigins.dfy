/** Where cursors, members and events come from: what holds for them after every run of the message service. */
module MessageOrigins {
  import opened Text
  import opened MessageTables
  import opened MessageInvariant
  import opened MessageRuns
  import opened MessageColumns

  // ------------------------------------------------------ cursors

  /** The call acknowledges, for client r, a message of conversation c that is addressed to r. */
  ghost predicate AcksIn(t: Tables, op: Op, c: string, r: string) {
    && (op.AckDelivered? || op.AckRead?) && op.recipientId == r
    && exists m :: Acks(t, op.id, r, m) && m.conversationId == c
  }

  function NumberOf(op: Op): int
    requires op.AckDelivered? || op.AckRead?
  {
    if op.AckDelivered? then op.receivedSeq else op.readSeq
  }

  /** The numbers that r has acknowledged in conversation c during a run from the empty database. */
  ghost function Numbers(ops: seq<Op>, c: string, r: string, readOnly: bool): set<int> {
    if ops == [] then {}
    else
      var front, last := ops[..|ops| - 1], ops[|ops| - 1];
      Numbers(front, c, r, readOnly)
        + if AcksIn(Run(EMPTY, front), last, c, r) && (last.AckRead? || !readOnly) then {NumberOf(last)} else {}
  }

  /** One call moves a cursor exactly if it acknowledges something in its conversation for its client. */
  lemma CallMovesCursor(t: Tables, op: Op, c: string, r: string)
    requires Inv(t)
    ensures var t' := Apply(t, op);
            if AcksIn(t, op, c, r)
            then CursorMoves(t.cursors, t'.cursors, (c, r), NumberOf(op), if op.AckRead? then op.readSeq
                             else 0, op.nowMs)
            else ((c, r) in t'.cursors <==> (c, r) in t.cursors)
                 && ((c, r) in t.cursors ==> t'.cursors[(c, r)] == t.cursors[(c, r)])
  {
    hide Sequenced, CleanMessages, DeliveriesOk, RolesOk, LogOrdered, AcksOk, CursorsOk, CursorMoves, Acks, AckAccepts,
         Trimmed, UpsertCursor;
    match op
    case Store(_, _, _) =>
    case AckDelivered(id, x, n, nowMs) => AckMovesCursor(t, op, c, r);
    case AckRead(id, x, n, nowMs) => AckMovesCursor(t, op, c, r);
    case SessionEvent(_, _, _, _) =>
    case RolledBack =>
  }

  lemma AckMovesCursor(t: Tables, op: Op, c: string, r: string)
    requires Inv(t) && (op.AckDelivered? || op.AckRead?)
    ensures var t' := Apply(t, op);
            if AcksIn(t, op, c, r)
            then CursorMoves(t.cursors, t'.cursors, (c, r), NumberOf(op), if op.AckRead? then op.readSeq
                             else 0, op.nowMs)
            else ((c, r) in t'.cursors <==> (c, r) in t.cursors)
                 && ((c, r) in t.cursors ==> t'.cursors[(c, r)] == t.cursors[(c, r)])
  {
    hide Inv, Apply, Acks;
    var x := op.recipientId;
    if m :| Acks(t, op.id, x, m) {
      OneMessage(t, op.id, x, m);
      if op.AckRead? {
        ReadAckWrites(t, op.id, x, op.readSeq, op.nowMs, m);
      } else {
        DeliveredAckWrites(t, op.id, x, op.receivedSeq, op.nowMs, m);
      }
    } else {
      KeysOfInv(t);
      UnknownAckWritesNothing(t, op.id, x, NumberOf(op), op.nowMs);
    }
  }

  lemma OneMessage(t: Tables, id: string, r: string, m: StoredMessage)
    requires Inv(t) && Acks(t, id, r, m)
    ensures forall d :: Acks(t, id, r, d) ==> d == m
  {
    KeysOfInv(t);
    AcksIsAccepted(t, id, r);
  }

  lemma KeysOfInv(t: Tables)
    requires Inv(t)
    ensures DistinctKeys(t.messages) && DeliveriesOk(t) && RolesOk(t.messages, t.members)
  {
  }

  /** The cursor of a key after `all` numbers acknowledged, `asRead` of them as read. */
  predicate CursorIs(cursors: map<(string, string), Cursor>, key: (string, string), all: set<int>, asRead: set<int>) {
    && (key in cursors <==> all != {}) && asRead <= all
    && (key in cursors ==>
          IsMax(cursors[key].lastReceivedSeq, all + {0}) && IsMax(cursors[key].lastReadSeq, asRead + {0}))
  }

  lemma CursorIsMoved(cs: map<(string, string), Cursor>, cs': map<(string, string), Cursor>, key: (string, string),
                      all: set<int>, asRead: set<int>, n: int, read: bool, nowMs: int)
    requires CursorIs(cs, key, all, asRead) && CursorMoves(cs, cs', key, n, if read then n else 0, nowMs)
    ensures CursorIs(cs', key, all + {n}, asRead + if read then {n} else {})
  {
    if key !in cs { assert all == {} && asRead == {}; }
  }

  /**
   * A client has a cursor in a conversation exactly if it has acknowledged something there, and the two columns are
   * the largest number it has acknowledged, and the largest it has acknowledged as read, or 0.
   */
  lemma {:induction false} CursorsOfEveryRun(ops: seq<Op>, c: string, r: string)
    requires ValidOps(ops)
    ensures CursorIs(Run(EMPTY, ops).cursors, (c, r), Numbers(ops, c, r, false), Numbers(ops, c, r, true))
  {
    hide Inv, Apply, AcksIn, CursorIs, CursorMoves;
    if ops == [] {
      NoCursorYet((c, r));
    } else {
      var front, last := ops[..|ops| - 1], ops[|ops| - 1];
      CursorsOfEveryRun(front, c, r);
      EmptyOk();
      RunKeepsInv(EMPTY, front);
      var t := Run(EMPTY, front);
      CallMovesCursor(t, last, c, r);
      if AcksIn(t, last, c, r) {
        AcksHaveNumbers(t, last, c, r);
        CursorIsMoved(t.cursors, Apply(t, last).cursors, (c, r), Numbers(front, c, r, false),
                      Numbers(front, c, r, true), NumberOf(last), last.AckRead?, last.nowMs);
      } else {
        CursorIsKept(t.cursors, Apply(t, last).cursors, (c, r), Numbers(front, c, r, false),
                     Numbers(front, c, r, true));
      }
    }
  }

  lemma NoCursorYet(key: (string, string))
    ensures CursorIs(map[], key, {}, {})
  {
  }

  lemma AcksHaveNumbers(t: Tables, op: Op, c: string, r: string)
    requires AcksIn(t, op, c, r)
    ensures op.AckDelivered? || op.AckRead?
  {
  }

  lemma CursorIsKept(cs: map<(string, string), Cursor>, cs': map<(string, string), Cursor>, key: (string, string),
                     all: set<int>, asRead: set<int>)
    requires CursorIs(cs, key, all, asRead) && (key in cs' <==> key in cs) && (key in cs ==> cs'[key] == cs[key])
    ensures CursorIs(cs', key, all + {}, asRead + {})
  {
    assert all + {} == all && asRead + {} == asRead;
  }

  // ------------------------------------------------------ members

  /** A message of the conversation is addressed to the client. */
  ghost predicate AddressedIn(t: Tables, c: string, x: string) {
    exists m :: m in t.messages && m.conversationId == c && (m.serverMessageId, x) in t.deliveries
  }

  /** Exactly those who have sent or been addressed in a conversation are its members. */
  ghost predicate MembersKnown(t: Tables) {
    forall c, x :: (c, x) in t.members <==> Sent(t.messages, c, x) || AddressedIn(t, c, x)
  }

  lemma ApplyKeepsMembersKnown(t: Tables, op: Op)
    requires Inv(t) && ValidOp(op) && MembersKnown(t)
    ensures MembersKnown(Apply(t, op))
  {
    hide Inv, Apply;
    ApplyKeepsInv(t, op);
    ApplyAdvances(t, op);
    var t' := Apply(t, op);
    forall c, x ensures (c, x) in t'.members <==> Sent(t'.messages, c, x) || AddressedIn(t', c, x) {
      if (c, x) in t'.members { NewMember(t, op, c, x); }
      if Sent(t'.messages, c, x) || AddressedIn(t', c, x) { IsMember(t', c, x); }
    }
  }

  /** Who sends or is addressed is a member: that much is part of the invariant. */
  lemma IsMember(t: Tables, c: string, x: string)
    requires Inv(t) && (Sent(t.messages, c, x) || AddressedIn(t, c, x))
    ensures (c, x) in t.members
  {
    KeysOfInv(t);
    hide Inv;
    if Sent(t.messages, c, x) {
    } else {
      var m :| m in t.messages && m.conversationId == c && (m.serverMessageId, x) in t.deliveries;
      assert DeliveryOk(t.messages, t.members, (m.serverMessageId, x));
      FindByIdFinds(t.messages, m.serverMessageId);
      AcksIsAccepted(t, m.serverMessageId, x);
      assert Acks(t, m.serverMessageId, x, m);
    }
  }

  /** A member was one before, or has just sent or been addressed. */
  lemma NewMember(t: Tables, op: Op, c: string, x: string)
    requires Inv(t) && MembersKnown(t) && (c, x) in Apply(t, op).members
    ensures Sent(Apply(t, op).messages, c, x) || AddressedIn(Apply(t, op), c, x)
  {
    hide Inv, Apply;
    ApplyAdvances(t, op);
    var t' := Apply(t, op);
    if (c, x) in t.members {
      StillMember(t, t', c, x);
    } else if op.Store? {
      StoreAddsMember(t, op, c, x);
    } else {
      AcksAddNobody(t, op);
    }
  }

  lemma StillMember(t: Tables, t': Tables, c: string, x: string)
    requires MembersKnown(t) && (c, x) in t.members && t.messages <= t'.messages
    requires DeliveriesAdvance(t.deliveries, t'.deliveries)
    ensures Sent(t'.messages, c, x) || AddressedIn(t', c, x)
  {
    forall m | m in t.messages ensures m in t'.messages {
      var i :| 0 <= i < |t.messages| && t.messages[i] == m;
      assert t'.messages[i] == m;
    }
  }

  lemma AcksAddNobody(t: Tables, op: Op)
    requires !op.Store?
    ensures Apply(t, op).members == t.members
  {
    hide AckAccepts, FindById;
  }

  lemma StoreAddsMember(t: Tables, op: Op, c: string, x: string)
    requires Inv(t) && op.Store? && (c, x) !in t.members && (c, x) in Apply(t, op).members
    ensures Sent(Apply(t, op).messages, c, x) || AddressedIn(Apply(t, op), c, x)
  {
    hide Inv, Apply, Complete, KnownAs, SameColumns, IsFor;
    var req, t' := op.req, Apply(t, op);
    if m :| KnownAs(t, req, m) {
      if !SameColumns(m, req) {
        DifferentContentWritesNothing(t, req, op.newId, op.nowMs, m);
      } else if !Complete(req) {
        RefusedStoreWritesNothing(t, req, op.newId, op.nowMs);
      } else {
        RetryWrites(t, req, op.newId, op.nowMs, m);
        assert m in t'.messages && (m.serverMessageId, x) in t'.deliveries by { KnownIsStored(t, req, m); }
      }
    } else if !Complete(req) || exists m :: m in t.messages && m.serverMessageId == op.newId {
      RefusedStoreWritesNothing(t, req, op.newId, op.nowMs);
    } else {
      FirstStoreWrites(t, req, op.newId, op.nowMs);
      var m := t'.messages[|t.messages|];
      assert m in t'.messages;
      if x != m.senderId { assert (m.serverMessageId, x) in t'.deliveries; }
    }
  }

  lemma KnownIsStored(t: Tables, req: StoreRequest, m: StoredMessage)
    requires KnownAs(t, req, m)
    ensures m in t.messages
  {
  }

  /** After every run the members of a conversation are exactly those who have sent or been addressed in it. */
  lemma {:induction false} MembersOfEveryRun(ops: seq<Op>)
    requires ValidOps(ops)
    ensures MembersKnown(Run(EMPTY, ops))
  {
    hide Inv, MembersKnown, Apply;
    EmptyOk();
    if ops == [] {
      NobodyYet();
    } else {
      MembersOfEveryRun(ops[..|ops| - 1]);
      RunKeepsInv(EMPTY, ops[..|ops| - 1]);
      ApplyKeepsMembersKnown(Run(EMPTY, ops[..|ops| - 1]), ops[|ops| - 1]);
    }
  }

  lemma NobodyYet()
    ensures MembersKnown(EMPTY)
  {
  }

  // ------------------------------------------------------ events

  /** A message event repeats columns of a stored message, and an acknowledgement belongs to a delivery row. */
  predicate Belongs(t: Tables, e: Event, m: StoredMessage) {
    && m in t.messages && e.workspaceId == m.workspaceId && e.conversationId == m.conversationId
    && match e.payload
       case MessageCreated(id, clientMessageId, senderId, serverSeq, messageType) =>
         && id == m.serverMessageId && clientMessageId == m.clientMessageId && senderId == m.senderId
         && serverSeq == m.serverSeq && messageType == m.messageType
       case MessageDelivered(id, r, serverSeq, n) =>
         id == m.serverMessageId && serverSeq == m.serverSeq && (id, r) in t.deliveries && n >= 0
       case MessageRead(id, r, serverSeq, n) =>
         id == m.serverMessageId && serverSeq == m.serverSeq && (id, r) in t.deliveries && n >= 0
       case _ => false
  }

  predicate IsMessageEvent(e: Event) {
    e.payload.MessageCreated? || e.payload.MessageDelivered? || e.payload.MessageRead?
  }

  /** Every message event belongs to a stored message, and the others to the reserved conversation. */
  ghost predicate EventKnown(t: Tables, e: Event) {
    if IsMessageEvent(e) then exists m :: Belongs(t, e, m) else e.conversationId == "__sessions__"
  }

  ghost predicate EventsKnown(t: Tables) {
    forall e :: e in t.events ==> EventKnown(t, e)
  }

  lemma StillKnown(t: Tables, t': Tables, e: Event)
    requires EventKnown(t, e) && t.messages <= t'.messages && DeliveriesAdvance(t.deliveries, t'.deliveries)
    ensures EventKnown(t', e)
  {
    if IsMessageEvent(e) {
      var m :| Belongs(t, e, m);
      var i :| 0 <= i < |t.messages| && t.messages[i] == m;
      assert t'.messages[i] == m;
      assert Belongs(t', e, m);
    }
  }

  lemma NewEventIsKnown(t: Tables, op: Op, e: Event)
    requires Inv(t) && ValidOp(op) && e in Apply(t, op).events && e !in t.events
    ensures EventKnown(Apply(t, op), e)
  {
    hide Inv, Apply, Complete, KnownAs, SameColumns, IsFor, RowsJoin, MembersJoin, CursorMoves, Acks;
    match op
    case Store(req, newId, nowMs) => StoreEventIsKnown(t, op, e);
    case AckDelivered(id, r, n, nowMs) => AckEventIsKnown(t, op, e);
    case AckRead(id, r, n, nowMs) => AckEventIsKnown(t, op, e);
    case SessionEvent(w, payload, nowMs, outcome) => SessionEventWrites(t, w, payload, nowMs, outcome);
    case RolledBack => RolledBackWritesNothing(t);
  }

  lemma RolledBackWritesNothing(t: Tables)
    ensures Apply(t, RolledBack) == t
  {
  }

  lemma StoreEventIsKnown(t: Tables, op: Op, e: Event)
    requires Inv(t) && op.Store? && e in Apply(t, op).events && e !in t.events
    ensures EventKnown(Apply(t, op), e)
  {
    hide Inv, Apply, Complete, KnownAs, SameColumns, IsFor, RowsJoin, MembersJoin;
    var req, t' := op.req, Apply(t, op);
    if m :| KnownAs(t, req, m) {
      if !SameColumns(m, req) {
        DifferentContentWritesNothing(t, req, op.newId, op.nowMs, m);
      } else if !Complete(req) {
        RefusedStoreWritesNothing(t, req, op.newId, op.nowMs);
      } else {
        RetryWrites(t, req, op.newId, op.nowMs, m);
        KnownIsStored(t, req, m);
        assert Belongs(t', e, m);
      }
    } else if !Complete(req) || exists m :: m in t.messages && m.serverMessageId == op.newId {
      RefusedStoreWritesNothing(t, req, op.newId, op.nowMs);
    } else {
      FirstStoreWrites(t, req, op.newId, op.nowMs);
      var m := t'.messages[|t.messages|];
      assert Belongs(t', e, m);
    }
  }

  lemma AckEventIsKnown(t: Tables, op: Op, e: Event)
    requires Inv(t) && (op.AckDelivered? || op.AckRead?) && e in Apply(t, op).events && e !in t.events
    ensures EventKnown(Apply(t, op), e)
  {
    hide Inv, Apply, CursorMoves;
    var id, r := op.id, op.recipientId;
    if m :| Acks(t, id, r, m) {
      if op.AckRead? {
        ReadAckWrites(t, id, r, op.readSeq, op.nowMs, m);
      } else {
        DeliveredAckWrites(t, id, r, op.receivedSeq, op.nowMs, m);
      }
      assert Belongs(Apply(t, op), e, m);
    } else {
      KeysOfInv(t);
      UnknownAckWritesNothing(t, id, r, NumberOf(op), op.nowMs);
    }
  }

  lemma ApplyKeepsEventsKnown(t: Tables, op: Op)
    requires Inv(t) && ValidOp(op) && EventsKnown(t)
    ensures EventsKnown(Apply(t, op))
  {
    hide Inv, Apply, EventKnown;
    ApplyAdvances(t, op);
    forall e | e in Apply(t, op).events ensures EventKnown(Apply(t, op), e) {
      if e in t.events { StillKnown(t, Apply(t, op), e); } else { NewEventIsKnown(t, op, e); }
    }
  }

  /**
   * After every run each message event repeats the columns of a stored message of its workspace and conversation,
   * each acknowledgement belongs to a delivery row, and every other event is in the reserved conversation.
   */
  lemma {:induction false} EventsOfEveryRun(ops: seq<Op>)
    requires ValidOps(ops)
    ensures EventsKnown(Run(EMPTY, ops))
  {
    hide Inv, Apply, EventKnown;
    EmptyOk();
    if ops != [] {
      EventsOfEveryRun(ops[..|ops| - 1]);
      RunKeepsInv(EMPTY, ops[..|ops| - 1]);
      ApplyKeepsEventsKnown(Run(EMPTY, ops[..|ops| - 1]), ops[|ops| - 1]);
    }
  }
}
