/** Every committed call of the message service keeps the invariant of its tables. */
module MessageInvariant {
  import opened Text
  import opened Sql
  import opened MessageTables

  lemma EmptyOk()
    ensures Inv(EMPTY)
  {
  }

  // ------------------------------------------------------ the log and the acknowledgements

  lemma OrderedAppend(events: seq<Event>, lastEventId: int, e: Event)
    requires LogOrdered(events, lastEventId) && e.eventId == lastEventId + 1 && lastEventId >= 0
    ensures LogOrdered(events + [e], lastEventId + 1)
  {
  }

  /** An event that is no acknowledgement leaves the acknowledgements as they are. */
  lemma PlainEventOk(deliveries: map<(string, string), Delivery>, events: seq<Event>, e: Event)
    requires AcksOk(deliveries, events)
    requires !e.payload.MessageRead? && !e.payload.MessageDelivered?
    ensures AcksOk(deliveries, events + [e])
  {
    AppendedEvent(events, e);
    forall id, r ensures AckLogOk(events + [e], id, r, StateOf(deliveries, id, r)) {
      assert AckLogOk(events, id, r, StateOf(deliveries, id, r));
    }
  }

  /** New pending rows change no acknowledgement. */
  lemma PendingRowsOk(deliveries: map<(string, string), Delivery>, events: seq<Event>, id: string,
                      recipients: seq<string>)
    requires AcksOk(deliveries, events)
    ensures AcksOk(AddDeliveries(deliveries, id, recipients), events)
  {
    var added := AddDeliveries(deliveries, id, recipients);
    forall m, r ensures AckLogOk(events, m, r, StateOf(added, m, r)) {
      assert AckLogOk(events, m, r, StateOf(deliveries, m, r));
      assert StateOf(added, m, r) == StateOf(deliveries, m, r);
    }
  }

  /** A change of one row, with the matching event or none, keeps every acknowledgement right if it keeps its own
    * right. */
  lemma AckOk(deliveries: map<(string, string), Delivery>, events: seq<Event>, key: (string, string), d: Delivery,
              news: seq<Event>)
    requires AcksOk(deliveries, events) && RowAgrees(d)
    requires |news| <= 1 && (news != [] ==> IsRead(news[0], key.0, key.1) || IsDelivered(news[0], key.0, key.1))
    requires AckLogOk(events + news, key.0, key.1, d.state)
    ensures AcksOk(deliveries[key := d], events + news)
  {
    var all, rows := events + news, deliveries[key := d];
    if news == [] { assert all == events; } else { AppendedEvent(events, news[0]); }
    forall m, r ensures AckLogOk(all, m, r, StateOf(rows, m, r)) {
      assert AckLogOk(events, m, r, StateOf(deliveries, m, r));
      assert (m, r) != key ==> m != key.0 || r != key.1;
    }
  }

  /** Acknowledging delivery moves a pending row to delivered with one event, and repeats nothing. */
  lemma DeliveredLogOk(deliveries: map<(string, string), Delivery>, events: seq<Event>, id: string, r: string,
                       e: Event, nowMs: int)
    requires AcksOk(deliveries, events) && (id, r) in deliveries && nowMs > 0 && IsDelivered(e, id, r)
    ensures var d := deliveries[(id, r)];
            AcksOk(deliveries[(id, r) := DeliveredRow(d, nowMs)],
                   events + if d.deliveredAtMs <= 0 && d.readAtMs <= 0 then [e] else [])
  {
    var d := deliveries[(id, r)];
    assert AckLogOk(events, id, r, StateOf(deliveries, id, r));
    AppendedEvent(events, e);
    if d.state == Pending { NoReadNoEvent(events, id, r); }
    assert events + [] == events;
    AckOk(deliveries, events, (id, r), DeliveredRow(d, nowMs),
          if d.deliveredAtMs <= 0 && d.readAtMs <= 0 then [e] else []);
  }

  /** Acknowledging reading moves any row to read, with one event the first time. */
  lemma ReadLogOk(deliveries: map<(string, string), Delivery>, events: seq<Event>, id: string, r: string, e: Event,
                  nowMs: int)
    requires AcksOk(deliveries, events) && (id, r) in deliveries && nowMs > 0 && IsRead(e, id, r)
    ensures var d := deliveries[(id, r)];
            AcksOk(deliveries[(id, r) := ReadRow(d, nowMs)], events + if d.readAtMs <= 0 then [e] else [])
  {
    var d := deliveries[(id, r)];
    assert AckLogOk(events, id, r, StateOf(deliveries, id, r));
    AppendedEvent(events, e);
    assert events + [] == events;
    AckOk(deliveries, events, (id, r), ReadRow(d, nowMs), if d.readAtMs <= 0 then [e] else []);
  }

  // ------------------------------------------------------ storing

  lemma GrowingDeliveriesOk(t: Tables, t': Tables, id: string, recipients: seq<string>)
    requires DeliveriesOk(t) && t'.members.Keys >= t.members.Keys
    requires t'.deliveries == AddDeliveries(t.deliveries, id, recipients)
    requires forall key :: key in t.deliveries ==> FindById(t'.messages, key.0) == FindById(t.messages, key.0)
    requires forall r :: r in recipients ==> DeliveryOk(t'.messages, t'.members, (id, r))
    ensures DeliveriesOk(t')
  {
    forall key | key in t'.deliveries ensures DeliveryOk(t'.messages, t'.members, key) {
      if key in t.deliveries { assert DeliveryOk(t.messages, t.members, key); }
    }
  }

  lemma ExpandedOk(t: Tables, m: StoredMessage, recipients: seq<string>, nowMs: int)
    requires Inv(t) && FindById(t.messages, m.serverMessageId) == Some(m)
    requires forall r :: r in recipients ==> Clean(r) && r != m.senderId
    ensures Inv(Expanded(t, m, recipients, nowMs))
  {
    hide Clean, AcksOk, Sequenced, LogOrdered, RolesOk, DistinctKeys, CleanMessages, DeliveriesOk, FindById,
         AddsRecipient, AddMembers, AddDeliveries;
    var t' := Expanded(t, m, recipients, nowMs);
    var e := Event(t.lastEventId + 1, m.workspaceId, m.conversationId, CreatedPayload(m), nowMs);
    PendingRowsOk(t.deliveries, t.events, m.serverMessageId, recipients);
    PlainEventOk(t'.deliveries, t.events, e);
    OrderedAppend(t.events, t.lastEventId, e);
    GrowingDeliveriesOk(t, t', m.serverMessageId, recipients);
    MembersKeepRoles(t.messages, t.members, m.conversationId, recipients, nowMs);
    assert t'.messages == t.messages && t'.cursors == t.cursors;
    if AddsRecipient(t, m.serverMessageId, recipients) {
      assert t'.events == t.events + [e];
    } else {
      assert t'.events == t.events;
    }
    assert LogOrdered(t'.events, t'.lastEventId);
    assert AcksOk(t'.deliveries, t'.events);
    assert DeliveriesOk(t');
    assert RolesOk(t'.messages, t'.members);
    assert Sequenced(t'.messages);
    assert CursorsOk(t'.cursors);
    FindByIdFinds(t.messages, m.serverMessageId);
    FindByKeyFinds(t.messages, m.senderId, m.clientMessageId);
    assert DistinctKeys(t'.messages);
    assert CleanMessages(t'.messages);
  }

  /** Recipients who join get the role `member` unless they are already senders. */
  lemma MembersKeepRoles(messages: seq<StoredMessage>, members: map<(string, string), Member>, conversationId: string,
                         recipients: seq<string>, nowMs: int)
    requires RolesOk(messages, members)
    ensures RolesOk(messages, AddMembers(members, conversationId, recipients, nowMs))
  {
    var added := AddMembers(members, conversationId, recipients, nowMs);
    forall key | key in added ensures added[key].role == SenderRole <==> Sent(messages, key.0, key.1) {
      if Sent(messages, key.0, key.1) { assert key in members; }
    }
  }

  /** The sender of a new message gets the role `sender`. */
  lemma SenderGetsRole(messages: seq<StoredMessage>, members: map<(string, string), Member>, m: StoredMessage,
                       nowMs: int)
    requires RolesOk(messages, members)
    ensures RolesOk(messages + [m], UpsertMember(members, m.conversationId, m.senderId, SenderRole, nowMs))
  {
    var members' := UpsertMember(members, m.conversationId, m.senderId, SenderRole, nowMs);
    forall c, s ensures Sent(messages + [m], c, s)
      <==> Sent(messages, c, s) || (c, s) == (m.conversationId, m.senderId) {
      if Sent(messages, c, s) {
        var x :| x in messages && x.conversationId == c && x.senderId == s;
        assert x in messages + [m];
      }
      assert m in messages + [m];
    }
  }

  lemma NextNumber(messages: seq<StoredMessage>, m: StoredMessage)
    requires Sequenced(messages) && m.serverSeq == MaxSeq(messages, m.conversationId) + 1
    ensures Sequenced(messages + [m])
  {
    hide InConversation, MaxSeq, FindById, FindByKey;
    AppendedMessage(messages, m);
    assert Numbered(InConversation(messages, m.conversationId));
    MaxSeqIsLength(messages, m.conversationId);
    forall c ensures Numbered(InConversation(messages + [m], c)) {
      assert Numbered(InConversation(messages, c));
    }
  }

  lemma NewKeys(messages: seq<StoredMessage>, m: StoredMessage)
    requires DistinctKeys(messages)
    requires FindById(messages, m.serverMessageId).None?
    requires FindByKey(messages, m.senderId, m.clientMessageId).None?
    ensures DistinctKeys(messages + [m])
  {
    FindByIdFinds(messages, m.serverMessageId);
    FindByKeyFinds(messages, m.senderId, m.clientMessageId);
  }

  lemma OldRowsKeepTheirMessage(t: Tables, m: StoredMessage)
    requires DeliveriesOk(t) && FindById(t.messages, m.serverMessageId).None?
    ensures forall key :: key in t.deliveries ==> FindById(t.messages + [m], key.0) == FindById(t.messages, key.0)
  {
    AppendedMessage(t.messages, m);
    forall key | key in t.deliveries ensures FindById(t.messages + [m], key.0) == FindById(t.messages, key.0) {
      assert DeliveryOk(t.messages, t.members, key);
    }
  }

  lemma InsertedOk(t: Tables, m: StoredMessage, recipients: seq<string>, nowMs: int)
    requires Inv(t)
    requires FindById(t.messages, m.serverMessageId).None?
    requires FindByKey(t.messages, m.senderId, m.clientMessageId).None?
    requires m.serverSeq == MaxSeq(t.messages, m.conversationId) + 1
    requires Clean(m.senderId) && Clean(m.clientMessageId) && Clean(m.conversationId) && Clean(m.workspaceId)
             && Clean(m.messageType)
    requires forall r :: r in recipients ==> Clean(r) && r != m.senderId
    ensures Inv(Inserted(t, m, recipients, nowMs))
  {
    hide Clean, AcksOk, Sequenced, LogOrdered, RolesOk, DistinctKeys, AddMembers, AddDeliveries, DeliveriesOk,
         FindById, MaxSeq;
    var t' := Inserted(t, m, recipients, nowMs);
    var e := Event(t.lastEventId + 1, m.workspaceId, m.conversationId, CreatedPayload(m), nowMs);
    var senders := UpsertMember(t.members, m.conversationId, m.senderId, SenderRole, m.createdAtMs);
    NextNumber(t.messages, m);
    AppendedMessage(t.messages, m);
    SenderGetsRole(t.messages, t.members, m, m.createdAtMs);
    MembersKeepRoles(t'.messages, senders, m.conversationId, recipients, m.createdAtMs);
    PendingRowsOk(t.deliveries, t.events, m.serverMessageId, recipients);
    PlainEventOk(t'.deliveries, t.events, e);
    OrderedAppend(t.events, t.lastEventId, e);
    NewKeys(t.messages, m);
    OldRowsKeepTheirMessage(t, m);
    GrowingDeliveriesOk(t, t', m.serverMessageId, recipients);
  }

  /** A successful store keeps the invariant. */
  lemma StoreKeepsInv(t: Tables, req: StoreRequest, newId: string, nowMs: int)
    requires Inv(t) && StoreAccepts(t, req, newId)
    ensures Inv(StoreCommitted(t, req, newId, nowMs))
  {
    hide Clean, Trimmed;
    var recipients := Recipients(req.recipientIds, Trimmed(req.senderId));
    RecipientsAreClean(req.recipientIds, Trimmed(req.senderId));
    RecipientsAreExact(req.recipientIds, Trimmed(req.senderId));
    FindByKeyFinds(t.messages, Trimmed(req.senderId), Trimmed(req.clientMessageId));
    match Duplicate(t, req)
    case Some(m) =>
      FindByOwnId(t.messages, m);
      if SameImmutable(m, req) { ExpandedOk(t, m, recipients, nowMs); }
    case None =>
      TrimmedIsClean(req.senderId);
      TrimmedIsClean(req.clientMessageId);
      TrimmedIsClean(req.conversationId);
      TrimmedIsClean(req.workspaceId);
      TrimmedIsClean(req.messageType);
      InsertedOk(t, NewMessage(t, req, newId, nowMs), recipients, nowMs);
  }

  /** Server ids are unique, so looking a stored message up by its own id finds it. */
  lemma FindByOwnId(messages: seq<StoredMessage>, m: StoredMessage)
    requires DistinctKeys(messages) && m in messages
    ensures FindById(messages, m.serverMessageId) == Some(m)
  {
    FindByIdFinds(messages, m.serverMessageId);
    var found := FindById(messages, m.serverMessageId).value;
    var i :| 0 <= i < |messages| && messages[i] == m;
    var j :| 0 <= j < |messages| && messages[j] == found;
    assert i == j;
  }

  // ------------------------------------------------------ acknowledging

  lemma SameMessagesOk(t: Tables, t': Tables)
    requires DeliveriesOk(t) && t'.messages == t.messages && t'.members == t.members
             && t'.deliveries.Keys == t.deliveries.Keys
    ensures DeliveriesOk(t')
  {
    hide Clean;
    forall key | key in t'.deliveries ensures DeliveryOk(t'.messages, t'.members, key) {
      assert DeliveryOk(t.messages, t.members, key);
    }
  }

  lemma DeliveredKeepsInv(t: Tables, id: string, recipientId: string, receivedSeq: int, nowMs: int)
    requires Inv(t) && AckAccepts(t, id, recipientId) && nowMs > 0
    ensures Inv(DeliveredCommitted(t, id, recipientId, receivedSeq, nowMs))
  {
    hide Clean, AcksOk, Sequenced, LogOrdered, RolesOk, DistinctKeys, CleanMessages, DeliveriesOk, FindById;
    var t' := DeliveredCommitted(t, id, recipientId, receivedSeq, nowMs);
    var d := t.deliveries[(id, recipientId)];
    var m := FindById(t.messages, id).value;
    var e := Event(t.lastEventId + 1, m.workspaceId, m.conversationId,
                   MessageDelivered(id, recipientId, m.serverSeq, Max(0, receivedSeq)), nowMs);
    DeliveredLogOk(t.deliveries, t.events, id, recipientId, e, nowMs);
    OrderedAppend(t.events, t.lastEventId, e);
    assert t.events + [] == t.events;
    SameMessagesOk(t, t');
  }

  lemma ReadKeepsInv(t: Tables, id: string, recipientId: string, readSeq: int, nowMs: int)
    requires Inv(t) && AckAccepts(t, id, recipientId) && nowMs > 0
    ensures Inv(ReadCommitted(t, id, recipientId, readSeq, nowMs))
  {
    hide Clean, AcksOk, Sequenced, LogOrdered, RolesOk, DistinctKeys, CleanMessages, DeliveriesOk, FindById;
    var t' := ReadCommitted(t, id, recipientId, readSeq, nowMs);
    var d := t.deliveries[(id, recipientId)];
    var m := FindById(t.messages, id).value;
    var e := Event(t.lastEventId + 1, m.workspaceId, m.conversationId,
                   MessageRead(id, recipientId, m.serverSeq, Max(0, readSeq)), nowMs);
    ReadLogOk(t.deliveries, t.events, id, recipientId, e, nowMs);
    OrderedAppend(t.events, t.lastEventId, e);
    assert t.events + [] == t.events;
    SameMessagesOk(t, t');
  }

  lemma SessionEventKeepsInv(t: Tables, workspaceId: string, payload: Payload, nowMs: int, outcome: AppendOutcome)
    requires Inv(t) && (payload.SessionOnline? || payload.SessionOffline?)
    ensures Inv(EventAppended(t, workspaceId, Sessions(), payload, nowMs, outcome))
  {
    hide Clean, Trimmed;
    var t' := EventAppended(t, workspaceId, Sessions(), payload, nowMs, outcome);
    if |t'.events| > |t.events| {
      OrderedAppend(t.events, t.lastEventId, t'.events[|t.events|]);
      PlainEventOk(t.deliveries, t.events, t'.events[|t.events|]);
    }
  }
}
