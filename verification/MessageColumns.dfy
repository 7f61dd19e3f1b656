/** What each call of the message service writes, column by column, and where the rows of the tables come from. */
module MessageColumns {
  import opened Text
  import opened Sql
  import opened MessageTables

  // ------------------------------------------------------ requests

  /** The request is for x, who is not its sender. */
  predicate IsFor(req: StoreRequest, x: string) {
    x != "" && x != Trimmed(req.senderId) && exists s :: s in req.recipientIds && Trimmed(s) == x
  }

  ghost predicate Complete(req: StoreRequest) {
    && Trimmed(req.senderId) != "" && Trimmed(req.clientMessageId) != "" && Trimmed(req.conversationId) != ""
    && Trimmed(req.workspaceId) != "" && Trimmed(req.messageType) != ""
    && exists x :: IsFor(req, x)
  }

  /** The message is stored under the key of the request. */
  predicate KnownAs(t: Tables, req: StoreRequest, m: StoredMessage) {
    m in t.messages && m.senderId == Trimmed(req.senderId) && m.clientMessageId == Trimmed(req.clientMessageId)
  }

  predicate SameColumns(m: StoredMessage, req: StoreRequest) {
    && m.conversationId == Trimmed(req.conversationId) && m.workspaceId == Trimmed(req.workspaceId)
    && m.messageType == Trimmed(req.messageType)
    && m.content.body == req.content.body && m.content.payloadJson == req.content.payloadJson
    && m.content.fileId == req.content.fileId && m.content.contentType == req.content.contentType
    && m.content.replyToMessageId == req.content.replyToMessageId
  }

  lemma RecipientsAreFor(req: StoreRequest)
    ensures forall x :: x in Recipients(req.recipientIds, Trimmed(req.senderId)) <==> IsFor(req, x)
  {
    hide Trimmed;
    RecipientsAreExact(req.recipientIds, Trimmed(req.senderId));
  }

  lemma CompleteIsWellFormed(req: StoreRequest)
    ensures Complete(req) <==> WellFormed(req)
  {
    hide Trimmed, Recipients;
    RecipientsAreFor(req);
    var rs := Recipients(req.recipientIds, Trimmed(req.senderId));
    if rs != [] { assert rs[0] in rs; }
  }

  lemma KnownIsDuplicate(t: Tables, req: StoreRequest, m: StoredMessage)
    requires DistinctKeys(t.messages) && KnownAs(t, req, m)
    ensures Duplicate(t, req) == Some(m)
  {
    hide Trimmed;
    FindByKeyFinds(t.messages, Trimmed(req.senderId), Trimmed(req.clientMessageId));
    var d := Duplicate(t, req).value;
    var i :| 0 <= i < |t.messages| && t.messages[i] == m;
    var j :| 0 <= j < |t.messages| && t.messages[j] == d;
    assert i == j;
  }

  lemma UnknownIsNoDuplicate(t: Tables, req: StoreRequest)
    ensures Duplicate(t, req).None? <==> forall m :: !KnownAs(t, req, m)
  {
    hide Trimmed, FindByKey;
    FindByKeyFinds(t.messages, Trimmed(req.senderId), Trimmed(req.clientMessageId));
    if Duplicate(t, req).Some? { assert KnownAs(t, req, Duplicate(t, req).value); }
  }

  // ------------------------------------------------------ stores

  /** An incomplete request, or a new message under a server id that is taken, touches no table. */
  lemma RefusedStoreWritesNothing(t: Tables, req: StoreRequest, newId: string, nowMs: int)
    requires || !Complete(req)
             || ((forall m :: !KnownAs(t, req, m)) && exists m :: m in t.messages && m.serverMessageId == newId)
    ensures Apply(t, Store(req, newId, nowMs)) == t
  {
    hide Trimmed, Complete, WellFormed, FindById, KnownAs, StoreCommitted, StoreAccepts;
    if Complete(req) {
      TakenIdIsRefused(t, req, newId);
    } else {
      IncompleteIsRefused(t, req, newId);
    }
  }

  lemma IncompleteIsRefused(t: Tables, req: StoreRequest, newId: string)
    requires !Complete(req)
    ensures !StoreAccepts(t, req, newId)
  {
    hide Trimmed, Complete, WellFormed, FindById, FindByKey;
    CompleteIsWellFormed(req);
  }

  lemma TakenIdIsRefused(t: Tables, req: StoreRequest, newId: string)
    requires (forall m :: !KnownAs(t, req, m)) && exists m :: m in t.messages && m.serverMessageId == newId
    ensures !StoreAccepts(t, req, newId)
  {
    hide Trimmed, WellFormed, FindById, KnownAs;
    UnknownIsNoDuplicate(t, req);
    FindByIdFinds(t.messages, newId);
    var m :| m in t.messages && m.serverMessageId == newId;
    assert FindById(t.messages, newId).Some?;
  }

  /** A known key with any different column touches no table, whoever the request is for. */
  lemma DifferentContentWritesNothing(t: Tables, req: StoreRequest, newId: string, nowMs: int, m: StoredMessage)
    requires Inv(t) && KnownAs(t, req, m) && !SameColumns(m, req)
    ensures Apply(t, Store(req, newId, nowMs)) == t
  {
    hide Trimmed, WellFormed, FindById;
    KnownIsDuplicate(t, req, m);
  }

  /** The delivery rows after a store of message `id`: pending ones join for everybody the request is for. */
  ghost predicate RowsJoin(d: map<(string, string), Delivery>, d': map<(string, string), Delivery>, id: string,
                           req: StoreRequest) {
    forall k :: (k in d' <==> k in d || (k.0 == id && IsFor(req, k.1)))
                && (k in d' ==> d'[k] == if k in d then d[k] else Delivery(Pending, 0, 0))
  }

  /** The members after a store: who sends becomes sender for good, and who is addressed at least a member. */
  ghost predicate MembersJoin(m: map<(string, string), Member>, m': map<(string, string), Member>, c: string,
                              sender: Option<string>, req: StoreRequest, atMs: int) {
    forall k: (string, string) ::
      var joins := k.0 == c && (sender == Some(k.1) || IsFor(req, k.1));
      && (k in m' <==> k in m || joins)
      && (k in m' && !joins ==> m'[k] == m[k])
      && (k in m' && joins ==>
            && m'[k].updatedAtMs == atMs && m'[k].joinedAtMs == (if k in m then m[k].joinedAtMs else atMs)
            && (m'[k].role == SenderRole <==> sender == Some(k.1) || (k in m && m[k].role == SenderRole)))
  }

  lemma RowsJoinIndeed(d: map<(string, string), Delivery>, id: string, req: StoreRequest)
    ensures RowsJoin(d, AddDeliveries(d, id, Recipients(req.recipientIds, Trimmed(req.senderId))), id, req)
  {
    hide Trimmed, Recipients, AddDeliveries, IsFor;
    RecipientsAreFor(req);
  }

  lemma RecipientsJoin(m: map<(string, string), Member>, c: string, req: StoreRequest, atMs: int)
    ensures var rs := Recipients(req.recipientIds, Trimmed(req.senderId));
            MembersJoin(m, AddMembers(m, c, rs, atMs), c, None, req, atMs)
  {
    hide Trimmed, Recipients, AddMembers, IsFor;
    RecipientsAreFor(req);
  }

  lemma SenderJoins(m: map<(string, string), Member>, m': map<(string, string), Member>, c: string, req: StoreRequest,
                    atMs: int)
    requires var sender := Trimmed(req.senderId);
             MembersJoin(UpsertMember(m, c, sender, SenderRole, atMs), m', c, None, req, atMs)
    ensures MembersJoin(m, m', c, Some(Trimmed(req.senderId)), req, atMs)
  {
    hide Trimmed, IsFor;
    NotForTheSender(req);
  }

  lemma NotForTheSender(req: StoreRequest)
    ensures !IsFor(req, Trimmed(req.senderId))
  {
  }

  /** Everything the first store of a message writes. */
  lemma FirstStoreWrites(t: Tables, req: StoreRequest, newId: string, nowMs: int)
    requires Inv(t) && Complete(req) && (forall m :: !KnownAs(t, req, m))
    requires forall m :: m in t.messages ==> m.serverMessageId != newId
    ensures var t' := Apply(t, Store(req, newId, nowMs));
            var at := if req.createdAtMs > 0 then req.createdAtMs else nowMs;
            var c, w, sender := Trimmed(req.conversationId), Trimmed(req.workspaceId), Trimmed(req.senderId);
            var seq_ := |InConversation(t.messages, c)| + 1;
            && t'.messages == t.messages + [StoredMessage(newId, Trimmed(req.clientMessageId), c, w, sender, seq_,
                                                          Trimmed(req.messageType), req.content, at, at)]
            && RowsJoin(t.deliveries, t'.deliveries, newId, req)
            && MembersJoin(t.members, t'.members, c, Some(sender), req, at)
            && t'.cursors == t.cursors
            && t'.events == t.events + [Event(t.lastEventId + 1, w, c,
                                              MessageCreated(newId, Trimmed(req.clientMessageId), sender, seq_,
                                                             Trimmed(req.messageType)), nowMs)]
            && t'.lastEventId == t.lastEventId + 1
  {
    hide Trimmed, Complete, WellFormed, KnownAs, FindById, RowsJoin, MembersJoin, Recipients, AddMembers, AddDeliveries,
         UpsertMember, InConversation, MaxSeq, CleanMessages, DeliveriesOk, RolesOk, AcksOk, CursorsOk, LogOrdered;
    CompleteIsWellFormed(req);
    UnknownIsNoDuplicate(t, req);
    FindByIdFinds(t.messages, newId);
    assert Numbered(InConversation(t.messages, Trimmed(req.conversationId)));
    MaxSeqIsLength(t.messages, Trimmed(req.conversationId));
    RowsJoinIndeed(t.deliveries, newId, req);
    var c, at := Trimmed(req.conversationId), StoreTime(req, nowMs);
    var senders := UpsertMember(t.members, c, Trimmed(req.senderId), SenderRole, at);
    RecipientsJoin(senders, c, req, at);
    SenderJoins(t.members, AddMembers(senders, c, Recipients(req.recipientIds, Trimmed(req.senderId)), at), c, req, at);
  }

  /** Everything a retry with the same content writes. */
  lemma RetryWrites(t: Tables, req: StoreRequest, newId: string, nowMs: int, m: StoredMessage)
    requires Inv(t) && Complete(req) && KnownAs(t, req, m) && SameColumns(m, req)
    ensures var t' := Apply(t, Store(req, newId, nowMs));
            var news := exists x :: IsFor(req, x) && (m.serverMessageId, x) !in t.deliveries;
            && t'.messages == t.messages && t'.cursors == t.cursors
            && RowsJoin(t.deliveries, t'.deliveries, m.serverMessageId, req)
            && MembersJoin(t.members, t'.members, m.conversationId, None, req, nowMs)
            && t'.events == t.events + (if news then
                                          [Event(t.lastEventId + 1, m.workspaceId, m.conversationId,
                                                 MessageCreated(m.serverMessageId, m.clientMessageId, m.senderId,
                                                                m.serverSeq, m.messageType), nowMs)]
                                        else [])
            && t'.lastEventId == t.lastEventId + if news then 1 else 0
  {
    hide Trimmed, Complete, WellFormed, IsFor, FindById, RowsJoin, MembersJoin, Recipients, AddMembers, AddDeliveries,
         Sequenced, CleanMessages, DeliveriesOk, RolesOk, AcksOk, CursorsOk, LogOrdered;
    CompleteIsWellFormed(req);
    KnownIsDuplicate(t, req, m);
    RowsJoinIndeed(t.deliveries, m.serverMessageId, req);
    RecipientsJoin(t.members, m.conversationId, req, nowMs);
    RecipientsAreFor(req);
    assert t.events + [] == t.events;
  }

  // ------------------------------------------------------ acknowledgements

  /** The cursor of a key after numbers for its two columns: each moves up to its number and never back. */
  predicate CursorMoves(cs: map<(string, string), Cursor>, cs': map<(string, string), Cursor>, key: (string, string),
                        received: int, read: int, nowMs: int) {
    && key in cs' && cs'.Keys == cs.Keys + {key}
    && (forall k :: k in cs && k != key ==> cs'[k] == cs[k])
    && var before := if key in cs then cs[key] else Cursor(0, 0, 0);
       && IsMax(cs'[key].lastReceivedSeq, {before.lastReceivedSeq, received, 0})
       && IsMax(cs'[key].lastReadSeq, {before.lastReadSeq, read, 0})
       && cs'[key].updatedAtMs == nowMs
  }

  predicate IsMax(n: int, numbers: set<int>) {
    n in numbers && forall x :: x in numbers ==> x <= n
  }

  lemma CursorMovesIndeed(cs: map<(string, string), Cursor>, key: (string, string), received: int, read: int,
                          nowMs: int)
    requires CursorsOk(cs)
    ensures CursorMoves(cs, UpsertCursor(cs, key, received, read, nowMs), key, received, read, nowMs)
  {
  }

  /** A client acknowledges a message that is addressed to it. */
  predicate Acks(t: Tables, id: string, r: string, m: StoredMessage) {
    m in t.messages && m.serverMessageId == id && (id, r) in t.deliveries
  }

  lemma AcksIsAccepted(t: Tables, id: string, r: string)
    requires DistinctKeys(t.messages)
    ensures AckAccepts(t, id, r) <==> exists m :: Acks(t, id, r, m)
    ensures forall m :: Acks(t, id, r, m) ==> FindById(t.messages, id) == Some(m)
  {
    hide FindById;
    FindByIdFinds(t.messages, id);
    if AckAccepts(t, id, r) { assert Acks(t, id, r, FindById(t.messages, id).value); }
    forall m | Acks(t, id, r, m) ensures FindById(t.messages, id) == Some(m) {
      var d := FindById(t.messages, id).value;
      var i :| 0 <= i < |t.messages| && t.messages[i] == m;
      var j :| 0 <= j < |t.messages| && t.messages[j] == d;
      assert i == j;
    }
  }

  /** An acknowledgement of a message that is unknown, or not addressed to the client, touches no table. */
  lemma UnknownAckWritesNothing(t: Tables, id: string, r: string, n: int, nowMs: int)
    requires DistinctKeys(t.messages) && forall m :: !Acks(t, id, r, m)
    ensures Apply(t, AckDelivered(id, r, n, nowMs)) == t && Apply(t, AckRead(id, r, n, nowMs)) == t
  {
    hide AckAccepts;
    AcksIsAccepted(t, id, r);
  }

  /** Everything a delivery acknowledgement writes. */
  lemma DeliveredAckWrites(t: Tables, id: string, r: string, n: int, nowMs: int, m: StoredMessage)
    requires Inv(t) && Acks(t, id, r, m)
    ensures var t' := Apply(t, AckDelivered(id, r, n, nowMs));
            var d := t.deliveries[(id, r)];
            && t'.messages == t.messages && t'.members == t.members
            && t'.deliveries == t.deliveries[(id, r) := Delivery(if d.state == Pending then Delivered else d.state,
                                                                 if d.state == Pending then nowMs else d.deliveredAtMs,
                                                                 d.readAtMs)]
            && CursorMoves(t.cursors, t'.cursors, (m.conversationId, r), n, 0, nowMs)
            && t'.events == t.events + (if d.state == Pending then
                                          [Event(t.lastEventId + 1, m.workspaceId, m.conversationId,
                                                 MessageDelivered(id, r, m.serverSeq, if n < 0 then 0 else n), nowMs)]
                                        else [])
            && t'.lastEventId == t.lastEventId + if d.state == Pending then 1 else 0
  {
    hide FindById, UpsertCursor, CursorMoves, Sequenced, CleanMessages, DeliveriesOk, RolesOk, LogOrdered;
    AcksIsAccepted(t, id, r);
    CursorMovesIndeed(t.cursors, (m.conversationId, r), n, 0, nowMs);
    assert RowAgrees(t.deliveries[(id, r)]);
    assert t.events + [] == t.events;
  }

  /** Everything a read acknowledgement writes. */
  lemma ReadAckWrites(t: Tables, id: string, r: string, n: int, nowMs: int, m: StoredMessage)
    requires Inv(t) && Acks(t, id, r, m)
    ensures var t' := Apply(t, AckRead(id, r, n, nowMs));
            var d := t.deliveries[(id, r)];
            && t'.messages == t.messages && t'.members == t.members
            && t'.deliveries == t.deliveries[(id, r) := Delivery(Read,
                                                                 if d.state == Pending then nowMs else d.deliveredAtMs,
                                                                 nowMs)]
            && CursorMoves(t.cursors, t'.cursors, (m.conversationId, r), n, n, nowMs)
            && t'.events == t.events + (if d.state != Read then
                                          [Event(t.lastEventId + 1, m.workspaceId, m.conversationId,
                                                 MessageRead(id, r, m.serverSeq, if n < 0 then 0 else n), nowMs)]
                                        else [])
            && t'.lastEventId == t.lastEventId + if d.state != Read then 1 else 0
  {
    hide FindById, UpsertCursor, CursorMoves, Sequenced, CleanMessages, DeliveriesOk, RolesOk, LogOrdered;
    AcksIsAccepted(t, id, r);
    CursorMovesIndeed(t.cursors, (m.conversationId, r), n, n, nowMs);
    assert RowAgrees(t.deliveries[(id, r)]);
    assert t.events + [] == t.events;
  }

  /** Session events touch nothing but the log, and carry the reserved conversation. */
  lemma SessionEventWrites(t: Tables, w: string, payload: Payload, nowMs: int, outcome: AppendOutcome)
    ensures var t' := Apply(t, SessionEvent(w, payload, nowMs, outcome));
            && t' == t.(events := t'.events, lastEventId := t'.lastEventId)
            && t'.events == t.events + (match outcome
                                        case Appended => [Event(t.lastEventId + 1, w, "__sessions__", payload, nowMs)]
                                        case LeftUnfilled => [Event(t.lastEventId + 1, w, "__sessions__", Unfilled,
                                          nowMs)]
                                        case _ => [])
            && t'.lastEventId == t.lastEventId + if outcome.NotInserted? then 0 else 1
  {
    assert t.events + [] == t.events;
  }
}
