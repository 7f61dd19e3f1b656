/** The tables of the message service, what each committed call makes of them, and the invariant they keep. */
module MessageTables {
  import opened Text
  import opened Sql

  /** The immutable payload columns of a message. */
  datatype Content = Content(
    body: string, payloadJson: string, fileId: string, contentType: string, replyToMessageId: string)

  datatype StoredMessage = StoredMessage(
    serverMessageId: string, clientMessageId: string, conversationId: string, workspaceId: string,
    senderId: string, serverSeq: int, messageType: string, content: Content,
    createdAtMs: int, updatedAtMs: int)

  datatype StoreRequest = StoreRequest(
    senderId: string, clientMessageId: string, conversationId: string, workspaceId: string,
    messageType: string, content: Content, recipientIds: seq<string>, createdAtMs: int)

  datatype DeliveryState = Pending | Delivered | Read

  datatype Delivery = Delivery(state: DeliveryState, deliveredAtMs: int, readAtMs: int)

  datatype Role = SenderRole | MemberRole

  datatype Member = Member(role: Role, joinedAtMs: int, updatedAtMs: int)

  datatype Cursor = Cursor(lastReceivedSeq: int, lastReadSeq: int, updatedAtMs: int)

  datatype Payload =
    | MessageCreated(serverMessageId: string, clientMessageId: string, senderId: string, serverSeq: int,
                     messageType: string)
    | MessageDelivered(serverMessageId: string, recipientId: string, serverSeq: int, receivedSeq: int)
    | MessageRead(serverMessageId: string, recipientId: string, serverSeq: int, readSeq: int)
    | SessionOnline(sessionId: string, clientId: string, deviceId: string)
    | SessionOffline(sessionId: string, clientId: string, deviceId: string)
    | Unfilled // the "{}" an event row holds between its INSERT and its UPDATE

  datatype Event = Event(
    eventId: int, workspaceId: string, conversationId: string, payload: Payload, createdAtMs: int)

  /** The database: rows in insertion order, keyed tables as maps, and the AUTOINCREMENT counter of the event log. */
  datatype Tables = Tables(
    messages: seq<StoredMessage>,
    deliveries: map<(string, string), Delivery>,
    members: map<(string, string), Member>,
    cursors: map<(string, string), Cursor>,
    events: seq<Event>,
    lastEventId: nat)

  const EMPTY: Tables := Tables([], map[], map[], map[], [], 0)

  /** The reserved conversation that carries session events. */
  function Sessions(): string { "__sessions__" }

  // ---------------------------------------------------------------- queries

  /** `SELECT * FROM messages WHERE server_message_id = ?`. */
  function FindById(messages: seq<StoredMessage>, id: string): Option<StoredMessage> {
    if messages == [] then None
    else if messages[|messages| - 1].serverMessageId == id then Some(messages[|messages| - 1])
    else FindById(messages[..|messages| - 1], id)
  }

  /** `SELECT * FROM messages WHERE sender_id = ? AND client_message_id = ?`. */
  function FindByKey(messages: seq<StoredMessage>, senderId: string, clientMessageId: string): Option<StoredMessage> {
    if messages == [] then None
    else
      var last := messages[|messages| - 1];
      if last.senderId == senderId && last.clientMessageId == clientMessageId then Some(last)
      else FindByKey(messages[..|messages| - 1], senderId, clientMessageId)
  }

  /** The rows of one conversation, in insertion order. */
  function InConversation(messages: seq<StoredMessage>, conversationId: string): seq<StoredMessage> {
    if messages == [] then []
    else
      var last := messages[|messages| - 1];
      var front := InConversation(messages[..|messages| - 1], conversationId);
      if last.conversationId == conversationId then front + [last] else front
  }

  lemma {:induction false} FindByIdFinds(messages: seq<StoredMessage>, id: string)
    ensures match FindById(messages, id)
            case Some(m) => m in messages && m.serverMessageId == id
            case None => forall m :: m in messages ==> m.serverMessageId != id
  {
    if messages == [] {
    } else {
      FindByIdFinds(messages[..|messages| - 1], id);
      assert messages == messages[..|messages| - 1] + [messages[|messages| - 1]];
    }
  }

  lemma {:induction false} FindByKeyFinds(messages: seq<StoredMessage>, senderId: string, clientMessageId: string)
    ensures match FindByKey(messages, senderId, clientMessageId)
            case Some(m) => m in messages && m.senderId == senderId && m.clientMessageId == clientMessageId
            case None => forall m :: m in messages ==> !(m.senderId == senderId && m.clientMessageId == clientMessageId)
  {
    if messages == [] {
    } else {
      FindByKeyFinds(messages[..|messages| - 1], senderId, clientMessageId);
      assert messages == messages[..|messages| - 1] + [messages[|messages| - 1]];
    }
  }

  lemma {:induction false} InConversationSelects(messages: seq<StoredMessage>, conversationId: string)
    ensures forall m ::
             m in InConversation(messages, conversationId) <==> m in messages && m.conversationId == conversationId
  {
    if messages == [] {
    } else {
      InConversationSelects(messages[..|messages| - 1], conversationId);
      assert messages == messages[..|messages| - 1] + [messages[|messages| - 1]];
    }
  }

  /** `COALESCE(MAX(server_seq), 0)` over one conversation. */
  function MaxSeq(messages: seq<StoredMessage>, conversationId: string): (r: int)
    ensures r >= 0
  {
    if messages == [] then 0
    else
      var last := messages[|messages| - 1];
      var front := MaxSeq(messages[..|messages| - 1], conversationId);
      if last.conversationId == conversationId then Max(front, last.serverSeq) else front
  }

  ghost predicate Sent(messages: seq<StoredMessage>, conversationId: string, clientId: string) {
    exists m :: m in messages && m.conversationId == conversationId && m.senderId == clientId
  }

  function IsRead(e: Event, id: string, recipientId: string): bool {
    e.payload.MessageRead? && e.payload.serverMessageId == id && e.payload.recipientId == recipientId
  }

  function IsDelivered(e: Event, id: string, recipientId: string): bool {
    e.payload.MessageDelivered? && e.payload.serverMessageId == id && e.payload.recipientId == recipientId
  }

  function IsCreated(e: Event, id: string): bool {
    e.payload.MessageCreated? && e.payload.serverMessageId == id
  }

  function ReadCount(events: seq<Event>, id: string, recipientId: string): (n: nat) {
    if events == [] then 0
    else
      var front := ReadCount(events[..|events| - 1], id, recipientId);
      if IsRead(events[|events| - 1], id, recipientId) then front + 1 else front
  }

  function DeliveredCount(events: seq<Event>, id: string, recipientId: string): (n: nat) {
    if events == [] then 0
    else
      var front := DeliveredCount(events[..|events| - 1], id, recipientId);
      if IsDelivered(events[|events| - 1], id, recipientId) then front + 1 else front
  }

  function CreatedCount(events: seq<Event>, id: string): (n: nat) {
    if events == [] then 0
    else
      var front := CreatedCount(events[..|events| - 1], id);
      if IsCreated(events[|events| - 1], id) then front + 1 else front
  }

  // ------------------------------------------------------ recipients of a request

  /** Trimmed, non-empty, without the sender and without repeats, first occurrence first. */
  function Recipients(raw: seq<string>, senderId: string): seq<string> {
    if raw == [] then []
    else
      var front := Recipients(raw[..|raw| - 1], senderId);
      var x := Trimmed(raw[|raw| - 1]);
      if x == "" || x == senderId || x in front then front else front + [x]
  }

  /** Exactly the trimmed non-empty names other than the sender, each once. */
  lemma {:induction false} RecipientsAreExact(raw: seq<string>, senderId: string)
    ensures forall x ::
             x in Recipients(raw, senderId) <==> (exists s :: s in raw && Trimmed(s) == x) && x != "" && x != senderId
    ensures forall i, j ::
             0 <= i < j < |Recipients(raw, senderId)| ==> Recipients(raw, senderId)[i] != Recipients(raw, senderId)[j]
  {
    if raw == [] {
    } else {
      RecipientsAreExact(raw[..|raw| - 1], senderId);
      assert raw == raw[..|raw| - 1] + [raw[|raw| - 1]];
    }
  }

  lemma RecipientsAreClean(raw: seq<string>, senderId: string)
    ensures forall x :: x in Recipients(raw, senderId) ==> Clean(x)
  {
    RecipientsAreExact(raw, senderId);
    forall x | x in Recipients(raw, senderId) ensures Clean(x) {
      var s :| s in raw && Trimmed(s) == x;
      TrimmedIsClean(s);
    }
  }

  // ------------------------------------------------------ single-row writes

  function UpsertMember(members: map<(string, string), Member>, conversationId: string, clientId: string, role: Role,
                        nowMs: int)
    : map<(string, string), Member>
  {
    var key := (conversationId, clientId);
    members[key := Upserted(members, key, role, nowMs)]
  }

  function Upserted(members: map<(string, string), Member>, key: (string, string), role: Role, nowMs: int): Member {
    if key in members
    then Member(if members[key].role == SenderRole then SenderRole else role, members[key].joinedAtMs, nowMs)
    else Member(role, nowMs, nowMs)
  }

  /** Every recipient becomes a member; a sender keeps its role. */
  function AddMembers(members: map<(string, string), Member>, conversationId: string, recipients: seq<string>,
                      nowMs: int)
    : (r: map<(string, string), Member>)
    ensures forall k :: k in r <==> k in members || (k.0 == conversationId && k.1 in recipients)
    ensures forall k :: k in r ==>
      r[k] == if k.0 == conversationId && k.1 in recipients then Upserted(members, k, MemberRole, nowMs) else members[k]
  {
    map k | k in members.Keys + (set r | r in recipients :: (conversationId, r)) ::
      if k.0 == conversationId && k.1 in recipients then Upserted(members, k, MemberRole, nowMs) else members[k]
  }

  /** Missing delivery rows are added as pending; existing rows are left alone. */
  function AddDeliveries(deliveries: map<(string, string), Delivery>, id: string, recipients: seq<string>)
    : (r: map<(string, string), Delivery>)
    ensures forall k :: k in r <==> k in deliveries || (k.0 == id && k.1 in recipients)
    ensures forall k :: k in r ==> r[k] == if k in deliveries then deliveries[k] else Delivery(Pending, 0, 0)
  {
    map k | k in deliveries.Keys + (set r | r in recipients :: (id, r)) ::
      if k in deliveries then deliveries[k] else Delivery(Pending, 0, 0)
  }

  function UpsertCursor(cursors: map<(string, string), Cursor>, key: (string, string), receivedSeq: int, readSeq: int,
                        nowMs: int)
    : map<(string, string), Cursor>
  {
    var received, read := Max(0, receivedSeq), Max(0, readSeq);
    cursors[key :=
      if key in cursors
      then Cursor(Max(cursors[key].lastReceivedSeq, received), Max(cursors[key].lastReadSeq, read), nowMs)
      else Cursor(received, read, nowMs)]
  }

  function AppendEvent(t: Tables, workspaceId: string, conversationId: string, payload: Payload, nowMs: int): Tables {
    t.(events := t.events + [Event(t.lastEventId + 1, workspaceId, conversationId, payload, nowMs)],
       lastEventId := t.lastEventId + 1)
  }

  function CreatedPayload(m: StoredMessage): Payload {
    MessageCreated(m.serverMessageId, m.clientMessageId, m.senderId, m.serverSeq, m.messageType)
  }

  // ------------------------------------------------------ committed calls

  predicate WellFormed(req: StoreRequest) {
    && Trimmed(req.senderId) != "" && Trimmed(req.clientMessageId) != "" && Trimmed(req.conversationId) != ""
    && Trimmed(req.workspaceId) != "" && Trimmed(req.messageType) != ""
    && Recipients(req.recipientIds, Trimmed(req.senderId)) != []
  }

  function Duplicate(t: Tables, req: StoreRequest): Option<StoredMessage> {
    FindByKey(t.messages, Trimmed(req.senderId), Trimmed(req.clientMessageId))
  }

  predicate SameImmutable(m: StoredMessage, req: StoreRequest) {
    && m.conversationId == Trimmed(req.conversationId) && m.workspaceId == Trimmed(req.workspaceId)
    && m.senderId == Trimmed(req.senderId) && m.messageType == Trimmed(req.messageType) && m.content == req.content
  }

  /** What a store call needs in order to succeed: a complete request and, for a new message, an unused server id. */
  predicate StoreAccepts(t: Tables, req: StoreRequest, newId: string) {
    && WellFormed(req)
    && (Duplicate(t, req).None? ==> FindById(t.messages, newId).None?)
  }

  function StoreTime(req: StoreRequest, nowMs: int): int {
    if req.createdAtMs > 0 then req.createdAtMs else nowMs
  }

  function NewMessage(t: Tables, req: StoreRequest, newId: string, nowMs: int): StoredMessage {
    var at := StoreTime(req, nowMs);
    StoredMessage(newId, Trimmed(req.clientMessageId), Trimmed(req.conversationId), Trimmed(req.workspaceId),
                  Trimmed(req.senderId), MaxSeq(t.messages, Trimmed(req.conversationId)) + 1,
                  Trimmed(req.messageType), req.content, at, at)
  }

  predicate AddsRecipient(t: Tables, id: string, recipients: seq<string>) {
    exists r :: r in recipients && (id, r) !in t.deliveries
  }

  /** The tables after a successful store. */
  function StoreCommitted(t: Tables, req: StoreRequest, newId: string, nowMs: int): Tables {
    var recipients := Recipients(req.recipientIds, Trimmed(req.senderId));
    match Duplicate(t, req)
    case Some(m) => if SameImmutable(m, req) then Expanded(t, m, recipients, nowMs) else t
    case None => Inserted(t, NewMessage(t, req, newId, nowMs), recipients, nowMs)
  }

  /** A retry of a known message: missing recipients join, and the message is announced again if there were any. */
  function Expanded(t: Tables, m: StoredMessage, recipients: seq<string>, nowMs: int): Tables {
    var t' := t.(members := AddMembers(t.members, m.conversationId, recipients, nowMs),
                 deliveries := AddDeliveries(t.deliveries, m.serverMessageId, recipients));
    if AddsRecipient(t, m.serverMessageId, recipients)
    then AppendEvent(t', m.workspaceId, m.conversationId, CreatedPayload(m), nowMs)
    else t'
  }

  function Inserted(t: Tables, m: StoredMessage, recipients: seq<string>, nowMs: int): Tables {
    var senders := UpsertMember(t.members, m.conversationId, m.senderId, SenderRole, m.createdAtMs);
    AppendEvent(
      t.(messages := t.messages + [m],
         members := AddMembers(senders, m.conversationId, recipients, m.createdAtMs),
         deliveries := AddDeliveries(t.deliveries, m.serverMessageId, recipients)),
      m.workspaceId, m.conversationId, CreatedPayload(m), nowMs)
  }

  predicate AckAccepts(t: Tables, id: string, recipientId: string) {
    FindById(t.messages, id).Some? && (id, recipientId) in t.deliveries
  }

  function DeliveredRow(d: Delivery, nowMs: int): Delivery {
    Delivery(if d.state == Read then Read else Delivered,
             if d.deliveredAtMs == 0 then nowMs else d.deliveredAtMs,
             d.readAtMs)
  }

  function ReadRow(d: Delivery, nowMs: int): Delivery {
    Delivery(Read, if d.deliveredAtMs == 0 then nowMs else d.deliveredAtMs, nowMs)
  }

  function DeliveredCommitted(t: Tables, id: string, recipientId: string, receivedSeq: int, nowMs: int): Tables
    requires AckAccepts(t, id, recipientId)
  {
    var m := FindById(t.messages, id).value;
    var d := t.deliveries[(id, recipientId)];
    var t' := t.(deliveries := t.deliveries[(id, recipientId) := DeliveredRow(d, nowMs)],
                 cursors := UpsertCursor(t.cursors, (m.conversationId, recipientId), receivedSeq, 0, nowMs));
    if d.deliveredAtMs <= 0 && d.readAtMs <= 0
    then AppendEvent(t', m.workspaceId, m.conversationId,
                     MessageDelivered(id, recipientId, m.serverSeq, Max(0, receivedSeq)), nowMs)
    else t'
  }

  function ReadCommitted(t: Tables, id: string, recipientId: string, readSeq: int, nowMs: int): Tables
    requires AckAccepts(t, id, recipientId)
  {
    var m := FindById(t.messages, id).value;
    var d := t.deliveries[(id, recipientId)];
    var t' := t.(deliveries := t.deliveries[(id, recipientId) := ReadRow(d, nowMs)],
                 cursors := UpsertCursor(t.cursors, (m.conversationId, recipientId), readSeq, readSeq, nowMs));
    if d.readAtMs <= 0
    then AppendEvent(t', m.workspaceId, m.conversationId,
                     MessageRead(id, recipientId, m.serverSeq, Max(0, readSeq)), nowMs)
    else t'
  }

  /**
   * What an append outside a transaction can leave behind: a complete row, a
   * used-up id (the UPDATE failed and the row was deleted again), an unfilled row
   * (the DELETE failed too), or nothing.
   */
  datatype AppendOutcome = Appended | IdUsedUp | LeftUnfilled | NotInserted

  function EventAppended(t: Tables, workspaceId: string, conversationId: string, payload: Payload, nowMs: int,
                         outcome: AppendOutcome): Tables {
    match outcome
    case Appended => AppendEvent(t, workspaceId, conversationId, payload, nowMs)
    case IdUsedUp => t.(lastEventId := t.lastEventId + 1)
    case LeftUnfilled => AppendEvent(t, workspaceId, conversationId, Unfilled, nowMs)
    case NotInserted => t
  }

  /** One call as the tables see it. A call that fails is `RolledBack`. */
  datatype Op =
    | Store(req: StoreRequest, newId: string, nowMs: int)
    | AckDelivered(id: string, recipientId: string, receivedSeq: int, nowMs: int)
    | AckRead(id: string, recipientId: string, readSeq: int, nowMs: int)
    | SessionEvent(workspaceId: string, payload: Payload, nowMs: int, outcome: AppendOutcome)
    | RolledBack

  /** The clock is positive, and session events carry session payloads. */
  predicate ValidOp(op: Op) {
    match op
    case Store(_, _, _) => true
    case AckDelivered(_, _, _, nowMs) => nowMs > 0
    case AckRead(_, _, _, nowMs) => nowMs > 0
    case SessionEvent(_, payload, _, _) => payload.SessionOnline? || payload.SessionOffline?
    case RolledBack => true
  }

  function Apply(t: Tables, op: Op): Tables {
    match op
    case Store(req, newId, nowMs) => if StoreAccepts(t, req, newId) then StoreCommitted(t, req, newId, nowMs) else t
    case AckDelivered(id, r, n, nowMs) => if AckAccepts(t, id, r) then DeliveredCommitted(t, id, r, n, nowMs) else t
    case AckRead(id, r, n, nowMs) => if AckAccepts(t, id, r) then ReadCommitted(t, id, r, n, nowMs) else t
    case SessionEvent(w, payload, nowMs, outcome) => EventAppended(t, w, Sessions(), payload, nowMs, outcome)
    case RolledBack => t
  }

  // ------------------------------------------------------ the invariant

  predicate Numbered(rows: seq<StoredMessage>) {
    forall k :: 0 <= k < |rows| ==> rows[k].serverSeq == k + 1
  }

  /** The server sequence numbers of every conversation are 1..n in insertion order. */
  ghost predicate Sequenced(messages: seq<StoredMessage>) {
    forall conversationId :: Numbered(InConversation(messages, conversationId))
  }

  predicate DistinctKeys(messages: seq<StoredMessage>) {
    forall i, j :: 0 <= i < j < |messages| ==>
      && messages[i].serverMessageId != messages[j].serverMessageId
      && !(messages[i].senderId == messages[j].senderId && messages[i].clientMessageId == messages[j].clientMessageId)
  }

  predicate CleanMessages(messages: seq<StoredMessage>) {
    forall m :: m in messages ==>
      && Clean(m.senderId) && Clean(m.clientMessageId) && Clean(m.conversationId)
      && Clean(m.workspaceId) && Clean(m.messageType)
  }

  /** A delivery row belongs to a stored message, and its recipient is a member and not the sender. */
  predicate DeliveryOk(messages: seq<StoredMessage>, members: map<(string, string), Member>, key: (string, string)) {
    var m := FindById(messages, key.0);
    m.Some? && (m.value.conversationId, key.1) in members && key.1 != m.value.senderId && Clean(key.1)
  }

  predicate DeliveriesOk(t: Tables) {
    forall key :: key in t.deliveries ==> DeliveryOk(t.messages, t.members, key)
  }

  /** The role `sender` belongs to exactly those who have a stored message in the conversation. */
  ghost predicate RolesOk(messages: seq<StoredMessage>, members: map<(string, string), Member>) {
    && (forall key :: key in members ==> (members[key].role == SenderRole <==> Sent(messages, key.0, key.1)))
    && (forall m :: m in messages ==> (m.conversationId, m.senderId) in members)
  }

  predicate Rising(events: seq<Event>) {
    forall i, j :: 0 <= i < j < |events| ==> events[i].eventId < events[j].eventId
  }

  /** Event ids grow along the log and never exceed the counter. */
  predicate LogOrdered(events: seq<Event>, lastEventId: int) {
    && Rising(events)
    && (forall i :: 0 <= i < |events| ==> 0 < events[i].eventId <= lastEventId)
  }

  predicate RowAgrees(d: Delivery) {
    match d.state
    case Pending => d.deliveredAtMs == 0 && d.readAtMs == 0
    case Delivered => d.deliveredAtMs > 0 && d.readAtMs == 0
    case Read => d.deliveredAtMs > 0 && d.readAtMs > 0
  }

  /** The state of a delivery row; no row counts as pending. */
  function StateOf(deliveries: map<(string, string), Delivery>, id: string, recipientId: string): DeliveryState {
    if (id, recipientId) in deliveries then deliveries[(id, recipientId)].state else Pending
  }

  /**
   * What the log holds for one (message, recipient) in a given state: one read
   * event exactly when the row is read, a delivered event when it is delivered,
   * at most one of them, and never after the read event.
   */
  predicate AckLogOk(events: seq<Event>, id: string, recipientId: string, state: DeliveryState) {
    && ReadCount(events, id, recipientId) == (if state == Read then 1 else 0)
    && DeliveredCount(events, id, recipientId) <= 1
    && (state == Delivered ==> DeliveredCount(events, id, recipientId) == 1)
    && (state == Pending ==> DeliveredCount(events, id, recipientId) == 0)
    && (forall i, j :: 0 <= i < j < |events| ==>
          !(IsRead(events[i], id, recipientId) && IsDelivered(events[j], id, recipientId)))
  }

  ghost predicate AcksOk(deliveries: map<(string, string), Delivery>, events: seq<Event>) {
    && (forall key :: key in deliveries ==> RowAgrees(deliveries[key]))
    && (forall id, recipientId :: AckLogOk(events, id, recipientId, StateOf(deliveries, id, recipientId)))
  }

  predicate CursorsOk(cursors: map<(string, string), Cursor>) {
    forall key :: key in cursors ==> 0 <= cursors[key].lastReadSeq <= cursors[key].lastReceivedSeq
  }

  ghost predicate Inv(t: Tables) {
    && Sequenced(t.messages) && DistinctKeys(t.messages) && CleanMessages(t.messages)
    && DeliveriesOk(t) && RolesOk(t.messages, t.members)
    && LogOrdered(t.events, t.lastEventId) && AcksOk(t.deliveries, t.events) && CursorsOk(t.cursors)
  }

  // ------------------------------------------------------ numbering

  /** In a numbered conversation `MAX(server_seq)` is the number of its messages. */
  lemma {:induction false} MaxSeqIsLength(messages: seq<StoredMessage>, conversationId: string)
    requires Numbered(InConversation(messages, conversationId))
    ensures MaxSeq(messages, conversationId) == |InConversation(messages, conversationId)|
  {
    if messages == [] {
    } else {
      var front := messages[..|messages| - 1];
      var rows := InConversation(messages, conversationId);
      var frontRows := InConversation(front, conversationId);
      assert forall k :: 0 <= k < |frontRows| ==> frontRows[k] == rows[k];
      var last := messages[|messages| - 1];
      assert if last.conversationId == conversationId then rows == frontRows + [last] && rows[|rows| - 1] == last
             else rows == frontRows;
      MaxSeqIsLength(front, conversationId);
    }
  }

  lemma AppendedMessage(messages: seq<StoredMessage>, m: StoredMessage)
    ensures forall c :: InConversation(messages + [m], c) ==
                        (if m.conversationId == c then InConversation(messages, c) + [m]
                         else InConversation(messages, c))
    ensures forall id :: FindById(messages + [m], id) ==
                         (if m.serverMessageId == id then Some(m) else FindById(messages, id))
    ensures forall s, c :: FindByKey(messages + [m], s, c) ==
                           (if m.senderId == s && m.clientMessageId == c then Some(m) else FindByKey(messages, s, c))
  {
    assert (messages + [m])[..|messages|] == messages;
  }

  lemma AppendedEvent(events: seq<Event>, e: Event)
    ensures forall id, r ::
             ReadCount(events + [e], id, r) == ReadCount(events, id, r) + (if IsRead(e, id, r) then 1 else 0)
    ensures forall id, r ::
             DeliveredCount(events + [e], id, r) == DeliveredCount(events, id, r)
               + (if IsDelivered(e, id, r) then 1 else 0)
    ensures forall id ::
             CreatedCount(events + [e], id) == CreatedCount(events, id) + (if IsCreated(e, id) then 1 else 0)
  {
    assert (events + [e])[..|events|] == events;
  }

  lemma {:induction false} NoReadNoEvent(events: seq<Event>, id: string, recipientId: string)
    requires ReadCount(events, id, recipientId) == 0
    ensures forall i :: 0 <= i < |events| ==> !IsRead(events[i], id, recipientId)
  {
    if events == [] {
    } else {
      NoReadNoEvent(events[..|events| - 1], id, recipientId);
    }
  }
}
