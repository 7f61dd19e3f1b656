/**
 * The message service database. A call runs its SQL statements one by one on the working
 * state of its transaction; any statement may fail. COMMIT publishes the working state,
 * ROLLBACK drops it.
 */
module MessageStore {
  import opened Text
  import opened Sql
  import opened MessageTables
  import opened MessageInvariant

  /** The SQL statements of one call; `index` counts the recipients. */
  datatype Statement =
    | Begin | SelectMessage | SelectDuplicate | SelectMaxSeq | SelectDelivery
    | InsertMessage | UpsertSender | UpsertRecipient(index: nat) | InsertDelivery(index: nat)
    | UpdateDelivery | WriteCursor | InsertEvent | UpdateEvent | DeleteEvent

  /** The statements of a call that fail. */
  type Faults = set<Statement>

  datatype StoreResult = StoreFailed | Stored(message: StoredMessage, duplicate: bool)

  // ---------------------------------------------------- recipients

  /** The loop that cleans the recipient list of a request. */
  method NormalizedRecipients(recipientIds: seq<string>, senderId: string) returns (result: seq<string>)
    ensures result == Recipients(recipientIds, senderId)
  {
    result := [];
    var seen := {};
    for i := 0 to |recipientIds|
      invariant result == Recipients(recipientIds[..i], senderId)
      invariant forall x :: x in seen <==> x in result
    {
      assert recipientIds[..i + 1][..i] == recipientIds[..i];
      var recipientId := Trimmed(recipientIds[i]);
      if recipientId == "" || recipientId == senderId || recipientId in seen {
        continue;
      }
      seen := seen + {recipientId};
      result := result + [recipientId];
    }
    assert recipientIds[..|recipientIds|] == recipientIds;
  }

  // ---------------------------------------------------- event rows

  function SetPayload(events: seq<Event>, eventId: int, payload: Payload): seq<Event> {
    if events == [] then []
    else
      var last := events[|events| - 1];
      SetPayload(events[..|events| - 1], eventId, payload)
        + [if last.eventId == eventId then last.(payload := payload) else last]
  }

  function WithoutEvent(events: seq<Event>, eventId: int): seq<Event> {
    if events == [] then []
    else
      var last := events[|events| - 1];
      var front := WithoutEvent(events[..|events| - 1], eventId);
      if last.eventId == eventId then front else front + [last]
  }

  /** `WHERE event_id = ?` with an id that no row carries touches nothing. */
  lemma {:induction false} UpdateOfUnknownEvent(events: seq<Event>, eventId: int, payload: Payload)
    requires forall i :: 0 <= i < |events| ==> events[i].eventId != eventId
    ensures SetPayload(events, eventId, payload) == events
  {
    if events == [] {
    } else {
      UpdateOfUnknownEvent(events[..|events| - 1], eventId, payload);
      assert events == events[..|events| - 1] + [events[|events| - 1]];
    }
  }

  lemma {:induction false} DeleteOfUnknownEvent(events: seq<Event>, eventId: int)
    requires forall i :: 0 <= i < |events| ==> events[i].eventId != eventId
    ensures WithoutEvent(events, eventId) == events
  {
    if events == [] {
    } else {
      DeleteOfUnknownEvent(events[..|events| - 1], eventId);
      assert events == events[..|events| - 1] + [events[|events| - 1]];
    }
  }

  /** With the id just inserted it touches the last row only. */
  lemma LastRowOnly(events: seq<Event>, e: Event, payload: Payload)
    requires forall i :: 0 <= i < |events| ==> events[i].eventId != e.eventId
    ensures SetPayload(events + [e], e.eventId, payload) == events + [e.(payload := payload)]
    ensures WithoutEvent(events + [e], e.eventId) == events
  {
    UpdateOfUnknownEvent(events, e.eventId, payload);
    DeleteOfUnknownEvent(events, e.eventId);
    assert (events + [e])[..|events|] == events;
  }

  /** Which statement of an append fails decides what is left behind. */
  function OutcomeOf(blank: bool, faults: Faults): AppendOutcome {
    if blank || InsertEvent in faults then NotInserted
    else if UpdateEvent !in faults then Appended
    else if DeleteEvent in faults then LeftUnfilled
    else IdUsedUp
  }

  /**
   * Inserts an event row with an empty payload, then fills it in. If the UPDATE
   * fails the row is deleted again, which may fail as well.
   */
  method AppendEventWithPayload(t: Tables, workspaceId: string, conversationId: string, payload: Payload, nowMs: int,
                                faults: Faults)
    returns (outcome: AppendOutcome, t': Tables)
    requires LogOrdered(t.events, t.lastEventId)
    ensures outcome == OutcomeOf(Trimmed(workspaceId) == "" || Trimmed(conversationId) == "", faults)
    ensures outcome.NotInserted? <==>
              Trimmed(workspaceId) == "" || Trimmed(conversationId) == "" || InsertEvent in faults
    ensures outcome.Appended? <==> !outcome.NotInserted? && UpdateEvent !in faults
    ensures outcome.LeftUnfilled? <==> !outcome.NotInserted? && UpdateEvent in faults && DeleteEvent in faults
    ensures t' == EventAppended(t, Trimmed(workspaceId), Trimmed(conversationId), payload, nowMs, outcome)
  {
    hide Trimmed, SetPayload, WithoutEvent;
    var workspace, conversation := Trimmed(workspaceId), Trimmed(conversationId);
    if workspace == "" || conversation == "" || InsertEvent in faults {
      return NotInserted, t;
    }
    var eventId := t.lastEventId + 1;
    t' := AppendEvent(t, workspace, conversation, Unfilled, nowMs);
    LastRowOnly(t.events, Event(eventId, workspace, conversation, Unfilled, nowMs), payload);
    if UpdateEvent !in faults {
      return Appended, t'.(events := SetPayload(t'.events, eventId, payload));
    }
    if DeleteEvent in faults {
      return LeftUnfilled, t';
    }
    return IdUsedUp, t'.(events := WithoutEvent(t'.events, eventId));
  }

  // ---------------------------------------------------- the transaction of a store

  function WithRecipients(t: Tables, m: StoredMessage, recipients: seq<string>, nowMs: int): Tables {
    t.(members := AddMembers(t.members, m.conversationId, recipients, nowMs),
       deliveries := AddDeliveries(t.deliveries, m.serverMessageId, recipients))
  }

  lemma OneMoreMember(members: map<(string, string), Member>, conversationId: string, done: seq<string>, r: string,
                      nowMs: int)
    ensures AddMembers(members, conversationId, done + [r], nowMs)
            == UpsertMember(AddMembers(members, conversationId, done, nowMs), conversationId, r, MemberRole, nowMs)
  {
    hide AddMembers;
  }

  lemma OneMoreDelivery(deliveries: map<(string, string), Delivery>, id: string, done: seq<string>, r: string)
    ensures var before := AddDeliveries(deliveries, id, done);
            AddDeliveries(deliveries, id, done + [r])
            == if (id, r) in before then before else before[(id, r) := Delivery(Pending, 0, 0)]
  {
    hide AddDeliveries;
  }

  lemma AddsOneMore(t: Tables, id: string, done: seq<string>, r: string)
    ensures AddsRecipient(t, id, done + [r])
            <==> AddsRecipient(t, id, done) || (id, r) !in AddDeliveries(t.deliveries, id, done)
  {
    hide AddDeliveries;
    if AddsRecipient(t, id, done) {
      var x :| x in done && (id, x) !in t.deliveries;
      assert x in done + [r];
    }
    assert r in done + [r];
  }

  /** No recipient is repeated and none has a row: then every `INSERT` adds a row, with or without `OR IGNORE`. */
  predicate FreshRows(t: Tables, id: string, recipients: seq<string>) {
    && (forall i, j :: 0 <= i < j < |recipients| ==> recipients[i] != recipients[j])
    && (forall r :: r in recipients ==> (id, r) !in t.deliveries)
  }

  lemma FreshRow(t: Tables, id: string, recipients: seq<string>, i: nat)
    requires i < |recipients|
    ensures FreshRows(t, id, recipients) ==> (id, recipients[i]) !in AddDeliveries(t.deliveries, id, recipients[..i])
  {
    hide AddDeliveries;
  }

  lemma OneMoreRecipient(t: Tables, m: StoredMessage, recipients: seq<string>, i: nat, nowMs: int)
    requires i < |recipients|
    ensures var r, before := recipients[i], AddDeliveries(t.deliveries, m.serverMessageId, recipients[..i]);
            && AddMembers(t.members, m.conversationId, recipients[..i + 1], nowMs)
               == UpsertMember(AddMembers(t.members, m.conversationId, recipients[..i], nowMs), m.conversationId, r,
                               MemberRole, nowMs)
            && AddDeliveries(t.deliveries, m.serverMessageId, recipients[..i + 1])
               == (if (m.serverMessageId, r) in before then before
                   else before[(m.serverMessageId, r) := Delivery(Pending, 0, 0)])
            && (AddsRecipient(t, m.serverMessageId, recipients[..i + 1])
                <==> AddsRecipient(t, m.serverMessageId, recipients[..i]) || (m.serverMessageId, r) !in before)
            && (FreshRows(t, m.serverMessageId, recipients) ==> (m.serverMessageId, r) !in before)
  {
    hide AddMembers, AddDeliveries, UpsertMember, AddsRecipient, FreshRows;
    assert recipients[..i + 1] == recipients[..i] + [recipients[i]];
    OneMoreMember(t.members, m.conversationId, recipients[..i], recipients[i], nowMs);
    OneMoreDelivery(t.deliveries, m.serverMessageId, recipients[..i], recipients[i]);
    AddsOneMore(t, m.serverMessageId, recipients[..i], recipients[i]);
    FreshRow(t, m.serverMessageId, recipients, i);
  }

  /** One turn of the recipient loop: upsert the member, insert the delivery row if it is missing. */
  method AddRecipient(members: map<(string, string), Member>, deliveries: map<(string, string), Delivery>,
                      m: StoredMessage, recipient: string, index: nat, nowMs: int, faults: Faults)
    returns (ok: bool, members': map<(string, string), Member>, deliveries': map<(string, string), Delivery>,
             isNew: bool)
    ensures ok <==> UpsertRecipient(index) !in faults && InsertDelivery(index) !in faults
    ensures ok ==> members' == UpsertMember(members, m.conversationId, recipient, MemberRole, nowMs)
    ensures ok ==> isNew == ((m.serverMessageId, recipient) !in deliveries)
    ensures ok ==> deliveries' == if isNew then deliveries[(m.serverMessageId, recipient) := Delivery(Pending, 0, 0)]
            else deliveries
  {
    hide UpsertMember;
    members', deliveries', isNew := members, deliveries, false;
    if UpsertRecipient(index) in faults { return false, members', deliveries', false; }
    members' := UpsertMember(members', m.conversationId, recipient, MemberRole, nowMs);
    if InsertDelivery(index) in faults { return false, members', deliveries', false; }
    if (m.serverMessageId, recipient) !in deliveries' {
      deliveries' := deliveries'[(m.serverMessageId, recipient) := Delivery(Pending, 0, 0)];
      isNew := true;
    }
    ok := true;
  }

  /** The loop has dealt with the first `n` recipients. */
  ghost predicate Handled(t: Tables, m: StoredMessage, recipients: seq<string>, n: nat, nowMs: int,
                          members: map<(string, string), Member>, deliveries: map<(string, string), Delivery>,
                            added: nat)
  {
    && n <= |recipients|
    && members == AddMembers(t.members, m.conversationId, recipients[..n], nowMs)
    && deliveries == AddDeliveries(t.deliveries, m.serverMessageId, recipients[..n])
    && (added > 0 <==> AddsRecipient(t, m.serverMessageId, recipients[..n]))
    && (FreshRows(t, m.serverMessageId, recipients) ==> added == n)
  }

  lemma NoneHandled(t: Tables, m: StoredMessage, recipients: seq<string>, nowMs: int)
    ensures Handled(t, m, recipients, 0, nowMs, t.members, t.deliveries, 0)
  {
    hide AddMembers, AddDeliveries, AddsRecipient, FreshRows;
    NoRecipients(t, m, nowMs);
    assert recipients[..0] == [];
  }

  lemma OneHandled(t: Tables, m: StoredMessage, recipients: seq<string>, n: nat, nowMs: int,
                   members: map<(string, string), Member>, deliveries: map<(string, string), Delivery>, added: nat)
    requires Handled(t, m, recipients, n, nowMs, members, deliveries, added) && n < |recipients|
    ensures var key := (m.serverMessageId, recipients[n]);
            Handled(t, m, recipients, n + 1, nowMs,
                    UpsertMember(members, m.conversationId, recipients[n], MemberRole, nowMs),
                    if key in deliveries then deliveries else deliveries[key := Delivery(Pending, 0, 0)],
                    if key in deliveries then added else added + 1)
  {
    hide AddMembers, AddDeliveries, UpsertMember, AddsRecipient, FreshRows, Upserted;
    OneMoreRecipient(t, m, recipients, n, nowMs);
  }

  lemma AllHandled(t: Tables, m: StoredMessage, recipients: seq<string>, nowMs: int,
                   members: map<(string, string), Member>, deliveries: map<(string, string), Delivery>, added: nat)
    requires Handled(t, m, recipients, |recipients|, nowMs, members, deliveries, added)
    ensures t.(members := members, deliveries := deliveries) == WithRecipients(t, m, recipients, nowMs)
    ensures added > 0 <==> AddsRecipient(t, m.serverMessageId, recipients)
    ensures FreshRows(t, m.serverMessageId, recipients) ==> added == |recipients|
  {
    hide AddMembers, AddDeliveries, AddsRecipient, FreshRows;
    assert recipients[..|recipients|] == recipients;
  }

  /** None of the statements for the first `n` recipients fails. */
  predicate RecipientsSucceed(faults: Faults, n: nat) {
    forall i: nat :: i < n ==> UpsertRecipient(i) !in faults && InsertDelivery(i) !in faults
  }

  /**
   * The recipient loop shared by both branches of a store, which counts the rows added and gives up at the
   * first failing statement.
   */
  method AddRecipients(t: Tables, m: StoredMessage, recipients: seq<string>, nowMs: int, faults: Faults)
    returns (ok: bool, t': Tables, added: nat)
    ensures ok ==> t' == WithRecipients(t, m, recipients, nowMs)
    ensures ok ==> (added > 0 <==> AddsRecipient(t, m.serverMessageId, recipients))
    ensures ok && FreshRows(t, m.serverMessageId, recipients) ==> added == |recipients|
    ensures ok <==> forall i: nat ::
              i < |recipients| ==> UpsertRecipient(i) !in faults && InsertDelivery(i) !in faults
  {
    hide Handled, WithRecipients, UpsertMember, AddsRecipient, FreshRows;
    var members, deliveries := t.members, t.deliveries;
    added := 0;
    NoneHandled(t, m, recipients, nowMs);
    for i := 0 to |recipients|
      invariant Handled(t, m, recipients, i, nowMs, members, deliveries, added)
      invariant RecipientsSucceed(faults, i)
    {
      OneHandled(t, m, recipients, i, nowMs, members, deliveries, added);
      var isNew;
      ok, members, deliveries, isNew := AddRecipient(members, deliveries, m, recipients[i], i, nowMs, faults);
      if !ok { return false, t, 0; }
      if isNew { added := added + 1; }
    }
    AllHandled(t, m, recipients, nowMs, members, deliveries, added);
    return true, t.(members := members, deliveries := deliveries), added;
  }

  lemma NoRecipients(t: Tables, m: StoredMessage, nowMs: int)
    ensures AddMembers(t.members, m.conversationId, [], nowMs) == t.members
    ensures AddDeliveries(t.deliveries, m.serverMessageId, []) == t.deliveries
    ensures !AddsRecipient(t, m.serverMessageId, [])
  {
  }

  /** The retry branch: merge the recipients and announce the message again if there were new ones. */
  method MergeRetry(t: Tables, m: StoredMessage, recipients: seq<string>, nowMs: int, faults: Faults)
    returns (ok: bool, t': Tables)
    requires LogOrdered(t.events, t.lastEventId) && Clean(m.conversationId) && Clean(m.workspaceId)
    ensures ok ==> t' == Expanded(t, m, recipients, nowMs)
    ensures faults == {} ==> ok
  {
    hide AddMembers, AddDeliveries, AddsRecipient, Trimmed;
    var added;
    ok, t', added := AddRecipients(t, m, recipients, nowMs, faults);
    if ok && added > 0 {
      var outcome;
      outcome, t' := AppendEventWithPayload(t', m.workspaceId, m.conversationId, CreatedPayload(m), nowMs, faults);
      ok := outcome == Appended;
    }
  }

  predicate SeqTaken(messages: seq<StoredMessage>, conversationId: string, serverSeq: int) {
    exists m :: m in messages && m.conversationId == conversationId && m.serverSeq == serverSeq
  }

  /** The next number is free, and if 1 is free the conversation is empty: a failed MAX query cannot break the
    * numbering. */
  lemma TakenNumbers(messages: seq<StoredMessage>, conversationId: string, serverSeq: int)
    requires Sequenced(messages)
    requires serverSeq == 1 || serverSeq == MaxSeq(messages, conversationId) + 1
    ensures !SeqTaken(messages, conversationId, serverSeq) <==> serverSeq == MaxSeq(messages, conversationId) + 1
  {
    var rows := InConversation(messages, conversationId);
    InConversationSelects(messages, conversationId);
    assert Numbered(rows);
    MaxSeqIsLength(messages, conversationId);
    if rows != [] { assert rows[0] in rows; }
  }

  /** The PRIMARY KEY and the key of sender and client id accept exactly the rows that keep both distinct. */
  lemma FreshKeys(messages: seq<StoredMessage>, m: StoredMessage)
    requires DistinctKeys(messages)
    ensures FindById(messages, m.serverMessageId).None? && FindByKey(messages, m.senderId, m.clientMessageId).None?
            <==> DistinctKeys(messages + [m])
  {
    hide FindById, FindByKey;
    FindByIdFinds(messages, m.serverMessageId);
    FindByKeyFinds(messages, m.senderId, m.clientMessageId);
    var all := messages + [m];
    forall i | 0 <= i < |messages| ensures all[i] == messages[i] && all[i] in messages { }
    assert all[|messages|] == m;
  }

  /** A row keeps the conversations numbered exactly when it carries the next number of its own. */
  lemma NextRowOnly(messages: seq<StoredMessage>, m: StoredMessage)
    requires Sequenced(messages)
    ensures Sequenced(messages + [m]) <==> m.serverSeq == MaxSeq(messages, m.conversationId) + 1
  {
    hide InConversation, MaxSeq;
    AppendedMessage(messages, m);
    var rows := InConversation(messages, m.conversationId);
    assert Numbered(rows);
    MaxSeqIsLength(messages, m.conversationId);
    assert Numbered(rows + [m]) <==> m.serverSeq == |rows| + 1 by { assert (rows + [m])[|rows|] == m; }
    assert Numbered(InConversation(messages + [m], m.conversationId)) <==> m.serverSeq == |rows| + 1;
  }

  /**
   * The INSERT of a message row, which the PRIMARY KEY and the two UNIQUE constraints may refuse. Short of a
   * fault, they accept a row numbered 1 or next exactly if the table stays numbered and its keys distinct.
   */
  method InsertMessageRow(messages: seq<StoredMessage>, m: StoredMessage, fails: bool) returns (ok: bool)
    requires Sequenced(messages) && DistinctKeys(messages)
    ensures m.serverSeq == 1 || m.serverSeq == MaxSeq(messages, m.conversationId) + 1 ==>
              (ok <==> !fails && Sequenced(messages + [m]) && DistinctKeys(messages + [m]))
    ensures ok ==> DistinctKeys(messages + [m])
  {
    hide FindById, FindByKey, MaxSeq, Sequenced, DistinctKeys, SeqTaken;
    FreshKeys(messages, m);
    NextRowOnly(messages, m);
    if m.serverSeq == 1 || m.serverSeq == MaxSeq(messages, m.conversationId) + 1 {
      TakenNumbers(messages, m.conversationId, m.serverSeq);
    }
    ok := !fails && FindById(messages, m.serverMessageId).None?
      && FindByKey(messages, m.senderId, m.clientMessageId).None?
      && !SeqTaken(messages, m.conversationId, m.serverSeq);
  }

  lemma NewMessageHasNoRows(t: Tables, id: string)
    requires DeliveriesOk(t) && FindById(t.messages, id).None?
    ensures forall r :: (id, r) !in t.deliveries
  {
    hide Clean;
    assert forall r :: (id, r) in t.deliveries ==> DeliveryOk(t.messages, t.members, (id, r));
  }

  /** The insert branch. Its constraints refuse what a failed SELECT let through. */
  method InsertNew(t: Tables, request: StoreRequest, recipients: seq<string>, newId: string, nowMs: int, faults: Faults)
    returns (ok: bool, m: StoredMessage, t': Tables)
    requires Inv(t) && WellFormed(request) && recipients == Recipients(request.recipientIds, Trimmed(request.senderId))
    ensures ok ==> Duplicate(t, request).None? && FindById(t.messages, newId).None?
    ensures ok ==> m == NewMessage(t, request, newId, nowMs) && t' == Inserted(t, m, recipients, nowMs)
    ensures faults == {} && Duplicate(t, request).None? && FindById(t.messages, newId).None? ==> ok
  {
    hide Trimmed, MaxSeq, FindById, FindByKey, Recipients, Inserted, Sequenced, DistinctKeys, CleanMessages, RolesOk,
         AcksOk, CursorsOk;
    var conversationId := Trimmed(request.conversationId);
    var serverSeq := if SelectMaxSeq in faults then 1 else MaxSeq(t.messages, conversationId) + 1;
    m, t' := NewMessage(t, request, newId, nowMs).(serverSeq := serverSeq), t;
    FreshKeys(t.messages, m);
    NextRowOnly(t.messages, m);
    TrimmedIsClean(request.conversationId);
    TrimmedIsClean(request.workspaceId);
    ok := InsertMessageRow(t.messages, m, InsertMessage in faults);
    if ok {
      RecipientsAreExact(request.recipientIds, Trimmed(request.senderId));
      NewMessageHasNoRows(t, newId);
      ok, t' := AnnounceNew(t, m, recipients, nowMs, faults);
    }
  }

  /** What follows a successful INSERT: the sender's membership, the recipients, the event. */
  method AnnounceNew(t: Tables, m: StoredMessage, recipients: seq<string>, nowMs: int, faults: Faults)
    returns (ok: bool, t': Tables)
    requires LogOrdered(t.events, t.lastEventId) && Clean(m.conversationId) && Clean(m.workspaceId)
    requires FreshRows(t, m.serverMessageId, recipients)
    ensures ok ==> t' == Inserted(t, m, recipients, nowMs)
    ensures faults == {} ==> ok
  {
    hide AddMembers, AddDeliveries, AddsRecipient, UpsertMember, Trimmed;
    if UpsertSender in faults { return false, t; }
    var senders := UpsertMember(t.members, m.conversationId, m.senderId, SenderRole, m.createdAtMs);
    t' := t.(messages := t.messages + [m], members := senders);
    var added;
    ok, t', added := AddRecipients(t', m, recipients, m.createdAtMs, faults);
    if ok && added == |recipients| {
      var outcome;
      outcome, t' := AppendEventWithPayload(t', m.workspaceId, m.conversationId, CreatedPayload(m), nowMs, faults);
      ok := outcome == Appended;
    }
  }

  // ---------------------------------------------------- the transaction of an acknowledgement

  /** The row a client acknowledges names it in trimmed form, and so do the message's columns. */
  lemma CleanAck(t: Tables, id: string, recipientId: string)
    requires Inv(t) && AckAccepts(t, id, recipientId)
    ensures var m := FindById(t.messages, id).value;
            Clean(recipientId) && Clean(m.conversationId) && Clean(m.workspaceId)
            && m.serverMessageId == id && Trimmed(recipientId) == recipientId && recipientId != ""
            && LogOrdered(t.events, t.lastEventId)
  {
    hide Trimmed;
    assert DeliveryOk(t.messages, t.members, (id, recipientId));
    FindByIdFinds(t.messages, id);
  }

  /** UPDATE the row, upsert the cursor, append the event if this is the first acknowledgement of its kind. */
  method AckTransaction(t: Tables, m: StoredMessage, recipientId: string, row: Delivery, receivedSeq: int, readSeq: int,
                        announce: bool, payload: Payload, nowMs: int, faults: Faults)
    returns (ok: bool, t': Tables)
    requires LogOrdered(t.events, t.lastEventId) && Clean(recipientId) && Clean(m.conversationId)
             && Clean(m.workspaceId)
    ensures ok ==>
              var after := t.(deliveries := t.deliveries[(m.serverMessageId, recipientId) := row],
                              cursors := UpsertCursor(t.cursors, (m.conversationId, recipientId), receivedSeq, readSeq,
                                                      nowMs));
              t' == if announce then AppendEvent(after, m.workspaceId, m.conversationId, payload, nowMs) else after
    ensures faults == {} ==> ok
  {
    hide Trimmed, UpsertCursor;
    t' := t;
    if UpdateDelivery in faults || WriteCursor in faults { return false, t; }
    t' := t'.(deliveries := t'.deliveries[(m.serverMessageId, recipientId) := row]);
    t' := t'.(cursors := UpsertCursor(t'.cursors, (m.conversationId, recipientId), receivedSeq, readSeq, nowMs));
    ok := true;
    if announce {
      var outcome;
      outcome, t' := AppendEventWithPayload(t', m.workspaceId, m.conversationId, payload, nowMs, faults);
      ok := outcome == Appended;
    }
  }

  // ---------------------------------------------------- the database

  class MessageServiceDatabase {
    var tables: Tables

    ghost predicate Valid()
      reads this
    {
      Inv(tables)
    }

    constructor ()
      ensures Valid() && tables == EMPTY
    {
      tables := EMPTY;
      new;
      EmptyOk();
    }

    /**
     * Stores a message or merges a retry. Success commits exactly a `Store`
     * step; failure leaves the tables as they were; and only a fault or an unacceptable
     * request makes it fail.
     */
    method StoreMessage(request: StoreRequest, newId: string, nowMs: int, faults: Faults) returns (result: StoreResult)
      requires Valid()
      modifies this
      ensures Valid()
      ensures tables == Apply(old(tables), if result.Stored? then Store(request, newId, nowMs) else RolledBack)
      ensures result.Stored? ==> StoreAccepts(old(tables), request, newId)
      ensures faults == {} && StoreAccepts(old(tables), request, newId) ==> result.Stored?
      ensures result.Stored? ==> result.duplicate == Duplicate(old(tables), request).Some?
      ensures result.Stored? ==> Some(result.message) == if result.duplicate then Duplicate(old(tables), request)
                                                         else Some(NewMessage(old(tables), request, newId, nowMs))
    {
      var recipients := NormalizedRecipients(request.recipientIds, Trimmed(request.senderId));
      if Trimmed(request.senderId) == "" || Trimmed(request.clientMessageId) == ""
         || Trimmed(request.conversationId) == ""
        || Trimmed(request.workspaceId) == "" || Trimmed(request.messageType) == "" || recipients == []
        || Begin in faults
      {
        return StoreFailed;
      }
      ghost var start := tables;
      var ok, working := true, tables;
      var duplicate := if SelectDuplicate in faults then None else Duplicate(tables, request);
      if duplicate.Some? {
        DuplicateIsClean(tables, request);
        if SameImmutable(duplicate.value, request) {
          ok, working := MergeRetry(tables, duplicate.value, recipients, nowMs, faults);
        }
        result := Stored(duplicate.value, true);
      } else {
        var m;
        ok, m, working := InsertNew(tables, request, recipients, newId, nowMs, faults);
        result := Stored(m, false);
      }
      if !ok { return StoreFailed; }
      StoreKeepsInv(start, request, newId, nowMs);
      tables := working;
    }

    /** A delivery acknowledgement commits an `AckDelivered` step or changes nothing. */
    method MarkDelivered(serverMessageId: string, recipientId: string, receivedSeq: int, nowMs: int, faults: Faults)
        returns (ok: bool)
      requires Valid() && nowMs > 0
      modifies this
      ensures Valid()
      ensures tables == Apply(old(tables), if ok then AckDelivered(serverMessageId, recipientId, receivedSeq, nowMs)
                              else RolledBack)
      ensures ok ==> AckAccepts(old(tables), serverMessageId, recipientId)
      ensures faults == {} && AckAccepts(old(tables), serverMessageId, recipientId) ==> ok
    {
      hide Clean, Inv, StoreCommitted, StoreAccepts, EventAppended, UpsertCursor, FindById, LogOrdered;
      var found := if SelectMessage in faults then None else FindById(tables.messages, serverMessageId);
      if found.None? || Begin in faults || SelectDelivery in faults
        || (serverMessageId, recipientId) !in tables.deliveries {
        return false;
      }
      CleanAck(tables, serverMessageId, recipientId);
      DeliveredKeepsInv(tables, serverMessageId, recipientId, receivedSeq, nowMs);
      var m, before := found.value, tables.deliveries[(serverMessageId, recipientId)];
      var working;
      ok, working := AckTransaction(
        tables, m, recipientId, DeliveredRow(before, nowMs), receivedSeq, 0, before.deliveredAtMs <= 0
          && before.readAtMs <= 0,
        MessageDelivered(serverMessageId, Trimmed(recipientId), m.serverSeq, Max(0, receivedSeq)), nowMs, faults);
      if ok { tables := working; }
    }

    /** A read acknowledgement commits an `AckRead` step or changes nothing. */
    method MarkRead(serverMessageId: string, recipientId: string, readSeq: int, nowMs: int, faults: Faults)
        returns (ok: bool)
      requires Valid() && nowMs > 0
      modifies this
      ensures Valid()
      ensures tables == Apply(old(tables), if ok then AckRead(serverMessageId, recipientId, readSeq, nowMs)
                              else RolledBack)
      ensures ok ==> AckAccepts(old(tables), serverMessageId, recipientId)
      ensures faults == {} && AckAccepts(old(tables), serverMessageId, recipientId) ==> ok
    {
      hide Clean, Inv, StoreCommitted, StoreAccepts, EventAppended, UpsertCursor, FindById, LogOrdered;
      var found := if SelectMessage in faults then None else FindById(tables.messages, serverMessageId);
      if found.None? || Begin in faults || SelectDelivery in faults
        || (serverMessageId, recipientId) !in tables.deliveries {
        return false;
      }
      CleanAck(tables, serverMessageId, recipientId);
      ReadKeepsInv(tables, serverMessageId, recipientId, readSeq, nowMs);
      var m, before := found.value, tables.deliveries[(serverMessageId, recipientId)];
      var working;
      ok, working := AckTransaction(
        tables, m, recipientId, ReadRow(before, nowMs), readSeq, readSeq, before.readAtMs <= 0,
        MessageRead(serverMessageId, Trimmed(recipientId), m.serverSeq, Max(0, readSeq)), nowMs, faults);
      if ok { tables := working; }
    }

    /** Session events are written outside any transaction: a failed append may use up an id or leave an unfilled
      * row. */
    method AppendSessionStatusEvent(workspaceId: string, payload: Payload, nowMs: int, faults: Faults)
      returns (outcome: AppendOutcome)
      requires Valid() && (payload.SessionOnline? || payload.SessionOffline?)
      modifies this
      ensures Valid()
      ensures outcome == OutcomeOf(Trimmed(workspaceId) == "" || !CompleteSession(CleanedSession(payload)), faults)
      ensures outcome.NotInserted? <==>
                Trimmed(workspaceId) == "" || Trimmed(payload.sessionId) == "" || Trimmed(payload.clientId) == ""
                || Trimmed(payload.deviceId) == "" || InsertEvent in faults
      ensures outcome.Appended? ==>
                && |tables.events| == |old(tables.events)| + 1 && old(tables.events) <= tables.events
                && (var e := tables.events[|old(tables.events)|];
                    && e.workspaceId == Trimmed(workspaceId) && e.conversationId == "__sessions__"
                    && e.createdAtMs == nowMs && (e.payload.SessionOnline? <==> payload.SessionOnline?)
                    && (e.payload.SessionOnline? || e.payload.SessionOffline?)
                    && e.payload.sessionId == Trimmed(payload.sessionId)
                    && e.payload.clientId == Trimmed(payload.clientId)
                    && e.payload.deviceId == Trimmed(payload.deviceId))
      ensures tables == Apply(old(tables), SessionEvent(Trimmed(workspaceId), CleanedSession(payload), nowMs, outcome))
    {
      hide Inv, Trimmed, Sessions, EventAppended;
      var cleaned := CleanedSession(payload);
      NotInsertedKeeps(tables, Trimmed(workspaceId), cleaned, nowMs);
      if !CompleteSession(cleaned) { return NotInserted; }
      SessionsIsTrimmed();
      InvLogOrdered(tables);
      var working;
      outcome, working := AppendEventWithPayload(tables, workspaceId, Sessions(), cleaned, nowMs, faults);
      SessionEventKeepsInv(tables, Trimmed(workspaceId), cleaned, nowMs, outcome);
      AppendedIsLast(tables, Trimmed(workspaceId), cleaned, nowMs);
      tables := working;
    }
  }

  lemma AppendedIsLast(t: Tables, workspaceId: string, payload: Payload, nowMs: int)
    ensures EventAppended(t, workspaceId, "__sessions__", payload, nowMs, Appended).events
            == t.events + [Event(t.lastEventId + 1, workspaceId, "__sessions__", payload, nowMs)]
    ensures Sessions() == "__sessions__"
  {
  }

  lemma InvLogOrdered(t: Tables)
    requires Inv(t)
    ensures LogOrdered(t.events, t.lastEventId)
  {
  }

  lemma NotInsertedKeeps(t: Tables, workspaceId: string, payload: Payload, nowMs: int)
    ensures Apply(t, SessionEvent(workspaceId, payload, nowMs, NotInserted)) == t
  {
  }

  lemma DuplicateIsClean(t: Tables, request: StoreRequest)
    requires Inv(t) && Duplicate(t, request).Some?
    ensures var m := Duplicate(t, request).value; Clean(m.conversationId) && Clean(m.workspaceId)
  {
    hide Clean;
    FindByKeyFinds(t.messages, Trimmed(request.senderId), Trimmed(request.clientMessageId));
  }

  function CleanedSession(payload: Payload): Payload
    requires payload.SessionOnline? || payload.SessionOffline?
  {
    payload.(sessionId := Trimmed(payload.sessionId), clientId := Trimmed(payload.clientId),
             deviceId := Trimmed(payload.deviceId))
  }

  predicate CompleteSession(payload: Payload) {
    && (payload.SessionOnline? || payload.SessionOffline?)
    && payload.sessionId != "" && payload.clientId != "" && payload.deviceId != ""
  }

  lemma SessionsIsTrimmed()
    ensures Trimmed(Sessions()) == Sessions() && Sessions() != ""
  {
    assert TrimLeft(Sessions()) == Sessions();
  }
}
