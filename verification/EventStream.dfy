/** The event stream: what a poll returns, and why a client that polls it misses no notification. */
module EventStream {
  import opened Text
  import opened Sql
  import opened MessageTables
  import opened MessageInvariant
  import opened MessageRuns
  import opened MessageOrigins

  /** Session events are for the whole workspace, message events for members of the conversation. */
  predicate VisibleTo(e: Event, members: map<(string, string), Member>, workspaceId: string, clientId: string) {
    e.workspaceId == workspaceId && (e.conversationId == Sessions() || (e.conversationId, clientId) in members)
  }

  /** The rows the WHERE clause of the stream query selects. */
  function Visible(events: seq<Event>, members: map<(string, string), Member>, workspaceId: string, clientId: string,
                   after: int): seq<Event> {
    if events == [] then []
    else
      var last := events[|events| - 1];
      var front := Visible(events[..|events| - 1], members, workspaceId, clientId, after);
      if last.eventId > after && VisibleTo(last, members, workspaceId, clientId) then front + [last] else front
  }

  function EventId(e: Event): int { e.eventId }

  /** `listMessageEventsAfterForClient`. */
  function EventPage(t: Tables, workspaceId: string, clientId: string, after: int, limit: int): seq<Event> {
    if Trimmed(workspaceId) == "" || Trimmed(clientId) == "" then []
    else Limit(OrderBy(Visible(t.events, t.members, Trimmed(workspaceId), Trimmed(clientId), Max(0, after)), EventId),
               Bounded(limit))
  }

  lemma {:induction false} VisibleSelects(events: seq<Event>, members: map<(string, string), Member>, w: string,
                                          c: string, after: int)
    ensures forall e ::
             e in Visible(events, members, w, c, after) <==>
               e in events && e.eventId > after && VisibleTo(e, members, w, c)
  {
    if events == [] {
    } else {
      VisibleSelects(events[..|events| - 1], members, w, c, after);
      assert events == events[..|events| - 1] + [events[|events| - 1]];
    }
  }

  lemma {:induction false} VisibleAscends(events: seq<Event>, members: map<(string, string), Member>, w: string,
                                          c: string, after: int)
    requires Rising(events)
    ensures Rising(Visible(events, members, w, c, after))
  {
    if events == [] {
    } else {
      var front := events[..|events| - 1];
      VisibleAscends(front, members, w, c, after);
      VisibleSelects(front, members, w, c, after);
      var r := Visible(front, members, w, c, after);
      forall i | 0 <= i < |r| ensures r[i].eventId < events[|events| - 1].eventId {
        assert r[i] in r;
        var k :| 0 <= k < |front| && front[k] == r[i];
      }
      assert Visible(events, members, w, c, after) == r
             || Visible(events, members, w, c, after) == r + [events[|events| - 1]];
    }
  }

  /** A page is the first visible events after the cursor, in id order: what it leaves out comes later. */
  lemma EventPageIsPrefix(t: Tables, workspaceId: string, clientId: string, after: int, limit: int)
    requires LogOrdered(t.events, t.lastEventId) && Trimmed(workspaceId) != "" && Trimmed(clientId) != ""
    ensures var rows := Visible(t.events, t.members, Trimmed(workspaceId), Trimmed(clientId), Max(0, after));
            && EventPage(t, workspaceId, clientId, after, limit) == Limit(rows, Bounded(limit))
            && Rising(rows)
            && (forall e :: e in rows <==>
                  e in t.events && e.eventId > Max(0, after)
                  && VisibleTo(e, t.members, Trimmed(workspaceId), Trimmed(clientId)))
  {
    hide Trimmed, VisibleTo, Sessions;
    VisibleSelects(t.events, t.members, Trimmed(workspaceId), Trimmed(clientId), Max(0, after));
    VisibleAscends(t.events, t.members, Trimmed(workspaceId), Trimmed(clientId), Max(0, after));
    var rows := Visible(t.events, t.members, Trimmed(workspaceId), Trimmed(clientId), Max(0, after));
    forall i, j | 0 <= i < j < |rows| ensures EventId(rows[i]) <= EventId(rows[j]) {
      assert rows[i].eventId < rows[j].eventId;
    }
    OrderByOfAscending(rows, EventId);
  }

  /** Events of the client's workspace beyond its cursor, in the reserved conversation or one it is a member of. */
  predicate MaySee(t: Tables, workspaceId: string, clientId: string, after: int, e: Event) {
    && e in t.events && e.workspaceId == Trimmed(workspaceId) && e.eventId > after && e.eventId > 0
    && (e.conversationId == "__sessions__" || (e.conversationId, Trimmed(clientId)) in t.members)
  }

  /**
   * What a page is, to the outside: only events that the client may see, in order of their ids, as many as the
   * limit allows, and everything left out comes later.
   */
  lemma PageIsExact(t: Tables, workspaceId: string, clientId: string, after: int, limit: int)
    requires LogOrdered(t.events, t.lastEventId)
    ensures var page := EventPage(t, workspaceId, clientId, after, limit);
            && (Trimmed(workspaceId) == "" || Trimmed(clientId) == "" ==> page == [])
            && (forall e :: e in page ==> MaySee(t, workspaceId, clientId, after, e))
            && (forall i, j :: 0 <= i < j < |page| ==> page[i].eventId < page[j].eventId)
            && |page| <= (if limit < 1 then 1 else if limit > 500 then 500 else limit)
            && (Trimmed(workspaceId) != "" && Trimmed(clientId) != "" ==>
                  forall e :: MaySee(t, workspaceId, clientId, after, e) && e !in page ==>
                    && |page| == (if limit < 1 then 1 else if limit > 500 then 500 else limit)
                    && forall p :: p in page ==> p.eventId < e.eventId)
  {
    hide Trimmed, Visible, EventPage, Rising;
    if Trimmed(workspaceId) == "" || Trimmed(clientId) == "" {
      BlankPage(t, workspaceId, clientId, after, limit);
    } else {
      EventPageIsPrefix(t, workspaceId, clientId, after, limit);
      var rows := Visible(t.events, t.members, Trimmed(workspaceId), Trimmed(clientId), Max(0, after));
      PrefixIsExact(rows, Bounded(limit));
      assert forall e :: e in t.events ==> e.eventId > 0;
    }
  }

  lemma BlankPage(t: Tables, workspaceId: string, clientId: string, after: int, limit: int)
    requires Trimmed(workspaceId) == "" || Trimmed(clientId) == ""
    ensures EventPage(t, workspaceId, clientId, after, limit) == []
  {
  }

  lemma PrefixIsExact(rows: seq<Event>, n: nat)
    requires Rising(rows)
    ensures var page := Limit(rows, n);
            && |page| <= n && (forall e :: e in page ==> e in rows)
            && (forall i, j :: 0 <= i < j < |page| ==> page[i].eventId < page[j].eventId)
            && (forall e :: e in rows && e !in page ==> |page| == n && forall p :: p in page ==> p.eventId < e.eventId)
  {
    var page := Limit(rows, n);
    forall e | e in rows && e !in page ensures |page| == n && forall p :: p in page ==> p.eventId < e.eventId {
      var j :| 0 <= j < |rows| && rows[j] == e;
      assert forall k :: 0 <= k < |page| ==> page[k] == rows[k];
    }
  }

  /** The running maximum a stream response leads to. */
  function NextCursor(events: seq<Event>, fallback: int): int {
    if events == [] then Max(0, fallback)
    else Max(NextCursor(events[..|events| - 1], fallback), events[|events| - 1].eventId)
  }

  /** The loop of `maxEventId`: the result is the least number above the fallback, every id and zero. */
  method MaxEventId(events: seq<Event>, fallbackEventId: int) returns (result: int)
    ensures result == NextCursor(events, fallbackEventId)
    ensures result >= 0 && result >= fallbackEventId && forall e :: e in events ==> e.eventId <= result
    ensures result == 0 || result == fallbackEventId || exists e :: e in events && e.eventId == result
  {
    result := Max(0, fallbackEventId);
    for i := 0 to |events|
      invariant result == NextCursor(events[..i], fallbackEventId)
      invariant result >= 0 && result >= fallbackEventId && forall e :: e in events[..i] ==> e.eventId <= result
      invariant result == 0 || result == fallbackEventId || exists e :: e in events[..i] && e.eventId == result
    {
      assert events[..i + 1][..i] == events[..i];
      assert events[..i + 1] == events[..i] + [events[i]];
      assert events[i] in events[..i + 1];
      result := Max(result, events[i].eventId);
    }
    assert events[..|events|] == events;
  }

  lemma {:induction false} NextCursorBounds(events: seq<Event>, fallback: int, bound: int)
    ensures NextCursor(events, fallback) >= Max(0, fallback)
    ensures forall e :: e in events ==> e.eventId <= NextCursor(events, fallback)
    ensures 0 <= bound && fallback <= bound && (forall e :: e in events ==> e.eventId <= bound)
            ==> NextCursor(events, fallback) <= bound
  {
    if events == [] {
    } else {
      NextCursorBounds(events[..|events| - 1], fallback, bound);
      assert events == events[..|events| - 1] + [events[|events| - 1]];
    }
  }

  // ------------------------------------------------------ a polling client

  /** A client that polls one workspace, its cursor and the ids it has been given. */
  datatype Poller = Poller(workspaceId: string, clientId: string, cursor: int, returned: set<int>)

  function Received(p: Poller, page: seq<Event>): Poller {
    p.(cursor := NextCursor(page, p.cursor), returned := p.returned + (set e | e in page :: e.eventId))
  }

  function Poll(t: Tables, p: Poller, limit: int): Poller {
    Received(p, EventPage(t, p.workspaceId, p.clientId, p.cursor, limit))
  }

  /** A created event of the message that the client can see and has been given, or will meet beyond its cursor. */
  ghost predicate HasNotice(t: Tables, p: Poller, id: string) {
    exists e :: e in t.events && IsCreated(e, id)
      && VisibleTo(e, t.members, Trimmed(p.workspaceId), Trimmed(p.clientId))
                && (e.eventId in p.returned || e.eventId > p.cursor)
  }

  /** A delivery row addressed to the client, of a message in its workspace. */
  predicate IsAddressed(t: Tables, p: Poller, id: string) {
    (id, Trimmed(p.clientId)) in t.deliveries
    && FindById(t.messages, id).Some? && FindById(t.messages, id).value.workspaceId == Trimmed(p.workspaceId)
  }

  ghost predicate NothingLost(t: Tables, p: Poller) {
    && 0 <= p.cursor <= t.lastEventId
    && forall id :: IsAddressed(t, p, id) ==> HasNotice(t, p, id)
  }

  /** A poll loses nothing: an event ahead of the cursor is in the page or still ahead of the new cursor. */
  lemma PollLosesNothing(t: Tables, p: Poller, limit: int)
    requires Inv(t) && NothingLost(t, p)
    ensures NothingLost(t, Poll(t, p, limit))
  {
    hide Sequenced, DistinctKeys, CleanMessages, DeliveriesOk, RolesOk, AcksOk, CursorsOk, Trimmed, FindById,
         VisibleTo, Visible, EventPage, NextCursor;
    var page := EventPage(t, p.workspaceId, p.clientId, p.cursor, limit);
    var p' := Poll(t, p, limit);
    if page == [] {
      NextCursorBounds(page, p.cursor, p.cursor);
    } else {
      PageOfPoller(t, p, limit);
      NextCursorBounds(page, p.cursor, t.lastEventId);
    }
    forall id | IsAddressed(t, p, id) ensures HasNotice(t, p', id) {
      var e :| e in t.events && IsCreated(e, id) && VisibleTo(e, t.members, Trimmed(p.workspaceId), Trimmed(p.clientId))
               && (e.eventId in p.returned || e.eventId > p.cursor);
      SeenOrAhead(t, p, limit, e);
    }
  }

  lemma PageOfPoller(t: Tables, p: Poller, limit: int)
    requires LogOrdered(t.events, t.lastEventId)
    requires EventPage(t, p.workspaceId, p.clientId, p.cursor, limit) != []
    ensures forall e ::
             e in EventPage(t, p.workspaceId, p.clientId, p.cursor, limit) ==>
               e in t.events && e.eventId <= t.lastEventId
  {
    hide Trimmed, VisibleTo, Visible;
    EventPageIsPrefix(t, p.workspaceId, p.clientId, p.cursor, limit);
  }

  lemma SeenOrAhead(t: Tables, p: Poller, limit: int, e: Event)
    requires LogOrdered(t.events, t.lastEventId) && 0 <= p.cursor
    requires e in t.events && VisibleTo(e, t.members, Trimmed(p.workspaceId), Trimmed(p.clientId))
    ensures var p' := Poll(t, p, limit);
            e.eventId in p.returned || e.eventId > p.cursor ==> e.eventId in p'.returned || e.eventId > p'.cursor
  {
    hide Trimmed, VisibleTo, Visible, NextCursor, EventPage, Sessions;
    var page := EventPage(t, p.workspaceId, p.clientId, p.cursor, limit);
    if Trimmed(p.workspaceId) == "" || Trimmed(p.clientId) == "" {
      EmptyPage(t, p, limit);
      NextCursorBounds(page, p.cursor, p.cursor);
    } else if e.eventId > p.cursor && e !in page {
      EventPageIsPrefix(t, p.workspaceId, p.clientId, p.cursor, limit);
      var rows := Visible(t.events, t.members, Trimmed(p.workspaceId), Trimmed(p.clientId), Max(0, p.cursor));
      var j :| 0 <= j < |rows| && rows[j] == e;
      assert j >= |page|;
      NextCursorBounds(page, p.cursor, e.eventId - 1);
    }
  }

  lemma EmptyPage(t: Tables, p: Poller, limit: int)
    requires Trimmed(p.workspaceId) == "" || Trimmed(p.clientId) == ""
    ensures EventPage(t, p.workspaceId, p.clientId, p.cursor, limit) == []
  {
  }

  // ------------------------------------------------------ calls between the polls

  /** What a call adds: a row addressed to the client comes with a new created event that the client can see. */
  lemma NewRowIsAnnounced(t: Tables, p: Poller, op: Op, id: string)
    requires Inv(t) && !IsAddressed(t, p, id) && IsAddressed(Apply(t, op), p, id)
    ensures exists e :: e in NewEvents(t, op) && Announces(t, p, op, id, e)
  {
    hide Inv, Trimmed, Recipients, Expanded, Inserted, NewEvents, Announces, UpsertCursor, FindById, FindByKey,
         Sessions, DeliveredRow, ReadRow;
    match op
    case Store(req, newId, nowMs) =>
      match Duplicate(t, req) {
        case Some(m) => RetryAnnounces(t, p, op, m, id);
        case None => InsertAnnounces(t, p, op, id);
      }
    case AckDelivered(_, _, _, _) =>
    case AckRead(_, _, _, _) =>
    case SessionEvent(_, _, _, _) =>
    case RolledBack =>
  }

  predicate Announces(t: Tables, p: Poller, op: Op, id: string, e: Event) {
    IsCreated(e, id) && VisibleTo(e, Apply(t, op).members, Trimmed(p.workspaceId), Trimmed(p.clientId))
      && e.eventId > t.lastEventId
  }

  lemma RetryAnnounces(t: Tables, p: Poller, op: Op, m: StoredMessage, id: string)
    requires Inv(t) && op.Store? && Duplicate(t, op.req) == Some(m)
    requires !IsAddressed(t, p, id) && IsAddressed(Apply(t, op), p, id)
    ensures exists e :: e in NewEvents(t, op) && Announces(t, p, op, id, e)
  {
    hide Sequenced, CleanMessages, RolesOk, LogOrdered, AcksOk, CursorsOk, DeliveriesOk, Trimmed, Recipients,
         AddMembers, AddDeliveries, FindById, FindByKey, Sessions;
    FindByKeyFinds(t.messages, Trimmed(op.req.senderId), Trimmed(op.req.clientMessageId));
    FindByOwnId(t.messages, m);
    assert Trimmed(p.clientId) in Recipients(op.req.recipientIds, Trimmed(op.req.senderId)) && id == m.serverMessageId;
    assert NewEvents(t, op)[0] in NewEvents(t, op);
  }

  lemma InsertAnnounces(t: Tables, p: Poller, op: Op, id: string)
    requires Inv(t) && op.Store? && Duplicate(t, op.req).None?
    requires !IsAddressed(t, p, id) && IsAddressed(Apply(t, op), p, id)
    ensures exists e :: e in NewEvents(t, op) && Announces(t, p, op, id, e)
  {
    hide Sequenced, DistinctKeys, CleanMessages, RolesOk, LogOrdered, AcksOk, CursorsOk, DeliveriesOk, Trimmed,
         Recipients, AddMembers, AddDeliveries, UpsertMember, MaxSeq, FindById, FindByKey, Sessions;
    var m := NewMessage(t, op.req, op.newId, op.nowMs);
    NewRowOwner(t, p, m, id, Recipients(op.req.recipientIds, Trimmed(op.req.senderId)));
    assert NewEvents(t, op)[0] in NewEvents(t, op);
  }

  lemma NewRowOwner(t: Tables, p: Poller, m: StoredMessage, id: string, rs: seq<string>)
    requires DeliveriesOk(t)
    requires (id, Trimmed(p.clientId)) in AddDeliveries(t.deliveries, m.serverMessageId, rs) && !IsAddressed(t, p, id)
    requires FindById(t.messages + [m], id).Some?
             && FindById(t.messages + [m], id).value.workspaceId == Trimmed(p.workspaceId)
    requires FindById(t.messages, m.serverMessageId).None?
    ensures id == m.serverMessageId && Trimmed(p.clientId) in rs && m.workspaceId == Trimmed(p.workspaceId)
  {
    hide Trimmed, AddDeliveries, Clean;
    AppendedMessage(t.messages, m);
    assert (id, Trimmed(p.clientId)) in t.deliveries ==> DeliveryOk(t.messages, t.members, (id, Trimmed(p.clientId)));
  }

  /** Any call between two polls loses nothing. */
  lemma CallLosesNothing(t: Tables, p: Poller, op: Op)
    requires Inv(t) && ValidOp(op) && NothingLost(t, p)
    ensures NothingLost(Apply(t, op), p)
  {
    hide Inv, Apply, IsAddressed, VisibleTo, Trimmed, NewEvents, DeliveriesAdvance, CursorsAdvance;
    ApplyAdvances(t, op);
    ApplyLogs(t, op);
    var t' := Apply(t, op);
    forall id | IsAddressed(t', p, id) ensures HasNotice(t', p, id) {
      if IsAddressed(t, p, id) {
        var e :| e in t.events && IsCreated(e, id)
            && VisibleTo(e, t.members, Trimmed(p.workspaceId), Trimmed(p.clientId))
                 && (e.eventId in p.returned || e.eventId > p.cursor);
        assert e in t'.events;
        StaysVisible(e, t.members, t'.members, p);
      } else {
        NewRowIsAnnounced(t, p, op, id);
        var e :| e in NewEvents(t, op) && Announces(t, p, op, id, e);
        assert e in t'.events;
      }
    }
  }

  lemma StaysVisible(e: Event, members: map<(string, string), Member>, members': map<(string, string), Member>,
                     p: Poller)
    requires MembersAdvance(members, members') && VisibleTo(e, members, Trimmed(p.workspaceId), Trimmed(p.clientId))
    ensures VisibleTo(e, members', Trimmed(p.workspaceId), Trimmed(p.clientId))
  {
    hide Trimmed, Sessions;
  }

  // ------------------------------------------------------ whole runs

  datatype Step = Call(op: Op) | PollStep(limit: int) | FailedPoll

  datatype World = World(tables: Tables, poller: Poller)

  function Next(w: World, step: Step): World {
    match step
    case Call(op) => w.(tables := Apply(w.tables, op))
    case PollStep(limit) => w.(poller := Poll(w.tables, w.poller, limit))
    case FailedPoll => w.(poller := Received(w.poller, [])) // the query failed and the page is empty
  }

  function Steps(w: World, steps: seq<Step>): World {
    if steps == [] then w else Next(Steps(w, steps[..|steps| - 1]), steps[|steps| - 1])
  }

  predicate ValidSteps(steps: seq<Step>) {
    forall i :: 0 <= i < |steps| ==> steps[i].Call? ==> ValidOp(steps[i].op)
  }

  /**
   * No notification is lost: in every interleaving of stores, retries, acknowledgements, session
   * events and polls, every delivery row addressed to the client has a created event that the
   * client has been given or will still meet beyond its cursor.
   */
  lemma {:induction false} NoLostNotification(workspaceId: string, clientId: string, steps: seq<Step>)
    requires ValidSteps(steps)
    ensures var w := Steps(World(EMPTY, Poller(workspaceId, clientId, 0, {})), steps);
            Inv(w.tables) && NothingLost(w.tables, w.poller)
  {
    hide Inv, NothingLost, Apply, Poll;
    if steps == [] {
      EmptyOk();
      NothingYet(workspaceId, clientId);
    } else {
      NoLostNotification(workspaceId, clientId, steps[..|steps| - 1]);
      var w := Steps(World(EMPTY, Poller(workspaceId, clientId, 0, {})), steps[..|steps| - 1]);
      match steps[|steps| - 1]
      case Call(op) => ApplyKeepsInv(w.tables, op); CallLosesNothing(w.tables, w.poller, op);
      case PollStep(limit) => PollLosesNothing(w.tables, w.poller, limit);
      case FailedPoll => EmptyAnswerLosesNothing(w.tables, w.poller);
    }
  }

  lemma NothingYet(workspaceId: string, clientId: string)
    ensures NothingLost(EMPTY, Poller(workspaceId, clientId, 0, {}))
  {
    hide Trimmed;
  }

  lemma EmptyAnswerLosesNothing(t: Tables, p: Poller)
    requires NothingLost(t, p)
    ensures NothingLost(t, Received(p, []))
  {
    hide Trimmed, FindById, VisibleTo;
    assert Received(p, []).returned == p.returned;
    forall id | IsAddressed(t, Received(p, []), id) ensures HasNotice(t, Received(p, []), id) {
      assert IsAddressed(t, p, id);
      assert HasNotice(t, p, id);
    }
  }

  // ------------------------------------------------------ who sees what

  /**
   * Conversations are private: after every run, an event that a page gives to a client is a session event of its
   * workspace, or belongs to a stored message of its workspace in a conversation where the client itself has sent
   * or been addressed. The one exception is a conversation that is itself named like the reserved one.
   */
  lemma OnlyTheInvolvedSee(ops: seq<Op>, workspaceId: string, clientId: string, after: int, limit: int, e: Event)
    requires ValidOps(ops) && e in EventPage(Run(EMPTY, ops), workspaceId, clientId, after, limit)
    ensures var t := Run(EMPTY, ops);
            && e.workspaceId == Trimmed(workspaceId)
            && (IsMessageEvent(e) ==> exists m :: Belongs(t, e, m))
            && (e.conversationId == "__sessions__" || Sent(t.messages, e.conversationId, Trimmed(clientId))
                || AddressedIn(t, e.conversationId, Trimmed(clientId)))
  {
    hide Inv, Run, Trimmed, EventPage, Belongs, Sent, AddressedIn;
    EmptyOk();
    RunKeepsInv(EMPTY, ops);
    LogOfInv(Run(EMPTY, ops));
    PageIsExact(Run(EMPTY, ops), workspaceId, clientId, after, limit);
    MembersOfEveryRun(ops);
    EventsOfEveryRun(ops);
    assert EventKnown(Run(EMPTY, ops), e);
  }

  lemma LogOfInv(t: Tables)
    requires Inv(t)
    ensures LogOrdered(t.events, t.lastEventId)
  {
  }

  // ------------------------------------------------------ catching up

  function Polls(t: Tables, p: Poller, limits: seq<int>): Poller
    decreases |limits|
  {
    if limits == [] then p else Polls(t, Poll(t, p, limits[0]), limits[1..])
  }

  function Ahead(t: Tables, p: Poller): seq<Event> {
    Visible(t.events, t.members, Trimmed(p.workspaceId), Trimmed(p.clientId), Max(0, p.cursor))
  }

  lemma {:induction false} HigherCursorSeesLess(events: seq<Event>, members: map<(string, string), Member>, w: string,
                                                c: string, after: int, after': int)
    requires after <= after'
    ensures |Visible(events, members, w, c, after')| <= |Visible(events, members, w, c, after)|
    ensures (exists e :: e in events && VisibleTo(e, members, w, c) && after < e.eventId <= after') ==>
              |Visible(events, members, w, c, after')| < |Visible(events, members, w, c, after)|
  {
    if events == [] {
    } else {
      HigherCursorSeesLess(events[..|events| - 1], members, w, c, after, after');
      assert events == events[..|events| - 1] + [events[|events| - 1]];
    }
  }

  lemma PollMakesProgress(t: Tables, p: Poller, limit: int)
    requires LogOrdered(t.events, t.lastEventId) && Trimmed(p.workspaceId) != "" && Trimmed(p.clientId) != ""
    ensures |Ahead(t, Poll(t, p, limit))| <= (if Ahead(t, p) == [] then 0 else |Ahead(t, p)| - 1)
  {
    hide Trimmed, VisibleTo, Visible, NextCursor, EventPage, Sessions;
    EventPageIsPrefix(t, p.workspaceId, p.clientId, p.cursor, limit);
    var page := EventPage(t, p.workspaceId, p.clientId, p.cursor, limit);
    NextCursorBounds(page, p.cursor, 0);
    HigherCursorSeesLess(t.events, t.members, Trimmed(p.workspaceId), Trimmed(p.clientId), Max(0, p.cursor),
                         NextCursor(page, p.cursor));
    if page != [] {
      assert page[0] in page && page[0] == Ahead(t, p)[0] && page[0] in Ahead(t, p);
    }
  }

  /**
   * Every notification arrives: once stores stop, as many polls as there are events ahead, with any
   * limits, have given the client a created event for every message addressed to it.
   */
  lemma {:induction false} PollingCatchesUp(t: Tables, p: Poller, limits: seq<int>)
    requires Inv(t) && NothingLost(t, p) && Trimmed(p.workspaceId) != "" && Trimmed(p.clientId) != ""
    requires |limits| >= |Ahead(t, p)|
    ensures forall id :: IsAddressed(t, p, id) ==>
              exists e :: e in t.events && IsCreated(e, id) && e.eventId in Polls(t, p, limits).returned
    decreases |limits|
  {
    hide Trimmed, VisibleTo, Visible, NextCursor, EventPage, Sessions, FindById, Poll;
    if limits != [] {
      var p' := Poll(t, p, limits[0]);
      PollMakesProgress(t, p, limits[0]);
      PollLosesNothing(t, p, limits[0]);
      assert p'.workspaceId == p.workspaceId && p'.clientId == p.clientId by { SamePoller(t, p, limits[0]); }
      PollingCatchesUp(t, p', limits[1..]);
      assert forall id :: IsAddressed(t, p, id) ==> IsAddressed(t, p', id);
    } else {
      forall id | IsAddressed(t, p, id)
        ensures exists e :: e in t.events && IsCreated(e, id) && e.eventId in p.returned {
        assert HasNotice(t, p, id);
        VisibleSelects(t.events, t.members, Trimmed(p.workspaceId), Trimmed(p.clientId), Max(0, p.cursor));
        assert Ahead(t, p) == [];
      }
    }
  }

  lemma SamePoller(t: Tables, p: Poller, limit: int)
    ensures Poll(t, p, limit).workspaceId == p.workspaceId && Poll(t, p, limit).clientId == p.clientId
  {
  }
}
