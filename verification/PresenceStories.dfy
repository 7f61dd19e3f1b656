/** What the presence events of a run say about a session: when it is over, and whose it is. */
module PresenceStories {
  import opened Text
  import opened MessageTables
  import opened MessageColumns
  import opened Presence
  import opened PresenceRuns

  // ------------------------------------------------------ how long a session lasts

  /** When the session under a key was last seen: at first, or by the latest request since. */
  function LastSeen(atMs: int, moves: seq<Move>, k: string): int {
    if moves == [] then atMs
    else
      var front, last := moves[..|moves| - 1], moves[|moves| - 1];
      if last.Return? && KeyOf(last.session) == k then last.session.lastSeenAtMs else LastSeen(atMs, front, k)
  }

  /** Every sweep comes within its time to live of the request before it. */
  predicate SeenInTime(atMs: int, moves: seq<Move>, k: string) {
    forall i :: 0 <= i < |moves| && moves[i].Expiry?
      ==> moves[i].nowMs - LastSeen(atMs, moves[..i], k) <= moves[i].ttlMs
  }

  lemma SeenInTimeStep(atMs: int, moves: seq<Move>, k: string)
    requires moves != []
    ensures var front, last := moves[..|moves| - 1], moves[|moves| - 1];
            SeenInTime(atMs, moves, k) <==>
              SeenInTime(atMs, front, k)
              && (last.Expiry? ==> last.nowMs - LastSeen(atMs, front, k) <= last.ttlMs)
  {
    hide LastSeen;
    var n := |moves| - 1;
    forall i | 0 <= i < n ensures moves[..n][i] == moves[i] && moves[..n][..i] == moves[..i] { }
  }

  /** What one move does to a session that is held. */
  lemma HeldMove(w: State, move: Move, k: string)
    requires SessionsOk(w.sessions) && Enabled(w, move) && k in w.sessions
    ensures var after := Next(w, move).sessions;
            match move
            case Expiry(ttlMs, nowMs, _, _) =>
              if nowMs - w.sessions[k].lastSeenAtMs <= ttlMs then k in after && after[k] == w.sessions[k]
              else !Held(after, w.sessions[k].sessionId)
            case Return(s) =>
              k in after && after[k].sessionId == w.sessions[k].sessionId
              && after[k].lastSeenAtMs == if KeyOf(s) == k then s.lastSeenAtMs else w.sessions[k].lastSeenAtMs
            case _ => k in after && after[k] == w.sessions[k]
  {
    hide KeyOf, Clean, Split, Apply, Announcing;
  }

  /** An id of which the log has spoken, and which is not held, is never held again. */
  lemma GoneMove(w: State, move: Move, id: string)
    requires SessionsOk(w.sessions) && Enabled(w, move) && Statuses(w.tables.events, id) != []
    ensures Statuses(Next(w, move).tables.events, id) != []
    ensures !Held(w.sessions, id) ==> !Held(Next(w, move).sessions, id)
  {
    hide KeyOf, Clean, SessionOk, SessionsOk, Split, Apply, Announcing, Statuses, OnlineEvents, LogsExpiry;
    match move
    case Expiry(ttlMs, nowMs, removed, outcomes) =>
      AnnouncingTells(w.tables, w.sessions, Unexpired(w.sessions, ttlMs, nowMs), removed, ttlMs, nowMs, outcomes);
      ExpirySpeaks(w.tables.events, Next(w, move).tables.events, removed, Written(outcomes), id);
    case Arrival(s, nowMs, tried) =>
      if tried.Some? { AppendTells(w.tables, s.workspaceId, OnlinePayload(s), nowMs, tried.value, id); }
      UnusedMeans(w.tables.events, w.sessions, s.sessionId);
      ArrivalHeld(w.sessions, s, id);
    case Return(s) =>
      if Held(Next(w, move).sessions, id) { ReturnHeld(w.sessions, KeyOf(s), s, id); }
    case Call(op) => OtherCallsTellNothing(w.tables, op, id);
  }

  lemma ExpirySpeaks(events: seq<Event>, events': seq<Event>, removed: seq<Session>, written: nat, id: string)
    requires written <= |removed| && LogsExpiry(events, events', removed, written) && Statuses(events, id) != []
    ensures Statuses(events', id) != []
  {
    hide Statuses, OnlineEvents, Names;
  }

  /**
   * How long a session lasts: once its online event is in the log, its id is held after a run if and only if every
   * sweep of the run came within its time to live of the latest request of that session.
   */
  lemma {:induction false} HeldWhileSeen(w: State, moves: seq<Move>, k: string)
    requires SessionsOk(w.sessions) && Runs(w, moves) && k in w.sessions
    requires Statuses(w.tables.events, w.sessions[k].sessionId) != []
    ensures var s, end := w.sessions[k], Run(w, moves);
            && SessionsOk(end.sessions) && Statuses(end.tables.events, s.sessionId) != []
            && (Held(end.sessions, s.sessionId) <==> SeenInTime(s.lastSeenAtMs, moves, k))
            && (SeenInTime(s.lastSeenAtMs, moves, k) ==>
                  k in end.sessions && end.sessions[k].sessionId == s.sessionId
                  && end.sessions[k].lastSeenAtMs == LastSeen(s.lastSeenAtMs, moves, k))
  {
    hide SessionsOk, Enabled, Next, SeenInTime, Statuses, KeyOf;
    var s := w.sessions[k];
    if moves == [] {
      NothingToSee(s.lastSeenAtMs, k);
    } else {
      var front, last := moves[..|moves| - 1], moves[|moves| - 1];
      HeldWhileSeen(w, front, k);
      SeenInTimeStep(s.lastSeenAtMs, moves, k);
      var before := Run(w, front);
      MoveTells(before, last);
      GoneMove(before, last, s.sessionId);
      if SeenInTime(s.lastSeenAtMs, front, k) { HeldMove(before, last, k); }
    }
  }

  lemma NothingToSee(atMs: int, k: string)
    ensures SeenInTime(atMs, [], k)
  {
  }

  // ------------------------------------------------------ whose session it is

  /** The log says whose session has come online, and in which workspace. */
  predicate SaysOnline(e: Event, s: Session) {
    && e.payload == SessionOnline(s.sessionId, s.clientId, s.deviceId)
    && e.workspaceId == s.workspaceId && e.conversationId == "__sessions__"
  }

  /** An offline event ends what an online event of the same session, client, device and workspace began. */
  ghost predicate Ends(events: seq<Event>, e: Event) {
    e.payload.SessionOffline? ==>
      exists o :: o in events && o.workspaceId == e.workspaceId
                  && o.payload == SessionOnline(e.payload.sessionId, e.payload.clientId, e.payload.deviceId)
  }

  ghost predicate ToldOnline(w: State, s: Session) {
    exists e :: e in w.tables.events && SaysOnline(e, s)
  }

  ghost predicate StoriesOk(w: State) {
    && (forall k :: k in w.sessions ==> ToldOnline(w, w.sessions[k]))
    && (forall e :: e in w.tables.events ==> Ends(w.tables.events, e))
  }

  lemma StoriesGrow(w: State, w': State)
    requires StoriesOk(w) && w.tables.events <= w'.tables.events
    ensures forall s :: ToldOnline(w, s) ==> ToldOnline(w', s)
    ensures forall e :: e in w.tables.events ==> Ends(w'.tables.events, e)
  {
    hide SaysOnline;
    forall e | e in w.tables.events ensures e in w'.tables.events {
      var i :| 0 <= i < |w.tables.events| && w.tables.events[i] == e;
      assert w'.tables.events[i] == e;
    }
    forall e | e in w.tables.events ensures Ends(w'.tables.events, e) {
      assert Ends(w.tables.events, e);
    }
  }

  /** The events of an expiry are the offline events of the sessions removed. */
  lemma {:induction false} AnnouncingWrites(t: Tables, removed: seq<Session>, outcomes: seq<AppendOutcome>, nowMs: int)
    requires |outcomes| <= |removed| && AllAppended(outcomes)
    ensures var events := Announcing(t, removed, outcomes, nowMs).events;
            t.events <= events
            && forall e :: e in events ==> e in t.events || exists s :: s in removed && SaysOffline(e, s)
  {
    hide Apply;
    if outcomes != [] {
      var n := |outcomes| - 1;
      var before, s := Announcing(t, removed, outcomes[..n], nowMs), removed[n];
      AnnouncingWrites(t, removed, outcomes[..n], nowMs);
      SessionEventWrites(before, s.workspaceId, OfflinePayload(s), nowMs, Appended);
      assert outcomes[n].Appended? && s in removed;
      assert SaysOffline(Event(before.lastEventId + 1, s.workspaceId, "__sessions__", OfflinePayload(s), nowMs), s);
    }
  }

  predicate SaysOffline(e: Event, s: Session) {
    e.payload == SessionOffline(s.sessionId, s.clientId, s.deviceId) && e.workspaceId == s.workspaceId
  }

  lemma ExpiryStory(w: State, move: Move)
    requires StoriesOk(w) && Enabled(w, move) && move.Expiry? && Told(move)
    ensures StoriesOk(Next(w, move))
  {
    hide Split, Announcing, ToldOnline, Ends, IsExpired, KeyOf;
    var w' := Next(w, move);
    AnnouncingWrites(w.tables, move.removed, move.outcomes, move.nowMs);
    StoriesGrow(w, w');
    forall e | e in w'.tables.events ensures Ends(w'.tables.events, e) {
      if e !in w.tables.events {
        var s :| s in move.removed && SaysOffline(e, s);
        RemovedWasHeld(w, move, s);
        EndsOwn(w', e, s);
      }
    }
  }

  lemma RemovedWasHeld(w: State, move: Move, s: Session)
    requires StoriesOk(w) && Enabled(w, move) && move.Expiry? && s in move.removed
    ensures ToldOnline(w, s)
  {
    hide KeyOf, IsExpired, ToldOnline;
    var i :| 0 <= i < |move.removed| && move.removed[i] == s;
    assert KeyOf(move.removed[i]) in w.sessions && w.sessions[KeyOf(move.removed[i])] == s;
  }

  lemma EndsOwn(w: State, e: Event, s: Session)
    requires ToldOnline(w, s) && SaysOffline(e, s)
    ensures Ends(w.tables.events, e)
  {
  }

  lemma ArrivalStory(w: State, move: Move)
    requires StoriesOk(w) && Enabled(w, move) && move.Arrival? && Told(move)
    ensures StoriesOk(Next(w, move))
  {
    hide Apply, ToldOnline, Ends, KeyOf, SessionOk;
    var w', s := Next(w, move), move.session;
    SessionEventWrites(w.tables, s.workspaceId, OnlinePayload(s), move.nowMs, Appended);
    StoriesGrow(w, w');
    var e := w'.tables.events[|w.tables.events|];
    assert e in w'.tables.events && SaysOnline(e, s);
    OnlineTold(w', e, s);
    assert w'.tables.events == w.tables.events + [e];
  }

  lemma OnlineTold(w: State, e: Event, s: Session)
    requires e in w.tables.events && SaysOnline(e, s)
    ensures ToldOnline(w, s) && Ends(w.tables.events, e)
  {
  }

  lemma ReturnStory(w: State, move: Move)
    requires StoriesOk(w) && Enabled(w, move) && move.Return?
    ensures StoriesOk(Next(w, move))
  {
    hide KeyOf, SessionOk, Ends;
    var s, t := move.session, w.sessions[KeyOf(move.session)];
    assert ToldOnline(w, t);
    var e :| e in w.tables.events && SaysOnline(e, t);
    assert SaysOnline(e, s);
  }

  lemma CallStory(w: State, move: Move)
    requires StoriesOk(w) && Enabled(w, move) && move.Call?
    ensures StoriesOk(Next(w, move))
  {
    hide Apply, ToldOnline, StoreAccepts, AckAccepts;
    MessageRuns.ApplyLogs(w.tables, move.op);
    StoriesGrow(w, Next(w, move));
  }

  /**
   * Whose session it is: as long as every event that was due has been written, the log names client, device and
   * workspace of every session that is held, and each offline event those of the online event it ends.
   */
  lemma {:induction false} StoriesOfEveryRun(moves: seq<Move>)
    requires Runs(START, moves) && AllTold(moves)
    ensures StoriesOk(Run(START, moves))
  {
    hide StoriesOk, Enabled, Next, Told;
    if moves == [] {
      NoStories();
    } else {
      var front, last := moves[..|moves| - 1], moves[|moves| - 1];
      StoriesOfEveryRun(front);
      assert Told(last);
      match last
      case Expiry(_, _, _, _) => ExpiryStory(Run(START, front), last);
      case Arrival(_, _, _) => ArrivalStory(Run(START, front), last);
      case Return(_) => ReturnStory(Run(START, front), last);
      case Call(_) => CallStory(Run(START, front), last);
    }
  }

  lemma NoStories()
    ensures StoriesOk(START)
  {
  }
}
