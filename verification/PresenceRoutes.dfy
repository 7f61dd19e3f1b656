/** The routes that touch the session registry, and the session events they write. */
module PresenceRoutes {
  import opened Text
  import opened Sql
  import opened MessageTables
  import opened MessageStore
  import opened Presence
  import opened PresenceRuns
  import opened EventStream
  import opened Lists

  datatype Answer = BadRequest | OfflineEventFailed | CapabilitiesFailed | OnlineEventFailed | Answered

  /** An append completes its event exactly when neither its INSERT nor its UPDATE fails. */
  predicate Writes(faults: Faults) {
    InsertEvent !in faults && UpdateEvent !in faults
  }

  /** The first `due` appends of a call complete their events. */
  predicate AllWrite(faults: nat -> Faults, due: nat) {
    forall i: nat :: i < due ==> Writes(faults(i))
  }

  /** The sessions that a request finds expired. */
  function ExpiredKeys(sessions: map<string, Session>, ttlMs: int, nowMs: int): set<string> {
    set k | k in sessions && IsExpired(sessions[k], ttlMs, nowMs)
  }

  /** The request of a client that the registry does not hold, or holds only expired. */
  predicate IsNew(sessions: map<string, Session>, ttlMs: int, nowMs: int, clientId: string, deviceId: string,
                  workspaceId: string) {
    && Trimmed(clientId) != "" && Trimmed(workspaceId) != ""
    && var key := SessionKey(Trimmed(clientId), NormalizedDevice(clientId, deviceId), Trimmed(workspaceId));
       key in sessions ==> IsExpired(sessions[key], ttlMs, nowMs)
  }

  lemma SplitCounts(sessions: map<string, Session>, kept: map<string, Session>, removed: seq<Session>, ttlMs: int,
                    nowMs: int)
    requires Split(sessions, kept, removed, ttlMs, nowMs)
    ensures |removed| == |ExpiredKeys(sessions, ttlMs, nowMs)|
  {
    hide IsExpired, KeyOf;
    var expired := ExpiredKeys(sessions, ttlMs, nowMs);
    assert kept.Keys == sessions.Keys - expired && expired <= sessions.Keys;
    assert |kept.Keys| == |kept| && |sessions.Keys| == |sessions|;
  }

  lemma CompletePayload(s: Session, k: string)
    requires SessionOk(k, s)
    ensures Trimmed(s.workspaceId) == s.workspaceId && s.workspaceId != ""
    ensures CleanedSession(OfflinePayload(s)) == OfflinePayload(s) && CompleteSession(OfflinePayload(s))
    ensures CleanedSession(OnlinePayload(s)) == OnlinePayload(s) && CompleteSession(OnlinePayload(s))
  {
    hide Trimmed, KeyOf;
  }

  /** The tables, and the registry with its count of expired sessions. */
  function StateNow(messages: MessageServiceDatabase, sessions: MessageSessionRegistry): State
    reads messages, sessions
  {
    State(messages.tables, sessions.sessions, sessions.expiredSessions)
  }

  /** The online or offline event of a session of the registry, whose names are complete. */
  method AppendOwnEvent(messages: MessageServiceDatabase, s: Session, online: bool, nowMs: int, faults: Faults)
    returns (outcome: AppendOutcome)
    requires messages.Valid() && SessionOk(KeyOf(s), s)
    modifies messages
    ensures messages.Valid()
    ensures messages.tables == Apply(old(messages.tables),
                                     SessionEvent(s.workspaceId, if online then OnlinePayload(s) else OfflinePayload(s),
                                                  nowMs, outcome))
    ensures outcome.Appended? <==> Writes(faults)
  {
    hide Inv, Apply, Trimmed, SessionOk, KeyOf;
    CompletePayload(s, KeyOf(s));
    outcome := messages.AppendSessionStatusEvent(s.workspaceId, if online then OnlinePayload(s) else OfflinePayload(s),
                                                 nowMs, faults);
    WritesExactly(outcome, faults);
  }

  /**
   * Takes the expired sessions out of the registry and announces them one by one, giving up at the first
   * event that cannot be written. It answers true, and log and registry still agree, exactly when every
   * append that is due writes its event.
   */
  method AppendExpiredSessionEvents(messages: MessageServiceDatabase, sessions: MessageSessionRegistry, nowMs: int,
                                    faults: nat -> Faults)
    returns (ok: bool, ghost move: Move)
    requires messages.Valid() && sessions.Valid()
    modifies messages, sessions
    ensures messages.Valid() && sessions.Valid()
    ensures Moved(old(StateNow(messages, sessions)), move, StateNow(messages, sessions))
    ensures move.Expiry? && move.ttlMs == sessions.ttlMs && move.nowMs == nowMs
    ensures ok <==> Told(move)
    ensures old(Agree(StateNow(messages, sessions))) ==> (Agree(StateNow(messages, sessions)) <==> ok)
    ensures ok <==> AllWrite(faults, |ExpiredKeys(old(sessions.sessions), sessions.ttlMs, nowMs)|)
  {
    hide GoneByTime, Inv, SessionsOk, Apply, Split, IsExpired, ExpiredKeys, Announcing, Unexpired, Writes, Agree, Moved,
         Told, Drifted;
    ghost var before := StateNow(messages, sessions);
    ghost var outcomes := [];
    var expired := sessions.TakeExpiredSessions(nowMs);
    ghost var kept := sessions.sessions;
    KeptIs(before.sessions, kept, expired, sessions.ttlMs, nowMs);
    SplitCounts(before.sessions, kept, expired, sessions.ttlMs, nowMs);
    NothingAnnounced(before.tables, expired, nowMs);
    for i := 0 to |expired|
      invariant messages.Valid() && sessions.sessions == kept && sessions.expiredSessions == before.expired + |expired|
      invariant |outcomes| == i && AllAppended(outcomes) && AllWrite(faults, i)
      invariant messages.tables == Announcing(before.tables, expired, outcomes, nowMs)
    {
      ExpiredIsOk(before.sessions, kept, expired, sessions.ttlMs, nowMs, i);
      var outcome := AppendOwnEvent(messages, expired[i], false, nowMs, faults(i));
      AnnouncesOneMore(before.tables, expired, outcomes, outcome, nowMs);
      outcomes := outcomes + [outcome];
      if outcome != Appended {
        move := Expiry(sessions.ttlMs, nowMs, expired, outcomes);
        Stopped(outcomes, |expired|);
        ExpiryDone(before, move, StateNow(messages, sessions));
        return false, move;
      }
    }
    move := Expiry(sessions.ttlMs, nowMs, expired, outcomes);
    ExpiryDone(before, move, StateNow(messages, sessions));
    return true, move;
  }

  lemma KeptIs(sessions: map<string, Session>, kept: map<string, Session>, removed: seq<Session>, ttlMs: int,
               nowMs: int)
    requires Split(sessions, kept, removed, ttlMs, nowMs)
    ensures kept == Unexpired(sessions, ttlMs, nowMs)
  {
    hide IsExpired, KeyOf;
  }

  lemma NothingAnnounced(t: Tables, removed: seq<Session>, nowMs: int)
    ensures Announcing(t, removed, [], nowMs) == t
  {
  }

  lemma AnnouncesOneMore(t: Tables, removed: seq<Session>, outcomes: seq<AppendOutcome>, outcome: AppendOutcome,
                         nowMs: int)
    requires |outcomes| < |removed|
    ensures var s := removed[|outcomes|];
            Announcing(t, removed, outcomes + [outcome], nowMs)
            == Apply(Announcing(t, removed, outcomes, nowMs),
                     SessionEvent(s.workspaceId, OfflinePayload(s), nowMs, outcome))
  {
    hide Apply;
    assert (outcomes + [outcome])[..|outcomes|] == outcomes;
  }

  lemma WritesExactly(outcome: AppendOutcome, faults: Faults)
    requires outcome == OutcomeOf(false, faults)
    ensures outcome.Appended? <==> Writes(faults)
  {
  }

  /** The registry has lost the expired sessions and the log has been told of them until an event was not completed. */
  lemma ExpiryDone(w: State, move: Move, w': State)
    requires SessionsOk(w.sessions) && move.Expiry? && StopsAtFirst(move.outcomes, |move.removed|)
    requires w'.sessions == Unexpired(w.sessions, move.ttlMs, move.nowMs)
    requires Split(w.sessions, w'.sessions, move.removed, move.ttlMs, move.nowMs)
    requires w'.expired == w.expired + |move.removed|
    requires w'.tables == Announcing(w.tables, move.removed, move.outcomes, move.nowMs)
    ensures Moved(w, move, w') && (Agree(w) ==> (Agree(w') <==> Told(move)))
    ensures Told(move) <==> |move.outcomes| == |move.removed| && AllAppended(move.outcomes)
  {
    hide SessionsOk, Split, Announcing, Unexpired, Agree;
    MoveAgrees(w, move, w');
  }

  lemma Stopped(outcomes: seq<AppendOutcome>, due: nat)
    requires 0 < |outcomes| <= due && !outcomes[|outcomes| - 1].Appended?
    requires AllAppended(outcomes[..|outcomes| - 1])
    ensures StopsAtFirst(outcomes, due) && !(|outcomes| == due && AllAppended(outcomes))
  {
  }

  lemma ExpiredIsOk(sessions: map<string, Session>, kept: map<string, Session>, removed: seq<Session>, ttlMs: int,
                    nowMs: int, i: nat)
    requires SessionsOk(sessions) && Split(sessions, kept, removed, ttlMs, nowMs) && i < |removed|
    ensures SessionOk(KeyOf(removed[i]), removed[i])
  {
    hide IsExpired, KeyOf, SessionOk;
  }

  /**
   * The end of a heartbeat or stream request: nothing, or one move. What it owes is the online event of a session
   * that was not held, and this is written exactly when neither the capabilities nor the append fail.
   */
  method TouchAndAnnounce(messages: MessageServiceDatabase, sessions: MessageSessionRegistry,
                          clientId: string, deviceId: string, workspaceId: string, lastEventId: int,
                          profile: Option<Profile>, newId: string, nowMs: int, capabilitiesFail: bool, faults: Faults)
    returns (answer: Answer, created: bool, ghost move: Option<Move>)
    requires messages.Valid() && sessions.Valid() && nowMs > 0
    requires Unused(messages.tables.events, sessions.sessions, newId)
    modifies messages, sessions
    ensures messages.Valid() && sessions.Valid()
    ensures match move
            case None => StateNow(messages, sessions) == old(StateNow(messages, sessions))
            case Some(m) => Moved(old(StateNow(messages, sessions)), m, StateNow(messages, sessions))
                            && (m.Arrival? || m.Return?)
    ensures move.None? <==> Trimmed(clientId) == "" || Trimmed(workspaceId) == ""
    ensures move.Some? ==>
              (Told(move.value) <==> created ==> !(profile.Some? && capabilitiesFail) && Writes(faults))
    ensures old(Agree(StateNow(messages, sessions))) ==>
              (Agree(StateNow(messages, sessions)) <==>
                 (created ==> !(profile.Some? && capabilitiesFail) && Writes(faults)))
    ensures answer == if profile.Some? && capabilitiesFail then CapabilitiesFailed
                      else if created && !Writes(faults) then OnlineEventFailed else Answered
    ensures created ==> Trimmed(clientId) != "" && Trimmed(workspaceId) != ""
    ensures Trimmed(clientId) != "" && Trimmed(workspaceId) != "" ==>
              var key := SessionKey(Trimmed(clientId), NormalizedDevice(clientId, deviceId), Trimmed(workspaceId));
              && created == (key !in old(sessions.sessions)) && key in sessions.sessions
              && sessions.sessions[key].lastSeenAtMs == nowMs
              && sessions.sessions[key].lastEventId == Max(0, lastEventId)
    ensures old(messages.tables.events) <= messages.tables.events
            && messages.tables.members == old(messages.tables.members)
  {
    hide Inv, SessionsOk, Apply, Held, Trimmed, SessionKey, Clean, KeepsEmptiness, NormalList, Statuses, Writes, Agree;
    ghost var before := StateNow(messages, sessions);
    var session;
    session, created := sessions.Touch(clientId, deviceId, workspaceId, lastEventId, profile, newId, nowMs);
    move := None;
    if session.Some? {
      FiledUnderKey(sessions.sessions, KeyOf(session.value));
      move := Some(if created then Arrival(session.value, nowMs, None) else Return(session.value));
      MoveAgrees(before, move.value, StateNow(messages, sessions));
    }
    if profile.Some? && capabilitiesFail { return CapabilitiesFailed, created, move; }
    if created {
      var outcome := AppendOwnEvent(messages, session.value, true, nowMs, faults);
      AppendOnlyAppends(before.tables, session.value.workspaceId, OnlinePayload(session.value), nowMs, outcome);
      move := Some(Arrival(session.value, nowMs, Some(outcome)));
      MoveAgrees(before, move.value, StateNow(messages, sessions));
      if outcome != Appended { return OnlineEventFailed, created, move; }
    }
    return Answered, created, move;
  }

  /**
   * What a heartbeat or stream request owes: the offline event of every expired session and, for a session that
   * is new here, whatever comes before its online event and that event.
   */
  predicate Pays(sessions: map<string, Session>, ttlMs: int, nowMs: int, clientId: string, deviceId: string,
                 workspaceId: string, offlineFaults: nat -> Faults, online: bool) {
    || Trimmed(workspaceId) == ""
    || (AllWrite(offlineFaults, |ExpiredKeys(sessions, ttlMs, nowMs)|)
        && (IsNew(sessions, ttlMs, nowMs, clientId, deviceId, workspaceId) ==> online))
  }

  /** A session is created exactly for a client that is new here. */
  lemma CreatedIsNew(w: State, expiry: Move, middle: State, clientId: string, deviceId: string, workspaceId: string)
    requires Moved(w, expiry, middle) && expiry.Expiry? && Trimmed(clientId) != "" && Trimmed(workspaceId) != ""
    ensures IsNew(w.sessions, expiry.ttlMs, expiry.nowMs, clientId, deviceId, workspaceId)
            <==> SessionKey(Trimmed(clientId), NormalizedDevice(clientId, deviceId), Trimmed(workspaceId))
                 !in middle.sessions
  {
    hide Trimmed, SessionKey, NormalizedDevice, IsExpired, Enabled;
  }

  /**
   * POST heartbeat. Log and registry agree afterwards exactly when the offline event of every expired session is
   * written and, for a session that is new here, neither the capabilities nor the online event fail.
   */
  method Heartbeat(messages: MessageServiceDatabase, sessions: MessageSessionRegistry,
                   clientId: string, deviceId: string, workspaceId: string, lastEventId: int, profile: Profile,
                   newId: string, nowMs: int, capabilitiesFail: bool,
                   offlineFaults: nat -> Faults, onlineFaults: Faults)
    returns (answer: Answer, ghost moves: seq<Move>)
    requires messages.Valid() && sessions.Valid() && nowMs > 0
    requires Unused(messages.tables.events, sessions.sessions, newId)
    modifies messages, sessions
    ensures messages.Valid() && sessions.Valid()
    ensures Runs(old(StateNow(messages, sessions)), moves)
            && StateNow(messages, sessions) == Run(old(StateNow(messages, sessions)), moves)
    ensures AllTold(moves) <==> Pays(old(sessions.sessions), sessions.ttlMs, nowMs, clientId, deviceId, workspaceId,
                                     offlineFaults, !capabilitiesFail && Writes(onlineFaults))
    ensures old(Agree(StateNow(messages, sessions))) ==> (Agree(StateNow(messages, sessions)) <==> AllTold(moves))
    ensures answer == BadRequest <==> Trimmed(workspaceId) == ""
    ensures answer == Answered <==>
              && Trimmed(workspaceId) != ""
              && AllWrite(offlineFaults, |ExpiredKeys(old(sessions.sessions), sessions.ttlMs, nowMs)|)
              && !capabilitiesFail
              && (IsNew(old(sessions.sessions), sessions.ttlMs, nowMs, clientId, deviceId, workspaceId)
                  ==> Writes(onlineFaults))
  {
    hide Inv, Agree, SessionsOk, Unused, Trimmed, IsExpired, SessionKey, ExpiredKeys, AllWrite, Writes, Moved, Runs,
         Run,
         Told;
    ghost var before := StateNow(messages, sessions);
    moves := [];
    NoMove(before);
    if Trimmed(workspaceId) == "" { return BadRequest, moves; }
    var ok;
    ghost var expiry, touch;
    ok, expiry := AppendExpiredSessionEvents(messages, sessions, nowMs, offlineFaults);
    ghost var middle := StateNow(messages, sessions);
    OneMove(before, expiry, middle);
    moves := [expiry];
    AgreementAfter(before, moves);
    if !ok { return OfflineEventFailed, moves; }
    ExpiryKeepsUnused(before, expiry, middle, newId);
    var created;
    answer, created, touch := TouchAndAnnounce(messages, sessions, clientId, deviceId, workspaceId, lastEventId,
                                               Some(profile), newId, nowMs, capabilitiesFail, onlineFaults);
    TwoMoves(before, expiry, middle, touch, StateNow(messages, sessions));
    moves := [expiry] + Given(touch);
    AgreementAfter(before, moves);
    if touch.Some? { CreatedIsNew(before, expiry, middle, clientId, deviceId, workspaceId); }
  }

  /**
   * GET events/stream: the page of the client, and the touch without capabilities. The session remembers the
   * largest event id of the page; log and registry agree under the same condition as for a heartbeat.
   */
  method Stream(messages: MessageServiceDatabase, sessions: MessageSessionRegistry,
                clientId: string, deviceId: string, workspaceId: string, afterEventId: int, limit: int,
                newId: string, nowMs: int, selectFails: bool, offlineFaults: nat -> Faults, onlineFaults: Faults)
    returns (answer: Answer, page: seq<Event>, ghost listed: Tables, ghost moves: seq<Move>)
    requires messages.Valid() && sessions.Valid() && nowMs > 0
    requires Unused(messages.tables.events, sessions.sessions, newId)
    modifies messages, sessions
    ensures messages.Valid() && sessions.Valid()
    ensures Runs(old(StateNow(messages, sessions)), moves)
            && StateNow(messages, sessions) == Run(old(StateNow(messages, sessions)), moves)
    ensures AllTold(moves) <==> Pays(old(sessions.sessions), sessions.ttlMs, nowMs, clientId, deviceId, workspaceId,
                                     offlineFaults, Writes(onlineFaults))
    ensures old(Agree(StateNow(messages, sessions))) ==> (Agree(StateNow(messages, sessions)) <==> AllTold(moves))
    ensures answer == BadRequest <==> Trimmed(workspaceId) == ""
    ensures answer == Answered <==>
              && Trimmed(workspaceId) != ""
              && AllWrite(offlineFaults, |ExpiredKeys(old(sessions.sessions), sessions.ttlMs, nowMs)|)
              && (IsNew(old(sessions.sessions), sessions.ttlMs, nowMs, clientId, deviceId, workspaceId)
                  ==> Writes(onlineFaults))
    ensures answer == Answered ==>
              && page == (if selectFails then [] else EventPage(listed, workspaceId, clientId, afterEventId, limit))
              && listed.events <= messages.tables.events && listed.members == messages.tables.members
    ensures answer == Answered && Trimmed(clientId) != "" ==>
              var key := SessionKey(Trimmed(clientId), NormalizedDevice(clientId, deviceId), Trimmed(workspaceId));
              key in sessions.sessions && sessions.sessions[key].lastEventId == NextCursor(page, afterEventId)
  {
    hide Inv, Agree, SessionsOk, Unused, Trimmed, IsExpired, SessionKey, ExpiredKeys, AllWrite, Writes, EventPage,
         NextCursor, Moved, Runs, Run, Told;
    ghost var before := StateNow(messages, sessions);
    listed := messages.tables;
    moves := [];
    NoMove(before);
    if Trimmed(workspaceId) == "" { return BadRequest, [], listed, moves; }
    var ok;
    ghost var expiry, touch;
    ok, expiry := AppendExpiredSessionEvents(messages, sessions, nowMs, offlineFaults);
    ghost var middle := StateNow(messages, sessions);
    listed := messages.tables;
    OneMove(before, expiry, middle);
    moves := [expiry];
    AgreementAfter(before, moves);
    if !ok { return OfflineEventFailed, [], listed, moves; }
    ExpiryKeepsUnused(before, expiry, middle, newId);
    page := if selectFails then [] else EventPage(messages.tables, workspaceId, clientId, afterEventId, limit);
    var lastEventId := MaxEventId(page, afterEventId);
    var created;
    answer, created, touch := TouchAndAnnounce(messages, sessions, clientId, deviceId, workspaceId, lastEventId,
                                               None, newId, nowMs, false, onlineFaults);
    TwoMoves(before, expiry, middle, touch, StateNow(messages, sessions));
    moves := [expiry] + Given(touch);
    AgreementAfter(before, moves);
    if touch.Some? { CreatedIsNew(before, expiry, middle, clientId, deviceId, workspaceId); }
  }

  /** GET sessions/online: where log and registry agreed, it reports sessions that the log says are online. */
  method SessionsOnline(messages: MessageServiceDatabase, sessions: MessageSessionRegistry, workspaceId: string,
                        nowMs: int, offlineFaults: nat -> Faults)
    returns (answer: Answer, online: seq<Session>, ghost moves: seq<Move>)
    requires messages.Valid() && sessions.Valid()
    modifies messages, sessions
    ensures messages.Valid() && sessions.Valid()
    ensures Runs(old(StateNow(messages, sessions)), moves)
            && StateNow(messages, sessions) == Run(old(StateNow(messages, sessions)), moves)
    ensures AllTold(moves) <==> answer == BadRequest || answer == Answered
    ensures old(Agree(StateNow(messages, sessions))) ==> (Agree(StateNow(messages, sessions)) <==> AllTold(moves))
    ensures answer == BadRequest <==> Trimmed(workspaceId) == ""
    ensures answer == Answered <==>
              && Trimmed(workspaceId) != ""
              && AllWrite(offlineFaults, |ExpiredKeys(old(sessions.sessions), sessions.ttlMs, nowMs)|)
    ensures answer == Answered ==> forall s :: s in online <==> HeldIn(sessions.sessions, s, Trimmed(workspaceId))
    ensures answer == Answered && old(Agree(StateNow(messages, sessions))) ==>
              forall s :: s in online ==> s.sessionId in Replay(messages.tables.events)
  {
    hide Inv, SessionsOk, Unused, Trimmed, IsExpired, Agree, Replay, ExpiredKeys, AllWrite, Moved, Runs, Run, Told,
         Reported, HeldIn;
    ghost var before := StateNow(messages, sessions);
    moves := [];
    NoMove(before);
    AgreementAfter(before, moves);
    if Trimmed(workspaceId) == "" { return BadRequest, [], moves; }
    var ok;
    ghost var expiry;
    ok, expiry := AppendExpiredSessionEvents(messages, sessions, nowMs, offlineFaults);
    OneMove(before, expiry, StateNow(messages, sessions));
    moves := [expiry];
    AgreementAfter(before, moves);
    if !ok { return OfflineEventFailed, [], moves; }
    online := sessions.OnlineSessions(workspaceId, nowMs);
    ghost var after := StateNow(messages, sessions);
    forall s ensures s in online <==> HeldIn(after.sessions, s, Trimmed(workspaceId)) {
      HeldAreReported(before, expiry, after, s, Trimmed(workspaceId));
    }
    if Agree(before) {
      forall s | s in online ensures s.sessionId in Replay(after.tables.events) {
        HeldIsOnline(after, s, Trimmed(workspaceId));
      }
    }
    answer := Answered;
  }

  ghost predicate HeldIn(sessions: map<string, Session>, s: Session, workspaceId: string) {
    exists k :: k in sessions && sessions[k] == s && s.workspaceId == workspaceId
  }

  lemma HeldAreReported(w: State, expiry: Move, w': State, s: Session, workspaceId: string)
    requires Moved(w, expiry, w') && expiry.Expiry?
    ensures Reported(w'.sessions, s, workspaceId, expiry.ttlMs, expiry.nowMs) <==> HeldIn(w'.sessions, s, workspaceId)
  {
    hide IsExpired, Enabled;
  }

  lemma HeldIsOnline(w: State, s: Session, workspaceId: string)
    requires Agree(w) && HeldIn(w.sessions, s, workspaceId)
    ensures s.sessionId in Replay(w.tables.events)
  {
    hide Agrees, Replay;
    ReplayIsRegistry(w.tables.events, w.sessions, w.expired, s.sessionId);
  }

  // ------------------------------------------------------ drift

  /** An offline event whose INSERT fails leaves a session online in the log that the registry no longer holds. */
  lemma LostOfflineDrifts(s: Session, nowMs: int)
    ensures var t1 := Apply(EMPTY, SessionEvent(s.workspaceId, OnlinePayload(s), nowMs, OutcomeOf(false, {})));
            var t2 := Apply(t1, SessionEvent(s.workspaceId, OfflinePayload(s), nowMs, OutcomeOf(false, {InsertEvent})));
            && Agrees(t1.events, map[KeyOf(s) := s], 0)
            && !Agrees(t2.events, map[], 1) && s.sessionId in Replay(t2.events)
  {
    hide Agrees, Statuses, OnlineEvents, Replay, KeyOf, Sessions;
    OnlineOnly(s, nowMs);
    var t1 := Apply(EMPTY, SessionEvent(s.workspaceId, OnlinePayload(s), nowMs, Appended));
    StillOnline(t1.events, s.sessionId, 1);
  }

  /** One session has come online and nothing else has happened. */
  lemma OnlineOnly(s: Session, nowMs: int)
    ensures var events := Apply(EMPTY, SessionEvent(s.workspaceId, OnlinePayload(s), nowMs, Appended)).events;
            && Agrees(events, map[KeyOf(s) := s], 0) && Statuses(events, s.sessionId) == [Online]
            && s.sessionId in Replay(events)
  {
    hide Statuses, OnlineEvents, KeyOf, Sessions, Agrees, Held, Replay;
    var e := Event(1, s.workspaceId, Sessions(), OnlinePayload(s), nowMs);
    assert [] + [e] == [e];
    Presence.NothingYet([]);
    forall id ensures Statuses([e], id) == Statuses([], id) + (if id == s.sessionId then [Online] else []) {
      AppendedStatus([], e, id);
    }
    AppendedStatus([], e, "");
    NothingHeld(s.sessionId);
    ArrivalAgrees([], [e], map[], s, 0, true);
    ReplayIsLastStatus([e], s.sessionId);
  }

  lemma NothingHeld(id: string)
    ensures !Held(map[], id) && Statuses([], id) == []
  {
  }

  lemma StillOnline(events: seq<Event>, id: string, expired: int)
    requires Statuses(events, id) == [Online]
    ensures !Agrees(events, map[], expired)
  {
    hide Statuses, OnlineEvents;
    assert !Held(map[], id);
  }

  /** An online event whose INSERT fails leaves a session in the registry that the log has never seen. */
  lemma LostOnlineDrifts(s: Session, nowMs: int)
    ensures var t1 := Apply(EMPTY,
                            SessionEvent(s.workspaceId, OnlinePayload(s), nowMs, OutcomeOf(false, {InsertEvent})));
            Agrees(EMPTY.events, map[], 0) && !Agrees(t1.events, map[KeyOf(s) := s], 0)
              && s.sessionId !in Replay(t1.events)
  {
    hide KeyOf;
    ArrivalHeld(map[], s, s.sessionId);
  }
}
