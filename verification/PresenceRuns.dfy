/** Log and registry over whole runs: they agree as long as every event that is due is written, and no longer. */
module PresenceRuns {
  import opened Text
  import opened Sql
  import opened MessageTables
  import opened MessageRuns
  import opened Presence

  datatype State = State(tables: Tables, sessions: map<string, Session>, expired: nat)

  const START := State(EMPTY, map[], 0)

  /**
   * What happens to the two: sessions expire and are announced until an event is not completed, a session comes
   * online and its event is written, not completed or not tried, a session is seen again, or another call is made.
   */
  datatype Move =
    | Expiry(ttlMs: int, nowMs: int, removed: seq<Session>, outcomes: seq<AppendOutcome>)
    | Arrival(session: Session, nowMs: int, tried: Option<AppendOutcome>)
    | Return(session: Session)
    | Call(op: Op)

  function OfflinePayload(s: Session): Payload {
    SessionOffline(s.sessionId, s.clientId, s.deviceId)
  }

  function OnlinePayload(s: Session): Payload {
    SessionOnline(s.sessionId, s.clientId, s.deviceId)
  }

  // ------------------------------------------------------ what an event tells

  /** What one append does to the story of an id: an event that was not completed is no part of it. */
  lemma AppendTells(t: Tables, workspaceId: string, payload: Payload, nowMs: int, outcome: AppendOutcome, id: string)
    ensures var after := Apply(t, SessionEvent(workspaceId, payload, nowMs, outcome)).events;
            && Statuses(after, id) == Statuses(t.events, id) + (if outcome.Appended? then StatusIn(payload, id) else [])
            && OnlineEvents(after) == OnlineEvents(t.events)
              + (if outcome.Appended? && payload.SessionOnline? then 1 else 0)
  {
    hide Statuses, OnlineEvents, Sessions;
    match outcome
    case Appended => AppendedStatus(t.events, Event(t.lastEventId + 1, workspaceId, Sessions(), payload, nowMs), id);
    case LeftUnfilled => AppendedStatus(t.events, Event(t.lastEventId + 1, workspaceId, Sessions(), Unfilled, nowMs),
                                        id);
    case IdUsedUp =>
    case NotInserted =>
  }

  lemma AppendOnlyAppends(t: Tables, workspaceId: string, payload: Payload, nowMs: int, outcome: AppendOutcome)
    ensures var after := Apply(t, SessionEvent(workspaceId, payload, nowMs, outcome));
           t.events <= after.events && after.members == t.members
  {
    hide Sessions;
  }

  /** The other calls of the service write no session events. */
  lemma OtherCallsTellNothing(t: Tables, op: Op, id: string)
    requires !op.SessionEvent?
    ensures Statuses(Apply(t, op).events, id) == Statuses(t.events, id)
    ensures OnlineEvents(Apply(t, op).events) == OnlineEvents(t.events)
  {
    hide Statuses, OnlineEvents, Apply, FindById, FindByKey, Recipients, Trimmed, StoreAccepts, AckAccepts,
         AddsRecipient;
    ApplyLogs(t, op);
    var news := NewEvents(t, op);
    if news == [] {
      assert t.events + news == t.events;
    } else {
      assert news == [news[0]];
      AppendedStatus(t.events, news[0], id);
    }
  }

  lemma OtherCallsKeepAgreement(t: Tables, op: Op, sessions: map<string, Session>, expired: int)
    requires !op.SessionEvent?
    ensures Agrees(Apply(t, op).events, sessions, expired) <==> Agrees(t.events, sessions, expired)
  {
    hide Statuses, OnlineEvents, Apply, Held;
    forall id ensures Statuses(Apply(t, op).events, id) == Statuses(t.events, id) {
      OtherCallsTellNothing(t, op, id);
    }
    OtherCallsTellNothing(t, op, "");
  }

  lemma AnnounceOne(start: seq<Event>, t: Tables, removed: seq<Session>, i: nat, nowMs: int, outcome: AppendOutcome)
    requires i < |removed| && LogsExpiry(start, t.events, removed, i)
             && !Names(removed[..i], removed[i].sessionId)
    ensures var after := Apply(t,
                               SessionEvent(removed[i].workspaceId, OfflinePayload(removed[i]), nowMs, outcome)).events;
            LogsExpiry(start, after, removed, if outcome.Appended? then i + 1 else i)
  {
    hide Statuses, OnlineEvents, Apply;
    var op := SessionEvent(removed[i].workspaceId, OfflinePayload(removed[i]), nowMs, outcome);
    AppendTells(t, removed[i].workspaceId, OfflinePayload(removed[i]), nowMs, outcome, "");
    forall id ensures Statuses(Apply(t, op).events, id)
                      == Statuses(start, id) + if Names(removed[..if outcome.Appended? then i + 1 else i],
                                                        id) then [Offline] else []
    {
      AppendTells(t, removed[i].workspaceId, OfflinePayload(removed[i]), nowMs, outcome, id);
      NamesOneMore(removed, i, id);
    }
  }

  lemma NamesOneMore(removed: seq<Session>, i: nat, id: string)
    requires i < |removed|
    ensures Names(removed[..i + 1], id) <==> Names(removed[..i], id) || removed[i].sessionId == id
  {
    assert removed[..i + 1] == removed[..i] + [removed[i]];
    if Names(removed[..i], id) {
      var j :| 0 <= j < i && removed[..i][j].sessionId == id;
      assert removed[..i + 1][j].sessionId == id;
    }
    assert removed[..i + 1][i] == removed[i];
  }

  lemma NoneAnnounced(events: seq<Event>, removed: seq<Session>)
    ensures LogsExpiry(events, events, removed, 0)
  {
  }

  /** Nothing is known of an id that has just been made up. */
  ghost predicate Unused(events: seq<Event>, sessions: map<string, Session>, id: string) {
    Clean(id) && Statuses(events, id) == [] && !Held(sessions, id)
  }

  lemma ArrivalTold(t: Tables, sessions: map<string, Session>, s: Session, expired: int, nowMs: int,
                    outcome: AppendOutcome)
    requires Agrees(t.events, sessions, expired) && KeyOf(s) !in sessions && Unused(t.events, sessions, s.sessionId)
    ensures var after := Apply(t, SessionEvent(s.workspaceId, OnlinePayload(s), nowMs, outcome)).events;
            Agrees(after, sessions[KeyOf(s) := s], expired) <==> outcome.Appended?
  {
    hide Statuses, OnlineEvents, Apply, Agrees, Held, KeyOf, Clean;
    var after := Apply(t, SessionEvent(s.workspaceId, OnlinePayload(s), nowMs, outcome)).events;
    AppendTells(t, s.workspaceId, OnlinePayload(s), nowMs, outcome, "");
    forall id ensures Statuses(after, id) == Statuses(t.events, id) + if outcome.Appended?
      && id == s.sessionId then [Online] else [] {
      AppendTells(t, s.workspaceId, OnlinePayload(s), nowMs, outcome, id);
      assert Statuses(t.events, id) + [] == Statuses(t.events, id);
    }
    ArrivalAgrees(t.events, after, sessions, s, expired, outcome.Appended?);
  }

  // ------------------------------------------------------ moves

  function Unexpired(sessions: map<string, Session>, ttlMs: int, nowMs: int): map<string, Session> {
    map k | k in sessions && !IsExpired(sessions[k], ttlMs, nowMs) :: sessions[k]
  }

  function Announcing(t: Tables, removed: seq<Session>, outcomes: seq<AppendOutcome>, nowMs: int): Tables
    requires |outcomes| <= |removed|
  {
    if outcomes == [] then t
    else
      var n := |outcomes| - 1;
      var s := removed[n];
      Apply(Announcing(t, removed, outcomes[..n], nowMs),
            SessionEvent(s.workspaceId, OfflinePayload(s), nowMs, outcomes[n]))
  }

  function Next(w: State, move: Move): State
    requires Fits(move)
  {
    match move
    case Expiry(ttlMs, nowMs, removed, outcomes) =>
      State(Announcing(w.tables, removed, outcomes, nowMs), Unexpired(w.sessions, ttlMs, nowMs), w.expired + |removed|)
    case Arrival(s, nowMs, tried) =>
      var tables := if tried.None? then w.tables
                    else Apply(w.tables, SessionEvent(s.workspaceId, OnlinePayload(s), nowMs, tried.value));
      w.(tables := tables, sessions := w.sessions[KeyOf(s) := s])
    case Return(s) => w.(sessions := w.sessions[KeyOf(s) := s])
    case Call(op) => w.(tables := Apply(w.tables, op))
  }

  /** No more events are tried than sessions removed. */
  predicate Fits(move: Move) {
    move.Expiry? ==> |move.outcomes| <= |move.removed|
  }

  predicate AllAppended(outcomes: seq<AppendOutcome>) {
    forall i :: 0 <= i < |outcomes| ==> outcomes[i].Appended?
  }

  /** The announcements stop at the first event that is not completed, and only there. */
  predicate StopsAtFirst(outcomes: seq<AppendOutcome>, due: nat) {
    |outcomes| <= due && (|outcomes| < due ==> outcomes != [] && !outcomes[|outcomes| - 1].Appended?)
    && (outcomes != [] ==> AllAppended(outcomes[..|outcomes| - 1]))
  }

  ghost predicate Enabled(w: State, move: Move) {
    match move
    case Expiry(ttlMs, nowMs, removed, outcomes) =>
      Split(w.sessions, Unexpired(w.sessions, ttlMs, nowMs), removed, ttlMs, nowMs) && StopsAtFirst(outcomes, |removed|)
    case Arrival(s, _, _) =>
      KeyOf(s) !in w.sessions && SessionOk(KeyOf(s), s) && Unused(w.tables.events, w.sessions, s.sessionId)
    case Return(s) =>
      KeyOf(s) in w.sessions && SessionOk(KeyOf(s), s) && SameClient(s, w.sessions[KeyOf(s)])
    case Call(op) => !op.SessionEvent?
  }

  /** Every event that the move owes was written. */
  predicate Told(move: Move) {
    match move
    case Expiry(_, _, removed, outcomes) => |outcomes| == |removed| && AllAppended(outcomes)
    case Arrival(_, _, tried) => tried == Some(Appended)
    case Return(_) => true
    case Call(_) => true
  }

  ghost predicate Runs(w: State, moves: seq<Move>)
    decreases |moves|, 0
  {
    moves != [] ==> Runs(w, moves[..|moves| - 1]) && Enabled(Run(w, moves[..|moves| - 1]), moves[|moves| - 1])
  }

  ghost function Run(w: State, moves: seq<Move>): State
    requires Runs(w, moves)
    decreases |moves|, 1
  {
    if moves == [] then w else Next(Run(w, moves[..|moves| - 1]), moves[|moves| - 1])
  }

  /** One state goes to the other by this move. */
  ghost predicate Moved(w: State, move: Move, w': State) {
    Enabled(w, move) && Fits(move) && w' == Next(w, move)
  }

  ghost predicate Agree(w: State) {
    Agrees(w.tables.events, w.sessions, w.expired)
  }

  /** A session that the log has not seen, or an id that it shows online and the registry does not hold. */
  ghost predicate Drifted(w: State) {
    OnlineEvents(w.tables.events) < |w.sessions| + w.expired
    || exists id :: Statuses(w.tables.events, id) == [Online] && !Held(w.sessions, id)
  }

  // ------------------------------------------------------ one move

  function Written(outcomes: seq<AppendOutcome>): nat {
    if outcomes != [] && !outcomes[|outcomes| - 1].Appended? then |outcomes| - 1 else |outcomes|
  }

  lemma {:induction false} AnnouncingTells(t: Tables, sessions: map<string, Session>, kept: map<string, Session>,
                                           removed: seq<Session>, ttlMs: int, nowMs: int, outcomes: seq<AppendOutcome>)
    requires SessionsOk(sessions) && Split(sessions, kept, removed, ttlMs, nowMs)
    requires |outcomes| <= |removed| && (outcomes != [] ==> AllAppended(outcomes[..|outcomes| - 1]))
    ensures LogsExpiry(t.events, Announcing(t, removed, outcomes, nowMs).events, removed, Written(outcomes))
  {
    hide SessionsOk, Split, LogsExpiry, Apply;
    if outcomes == [] {
      NoneAnnounced(t.events, removed);
    } else {
      var n := |outcomes| - 1;
      AnnouncingTells(t, sessions, kept, removed, ttlMs, nowMs, outcomes[..n]);
      NotYetNamed(sessions, kept, removed, ttlMs, nowMs, n);
      AnnounceOne(t.events, Announcing(t, removed, outcomes[..n], nowMs), removed, n, nowMs, outcomes[n]);
    }
  }

  /** An expiry keeps the agreement exactly when it tells of every session it removes, and otherwise drifts. */
  lemma ExpiryMove(w: State, move: Move)
    requires SessionsOk(w.sessions) && Enabled(w, move) && move.Expiry?
    ensures SessionsOk(Next(w, move).sessions)
    ensures Agree(w) && Told(move) ==> Agree(Next(w, move))
    ensures Agree(w) && !Told(move) ==> Drifted(Next(w, move))
    ensures Drifted(w) ==> Drifted(Next(w, move))
  {
    hide SessionsOk, Split, LogsExpiry, Statuses, OnlineEvents, Held, Unexpired, Agrees;
    var kept, removed := Unexpired(w.sessions, move.ttlMs, move.nowMs), move.removed;
    var events, events' := w.tables.events, Next(w, move).tables.events;
    SplitKeepsSessionsOk(w.sessions, kept, removed, move.ttlMs, move.nowMs);
    SplitSizes(w.sessions, kept, removed, move.ttlMs, move.nowMs);
    AnnouncingTells(w.tables, w.sessions, kept, removed, move.ttlMs, move.nowMs, move.outcomes);
    var written := Written(move.outcomes);
    assert Told(move) <==> written == |removed|;
    if Agree(w) {
      ExpiryAgrees(events, events', w.sessions, kept, removed, move.ttlMs, move.nowMs, w.expired, written);
      if written < |removed| {
        LostOffline(events, events', w.sessions, kept, removed, move.ttlMs, move.nowMs, w.expired, written);
      }
    }
    if Drifted(w) {
      AnnouncedCounts(events, events', removed, written);
      if id :| Statuses(events, id) == [Online] && !Held(w.sessions, id) {
        SplitIds(w.sessions, kept, removed, move.ttlMs, move.nowMs, id);
        NotAnnounced(events, events', removed, written, id);
      }
    }
  }

  lemma UnusedStays(events: seq<Event>, events': seq<Event>, sessions: map<string, Session>, kept: map<string, Session>,
                    removed: seq<Session>, ttlMs: int, nowMs: int, written: nat)
    requires SessionsOk(sessions) && Split(sessions, kept, removed, ttlMs, nowMs)
    requires written <= |removed| && LogsExpiry(events, events', removed, written)
    ensures forall id :: Unused(events, sessions, id) ==> Unused(events', kept, id)
  {
    hide SessionsOk, Split, Statuses, Held, OnlineEvents, Clean;
    forall id | Unused(events, sessions, id) ensures Unused(events', kept, id) {
      SplitIds(sessions, kept, removed, ttlMs, nowMs, id);
      forall i | 0 <= i < written ensures removed[..written][i].sessionId != id {
        assert removed[..written][i] == removed[i];
      }
    }
  }

  lemma ExpiryKeepsUnused(w: State, move: Move, w': State, id: string)
    requires SessionsOk(w.sessions) && Moved(w, move, w') && move.Expiry?
    requires Unused(w.tables.events, w.sessions, id)
    ensures Unused(w'.tables.events, w'.sessions, id)
  {
    hide SessionsOk, Split, LogsExpiry, Unused, Unexpired;
    var kept := Unexpired(w.sessions, move.ttlMs, move.nowMs);
    AnnouncingTells(w.tables, w.sessions, kept, move.removed, move.ttlMs, move.nowMs, move.outcomes);
    UnusedStays(w.tables.events, Next(w, move).tables.events, w.sessions, kept, move.removed, move.ttlMs, move.nowMs,
                Written(move.outcomes));
  }

  lemma AnnouncedCounts(events: seq<Event>, events': seq<Event>, removed: seq<Session>, written: nat)
    requires written <= |removed| && LogsExpiry(events, events', removed, written)
    ensures OnlineEvents(events') == OnlineEvents(events)
  {
  }

  lemma NotAnnounced(events: seq<Event>, events': seq<Event>, removed: seq<Session>, written: nat, id: string)
    requires written <= |removed| && LogsExpiry(events, events', removed, written) && !Names(removed, id)
    ensures Statuses(events', id) == Statuses(events, id)
  {
    hide Statuses, OnlineEvents;
    forall i | 0 <= i < written ensures removed[..written][i].sessionId != id {
      assert removed[..written][i] == removed[i];
    }
  }

  /** The first session whose event is not completed stays online in the log. */
  lemma LostOffline(events: seq<Event>, events': seq<Event>, sessions: map<string, Session>,
                    kept: map<string, Session>, removed: seq<Session>, ttlMs: int, nowMs: int, expired: int,
                    written: nat)
    requires Agrees(events, sessions, expired) && SessionsOk(sessions)
    requires Split(sessions, kept, removed, ttlMs, nowMs) && written < |removed|
             && LogsExpiry(events, events', removed, written)
    ensures exists id :: Statuses(events', id) == [Online] && !Held(kept, id)
  {
    hide Statuses, OnlineEvents, SessionsOk, Split, Held;
    var id := removed[written].sessionId;
    assert Names(removed, id);
    SplitIds(sessions, kept, removed, ttlMs, nowMs, id);
    NotYetNamed(sessions, kept, removed, ttlMs, nowMs, written);
    assert Statuses(events', id) == [Online];
  }

  /** An arrival keeps the agreement exactly when its event is written, and otherwise drifts. */
  lemma ArrivalMove(w: State, move: Move)
    requires SessionsOk(w.sessions) && Enabled(w, move) && move.Arrival?
    ensures SessionsOk(Next(w, move).sessions)
    ensures Agree(w) && Told(move) ==> Agree(Next(w, move))
    ensures Agree(w) && !Told(move) ==> Drifted(Next(w, move))
    ensures Drifted(w) ==> Drifted(Next(w, move))
  {
    hide SessionsOk, SessionOk, Statuses, OnlineEvents, Held, Agrees, KeyOf, Apply;
    var s, t := move.session, Next(w, move).tables;
    UnusedMeans(w.tables.events, w.sessions, s.sessionId);
    ArrivalKeepsSessionsOk(w.sessions, s);
    assert |Next(w, move).sessions| == |w.sessions| + 1;
    if Agree(w) && Told(move) {
      ArrivalTold(w.tables, w.sessions, s, w.expired, move.nowMs, Appended);
    }
    ArrivalCounts(w, move);
    if Agree(w) { AgreeCounts(w); }
    if id :| Statuses(w.tables.events, id) == [Online] && !Held(w.sessions, id) {
      ArrivalHeld(w.sessions, s, id);
      if move.tried.Some? {
        AppendTells(w.tables, s.workspaceId, OnlinePayload(s), move.nowMs, move.tried.value, id);
      }
      assert Statuses(t.events, id) == [Online];
    }
  }

  lemma UnusedMeans(events: seq<Event>, sessions: map<string, Session>, id: string)
    requires Unused(events, sessions, id)
    ensures Statuses(events, id) == [] && !Held(sessions, id)
  {
  }

  lemma AgreeCounts(w: State)
    requires Agree(w)
    ensures OnlineEvents(w.tables.events) == |w.sessions| + w.expired
  {
  }

  lemma ArrivalCounts(w: State, move: Move)
    requires move.Arrival?
    ensures OnlineEvents(Next(w, move).tables.events)
            == OnlineEvents(w.tables.events) + if Told(move) then 1 else 0
  {
    hide Statuses, OnlineEvents, Apply, KeyOf;
    var s := move.session;
    if move.tried.Some? {
      AppendTells(w.tables, s.workspaceId, OnlinePayload(s), move.nowMs, move.tried.value, "");
    }
  }

  /** A session seen again and the other calls touch neither agreement nor drift. */
  lemma QuietMove(w: State, move: Move)
    requires SessionsOk(w.sessions) && Enabled(w, move) && (move.Return? || move.Call?)
    ensures SessionsOk(Next(w, move).sessions)
    ensures Agree(w) ==> Agree(Next(w, move))
    ensures Drifted(w) ==> Drifted(Next(w, move))
  {
    hide SessionsOk, SessionOk, Statuses, OnlineEvents, Agrees, KeyOf, Apply;
    if move.Return? {
      var s := move.session;
      ReturnKeepsSessionsOk(w.sessions, KeyOf(s), s);
      ReturnAgrees(w.tables.events, w.sessions, KeyOf(s), s, w.expired);
      var after := w.sessions[KeyOf(s) := s];
      assert after.Keys == w.sessions.Keys && |after| == |after.Keys| && |w.sessions| == |w.sessions.Keys|;
      forall id ensures Held(after, id) ==> Held(w.sessions, id) { ReturnHeld(w.sessions, KeyOf(s), s, id); }
    } else {
      OtherCallsKeepAgreement(w.tables, move.op, w.sessions, w.expired);
      OtherCallsTellNothing(w.tables, move.op, "");
      forall id ensures Statuses(Apply(w.tables, move.op).events, id) == Statuses(w.tables.events, id) {
        OtherCallsTellNothing(w.tables, move.op, id);
      }
    }
  }

  lemma ReturnHeld(sessions: map<string, Session>, k: string, s: Session, id: string)
    requires k in sessions && s.sessionId == sessions[k].sessionId
    ensures Held(sessions[k := s], id) ==> Held(sessions, id)
  {
    if Held(sessions[k := s], id) {
      var l :| l in sessions[k := s] && sessions[k := s][l].sessionId == id;
      assert l in sessions && sessions[l].sessionId == id;
    }
  }

  lemma MoveTells(w: State, move: Move)
    requires SessionsOk(w.sessions) && Enabled(w, move)
    ensures SessionsOk(Next(w, move).sessions)
    ensures Agree(w) ==> if Told(move) then Agree(Next(w, move)) else Drifted(Next(w, move))
    ensures Drifted(w) ==> Drifted(Next(w, move))
  {
    hide SessionsOk, Agrees, Drifted, Next, Enabled;
    match move
    case Expiry(_, _, _, _) => ExpiryMove(w, move);
    case Arrival(_, _, _) => ArrivalMove(w, move);
    case Return(_) => QuietMove(w, move);
    case Call(_) => QuietMove(w, move);
  }

  lemma DriftedDisagrees(w: State)
    requires Drifted(w)
    ensures !Agree(w)
  {
    hide Statuses, OnlineEvents, Held;
  }

  /** The agreement survives a move exactly if the move tells all that it owes. */
  lemma MoveAgrees(w: State, move: Move, w': State)
    requires SessionsOk(w.sessions) && Moved(w, move, w')
    ensures Agree(w) ==> (Agree(w') <==> Told(move))
  {
    hide SessionsOk, Agrees, Drifted, Next, Enabled;
    MoveTells(w, move);
    if Drifted(w') { DriftedDisagrees(w'); }
  }

  // ------------------------------------------------------ whole runs

  predicate AllTold(moves: seq<Move>) {
    forall i :: 0 <= i < |moves| ==> Told(moves[i])
  }

  lemma {:induction false} RunTells(w: State, moves: seq<Move>)
    requires SessionsOk(w.sessions) && Agree(w) && Runs(w, moves)
    ensures SessionsOk(Run(w, moves).sessions)
    ensures if AllTold(moves) then Agree(Run(w, moves)) else Drifted(Run(w, moves))
  {
    hide SessionsOk, Agrees, Drifted, Next, Enabled, Told;
    if moves != [] {
      var front, last := moves[..|moves| - 1], moves[|moves| - 1];
      RunTells(w, front);
      MoveTells(Run(w, front), last);
      assert moves == front + [last];
    }
  }

  /** A request that expires sessions and then touches one moves in at most two steps. */
  lemma TwoMoves(w: State, expiry: Move, middle: State, touch: Option<Move>, end: State)
    requires Moved(w, expiry, middle)
    requires match touch case None => end == middle case Some(m) => Moved(middle, m, end)
    ensures var moves := [expiry] + Given(touch);
            && Runs(w, moves) && Run(w, moves) == end
            && (AllTold(moves) <==> Told(expiry) && (touch.Some? ==> Told(touch.value)))
  {
    hide Next, Enabled, Fits, Told;
    OneMove(w, expiry, middle);
    match touch
    case None => assert [expiry] + [] == [expiry];
    case Some(m) =>
      assert ([expiry] + [m])[..1] == [expiry];
      assert ([expiry] + [m])[0] == expiry && ([expiry] + [m])[1] == m;
  }

  function Given(move: Option<Move>): seq<Move> {
    match move case None => [] case Some(m) => [m]
  }

  lemma OneMove(w: State, move: Move, w': State)
    requires Moved(w, move, w')
    ensures Runs(w, [move]) && Run(w, [move]) == w' && (AllTold([move]) <==> Told(move))
  {
    hide Next, Enabled, Fits, Told;
    assert [move][..0] == [];
    assert Told([move][0]) <==> Told(move);
  }

  lemma NoMove(w: State)
    ensures Runs(w, []) && Run(w, []) == w && AllTold([])
  {
  }

  /** How far a route's moves carry: the agreement lasts exactly if all that is due is told. */
  lemma AgreementAfter(w: State, moves: seq<Move>)
    requires SessionsOk(w.sessions) && Runs(w, moves)
    ensures Agree(w) ==> (Agree(Run(w, moves)) <==> AllTold(moves))
  {
    hide SessionsOk, Agrees, Drifted, Runs, Run, Told;
    if Agree(w) {
      RunTells(w, moves);
      if !AllTold(moves) { DriftedDisagrees(Run(w, moves)); }
    }
  }

  /**
   * From an empty registry and log, after any requests and calls whatsoever: log and registry agree if and only if
   * every event that was due has been written. An event once lost is never made up for.
   */
  lemma AgreementOfEveryRun(moves: seq<Move>)
    requires Runs(START, moves)
    ensures Agree(Run(START, moves)) <==> AllTold(moves)
    ensures AllTold(moves) ==>
              forall id :: id in Replay(Run(START, moves).tables.events) <==> Held(Run(START, moves).sessions, id)
  {
    hide Agrees, Drifted, Runs, Run, Told, Replay, Held;
    NothingYet(START.tables.events);
    RunTells(START, moves);
    var end := Run(START, moves);
    if AllTold(moves) {
      forall id ensures id in Replay(end.tables.events) <==> Held(end.sessions, id) {
        ReplayIsRegistry(end.tables.events, end.sessions, end.expired, id);
      }
    } else {
      DriftedDisagrees(end);
    }
  }
}
