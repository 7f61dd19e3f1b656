/** Who is online: the sessions held in memory, and the online and offline events that tell the story in the log. */
module Presence {
  import opened Text
  import opened Sql
  import opened Lists
  import opened MessageTables

  datatype Session = Session(
    sessionId: string, clientId: string, deviceId: string, workspaceId: string,
    connectedAtMs: int, lastSeenAtMs: int, lastEventId: int, appVersion: string, capabilities: seq<string>)

  /** What a heartbeat, but not a stream request, says about the client. */
  datatype Profile = Profile(appVersion: string, capabilities: seq<string>)

  // ------------------------------------------------------ what the log says

  datatype Status = Online | Offline

  function StatusIn(payload: Payload, id: string): seq<Status> {
    match payload
    case SessionOnline(sessionId, _, _) => if sessionId == id then [Online] else []
    case SessionOffline(sessionId, _, _) => if sessionId == id then [Offline] else []
    case _ => []
  }

  /** The online and offline events of one session id, in log order. */
  function Statuses(events: seq<Event>, id: string): seq<Status> {
    if events == [] then []
    else Statuses(events[..|events| - 1], id) + StatusIn(events[|events| - 1].payload, id)
  }

  function OnlineEvents(events: seq<Event>): nat {
    if events == [] then 0
    else OnlineEvents(events[..|events| - 1]) + if events[|events| - 1].payload.SessionOnline? then 1 else 0
  }

  /** A reader of the log keeps a set of ids: online puts one in, offline takes it out. */
  function Replay(events: seq<Event>): set<string> {
    if events == [] then {}
    else
      var before := Replay(events[..|events| - 1]);
      match events[|events| - 1].payload
      case SessionOnline(id, _, _) => before + {id}
      case SessionOffline(id, _, _) => before - {id}
      case _ => before
  }

  lemma {:induction false} ReplayIsLastStatus(events: seq<Event>, id: string)
    ensures id in Replay(events) <==> var s := Statuses(events, id); s != [] && s[|s| - 1] == Online
  {
    if events == [] {
    } else {
      ReplayIsLastStatus(events[..|events| - 1], id);
    }
  }

  lemma AppendedStatus(events: seq<Event>, e: Event, id: string)
    ensures Statuses(events + [e], id) == Statuses(events, id) + StatusIn(e.payload, id)
    ensures OnlineEvents(events + [e]) == OnlineEvents(events) + if e.payload.SessionOnline? then 1 else 0
  {
    assert (events + [e])[..|events|] == events;
  }

  // ------------------------------------------------------ what the registry holds

  /** The registry's key. */
  function SessionKey(clientId: string, deviceId: string, workspaceId: string): string {
    workspaceId + "|" + clientId + "|" + deviceId
  }

  function KeyOf(s: Session): string {
    SessionKey(s.clientId, s.deviceId, s.workspaceId)
  }

  ghost predicate Held(sessions: map<string, Session>, id: string) {
    exists k :: k in sessions && sessions[k].sessionId == id
  }

  /** Sessions are filed under their own key, complete, and have different ids. */
  predicate SessionOk(k: string, s: Session) {
    Clean(s.sessionId) && Clean(s.clientId) && Clean(s.deviceId) && Clean(s.workspaceId) && k == KeyOf(s)
      && s.lastSeenAtMs > 0
  }

  ghost predicate SessionsOk(sessions: map<string, Session>) {
    && (forall k :: k in sessions ==> SessionOk(k, sessions[k]))
    && (forall k, l :: k in sessions && l in sessions && sessions[k].sessionId == sessions[l].sessionId ==> k == l)
  }

  /**
   * Log and registry agree: a session that is held has come online and not gone offline; any other id has
   * either never appeared or come online once and gone offline once after that.
   */
  ghost predicate Agrees(events: seq<Event>, sessions: map<string, Session>, expired: int) {
    && (forall id :: Held(sessions, id) ==> Statuses(events, id) == [Online])
    && (forall id :: !Held(sessions, id) ==> Statuses(events, id) == [] || Statuses(events, id) == [Online, Offline])
    && OnlineEvents(events) == |sessions| + expired
  }

  /** Replaying the log of an agreeing state gives exactly the ids in the registry. */
  lemma ReplayIsRegistry(events: seq<Event>, sessions: map<string, Session>, expired: int, id: string)
    requires Agrees(events, sessions, expired)
    ensures id in Replay(events) <==> Held(sessions, id)
  {
    ReplayIsLastStatus(events, id);
  }

  lemma NothingYet(events: seq<Event>)
    requires events == []
    ensures Agrees(events, map[], 0)
  {
  }

  // ------------------------------------------------------ expiry

  predicate IsExpired(s: Session, ttlMs: int, nowMs: int) {
    s.lastSeenAtMs > 0 && nowMs - s.lastSeenAtMs > ttlMs
  }

  predicate Names(removed: seq<Session>, id: string) {
    exists i :: 0 <= i < |removed| && removed[i].sessionId == id
  }

  /** Part-way through the walk: `kept` has lost the expired sessions met so far, and `removed` lists them once each. */
  ghost predicate Sweeping(sessions: map<string, Session>, kept: map<string, Session>, removed: seq<Session>,
                           unseen: set<string>,
                           ttlMs: int, nowMs: int)
  {
    && (forall k :: k in kept <==> k in sessions && (k in unseen || !IsExpired(sessions[k], ttlMs, nowMs)))
    && (forall k :: k in kept ==> kept[k] == sessions[k])
    && (forall i :: 0 <= i < |removed| ==>
          KeyOf(removed[i]) in sessions && KeyOf(removed[i]) !in unseen
          && removed[i] == sessions[KeyOf(removed[i])] && IsExpired(removed[i], ttlMs, nowMs))
    && (forall k :: k in sessions && k !in unseen && IsExpired(sessions[k], ttlMs, nowMs) ==> sessions[k] in removed)
    && (forall i, j :: 0 <= i < j < |removed| ==> removed[i] != removed[j])
    && |sessions| == |kept| + |removed|
  }

  /** `removed` lists the expired sessions, each once, in some order; `kept` are the others. */
  ghost predicate Split(sessions: map<string, Session>, kept: map<string, Session>, removed: seq<Session>, ttlMs: int,
                        nowMs: int) {
    Sweeping(sessions, kept, removed, {}, ttlMs, nowMs)
  }

  lemma SweepKeeps(sessions: map<string, Session>, kept: map<string, Session>, removed: seq<Session>,
                   unseen: set<string>,
                   ttlMs: int, nowMs: int, k: string)
    requires Sweeping(sessions, kept, removed, unseen, ttlMs, nowMs) && k in unseen && k in sessions
    requires !IsExpired(sessions[k], ttlMs, nowMs)
    ensures Sweeping(sessions, kept, removed, unseen - {k}, ttlMs, nowMs)
  {
    hide IsExpired, KeyOf;
  }

  lemma SweepRemoves(sessions: map<string, Session>, kept: map<string, Session>, removed: seq<Session>,
                     unseen: set<string>,
                     ttlMs: int, nowMs: int, k: string)
    requires Sweeping(sessions, kept, removed, unseen, ttlMs, nowMs) && k in unseen && k in sessions
    requires IsExpired(sessions[k], ttlMs, nowMs) && KeyOf(sessions[k]) == k
    ensures Sweeping(sessions, kept - {k}, removed + [sessions[k]], unseen - {k}, ttlMs, nowMs)
  {
    hide IsExpired, KeyOf;
    assert (kept - {k}).Keys == kept.Keys - {k} && |kept| == |kept.Keys| && |kept - {k}| == |(kept - {k}).Keys|;
    forall i | 0 <= i < |removed| ensures removed[i] != sessions[k] {
      assert KeyOf(removed[i]) !in unseen;
    }
  }

  lemma SplitIds(sessions: map<string, Session>, kept: map<string, Session>, removed: seq<Session>, ttlMs: int,
                 nowMs: int, id: string)
    requires SessionsOk(sessions) && Split(sessions, kept, removed, ttlMs, nowMs)
    ensures Held(sessions, id) <==> Held(kept, id) || Names(removed, id)
    ensures !(Held(kept, id) && Names(removed, id))
  {
    hide Clean, KeyOf, IsExpired;
    if Held(sessions, id) {
      var k :| k in sessions && sessions[k].sessionId == id;
      if k in kept { assert kept[k].sessionId == id; } else { assert sessions[k] in removed; }
    }
    if Names(removed, id) {
      var i :| 0 <= i < |removed| && removed[i].sessionId == id;
      assert sessions[KeyOf(removed[i])].sessionId == id;
    }
  }

  /** The log after the first `written` of the removed sessions have been announced. */
  ghost predicate LogsExpiry(events: seq<Event>, events': seq<Event>, removed: seq<Session>, written: nat)
    requires written <= |removed|
  {
    && (forall id :: Statuses(events', id) == Statuses(events, id) + if Names(removed[..written], id) then [Offline]
        else [])
    && OnlineEvents(events') == OnlineEvents(events)
  }

  /** Expiry keeps log and registry in agreement exactly when every removed session is announced. */
  lemma ExpiryAgrees(events: seq<Event>, events': seq<Event>, sessions: map<string, Session>,
                     kept: map<string, Session>,
                     removed: seq<Session>, ttlMs: int, nowMs: int, expired: int, written: nat)
    requires Agrees(events, sessions, expired) && SessionsOk(sessions)
    requires Split(sessions, kept, removed, ttlMs, nowMs) && written <= |removed|
             && LogsExpiry(events, events', removed, written)
    ensures Agrees(events', kept, expired + |removed|) <==> written == |removed|
  {
    hide Statuses, OnlineEvents, SessionsOk, Split, Held;
    assert |sessions| == |kept| + |removed| by { SplitSizes(sessions, kept, removed, ttlMs, nowMs); }
    if written == |removed| {
      assert removed[..written] == removed;
      forall id ensures if Held(kept, id) then Statuses(events', id) == [Online]
                        else Statuses(events', id) == [] || Statuses(events', id) == [Online, Offline]
      {
        SplitIds(sessions, kept, removed, ttlMs, nowMs, id);
      }
    } else {
      var id := removed[written].sessionId;
      assert Names(removed, id);
      SplitIds(sessions, kept, removed, ttlMs, nowMs, id);
      NotYetNamed(sessions, kept, removed, ttlMs, nowMs, written);
      assert Statuses(events', id) == [Online];
    }
  }

  lemma SplitSizes(sessions: map<string, Session>, kept: map<string, Session>, removed: seq<Session>, ttlMs: int,
                   nowMs: int)
    requires Split(sessions, kept, removed, ttlMs, nowMs)
    ensures |sessions| == |kept| + |removed|
  {
  }

  lemma NotYetNamed(sessions: map<string, Session>, kept: map<string, Session>, removed: seq<Session>, ttlMs: int,
                    nowMs: int, i: nat)
    requires SessionsOk(sessions) && Split(sessions, kept, removed, ttlMs, nowMs) && i < |removed|
    ensures !Names(removed[..i], removed[i].sessionId)
  {
    hide Clean, KeyOf, IsExpired;
    forall j | 0 <= j < i ensures removed[j].sessionId != removed[i].sessionId {
      assert removed[j] == sessions[KeyOf(removed[j])] && removed[i] == sessions[KeyOf(removed[i])];
      assert removed[j] != removed[i];
    }
  }

  // ------------------------------------------------------ coming online

  /** A new session keeps log and registry in agreement exactly when its online event is written. */
  lemma ArrivalAgrees(events: seq<Event>, events': seq<Event>, sessions: map<string, Session>, s: Session,
                      expired: int, written: bool)
    requires Agrees(events, sessions, expired) && KeyOf(s) !in sessions
    requires Statuses(events, s.sessionId) == [] && !Held(sessions, s.sessionId)
    requires forall id :: Statuses(events', id) == Statuses(events, id) + if written && id == s.sessionId then [Online]
             else []
    requires OnlineEvents(events') == OnlineEvents(events) + if written then 1 else 0
    ensures Agrees(events', sessions[KeyOf(s) := s], expired) <==> written
  {
    hide Statuses, OnlineEvents, KeyOf, Held;
    var after := sessions[KeyOf(s) := s];
    forall id ensures Held(after, id) <==> Held(sessions, id) || id == s.sessionId {
      ArrivalHeld(sessions, s, id);
    }
  }

  lemma ArrivalHeld(sessions: map<string, Session>, s: Session, id: string)
    requires KeyOf(s) !in sessions
    ensures Held(sessions[KeyOf(s) := s], id) <==> Held(sessions, id) || id == s.sessionId
  {
    hide KeyOf;
    var after := sessions[KeyOf(s) := s];
    assert after[KeyOf(s)] == s;
    if Held(sessions, id) {
      var k :| k in sessions && sessions[k].sessionId == id;
      assert after[k].sessionId == id;
    }
  }

  /** A session seen again keeps its id, so the agreement is untouched. */
  lemma ReturnAgrees(events: seq<Event>, sessions: map<string, Session>, k: string, s: Session, expired: int)
    requires k in sessions && s.sessionId == sessions[k].sessionId
    ensures Agrees(events, sessions[k := s], expired) <==> Agrees(events, sessions, expired)
  {
    hide Statuses, OnlineEvents;
    var after := sessions[k := s];
    assert after.Keys == sessions.Keys && |after| == |after.Keys| && |sessions| == |sessions.Keys|;
    forall id ensures Held(after, id) <==> Held(sessions, id) {
      if Held(sessions, id) { var l :| l in sessions && sessions[l].sessionId == id; assert after[l].sessionId == id; }
      if Held(after, id) { var l :| l in after && after[l].sessionId == id; assert sessions[l].sessionId == id; }
    }
  }

  // ------------------------------------------------------ the order of an answer

  /** The order of strings: by the first character that differs, a beginning before what it begins. */
  predicate Before(a: string, b: string)
    decreases |a|
  {
    b != "" && (a == "" || a[0] < b[0] || (a[0] == b[0] && Before(a[1..], b[1..])))
  }

  predicate SessionBefore(s: Session, t: Session) {
    || Before(s.clientId, t.clientId)
    || (s.clientId == t.clientId
        && (Before(s.deviceId, t.deviceId) || (s.deviceId == t.deviceId && Before(s.sessionId, t.sessionId))))
  }

  predicate InOrder(list: seq<Session>) {
    forall i, j :: 0 <= i < j < |list| ==> !SessionBefore(list[j], list[i])
  }

  /** Lexicographic: a proper beginning, or smaller at the first difference. */
  lemma {:induction false} BeforeIsLexicographic(a: string, b: string)
    ensures Before(a, b) <==> exists k :: DiffersAt(a, b, k)
    decreases |a|
  {
    if a == "" || b == "" || a[0] != b[0] {
      FirstDiffers(a, b);
    } else {
      BeforeIsLexicographic(a[1..], b[1..]);
      CommonFirst(a, b);
    }
  }

  predicate DiffersAt(a: string, b: string, k: int) {
    0 <= k <= |a| && k <= |b| && a[..k] == b[..k] && if k == |a| then k < |b| else k < |b| && a[k] < b[k]
  }

  lemma FirstDiffers(a: string, b: string)
    requires a == "" || b == "" || a[0] != b[0]
    ensures Before(a, b) <==> exists k :: DiffersAt(a, b, k)
  {
    if Before(a, b) { assert DiffersAt(a, b, 0); }
    forall k | 0 < k <= |a| && k <= |b| ensures a[..k] != b[..k] {
      assert a[..k][0] == a[0] && b[..k][0] == b[0];
    }
  }

  lemma CommonFirst(a: string, b: string)
    requires a != "" && b != "" && a[0] == b[0]
    ensures (exists k :: DiffersAt(a, b, k)) <==> exists k :: DiffersAt(a[1..], b[1..], k)
  {
    forall k | DiffersAt(a, b, k) ensures DiffersAt(a[1..], b[1..], k - 1) {
      assert k > 0;
      assert a[1..][..k - 1] == a[..k][1..] && b[1..][..k - 1] == b[..k][1..];
    }
    forall k | DiffersAt(a[1..], b[1..], k) ensures DiffersAt(a, b, k + 1) {
      assert a[..k + 1] == [a[0]] + a[1..][..k] && b[..k + 1] == [b[0]] + b[1..][..k];
    }
  }

  lemma {:induction false} OneIsBefore(a: string, b: string)
    ensures Before(a, b) ==> !Before(b, a)
    ensures Before(a, b) || Before(b, a) || a == b
    decreases |a|
  {
    if a != "" && b != "" && a[0] == b[0] {
      OneIsBefore(a[1..], b[1..]);
      assert a == [a[0]] + a[1..] && b == [b[0]] + b[1..];
    }
  }

  lemma {:induction false} BeforeIsTransitive(a: string, b: string, c: string)
    requires Before(a, b) && Before(b, c)
    ensures Before(a, c)
    decreases |a|
  {
    if a != "" && a[0] == b[0] == c[0] { BeforeIsTransitive(a[1..], b[1..], c[1..]); }
  }

  /** Being not before is transitive, too. */
  lemma NotBeforeThrough(s: Session, u: Session, t: Session)
    requires !SessionBefore(u, t) && !SessionBefore(s, u)
    ensures !SessionBefore(s, t)
  {
    hide Before;
    forall a, b ensures (Before(a, b) ==> !Before(b, a))
      && (Before(a, b) || Before(b, a) || a == b) { OneIsBefore(a, b); }
    forall a, b, c | Before(a, b) && Before(b, c) ensures Before(a, c) { BeforeIsTransitive(a, b, c); }
  }

  function InsertSession(s: Session, list: seq<Session>): seq<Session> {
    if list != [] && SessionBefore(s, list[|list| - 1])
    then InsertSession(s, list[..|list| - 1]) + [list[|list| - 1]]
    else list + [s]
  }

  lemma {:induction false} InsertSessionInserts(s: Session, list: seq<Session>)
    ensures multiset(InsertSession(s, list)) == multiset(list) + multiset{s}
  {
    hide SessionBefore;
    if list != [] && SessionBefore(s, list[|list| - 1]) {
      var front, last := list[..|list| - 1], list[|list| - 1];
      assert list == front + [last];
      InsertSessionInserts(s, front);
      LastApart(front, last);
      LastApart(InsertSession(s, front), last);
      SwapLast(multiset(front), multiset{s}, multiset{last});
    } else {
      LastApart(list, s);
    }
  }

  lemma InsertedMember(s: Session, list: seq<Session>, i: nat)
    requires i < |InsertSession(s, list)|
    ensures InsertSession(s, list)[i] == s || InsertSession(s, list)[i] in list
  {
    hide InsertSession;
    InsertSessionInserts(s, list);
    assert InsertSession(s, list)[i] in multiset(InsertSession(s, list));
  }

  lemma {:induction false} InsertSessionInOrder(s: Session, list: seq<Session>)
    requires InOrder(list)
    ensures InOrder(InsertSession(s, list))
  {
    hide SessionBefore;
    if list != [] && SessionBefore(s, list[|list| - 1]) {
      var front, last := list[..|list| - 1], list[|list| - 1];
      InsertSessionInOrder(s, front);
      var r := InsertSession(s, front);
      forall i | 0 <= i < |r| ensures !SessionBefore(last, r[i]) {
        InsertedMember(s, front, i);
        if r[i] == s { NotBoth(s, last); }
      }
    } else if list != [] {
      forall i | 0 <= i < |list| ensures !SessionBefore(s, list[i]) { NotBeforeEarlier(s, list, i); }
    }
  }

  lemma NotBoth(s: Session, t: Session)
    requires SessionBefore(s, t)
    ensures !SessionBefore(t, s)
  {
    hide Before;
    forall a, b ensures Before(a, b) ==> !Before(b, a) { OneIsBefore(a, b); }
  }

  lemma NotBeforeEarlier(s: Session, list: seq<Session>, i: nat)
    requires InOrder(list) && i < |list| && !SessionBefore(s, list[|list| - 1])
    ensures !SessionBefore(s, list[i])
  {
    hide SessionBefore;
    if i < |list| - 1 { NotBeforeThrough(s, list[|list| - 1], list[i]); }
  }

  /** `std::sort` by client, device and session id. */
  function Sorted(list: seq<Session>): seq<Session> {
    if list == [] then [] else InsertSession(list[|list| - 1], Sorted(list[..|list| - 1]))
  }

  lemma {:induction false} SortedIsInOrder(list: seq<Session>)
    ensures InOrder(Sorted(list)) && multiset(Sorted(list)) == multiset(list)
  {
    hide InsertSession, InOrder;
    if list == [] {
      NothingInOrder();
    } else {
      var front, last := list[..|list| - 1], list[|list| - 1];
      assert list == front + [last];
      LastApart(front, last);
      SortedIsInOrder(front);
      InsertSessionInOrder(last, Sorted(front));
      InsertSessionInserts(last, Sorted(front));
    }
  }

  lemma NothingInOrder()
    ensures InOrder([])
  {
  }

  lemma SortedKeeps(list: seq<Session>)
    requires forall i, j :: 0 <= i < j < |list| ==> list[i] != list[j]
    ensures InOrder(Sorted(list)) && (forall s :: s in Sorted(list) <==> s in list)
    ensures forall i, j :: 0 <= i < j < |Sorted(list)| ==> Sorted(list)[i] != Sorted(list)[j]
  {
    hide InOrder, Sorted;
    SortedIsInOrder(list);
    forall s ensures s in Sorted(list) <==> s in list { assert s in multiset(Sorted(list)) <==> s in multiset(list); }
    forall s ensures multiset(Sorted(list))[s] <= 1 { AtMostOnce(list, s); }
    forall i, j | 0 <= i < j < |Sorted(list)|
      ensures Sorted(list)[i] != Sorted(list)[j] { TwiceCounts(Sorted(list), i, j); }
  }

  lemma {:induction false} AtMostOnce(list: seq<Session>, s: Session)
    requires forall i, j :: 0 <= i < j < |list| ==> list[i] != list[j]
    ensures multiset(list)[s] <= 1
  {
    if list == [] {
    } else {
      var front, last := list[..|list| - 1], list[|list| - 1];
      assert list == front + [last];
      LastApart(front, last);
      AtMostOnce(front, s);
    }
  }

  lemma TwiceCounts(list: seq<Session>, i: nat, j: nat)
    requires i < j < |list|
    ensures list[i] == list[j] ==> multiset(list)[list[i]] >= 2
  {
    assert list == list[..j] + list[j..];
    assert list[..j][i] in multiset(list[..j]) && list[j..][0] in multiset(list[j..]);
  }

  // ------------------------------------------------------ the registry

  function NormalizedDevice(clientId: string, deviceId: string): string {
    if Trimmed(deviceId) == "" then Trimmed(clientId) else Trimmed(deviceId)
  }

  function CapabilityKey(fold: Folding): string -> seq<string> {
    (capability: string) => [fold(capability)]
  }

  /** The loop that trims the capabilities of a client and drops blank and repeated ones, ignoring case. */
  method NormalizedCapabilities(fold: Folding, capabilities: seq<string>) returns (result: seq<string>)
    requires KeepsEmptiness(fold)
    ensures result == NormalList(capabilities, Trimmed, CapabilityKey(fold))
    ensures forall c :: c in result ==> Clean(c) && exists s :: s in capabilities && c == Trimmed(s)
    ensures forall i, j :: 0 <= i < j < |result| ==> fold(result[i]) != fold(result[j])
    ensures forall s :: s in capabilities && Trimmed(s) != "" ==>
              exists c :: c in result && fold(c) == fold(Trimmed(s))
  {
    hide Trimmed, NormalList, Kept, IsNormal;
    result := [];
    NothingNormal(Trimmed, CapabilityKey(fold));
    for i := 0 to |capabilities|
      invariant result == NormalList(capabilities[..i], Trimmed, CapabilityKey(fold))
    {
      OneMoreItem(capabilities, i, Trimmed, CapabilityKey(fold));
      var capability := Trimmed(capabilities[i]);
      var seen := FindIndex(result, CapabilityKey(fold), CapabilityKey(fold)(capability));
      if capability != "" && seen < 0 {
        result := result + [capability];
      }
    }
    assert capabilities[..|capabilities|] == capabilities;
    CapabilitiesClean(fold, capabilities);
  }

  lemma CapabilitiesClean(fold: Folding, capabilities: seq<string>)
    requires KeepsEmptiness(fold)
    ensures var result := NormalList(capabilities, Trimmed, CapabilityKey(fold));
            && (forall c :: c in result ==> Clean(c) && exists s :: s in capabilities && c == Trimmed(s))
            && (forall i, j :: 0 <= i < j < |result| ==> fold(result[i]) != fold(result[j]))
            && (forall s :: s in capabilities && Trimmed(s) != "" ==>
                  exists c :: c in result && fold(c) == fold(Trimmed(s)))
  {
    hide Trimmed, NormalList;
    forall s ensures Trimmed(Trimmed(s)) == Trimmed(s) { TrimmedIsIdempotent(s); }
    NormalListIsNormal(capabilities, Trimmed, CapabilityKey(fold));
    var result := NormalList(capabilities, Trimmed, CapabilityKey(fold));
    forall c | c in result ensures c != "" && exists s :: s in capabilities && c == Trimmed(s) {
      var i :| 0 <= i < |result| && result[i] == c;
      assert "" !in CapabilityKey(fold)(result[i]);
      var s := NormalFrom(capabilities, Trimmed, CapabilityKey(fold), c);
    }
    forall i, j | 0 <= i < j < |result| ensures fold(result[i]) != fold(result[j]) {
      assert CapabilityKey(fold)(result[i]) != CapabilityKey(fold)(result[j]);
    }
    forall s | s in capabilities && Trimmed(s) != "" ensures exists c :: c in result && fold(c) == fold(Trimmed(s)) {
      assert fold(Trimmed(s)) != "";
      var c := NormalHas(capabilities, Trimmed, CapabilityKey(fold), s);
    }
  }

  lemma CleanTriple(clientId: string, deviceId: string, workspaceId: string)
    requires Trimmed(clientId) != "" && Trimmed(workspaceId) != ""
    ensures Clean(Trimmed(clientId)) && Clean(NormalizedDevice(clientId, deviceId)) && Clean(Trimmed(workspaceId))
  {
    hide Trimmed;
    TrimmedIsClean(clientId);
    TrimmedIsClean(workspaceId);
    if Trimmed(deviceId) != "" { TrimmedIsClean(deviceId); }
  }

  lemma ArrivalKeepsSessionsOk(sessions: map<string, Session>, s: Session)
    requires SessionsOk(sessions) && SessionOk(KeyOf(s), s) && !Held(sessions, s.sessionId)
    ensures SessionsOk(sessions[KeyOf(s) := s])
  {
    hide SessionOk, KeyOf;
  }

  lemma ReturnKeepsSessionsOk(sessions: map<string, Session>, k: string, s: Session)
    requires SessionsOk(sessions) && SessionOk(k, s) && k in sessions && s.sessionId == sessions[k].sessionId
    ensures SessionsOk(sessions[k := s])
  {
    hide SessionOk, KeyOf;
  }

  lemma SplitKeepsSessionsOk(sessions: map<string, Session>, kept: map<string, Session>, removed: seq<Session>,
                             ttlMs: int, nowMs: int)
    requires SessionsOk(sessions) && Split(sessions, kept, removed, ttlMs, nowMs)
    ensures SessionsOk(kept)
  {
    hide SessionOk, KeyOf, IsExpired;
  }

  /** A session stays if it was last seen within the time to live, and is removed otherwise. */
  ghost predicate GoneByTime(sessions: map<string, Session>, kept: map<string, Session>, removed: seq<Session>,
                             ttlMs: int, nowMs: int) {
    && (forall k :: k in kept <==> k in sessions && nowMs - sessions[k].lastSeenAtMs <= ttlMs)
    && (forall k :: k in kept ==> kept[k] == sessions[k])
    && (forall s :: s in removed <==> exists k :: k in sessions && sessions[k] == s && nowMs - s.lastSeenAtMs > ttlMs)
  }

  /** Who stays and who goes, by the time of the last request: a session goes as soon as more than the ttl has
    * passed. */
  lemma SplitByTime(sessions: map<string, Session>, kept: map<string, Session>, removed: seq<Session>, ttlMs: int,
                    nowMs: int)
    requires SessionsOk(sessions) && Split(sessions, kept, removed, ttlMs, nowMs)
    ensures GoneByTime(sessions, kept, removed, ttlMs, nowMs)
  {
    hide Clean, KeyOf, IsExpired;
    forall k | k in sessions
      ensures IsExpired(sessions[k], ttlMs, nowMs) <==> nowMs - sessions[k].lastSeenAtMs > ttlMs {
      ExpiredByTime(k, sessions[k], ttlMs, nowMs);
    }
    forall s | s in removed ensures exists k :: k in sessions && sessions[k] == s && nowMs - s.lastSeenAtMs > ttlMs {
      var i :| 0 <= i < |removed| && removed[i] == s;
      assert sessions[KeyOf(removed[i])] == s;
    }
  }

  lemma ExpiredByTime(k: string, s: Session, ttlMs: int, nowMs: int)
    requires SessionOk(k, s)
    ensures IsExpired(s, ttlMs, nowMs) <==> nowMs - s.lastSeenAtMs > ttlMs
  {
    hide Clean, KeyOf;
  }

  lemma SweepStarts(sessions: map<string, Session>, ttlMs: int, nowMs: int)
    ensures Sweeping(sessions, sessions, [], sessions.Keys, ttlMs, nowMs)
  {
  }

  lemma FiledUnderKey(sessions: map<string, Session>, k: string)
    requires SessionsOk(sessions) && k in sessions
    ensures KeyOf(sessions[k]) == k && SessionOk(k, sessions[k])
  {
  }

  /** Two states of one session: its id, its owner and its beginning do not change. */
  predicate SameClient(s: Session, t: Session) {
    && s.sessionId == t.sessionId && s.clientId == t.clientId && s.deviceId == t.deviceId
    && s.workspaceId == t.workspaceId && s.connectedAtMs == t.connectedAtMs
  }

  class MessageSessionRegistry {
    const ttlMs: int
    const fold: Folding
    var sessions: map<string, Session>
    var expiredSessions: nat

    ghost predicate Valid()
      reads this
    {
      ttlMs >= 1 && KeepsEmptiness(fold) && SessionsOk(sessions)
    }

    constructor (ttl: int, fold: Folding)
      requires KeepsEmptiness(fold)
      ensures Valid() && this.fold == fold && ttlMs == Max(1, ttl) && sessions == map[] && expiredSessions == 0
    {
      ttlMs, this.fold, sessions, expiredSessions := Max(1, ttl), fold, map[], 0;
    }

    /** Refreshes the session of a client, device and workspace, or opens one under a new id. */
    method Touch(clientId: string, deviceId: string, workspaceId: string, lastEventId: int,
                 profile: Option<Profile>, newId: string, nowMs: int)
      returns (session: Option<Session>, created: bool)
      requires Valid() && nowMs > 0 && Clean(newId) && !Held(sessions, newId)
      modifies this`sessions
      ensures Valid()
      ensures session.None? <==> Trimmed(clientId) == "" || Trimmed(workspaceId) == ""
      ensures session.None? ==> !created && sessions == old(sessions)
      ensures session.Some? ==>
                var key := SessionKey(Trimmed(clientId), NormalizedDevice(clientId, deviceId), Trimmed(workspaceId));
                && sessions == old(sessions)[key := session.value] && KeyOf(session.value) == key
                && created == (key !in old(sessions))
                && (if created
                    then && session.value.clientId == Trimmed(clientId)
                      && session.value.workspaceId == Trimmed(workspaceId)
                         && session.value.deviceId
                            == (if Trimmed(deviceId) == "" then Trimmed(clientId) else Trimmed(deviceId))
                    else SameClient(session.value, old(sessions)[key]))
                && session.value.sessionId == (if created then newId else old(sessions)[key].sessionId)
                && session.value.lastSeenAtMs == nowMs && session.value.lastEventId == Max(0, lastEventId)
                && session.value.connectedAtMs == (if created then nowMs else old(sessions)[key].connectedAtMs)
                && (session.value.appVersion, session.value.capabilities) == match profile {
                     case Some(p) => (Trimmed(p.appVersion), NormalList(p.capabilities, Trimmed, CapabilityKey(fold)))
                     case None => if created then ("", [])
                       else (old(sessions)[key].appVersion, old(sessions)[key].capabilities)
                   }
    {
      hide Clean, Trimmed, SessionKey, NormalList, Kept, KeepsEmptiness;
      var client, workspace, device := Trimmed(clientId), Trimmed(workspaceId), NormalizedDevice(clientId, deviceId);
      if client == "" || workspace == "" { return None, false; }
      var key := SessionKey(client, device, workspace);
      created := key !in sessions;
      var s := if created then Session(newId, client, device, workspace, nowMs, nowMs, 0, "", []) else sessions[key];
      s := s.(lastSeenAtMs := nowMs, lastEventId := Max(0, lastEventId));
      if profile.Some? {
        var capabilities := NormalizedCapabilities(fold, profile.value.capabilities);
        s := s.(appVersion := Trimmed(profile.value.appVersion), capabilities := capabilities);
      }
      CleanTriple(clientId, deviceId, workspaceId);
      if created { ArrivalKeepsSessionsOk(sessions, s); } else { ReturnKeepsSessionsOk(sessions, key, s); }
      sessions := sessions[key := s];
      session := Some(s);
    }

    /** Takes out every session not seen for longer than the time to live; the hash is walked in no particular order. */
    method TakeExpiredSessions(nowMs: int) returns (removed: seq<Session>)
      requires Valid()
      modifies this
      ensures Valid() && Split(old(sessions), sessions, removed, ttlMs, nowMs)
      ensures GoneByTime(old(sessions), sessions, removed, ttlMs, nowMs)
      ensures expiredSessions == old(expiredSessions) + |removed|
    {
      hide SessionsOk, KeyOf, IsExpired, Sweeping;
      removed := [];
      var kept, unseen := sessions, sessions.Keys;
      SweepStarts(sessions, ttlMs, nowMs);
      while unseen != {}
        invariant sessions == old(sessions) && expiredSessions == old(expiredSessions)
        invariant unseen <= sessions.Keys && Sweeping(sessions, kept, removed, unseen, ttlMs, nowMs)
        decreases |unseen|
      {
        var k :| k in unseen;
        FiledUnderKey(sessions, k);
        if IsExpired(sessions[k], ttlMs, nowMs) {
          SweepRemoves(sessions, kept, removed, unseen, ttlMs, nowMs, k);
          removed := removed + [sessions[k]];
          kept := kept - {k};
        } else {
          SweepKeeps(sessions, kept, removed, unseen, ttlMs, nowMs, k);
        }
        unseen := unseen - {k};
      }
      SplitKeepsSessionsOk(sessions, kept, removed, ttlMs, nowMs);
      SplitByTime(sessions, kept, removed, ttlMs, nowMs);
      expiredSessions := expiredSessions + |removed|;
      sessions := kept;
    }

    /** The sessions of a workspace that are not expired, each once, sorted by client, device and id. */
    method OnlineSessions(workspaceId: string, nowMs: int) returns (result: seq<Session>)
      requires Valid()
      ensures forall s :: s in result <==> Reported(sessions, s, Trimmed(workspaceId), ttlMs, nowMs)
      ensures forall s ::
                s in result <==> exists k :: k in sessions && sessions[k] == s && s.workspaceId == Trimmed(workspaceId)
                                             && nowMs - s.lastSeenAtMs <= ttlMs
      ensures forall i, j :: 0 <= i < j < |result| ==> result[i] != result[j]
      ensures forall i, j :: 0 <= i < j < |result| ==>
                var s, u := result[i], result[j];
                && !Before(u.clientId, s.clientId) && (s.clientId == u.clientId ==> !Before(u.deviceId, s.deviceId))
                && (s.clientId == u.clientId && s.deviceId == u.deviceId ==> !Before(u.sessionId, s.sessionId))
    {
      hide Trimmed, SessionsOk, KeyOf, IsExpired, InOrder, Sorted;
      result := [];
      var unseen := sessions.Keys;
      while unseen != {}
        invariant unseen <= sessions.Keys
        invariant forall s :: s in result <==> Reported(sessions - unseen, s, Trimmed(workspaceId), ttlMs, nowMs)
        invariant forall i, j :: 0 <= i < j < |result| ==> result[i] != result[j]
        decreases |unseen|
      {
        var k :| k in unseen;
        OneMoreReported(sessions, unseen, k, Trimmed(workspaceId), ttlMs, nowMs);
        if sessions[k].workspaceId == Trimmed(workspaceId) && !IsExpired(sessions[k], ttlMs, nowMs) {
          result := result + [sessions[k]];
        }
        unseen := unseen - {k};
      }
      assert sessions - {} == sessions;
      SortedKeeps(result);
      result := Sorted(result);
      ReportedByTime(sessions, Trimmed(workspaceId), ttlMs, nowMs);
      OrderMeans(result);
    }
  }

  ghost predicate Reported(sessions: map<string, Session>, s: Session, workspaceId: string, ttlMs: int, nowMs: int) {
    exists k :: k in sessions && sessions[k] == s && s.workspaceId == workspaceId && !IsExpired(s, ttlMs, nowMs)
  }

  lemma ReportedByTime(sessions: map<string, Session>, workspaceId: string, ttlMs: int, nowMs: int)
    requires SessionsOk(sessions)
    ensures forall s ::
              Reported(sessions, s, workspaceId, ttlMs, nowMs) <==>
                exists k :: k in sessions && sessions[k] == s && s.workspaceId == workspaceId
                            && nowMs - s.lastSeenAtMs <= ttlMs
  {
    hide Clean, KeyOf;
  }

  lemma OrderMeans(list: seq<Session>)
    requires InOrder(list)
    ensures forall i, j :: 0 <= i < j < |list| ==>
              var s, u := list[i], list[j];
              && !Before(u.clientId, s.clientId) && (s.clientId == u.clientId ==> !Before(u.deviceId, s.deviceId))
              && (s.clientId == u.clientId && s.deviceId == u.deviceId ==> !Before(u.sessionId, s.sessionId))
  {
    hide Before;
    forall i, j | 0 <= i < j < |list| ensures !SessionBefore(list[j], list[i]) { }
  }

  lemma OneMoreReported(sessions: map<string, Session>, unseen: set<string>, k: string, workspaceId: string,
                        ttlMs: int, nowMs: int)
    requires SessionsOk(sessions) && unseen <= sessions.Keys && k in unseen
    ensures var after := sessions - (unseen - {k});
            forall s :: Reported(after, s, workspaceId, ttlMs, nowMs) <==>
              Reported(sessions - unseen, s, workspaceId, ttlMs, nowMs)
              || (s == sessions[k] && s.workspaceId == workspaceId && !IsExpired(s, ttlMs, nowMs))
    ensures !Reported(sessions - unseen, sessions[k], workspaceId, ttlMs, nowMs)
  {
    hide SessionOk, KeyOf, IsExpired;
    var before, after := sessions - unseen, sessions - (unseen - {k});
    assert after == before[k := sessions[k]];
    forall s ensures Reported(after, s, workspaceId, ttlMs, nowMs) <==>
      Reported(before, s, workspaceId, ttlMs, nowMs)
        || (s == sessions[k] && s.workspaceId == workspaceId && !IsExpired(s, ttlMs, nowMs))
    {
      if Reported(before, s, workspaceId, ttlMs, nowMs) {
        var l :| l in before && before[l] == s;
        assert after[l] == s;
      }
      assert after[k] == sessions[k];
    }
  }

  // ------------------------------------------------------ keys

  /** The key tells clients, devices and workspaces apart when workspace and client ids contain no pipe. */
  lemma KeyIdentifies(client: string, device: string, workspace: string, client': string, device': string,
                      workspace': string)
    requires PipeFree(workspace) && PipeFree(workspace') && PipeFree(client) && PipeFree(client')
    requires SessionKey(client, device, workspace) == SessionKey(client', device', workspace')
    ensures client == client' && device == device' && workspace == workspace'
  {
    assert SessionKey(client, device, workspace) == workspace + "|" + (client + "|" + device);
    assert SessionKey(client', device', workspace') == workspace' + "|" + (client' + "|" + device');
    FirstPipe(workspace, client + "|" + device, workspace', client' + "|" + device');
    FirstPipe(client, device, client', device');
  }

  /**
   * One session for each client, device and workspace, after trimming: a blank device counts as a device of the
   * client's own name.
   */
  lemma DevicesAreApart(c: string, d: string, w: string, c': string, d': string, w': string)
    requires PipeFree(Trimmed(w)) && PipeFree(Trimmed(w')) && PipeFree(Trimmed(c)) && PipeFree(Trimmed(c'))
    ensures SessionKey(Trimmed(c), NormalizedDevice(c, d), Trimmed(w))
            == SessionKey(Trimmed(c'), NormalizedDevice(c', d'), Trimmed(w'))
            <==> Trimmed(c) == Trimmed(c') && Trimmed(w) == Trimmed(w')
                 && (|| Trimmed(d) == Trimmed(d') || (Trimmed(d) == "" && Trimmed(d') == Trimmed(c))
                     || (Trimmed(d') == "" && Trimmed(d) == Trimmed(c)))
  {
    hide Trimmed, PipeFree, SessionKey;
    if SessionKey(Trimmed(c), NormalizedDevice(c, d), Trimmed(w))
       == SessionKey(Trimmed(c'), NormalizedDevice(c', d'), Trimmed(w')) {
      KeyIdentifies(Trimmed(c), NormalizedDevice(c, d), Trimmed(w),
                    Trimmed(c'), NormalizedDevice(c', d'), Trimmed(w'));
    }
  }

  /** With a pipe in an id it does not: the part around the pipe can belong to either side. */
  lemma KeysCollide(x: string, y: string, z: string, device: string)
    ensures SessionKey(z, device, x + "|" + y) == SessionKey(y + "|" + z, device, x)
  {
    assert (x + "|" + y) + "|" + z == x + "|" + (y + "|" + z);
  }

  function Pipes(s: string): nat {
    if s == "" then 0 else Pipes(s[..|s| - 1]) + if s[|s| - 1] == '|' then 1 else 0
  }

  lemma {:induction false} PipesJoin(a: string, b: string)
    ensures Pipes(a + b) == Pipes(a) + Pipes(b)
  {
    if b == "" {
      assert a + b == a;
    } else {
      PipesJoin(a, b[..|b| - 1]);
      assert (a + b)[..|a + b| - 1] == a + b[..|b| - 1];
    }
  }

  lemma {:induction false} NoPipes(s: string)
    ensures Pipes(s) == 0 <==> PipeFree(s)
  {
    if s == "" {
    } else {
      NoPipes(s[..|s| - 1]);
      assert s == s[..|s| - 1] + [s[|s| - 1]];
    }
  }

  lemma KeyPipes(client: string, device: string, workspace: string)
    ensures Pipes(SessionKey(client, device, workspace)) == Pipes(client) + Pipes(device) + Pipes(workspace) + 2
  {
    hide Pipes;
    PipesJoin(workspace + "|" + client + "|", device);
    PipesJoin(workspace + "|" + client, "|");
    PipesJoin(workspace + "|", client);
    PipesJoin(workspace, "|");
    OnePipe();
  }

  lemma OnePipe()
    ensures Pipes("|") == 1
  {
    assert "|"[..0] == "";
  }

  ghost predicate SharesKey(client: string, device: string, workspace: string) {
    exists c, d, w :: SessionKey(c, d, w) == SessionKey(client, device, workspace)
      && (c, d, w) != (client, device, workspace)
  }

  lemma SplitAtPipe(s: string) returns (x: string, y: string)
    requires !PipeFree(s)
    ensures s == x + "|" + y
  {
    var i :| 0 <= i < |s| && s[i] == '|';
    x, y := s[..i], s[i + 1..];
  }

  /** Per-triple identity: a different triple has the same key if and only if one of the three ids contains a pipe. */
  lemma KeyIsShared(client: string, device: string, workspace: string)
    ensures SharesKey(client, device, workspace) <==> !(PipeFree(client) && PipeFree(device) && PipeFree(workspace))
  {
    hide SessionKey, Pipes, PipeFree;
    if PipeFree(client) && PipeFree(device) && PipeFree(workspace) {
      forall c, d, w | SessionKey(c, d, w) == SessionKey(client, device, workspace)
        ensures (c, d, w) == (client, device, workspace) {
        SameKeyIsSame(client, device, workspace, c, d, w);
      }
    } else if !PipeFree(workspace) {
      var x, y := SplitAtPipe(workspace);
      KeysCollide(x, y, client, device);
      assert |x| < |workspace|;
    } else if !PipeFree(client) {
      var x, y := SplitAtPipe(client);
      KeysCollide(workspace, x, y, device);
      assert |y| < |client|;
    } else {
      var x, y := SplitAtPipe(device);
      DevicesCollide(client, x, y, workspace);
      assert |y| < |device|;
    }
  }

  lemma DevicesCollide(client: string, x: string, y: string, workspace: string)
    ensures SessionKey(client + "|" + x, y, workspace) == SessionKey(client, x + "|" + y, workspace)
  {
    assert workspace + "|" + (client + "|" + x) + "|" + y == workspace + "|" + client + "|" + (x + "|" + y);
  }

  lemma SameKeyIsSame(client: string, device: string, workspace: string, c: string, d: string, w: string)
    requires PipeFree(client) && PipeFree(device) && PipeFree(workspace)
    requires SessionKey(c, d, w) == SessionKey(client, device, workspace)
    ensures (c, d, w) == (client, device, workspace)
  {
    hide SessionKey, Pipes, PipeFree;
    KeyPipes(client, device, workspace);
    KeyPipes(c, d, w);
    NoPipes(client);
    NoPipes(device);
    NoPipes(workspace);
    NoPipes(c);
    NoPipes(w);
    KeyIdentifies(client, device, workspace, c, d, w);
  }

  // ------------------------------------------------------ keys of the ids a registry holds

  /** The key read as three clean ids with the separators at `i` and `j`. */
  predicate ReadsAs(key: string, i: nat, j: nat) {
    i < j < |key| && key[i] == key[j] == '|' && Clean(key[..i]) && Clean(key[i + 1..j]) && Clean(key[j + 1..])
  }

  ghost predicate SharesCleanKey(client: string, device: string, workspace: string) {
    exists c, d, w :: SessionKey(c, d, w) == SessionKey(client, device, workspace) && Clean(c) && Clean(d) && Clean(w)
      && (c, d, w) != (client, device, workspace)
  }

  /** Two clients the registry accepts have one session if and only if their key can be read in another way. */
  lemma CleanKeyIsShared(client: string, device: string, workspace: string)
    requires Clean(client) && Clean(device) && Clean(workspace)
    ensures SharesCleanKey(client, device, workspace) <==>
            exists i: nat, j: nat :: ReadsAs(SessionKey(client, device, workspace), i, j)
              && (i != |workspace| || j != |workspace| + 1 + |client|)
  {
    hide Clean, ReadsAs, SessionKey, SharesCleanKey;
    var key := SessionKey(client, device, workspace);
    if SharesCleanKey(client, device, workspace) {
      var c, d, w := OtherTriple(client, device, workspace);
      TripleReads(c, d, w);
      KeyParts(c, d, w);
      KeyParts(client, device, workspace);
      assert |w| != |workspace| || |w| + 1 + |c| != |workspace| + 1 + |client|;
    }
    if i: nat, j: nat :| ReadsAs(key, i, j) && (i != |workspace| || j != |workspace| + 1 + |client|) {
      OtherReadIsShared(client, device, workspace, i, j);
    }
  }

  lemma OtherTriple(client: string, device: string, workspace: string) returns (c: string, d: string, w: string)
    requires SharesCleanKey(client, device, workspace)
    ensures SessionKey(c, d, w) == SessionKey(client, device, workspace) && Clean(c) && Clean(d) && Clean(w)
    ensures (c, d, w) != (client, device, workspace)
  {
    hide Clean, SessionKey;
    c, d, w :| SessionKey(c, d, w) == SessionKey(client, device, workspace) && Clean(c) && Clean(d) && Clean(w)
      && (c, d, w) != (client, device, workspace);
  }

  lemma TripleReads(client: string, device: string, workspace: string)
    requires Clean(client) && Clean(device) && Clean(workspace)
    ensures ReadsAs(SessionKey(client, device, workspace), |workspace|, |workspace| + 1 + |client|)
  {
    hide Clean;
    KeyParts(client, device, workspace);
  }

  lemma OtherReadIsShared(client: string, device: string, workspace: string, i: nat, j: nat)
    requires ReadsAs(SessionKey(client, device, workspace), i, j)
    requires i != |workspace| || j != |workspace| + 1 + |client|
    ensures SharesCleanKey(client, device, workspace)
  {
    var key := SessionKey(client, device, workspace);
    ReadIsTriple(key, i, j);
    var w, c, d := key[..i], key[i + 1..j], key[j + 1..];
    hide Clean, ReadsAs, SessionKey;
    assert SessionKey(c, d, w) == SessionKey(client, device, workspace);
    assert (c, d, w) != (client, device, workspace);
  }

  lemma ReadIsTriple(key: string, i: nat, j: nat)
    requires ReadsAs(key, i, j)
    ensures var w, c, d := key[..i], key[i + 1..j], key[j + 1..];
            && SessionKey(c, d, w) == key && Clean(c) && Clean(d) && Clean(w)
            && |w| == i && |w| + 1 + |c| == j
  {
    hide Clean;
  }

  lemma KeyParts(client: string, device: string, workspace: string)
    ensures var key := SessionKey(client, device, workspace);
            var i, j := |workspace|, |workspace| + 1 + |client|;
            && i < j < |key| && key[i] == key[j] == '|'
            && key[..i] == workspace && key[i + 1..j] == client && key[j + 1..] == device
  {
  }

  /** A pipe between two clean parts of an id is enough: two different accepted clients share a session. */
  lemma CleanKeysCollide(x: string, y: string, z: string, device: string)
    requires Clean(x) && Clean(y) && Clean(z) && Clean(device)
    ensures SharesCleanKey(z, device, x + "|" + y) && SharesCleanKey(y + "|" + z, device, x)
  {
    hide Clean;
    KeysCollide(x, y, z, device);
    JoinedIsClean(x, y);
    JoinedIsClean(y, z);
    assert |x| < |x + "|" + y|;
  }

  lemma NotEmpty(s: string)
    requires Clean(s)
    ensures s != ""
  {
  }

  lemma JoinedIsClean(x: string, y: string)
    requires Clean(x) && Clean(y)
    ensures Clean(x + "|" + y)
  {
    CleanEnds(x);
    CleanEnds(y);
    CleanEnds(x + "|" + y);
  }

  /** A pipe alone is not enough: this client shares its key with no other that the registry accepts. */
  lemma LonePipeIsPrivate()
    ensures Clean("|") && !SharesCleanKey("|", "d", "w")
  {
    hide Clean, SharesCleanKey, ReadsAs;
    assert |SessionKey("|", "d", "w")| == 5;
    CleanEnds("|");
    CleanEnds("d");
    CleanEnds("w");
    CleanKeyIsShared("|", "d", "w");
    forall i: nat, j: nat | ReadsAs(SessionKey("|", "d", "w"), i, j) ensures i == 1 && j == 3 {
      PartsNotEmpty(SessionKey("|", "d", "w"), i, j);
    }
  }

  lemma PartsNotEmpty(key: string, i: nat, j: nat)
    requires ReadsAs(key, i, j)
    ensures 1 <= i && i + 2 <= j && j + 2 <= |key|
  {
    hide Clean;
    NotEmpty(key[..i]);
    NotEmpty(key[i + 1..j]);
    NotEmpty(key[j + 1..]);
  }
}
