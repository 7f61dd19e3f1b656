/** Two sessions over lossless first-in-first-out links: when do the two ends of a call agree? */
module CallPair {
  import opened CallSessions

  datatype Side = L | R

  function Other(side: Side): Side {
    if side == L then R else L
  }

  datatype Pair<T> = Pair(l: T, r: T) {
    function At(side: Side): T { if side == L then l else r }
    function With(side: Side, t: T): Pair<T> { if side == L then Pair(t, r) else Pair(l, t) }
  }

  function Name(side: Side): string {
    if side == L then "l" else "r"
  }

  /**
   * `sent.At(s)` is what side s has sent and its peer has not yet handled. `owner` remembers
   * who started each call, and `history` which calls were cancelled, answered and hung up so far.
   */
  datatype System = System(session: Pair<Session>, sent: Pair<seq<Payload>>, owner: map<string, Side>, history: History)

  datatype History = History(cancelled: set<string>, answered: set<string>, hungUp: set<string>)

  const START: System := System(Pair(NEW_SESSION, NEW_SESSION), Pair([], []), map[], History({}, {}, {}))

  datatype Step =
    | Local(side: Side, command: Command)   // the user, or the ring timer
    | AppSends(side: Side, payload: Payload) // media set-up and input events, sent past the session
    | Deliver(to: Side)                      // the peer's oldest payload is handled

  predicate IsLifecycle(k: Kind) {
    k == Offer || k == Answer || k == Reject || k == Busy || k == Cancel || k == Hangup
  }

  /** Call ids are fresh and not empty, the timer fires only while armed, and only the session sends lifecycle
    * payloads. */
  predicate Enabled(s: System, step: Step) {
    match step
    case Local(side, StartCall(callId, _, _)) => callId != "" && callId !in s.owner
    case Local(side, RingTimeout) => s.session.At(side).ringTimerActive
    case Local(side, IncomingOffer(_, _, _)) => false
    case Local(side, CallControl(_)) => false
    case Local(_, _) => true
    case AppSends(_, p) => !IsLifecycle(p.kind)
    case Deliver(to) => s.sent.At(Other(to)) != []
  }

  /** The oldest payload for a side, as it arrives: the transport has filled in the sender. */
  function Arrived(s: System, to: Side): Payload
    requires s.sent.At(Other(to)) != []
  {
    s.sent.At(Other(to))[0].(senderId := Name(Other(to)))
  }

  function Happened(s: System, side: Side, e: Effect): System {
    s.(session := s.session.With(side, e.session), sent := s.sent.With(side, s.sent.At(side) + e.sent))
  }

  predicate GivesUp(s: Session, command: Command) {
    s.state == OutgoingRing && (command.CancelCall? || command.RingTimeout?)
  }

  predicate Answers(s: Session, command: Command) {
    s.state == IncomingRing && command.AnswerCall?
  }

  predicate HangsUp(s: Session, command: Command) {
    Up(s) && command.HangupCall?
  }

  function Recorded(h: History, s: Session, command: Command): History {
    History(if GivesUp(s, command) then h.cancelled + {s.callId} else h.cancelled,
            if Answers(s, command) then h.answered + {s.callId} else h.answered,
            if HangsUp(s, command) then h.hungUp + {s.callId} else h.hungUp)
  }

  function Apply(s: System, step: Step, nowMs: int): System
    requires Enabled(s, step)
  {
    match step
    case Local(side, c) =>
      var before := s.session.At(side);
      var owner := if c.StartCall? && before.state == Idle then s.owner[c.callId := side] else s.owner;
      Happened(s, side, Do(before, c, nowMs)).(owner := owner, history := Recorded(s.history, before, c))
    case AppSends(side, p) => s.(sent := s.sent.With(side, s.sent.At(side) + [p]))
    case Deliver(to) =>
      var queue := s.sent.At(Other(to));
      Happened(s.(sent := s.sent.With(Other(to), queue[1..])), to,
               Do(s.session.At(to), CallControl(Arrived(s, to)), nowMs))
  }

  // ------------------------------------------------------ one call at a time

  /** What one payload says about call c: its kind, if it is a lifecycle payload of that call. */
  function Says(p: Payload, c: string): seq<Kind> {
    if p.callId == c && IsLifecycle(p.kind) then [p.kind] else []
  }

  /** The lifecycle payloads about one call, oldest first. */
  function About(queue: seq<Payload>, c: string): seq<Kind> {
    if queue == [] then [] else Says(queue[0], c) + About(queue[1..], c)
  }

  lemma {:induction false} AboutAppend(queue: seq<Payload>, more: seq<Payload>, c: string)
    ensures About(queue + more, c) == About(queue, c) + About(more, c)
  {
    hide Says;
    if queue == [] {
      assert queue + more == more;
    } else {
      AboutAppend(queue[1..], more, c);
      assert (queue + more)[1..] == queue[1..] + more;
      assert Says(queue[0], c) + (About(queue[1..], c) + About(more, c)) == (Says(queue[0], c) + About(queue[1..], c))
             + About(more, c);
    }
  }

  /** Where a session stands with respect to one call. */
  datatype Phase = Away | RingsOut | RingsIn | Talking

  function PhaseOn(s: Session, c: string): Phase {
    if s.callId != c then Away
    else match s.state
      case OutgoingRing => RingsOut
      case IncomingRing => RingsIn
      case Connecting => Talking
      case Active => Talking
      case _ => Away
  }

  /** What can be on its way from the caller, and from the callee, about one call. */
  predicate CallerChannel(k: seq<Kind>) {
    k == [] || k == [Offer] || k == [Offer, Cancel] || k == [Cancel] || k == [Hangup]
  }

  predicate CalleeChannel(k: seq<Kind>) {
    k == [] || k == [Answer] || k == [Answer, Hangup] || k == [Hangup] || k == [Reject] || k == [Busy]
  }

  /** What has happened to one call. */
  datatype Marks = Marks(cancelled: bool, answered: bool, hungUp: bool)

  function MarksOf(h: History, c: string): Marks {
    Marks(c in h.cancelled, c in h.answered, c in h.hungUp)
  }

  /** The marks that a move of one end on its own adds. */
  function Noted(m: Marks, p: Phase, p': Phase): Marks {
    Marks(m.cancelled || (p == RingsOut && p' == Away), m.answered || (p == RingsIn && p' == Talking),
          m.hungUp || (p == Talking && p' == Away))
  }

  /** One call: the phases of its caller and callee, what each has sent about it that the other has not handled, and
    * its marks. */
  predicate CallOk(caller: Phase, callee: Phase, fc: seq<Kind>, fe: seq<Kind>, m: Marks) {
    && caller != RingsIn && callee != RingsOut
    && CallerChannel(fc) && CalleeChannel(fe)
    // an offer under way, or a callee still ringing: the callee has said nothing, and the caller waits or has cancelled
    && (fc == [Offer] || fc == [Offer, Cancel] ==> callee == Away && fe == [] && (caller == RingsOut || m.cancelled))
    && (callee == RingsIn ==> fe == [] && (caller == RingsOut || m.cancelled))
    // who has said goodbye is away
    && (m.cancelled || fc == [Hangup] ==> caller == Away)
    && (fc == [Cancel] || fc == [Offer, Cancel] ==> m.cancelled)
    && (fe != [] && fe != [Answer] ==> callee == Away)
    // agreement, in both directions
    && (caller == Talking ==> (fe == [] && callee == Talking) || fe == [Hangup])
    && (caller == RingsOut ==> fe != [Hangup] && (fe == [Answer] ==> callee == Talking))
    && (callee == Talking ==>
          caller == Talking || (caller == RingsOut && fe == [Answer]) || fc == [Hangup] || m.cancelled)
    // the callee talks from its answer until somebody hangs up
    && (m.answered ==> fc != [Offer] && fc != [Offer, Cancel] && callee != RingsIn && (callee == Talking || m.hungUp))
    && (callee == Talking ==> m.answered && (m.hungUp ==> fc == [Hangup]))
    && (fc == [Hangup] ==> m.hungUp && !m.cancelled)
    && (m.hungUp || fe == [Answer] || fe == [Answer, Hangup] || fe == [Hangup] ==> m.answered)
  }

  predicate CallInv(s: System, c: string)
    requires c in s.owner
  {
    var x := s.owner[c];
    CallOk(PhaseOn(s.session.At(x), c), PhaseOn(s.session.At(Other(x)), c),
           About(s.sent.At(x), c), About(s.sent.At(Other(x)), c), MarksOf(s.history, c))
  }

  /** A call nobody has started leaves no trace. */
  predicate Untouched(s: System, c: string) {
    && PhaseOn(s.session.l, c) == Away && About(s.sent.l, c) == []
    && PhaseOn(s.session.r, c) == Away && About(s.sent.r, c) == []
  }

  predicate CallIs(s: System, c: string) {
    if c in s.owner then CallInv(s, c) else Untouched(s, c)
  }

  predicate EndOk(s: Session) {
    SessionOk(s) && (s.callId == "" ==> s.state == Idle)
  }

  predicate SystemOk(s: System) {
    && "" !in s.owner && s.history.cancelled <= s.owner.Keys && s.history.answered <= s.owner.Keys
    && s.history.hungUp <= s.owner.Keys
    && EndOk(s.session.l) && EndOk(s.session.r)
  }

  ghost predicate Inv(s: System) {
    SystemOk(s) && forall c :: CallIs(s, c)
  }

  // ------------------------------------------------------ what one command means for one call

  /** What a command says about call c. */
  function Said(sent: seq<Payload>, c: string): seq<Kind> {
    if sent == [] then [] else Says(sent[0], c)
  }

  lemma SaidIsAbout(sent: seq<Payload>, c: string)
    requires |sent| <= 1
    ensures About(sent, c) == Said(sent, c)
  {
    if sent != [] { assert About(sent[1..], c) == []; assert Says(sent[0], c) + [] == Says(sent[0], c); }
  }

  /** The moves of a session on its own. */
  predicate Acts(p: Phase, p': Phase, said: seq<Kind>) {
    || (p' == p && said == [])
    || (p == RingsIn && p' == Talking && said == [Answer])
    || (p == RingsIn && p' == Away && said == [Reject])
    || (p == RingsOut && p' == Away && said == [Cancel])
    || (p == Talking && p' == Away && said == [Hangup])
  }

  /** The moves of a session that handles a lifecycle payload of the call. */
  predicate Hears(p: Phase, k: Kind, p': Phase, said: seq<Kind>) {
    match k
    case Offer => if p == Away then (p' == Away || p' == RingsIn) && said == [] else p' == p && said == [Busy]
    case Answer => p' == (if p == RingsOut then Talking else p) && said == []
    case Reject => p' == (if p == RingsOut then Away else p) && said == []
    case Busy => p' == (if p == RingsOut then Away else p) && said == []
    case Cancel => p' == (if p == RingsIn then Away else p) && said == []
    case Hangup => p' == (if p == Talking then Away else p) && said == []
    case _ => false
  }

  predicate IsLocal(command: Command) {
    !command.IncomingOffer? && !command.CallControl?
  }

  lemma CommandKeepsEnd(s: Session, command: Command, nowMs: int)
    requires EndOk(s) && IsLocal(command) && (command.StartCall? ==> command.callId != "")
    ensures var e := Do(s, command, nowMs); |e.sent| <= 1 && EndOk(e.session)
  {
    hide Said, Says, PhaseOn, Duration;
  }

  lemma CommandActs(s: Session, command: Command, nowMs: int, c: string)
    requires EndOk(s) && c != "" && IsLocal(command)
             && (command.StartCall? ==> command.callId != c && command.callId != "")
    ensures var e := Do(s, command, nowMs);
            && |e.sent| <= 1 && EndOk(e.session)
            && Acts(PhaseOn(s, c), PhaseOn(e.session, c), Said(e.sent, c))
  {
    hide SessionOk, Duration;
    CommandKeepsEnd(s, command, nowMs);
  }

  /** The history records exactly the cancels, answers and hang-ups among those moves. */
  lemma CommandNotes(h: History, s: Session, command: Command, nowMs: int, c: string)
    requires EndOk(s) && c != "" && IsLocal(command)
             && (command.StartCall? ==> command.callId != c && command.callId != "")
    ensures MarksOf(Recorded(h, s, command), c)
            == Noted(MarksOf(h, c), PhaseOn(s, c), PhaseOn(Do(s, command, nowMs).session, c))
  {
    hide SessionOk, Duration;
  }

  lemma StartRings(s: Session, c: string, peerId: string, flags: int, nowMs: int)
    requires EndOk(s) && c != "" && s.state == Idle
    ensures var e := Do(s, StartCall(c, peerId, flags), nowMs);
            EndOk(e.session) && PhaseOn(e.session, c) == RingsOut && |e.sent| == 1 && Said(e.sent, c) == [Offer]
  {
  }

  /** A payload of this call moves its phase as the table says; any other payload leaves the phase alone. */
  lemma PayloadHeard(s: Session, p: Payload, nowMs: int, c: string)
    requires EndOk(s) && c != "" && (IsLifecycle(p.kind) ==> p.callId != "")
    ensures var e := Do(s, CallControl(p), nowMs);
            && |e.sent| <= 1 && EndOk(e.session)
            && if p.callId == c && IsLifecycle(p.kind)
               then Hears(PhaseOn(s, c), p.kind, PhaseOn(e.session, c), Said(e.sent, c))
               else PhaseOn(e.session, c) == PhaseOn(s, c) && Said(e.sent, c) == []
  {
  }

  // ------------------------------------------------------ the table is closed under every move

  lemma CallerActs(p: Phase, q: Phase, fc: seq<Kind>, fe: seq<Kind>, m: Marks, p': Phase, said: seq<Kind>)
    requires CallOk(p, q, fc, fe, m) && Acts(p, p', said)
    ensures CallOk(p', q, fc + said, fe, Noted(m, p, p'))
  {
    if said == [] {
      assert fc + said == fc;
    } else if fc == [] {
      assert fc + said == said;
    } else {
      assert p == RingsOut && fc == [Offer] && said == [Cancel];
      assert fc + said == [Offer, Cancel];
    }
  }

  lemma CalleeActs(p: Phase, q: Phase, fc: seq<Kind>, fe: seq<Kind>, m: Marks, q': Phase, said: seq<Kind>)
    requires CallOk(p, q, fc, fe, m) && Acts(q, q', said)
    ensures CallOk(p, q', fc, fe + said, Noted(m, q, q'))
  {
    if said == [] {
      assert fe + said == fe;
    } else if fe == [] {
      assert fe + said == said;
    } else {
      assert q == Talking && fe == [Answer] && said == [Hangup];
      assert fe + said == [Answer, Hangup];
    }
  }

  lemma CallerHears(p: Phase, q: Phase, fc: seq<Kind>, fe: seq<Kind>, m: Marks, p': Phase, said: seq<Kind>)
    requires CallOk(p, q, fc, fe, m) && fe != [] && Hears(p, fe[0], p', said)
    ensures CallOk(p', q, fc + said, fe[1..], m)
  {
    assert said == [] && fc + said == fc;
    if fe == [Answer, Hangup] {
      assert fe[1..] == [Hangup];
    } else {
      assert fe[1..] == [];
    }
  }

  lemma CalleeHears(p: Phase, q: Phase, fc: seq<Kind>, fe: seq<Kind>, m: Marks, q': Phase, said: seq<Kind>)
    requires CallOk(p, q, fc, fe, m) && fc != [] && Hears(q, fc[0], q', said)
    ensures CallOk(p, q', fc[1..], fe + said, m)
  {
    assert said == [] && fe + said == fe;
    if fc == [Offer, Cancel] {
      assert fc[1..] == [Cancel];
    } else {
      assert fc[1..] == [];
    }
  }

  lemma NoEmptyIdHeard(s: Session, p: Payload, nowMs: int)
    requires EndOk(s) && (IsLifecycle(p.kind) ==> p.callId != "")
    ensures var e := Do(s, CallControl(p), nowMs);
            |e.sent| <= 1 && EndOk(e.session) && Said(e.sent, "") == [] && PhaseOn(e.session, "") == Away
  {
    hide Duration;
  }

  lemma NoEmptyIdSaid(s: Session, command: Command, nowMs: int)
    requires EndOk(s) && IsLocal(command) && (command.StartCall? ==> command.callId != "")
    ensures var e := Do(s, command, nowMs); Said(e.sent, "") == [] && PhaseOn(e.session, "") == Away
  {
    hide SessionOk, Duration;
  }

  /** No lifecycle payload ever carries an empty id. */
  lemma NoEmptyId(s: Session, command: Command, nowMs: int)
    requires EndOk(s) && !command.IncomingOffer?
    requires command.StartCall? ==> command.callId != ""
    requires command.CallControl? && IsLifecycle(command.payload.kind) ==> command.payload.callId != ""
    ensures var e := Do(s, command, nowMs);
            |e.sent| <= 1 && EndOk(e.session) && Said(e.sent, "") == [] && PhaseOn(e.session, "") == Away
  {
    hide Do, EndOk, Said, PhaseOn, IsLifecycle;
    if command.CallControl? {
      NoEmptyIdHeard(s, command.payload, nowMs);
    } else {
      CommandKeepsEnd(s, command, nowMs);
      NoEmptyIdSaid(s, command, nowMs);
    }
  }

  // ------------------------------------------------------ each step keeps every call in order

  lemma AwayStays(p': Phase, said: seq<Kind>, queue: seq<Kind>)
    requires Acts(Away, p', said)
    ensures p' == Away && queue + said == queue
  {
  }

  lemma LocalStep(s: System, side: Side, command: Command, nowMs: int, c: string)
    requires Inv(s) && Enabled(s, Local(side, command))
    ensures CallIs(Apply(s, Local(side, command), nowMs), c)
  {
    hide About, CallOk, Do, EndOk, PhaseOn, Acts, Said, Recorded, Noted;
    var before, e := s.session.At(side), Do(s.session.At(side), command, nowMs);
    assert CallIs(s, c);
    if c == "" {
      NoEmptyId(before, command, nowMs);
      LocalFrame(s, side, command, nowMs, c);
    } else if command.StartCall? && command.callId == c {
      LocalStart(s, side, command, nowMs);
    } else {
      CommandActs(before, command, nowMs, c);
      CommandNotes(s.history, before, command, nowMs, c);
      LocalFrame(s, side, command, nowMs, c);
      if c in s.owner {
        var x := s.owner[c];
        if side == x {
          CallerActs(PhaseOn(before, c), PhaseOn(s.session.At(Other(x)), c), About(s.sent.At(x), c),
                     About(s.sent.At(Other(x)), c), MarksOf(s.history, c),
                     PhaseOn(e.session, c), Said(e.sent, c));
        } else {
          CalleeActs(PhaseOn(s.session.At(x), c), PhaseOn(before, c), About(s.sent.At(x), c),
                     About(s.sent.At(Other(x)), c), MarksOf(s.history, c),
                     PhaseOn(e.session, c), Said(e.sent, c));
        }
      } else {
        AwayStays(PhaseOn(e.session, c), Said(e.sent, c), About(s.sent.At(side), c));
      }
    }
  }

  /** What a local command leaves alone: the peer, the peer's queue, and the owner of every other call. */
  lemma LocalFrame(s: System, side: Side, command: Command, nowMs: int, c: string)
    requires Enabled(s, Local(side, command)) && |Do(s.session.At(side), command, nowMs).sent| <= 1
    requires command.StartCall? ==> command.callId != c
    ensures var s', e := Apply(s, Local(side, command), nowMs), Do(s.session.At(side), command, nowMs);
            && s'.session == s.session.With(side, e.session)
            && About(s'.sent.At(side), c) == About(s.sent.At(side), c) + Said(e.sent, c)
            && s'.sent.At(Other(side)) == s.sent.At(Other(side))
            && (c in s'.owner <==> c in s.owner) && (c in s.owner ==> s'.owner[c] == s.owner[c])
            && s'.history == Recorded(s.history, s.session.At(side), command)
  {
    hide Do, About, Said;
    AboutAppend(s.sent.At(side), Do(s.session.At(side), command, nowMs).sent, c);
    SaidIsAbout(Do(s.session.At(side), command, nowMs).sent, c);
  }

  lemma LocalStart(s: System, side: Side, command: Command, nowMs: int)
    requires SystemOk(s) && command.StartCall? && Untouched(s, command.callId) && Enabled(s, Local(side, command))
    ensures CallIs(Apply(s, Local(side, command), nowMs), command.callId)
  {
    hide About, Do, PhaseOn, Said, EndOk;
    var before, c := s.session.At(side), command.callId;
    if before.state == Idle {
      var e := Do(before, command, nowMs);
      StartRings(before, c, command.peerId, command.mediaFlags, nowMs);
      AboutAppend(s.sent.At(side), e.sent, c);
      SaidIsAbout(e.sent, c);
      assert [] + [Offer] == [Offer];
    } else {
      StartRefused(s, side, command, nowMs);
    }
  }

  lemma StartRefused(s: System, side: Side, command: Command, nowMs: int)
    requires Enabled(s, Local(side, command)) && command.StartCall? && s.session.At(side).state != Idle
    ensures Apply(s, Local(side, command), nowMs) == s
  {
    assert s.sent.At(side) + [] == s.sent.At(side);
  }

  lemma AppStep(s: System, side: Side, p: Payload, nowMs: int, c: string)
    requires Inv(s) && Enabled(s, AppSends(side, p))
    ensures CallIs(Apply(s, AppSends(side, p), nowMs), c)
  {
    hide About, CallOk, PhaseOn;
    AboutAppend(s.sent.At(side), [p], c);
    SaidIsAbout([p], c);
    assert About(s.sent.At(side), c) + [] == About(s.sent.At(side), c);
    assert CallIs(s, c);
  }

  lemma DeliverStep(s: System, to: Side, nowMs: int, c: string)
    requires Inv(s) && Enabled(s, Deliver(to))
    ensures CallIs(Apply(s, Deliver(to), nowMs), c)
  {
    hide About, CallOk, Do, PhaseOn, Hears, Said;
    var queue, before := s.sent.At(Other(to)), s.session.At(to);
    var p := Arrived(s, to);
    var e := Do(before, CallControl(p), nowMs);
    assert CallIs(s, c) && CallIs(s, "");
    HeadIsAbout(queue, c);
    HeadIsAbout(queue, "");
    if c == "" {
      NoEmptyId(before, CallControl(p), nowMs);
    } else {
      PayloadHeard(before, p, nowMs, c);
    }
    DeliverFrame(s, to, nowMs, c);
    if c in s.owner && p.callId == c && IsLifecycle(p.kind) {
      var x := s.owner[c];
      if to == x {
        CallerHears(PhaseOn(before, c), PhaseOn(s.session.At(Other(x)), c), About(s.sent.At(x), c), About(queue, c),
                    MarksOf(s.history, c),
                    PhaseOn(e.session, c), Said(e.sent, c));
      } else {
        CalleeHears(PhaseOn(s.session.At(x), c), PhaseOn(before, c), About(queue, c), About(s.sent.At(to), c),
                    MarksOf(s.history, c),
                    PhaseOn(e.session, c), Said(e.sent, c));
      }
    } else {
      assert About(s.sent.At(to), c) + [] == About(s.sent.At(to), c);
    }
  }

  lemma HeadIsAbout(queue: seq<Payload>, c: string)
    requires queue != []
    ensures if queue[0].callId == c && IsLifecycle(queue[0].kind)
            then About(queue, c) == [queue[0].kind] + About(queue[1..], c)
            else About(queue, c) == About(queue[1..], c)
  {
    assert [] + About(queue[1..], c) == About(queue[1..], c);
  }

  lemma DeliverFrame(s: System, to: Side, nowMs: int, c: string)
    requires Enabled(s, Deliver(to))
    requires |Do(s.session.At(to), CallControl(Arrived(s, to)), nowMs).sent| <= 1
    ensures var s', e := Apply(s, Deliver(to), nowMs), Do(s.session.At(to), CallControl(Arrived(s, to)), nowMs);
            && s'.session == s.session.With(to, e.session) && s'.owner == s.owner && s'.history == s.history
            && About(s'.sent.At(to), c) == About(s.sent.At(to), c) + Said(e.sent, c)
            && s'.sent.At(Other(to)) == s.sent.At(Other(to))[1..]
  {
    hide Do, About, Said;
    var e := Do(s.session.At(to), CallControl(Arrived(s, to)), nowMs);
    AboutAppend(s.sent.At(to), e.sent, c);
    SaidIsAbout(e.sent, c);
  }

  lemma StepKeepsSystemOk(s: System, step: Step, nowMs: int)
    requires Inv(s) && Enabled(s, step)
    ensures SystemOk(Apply(s, step, nowMs))
  {
    hide About, Do, EndOk, PhaseOn, Said;
    assert CallIs(s, "");
    match step
    case Local(side, command) =>
      assert CallIs(s, s.session.At(side).callId);
      NoEmptyId(s.session.At(side), command, nowMs);
      RingingIsOwned(s, side);
    case AppSends(_, _) =>
    case Deliver(to) =>
      HeadIsAbout(s.sent.At(Other(to)), "");
      NoEmptyId(s.session.At(to), CallControl(Arrived(s, to)), nowMs);
  }

  lemma RingingIsOwned(s: System, side: Side)
    requires SystemOk(s) && CallIs(s, s.session.At(side).callId)
    ensures s.session.At(side).state != Idle ==> s.session.At(side).callId in s.owner
  {
  }

  lemma StepKeepsInv(s: System, step: Step, nowMs: int)
    requires Inv(s) && Enabled(s, step)
    ensures Inv(Apply(s, step, nowMs))
  {
    hide SystemOk, CallIs;
    StepKeepsSystemOk(s, step, nowMs);
    forall c ensures CallIs(Apply(s, step, nowMs), c) {
      match step
      case Local(side, command) => LocalStep(s, side, command, nowMs, c);
      case AppSends(side, p) => AppStep(s, side, p, nowMs, c);
      case Deliver(to) => DeliverStep(s, to, nowMs, c);
    }
  }

  // ------------------------------------------------------ whole runs

  predicate Runs(s: System, steps: seq<(Step, int)>)
    decreases |steps|
  {
    steps == [] || (Enabled(s, steps[0].0) && Runs(Apply(s, steps[0].0, steps[0].1), steps[1..]))
  }

  function After(s: System, steps: seq<(Step, int)>): System
    requires Runs(s, steps)
    decreases |steps|
  {
    if steps == [] then s else After(Apply(s, steps[0].0, steps[0].1), steps[1..])
  }

  lemma {:induction false} RunKeepsInv(s: System, steps: seq<(Step, int)>)
    requires Inv(s) && Runs(s, steps)
    ensures Inv(After(s, steps))
    decreases |steps|
  {
    hide Inv, Enabled, Apply;
    if steps == [] {
    } else {
      StepKeepsInv(s, steps[0].0, steps[0].1);
      RunKeepsInv(Apply(s, steps[0].0, steps[0].1), steps[1..]);
    }
  }

  lemma StartOk()
    ensures Inv(START)
  {
    forall c ensures CallIs(START, c) {
      assert Untouched(START, c);
    }
  }

  /**
   * Agreement. Whatever the two users, timers and links do: while the caller of c is connecting or
   * active on c, the callee is too, or its hang-up is on its way to the caller.
   */
  lemma CallerImpliesCallee(steps: seq<(Step, int)>, c: string)
    requires Runs(START, steps) && c in After(START, steps).owner
    ensures var s := After(START, steps);
            var x := s.owner[c];
            PhaseOn(s.session.At(x), c) == Talking ==>
              PhaseOn(s.session.At(Other(x)), c) == Talking || Hangup in About(s.sent.At(Other(x)), c)
  {
    hide About, PhaseOn;
    StartOk();
    RunKeepsInv(START, steps);
    assert CallIs(After(START, steps), c);
  }

  /**
   * The converse has one exception. While the callee is connecting or active on c: the caller is
   * too, or rings with the answer on its way, or its hang-up is on its way, or it cancelled c; and
   * it has cancelled c exactly when it is away without a hang-up on its way.
   */
  lemma CalleeImpliesCaller(steps: seq<(Step, int)>, c: string)
    requires Runs(START, steps) && c in After(START, steps).owner
    ensures var s := After(START, steps);
            var x := s.owner[c];
            PhaseOn(s.session.At(Other(x)), c) == Talking ==>
              && (|| PhaseOn(s.session.At(x), c) == Talking
                  || (PhaseOn(s.session.At(x), c) == RingsOut && Answer in About(s.sent.At(Other(x)), c))
                  || Hangup in About(s.sent.At(x), c)
                  || c in s.history.cancelled)
              && (c in s.history.cancelled
                  <==> PhaseOn(s.session.At(x), c) == Away && Hangup !in About(s.sent.At(x), c))
  {
    hide About, PhaseOn;
    StartOk();
    RunKeepsInv(START, steps);
    assert CallIs(After(START, steps), c);
  }

  /**
   * With nothing under way the two ends of a call agree, except exactly for a call that was answered and
   * cancelled and that nobody has hung up: then the callee talks and the caller is away.
   */
  lemma QuietEndsAgree(steps: seq<(Step, int)>, c: string)
    requires Runs(START, steps) && c in After(START, steps).owner && After(START, steps).sent == Pair([], [])
    ensures var s := After(START, steps);
            var stranded := c in s.history.answered && c in s.history.cancelled && c !in s.history.hungUp;
            && (PhaseOn(s.session.l, c) == Talking <==> PhaseOn(s.session.r, c) == Talking) == !stranded
            && (PhaseOn(s.session.At(Other(s.owner[c])), c) == Talking
                <==> c in s.history.answered && c !in s.history.hungUp)
            && (stranded ==> PhaseOn(s.session.At(s.owner[c]), c) == Away)
  {
    hide PhaseOn;
    StartOk();
    RunKeepsInv(START, steps);
    assert CallIs(After(START, steps), c);
  }

  lemma Prepend(s: System, step: (Step, int), rest: seq<(Step, int)>)
    requires Enabled(s, step.0) && Runs(Apply(s, step.0, step.1), rest)
    ensures Runs(s, [step] + rest) && After(s, [step] + rest) == After(Apply(s, step.0, step.1), rest)
  {
    assert ([step] + rest)[1..] == rest;
  }

  function Talker(c: string): Session {
    Session(Connecting, c, "l", 1, false, false, false, 0, false)
  }

  /** The call rings at R, R answers, and L cancels before the answer arrives. */
  function Crossed(c: string): System {
    System(Pair(NEW_SESSION, Talker(c)),
           Pair([Payload(Cancel, c, "", "r", "", 0, 0, 0)], [Payload(Answer, c, "", "l", "", 0, 0, 0)]),
           map[c := L], History({c}, {c}, {}))
  }

  /** The crossing, one step at a time. */
  lemma Crossing(c: string, nowMs: int) returns (s1: System, s2: System, s3: System)
    requires c != ""
    ensures Enabled(START, Local(L, StartCall(c, "r", 1))) && s1 == Apply(START, Local(L, StartCall(c, "r", 1)), nowMs)
    ensures Enabled(s1, Deliver(R)) && s2 == Apply(s1, Deliver(R), nowMs)
    ensures Enabled(s2, Local(R, AnswerCall)) && s3 == Apply(s2, Local(R, AnswerCall), nowMs)
    ensures Enabled(s3, Local(L, CancelCall)) && Apply(s3, Local(L, CancelCall), nowMs) == Crossed(c)
  {
    var caller := Session(OutgoingRing, c, "r", 1, false, false, false, 0, true);
    s1 := Apply(START, Local(L, StartCall(c, "r", 1)), nowMs);
    assert s1.sent.l == [Payload(Offer, c, "", "r", "", 1, 0, 0)];
    assert s1 == System(Pair(caller, NEW_SESSION), Pair([Payload(Offer, c, "", "r", "", 1, 0, 0)], []), map[c := L],
                        History({}, {}, {}));
    s2 := Apply(s1, Deliver(R), nowMs);
    assert s2.sent.l == [] && s2.sent.r == [];
    assert s2 == System(Pair(caller, Session(IncomingRing, c, "l", 1, false, false, false, 0, true)), Pair([], []),
                        map[c := L], History({}, {}, {}));
    s3 := Apply(s2, Local(R, AnswerCall), nowMs);
    assert s3.sent.r == [Payload(Answer, c, "", "l", "", 0, 0, 0)];
    assert s3 == System(Pair(caller, Talker(c)), Pair([], [Payload(Answer, c, "", "l", "", 0, 0, 0)]), map[c := L],
                        History({}, {c}, {}));
    var s4 := Apply(s3, Local(L, CancelCall), nowMs);
    assert s4.sent.l == Crossed(c).sent.l && s4.history == History({c}, {c}, {});
  }

  lemma UntilCrossed(c: string, nowMs: int) returns (steps: seq<(Step, int)>)
    requires c != ""
    ensures Runs(START, steps) && After(START, steps) == Crossed(c)
  {
    hide Runs, After, Apply, Crossed, Enabled;
    var s1, s2, s3 := Crossing(c, nowMs);
    NoSteps(Crossed(c));
    steps := [(Local(L, CancelCall), nowMs)] + [];
    Prepend(s3, (Local(L, CancelCall), nowMs), []);
    Prepend(s2, (Local(R, AnswerCall), nowMs), steps);
    steps := [(Local(R, AnswerCall), nowMs)] + steps;
    Prepend(s1, (Deliver(R), nowMs), steps);
    steps := [(Deliver(R), nowMs)] + steps;
    Prepend(START, (Local(L, StartCall(c, "r", 1)), nowMs), steps);
    steps := [(Local(L, StartCall(c, "r", 1)), nowMs)] + steps;
  }

  lemma NoSteps(s: System)
    ensures Runs(s, []) && After(s, []) == s
  {
  }

  /** Both ends handle what is under way, and nothing is left: L is away and R keeps connecting. */
  lemma CrossedSettles(c: string, nowMs: int)
    requires c != ""
    ensures var end := System(Pair(NEW_SESSION, Talker(c)), Pair([], []), map[c := L], History({c}, {c}, {}));
            && Apply(Apply(Crossed(c), Deliver(R), nowMs), Deliver(L), nowMs) == end
            && PhaseOn(end.session.l, c) == Away && PhaseOn(end.session.r, c) == Talking
  {
    var s1 := Apply(Crossed(c), Deliver(R), nowMs);
    assert s1.sent.l == [] && s1.sent.r == [Payload(Answer, c, "", "l", "", 0, 0, 0)];
    assert s1 == System(Pair(NEW_SESSION, Talker(c)), Pair([], [Payload(Answer, c, "", "l", "", 0, 0, 0)]),
                        map[c := L], History({c}, {c}, {}));
    var s2 := Apply(s1, Deliver(L), nowMs);
    assert s2.sent.l == [] && s2.sent.r == [];
  }

  /** The exception occurs: an answer and a cancel that cross leave the callee connecting with nothing under way. */
  lemma CrossingCancelStrandsCallee(c: string, nowMs: int)
    requires c != ""
    ensures exists steps :: Runs(START, steps) && After(START, steps) == Crossed(c)
    ensures var end := Apply(Apply(Crossed(c), Deliver(R), nowMs), Deliver(L), nowMs);
            end.sent == Pair([], []) && PhaseOn(end.session.l, c) == Away && PhaseOn(end.session.r, c) == Talking
  {
    hide Runs, After, PhaseOn, Apply;
    var steps := UntilCrossed(c, nowMs);
    CrossedSettles(c, nowMs);
  }
}
