/** What a call session tells the outside: whom its payloads are for, and what a listener learns from its signals. */
module CallSignals {
  import opened CallSessions

  // ------------------------------------------------------ payloads

  predicate IsOffer(c: Command) {
    c.IncomingOffer? || (c.CallControl? && c.payload.kind.Offer?)
  }

  /**
   * A call is offered to whom it is for, Busy goes back to whoever made the offer and names that offer, and
   * everything else goes to the peer of the call the session is in and names that call.
   */
  lemma PayloadsAreAddressed(s: Session, c: Command, nowMs: int, p: Payload)
    requires p in Do(s, c, nowMs).sent
    ensures c.StartCall? ==> p == Payload(Offer, c.callId, "", c.peerId, "", c.mediaFlags, 0, 0)
    ensures c.IncomingOffer? ==> p == Payload(Busy, c.callId, "", c.peerId, "", 0, 0, 0)
    ensures c.CallControl? ==>
              c.payload.kind.Offer? && p == Payload(Busy, c.payload.callId, "", c.payload.senderId, "", 0, 0, 0)
    ensures !c.StartCall? && !IsOffer(c) ==>
              && p.callId == s.callId && p.targetId == s.peerId && !p.kind.Offer? && !p.kind.Busy?
              && p.reason == (if c.RejectCall? then c.reason
                              else if c.RingTimeout? && s.state == IncomingRing then "timeout" else "")
  {
  }

  /** An offer is the same to the session whether it comes as a payload or is handed over directly. */
  lemma OffersEitherWay(s: Session, p: Payload, nowMs: int)
    requires p.kind == Offer && (p.callId == "" || s.callId == "" || p.callId == s.callId)
    ensures Do(s, CallControl(p), nowMs) == Do(s, IncomingOffer(p.callId, p.senderId, p.mediaFlags), nowMs)
  {
  }

  predicate Sends(s: Session, c: Command, nowMs: int, kind: Kind) {
    var sent := Do(s, c, nowMs).sent;
    sent != [] && sent[0].kind == kind
  }

  /** Which command sends what: exactly these, and at most one payload each. */
  lemma PayloadsAreDue(s: Session, c: Command, nowMs: int)
    ensures |Do(s, c, nowMs).sent| <= 1
    ensures Sends(s, c, nowMs, Offer) <==> c.StartCall? && s.state == Idle
    ensures Sends(s, c, nowMs, Answer) <==> c.AnswerCall? && s.state == IncomingRing
    ensures Sends(s, c, nowMs, Reject) <==> (c.RejectCall? || c.RingTimeout?) && s.state == IncomingRing
    ensures Sends(s, c, nowMs, Cancel) <==> (c.CancelCall? || c.RingTimeout?) && s.state == OutgoingRing
    ensures Sends(s, c, nowMs, Hangup) <==> c.HangupCall? && (s.state == Connecting || s.state == Active)
    ensures Sends(s, c, nowMs, Busy) <==>
              && s.state != Idle
              && (c.IncomingOffer?
                  || (c.CallControl? && c.payload.kind.Offer?
                      && (c.payload.callId == "" || s.callId == "" || c.payload.callId == s.callId)))
    ensures Sends(s, c, nowMs, ScreenShareStop) <==> c.StopScreenShare? && s.screenSharing
    ensures Sends(s, c, nowMs, RemoteControlRequest) <==> c.RequestRemoteControl? && s.state == Active
    ensures Sends(s, c, nowMs, RemoteControlGrant) <==> c.GrantRemoteControl? && s.state == Active && s.screenSharing
    ensures Sends(s, c, nowMs, RemoteControlRevoke) <==> c.RevokeRemoteControl? && s.remoteControlActive
  {
    hide Sends, Do;
    SentKind(s, c, nowMs);
    forall kind ensures Sends(s, c, nowMs, kind) <==> KindDue(s, c) == [kind] { SendsItsKind(s, c, nowMs, kind); }
  }

  function KindDue(s: Session, c: Command): seq<Kind> {
    match c
    case StartCall(_, _, _) => if s.state == Idle then [Offer] else []
    case IncomingOffer(_, _, _) => if s.state != Idle then [Busy] else []
    case AnswerCall => if s.state == IncomingRing then [Answer] else []
    case RejectCall(_) => if s.state == IncomingRing then [Reject] else []
    case CancelCall => if s.state == OutgoingRing then [Cancel] else []
    case HangupCall => if s.state == Connecting || s.state == Active then [Hangup] else []
    case StopScreenShare => if s.screenSharing then [ScreenShareStop] else []
    case RequestRemoteControl => if s.state == Active then [RemoteControlRequest] else []
    case GrantRemoteControl => if s.state == Active && s.screenSharing then [RemoteControlGrant] else []
    case RevokeRemoteControl => if s.remoteControlActive then [RemoteControlRevoke] else []
    case RingTimeout =>
      if s.state == OutgoingRing then [Cancel] else if s.state == IncomingRing then [Reject] else []
    case CallControl(p) =>
      if p.kind.Offer? && s.state != Idle && (p.callId == "" || s.callId == "" || p.callId == s.callId) then [Busy]
      else []
    case _ => []
  }

  lemma SentKind(s: Session, c: Command, nowMs: int)
    ensures var sent := Do(s, c, nowMs).sent;
            |sent| == |KindDue(s, c)| && (sent != [] ==> KindDue(s, c) == [sent[0].kind])
  {
    hide Duration;
  }

  lemma SendsItsKind(s: Session, c: Command, nowMs: int, kind: Kind)
    ensures Sends(s, c, nowMs, kind) <==> KindDue(s, c) == [kind]
  {
    hide Do, KindDue;
    SentKind(s, c, nowMs);
  }

  // ------------------------------------------------------ a listener

  /** What somebody knows who only hears the signals; the end of a call resets it. */
  datatype View = View(state: State, audioMuted: bool, remoteControl: bool)

  function ViewOf(s: Session): View {
    View(s.state, s.audioMuted, s.remoteControlActive)
  }

  function Heard(v: View, g: Signal): View {
    match g
    case StateChanged(next) => if next == Idle then View(Idle, false, false) else v.(state := next)
    case AudioMutedChanged(muted) => v.(audioMuted := muted)
    case RemoteControlChanged(enabled) => v.(remoteControl := enabled)
    case _ => v
  }

  function HeardAll(v: View, signals: seq<Signal>): View {
    if signals == [] then v else Heard(HeardAll(v, signals[..|signals| - 1]), signals[|signals| - 1])
  }

  lemma {:induction false} HeardBoth(v: View, signals: seq<Signal>, more: seq<Signal>)
    ensures HeardAll(v, signals + more) == HeardAll(HeardAll(v, signals), more)
  {
    hide Heard;
    if more == [] {
      assert signals + more == signals;
    } else {
      HeardBoth(v, signals, more[..|more| - 1]);
      assert (signals + more)[..|signals + more| - 1] == signals + more[..|more| - 1];
    }
  }

  lemma HeardUpToFour(v: View, g: seq<Signal>)
    requires |g| <= 4
    ensures HeardAll(v, g) == match |g| {
                                case 0 => v
                                case 1 => Heard(v, g[0])
                                case 2 => Heard(Heard(v, g[0]), g[1])
                                case 3 => Heard(Heard(Heard(v, g[0]), g[1]), g[2])
                                case _ => Heard(Heard(Heard(Heard(v, g[0]), g[1]), g[2]), g[3])
                              }
  {
    hide Heard;
    if |g| == 4 { assert g[..3][..2] == g[..2] && g[..2][..1] == g[..1]; }
    if |g| == 3 { assert g[..2][..1] == g[..1]; }
  }

  lemma SignalsTell(s: Session, c: Command, nowMs: int)
    requires SessionOk(s)
    ensures HeardAll(ViewOf(s), Do(s, c, nowMs).signals) == ViewOf(Do(s, c, nowMs).session)
  {
    hide HeardAll, Heard, Do, SessionOk;
    if c.CallControl? { ControlTells(s, c.payload, nowMs); } else { CommandTells(s, c, nowMs); }
  }

  lemma CommandTells(s: Session, c: Command, nowMs: int)
    requires SessionOk(s) && !c.CallControl?
    ensures HeardAll(ViewOf(s), Do(s, c, nowMs).signals) == ViewOf(Do(s, c, nowMs).session)
  {
    hide HeardAll, Controlled, Duration, Message;
    HeardUpToFour(ViewOf(s), Do(s, c, nowMs).signals);
  }

  lemma ControlTells(s: Session, p: Payload, nowMs: int)
    requires SessionOk(s)
    ensures HeardAll(ViewOf(s), Do(s, CallControl(p), nowMs).signals) == ViewOf(Do(s, CallControl(p), nowMs).session)
  {
    hide HeardAll, Do, Heard, SessionOk;
    if MayEnd(p.kind) { EndingTells(s, p, nowMs); } else { OngoingTells(s, p, nowMs); }
  }

  lemma EndingTells(s: Session, p: Payload, nowMs: int)
    requires SessionOk(s) && MayEnd(p.kind)
    ensures HeardAll(ViewOf(s), Do(s, CallControl(p), nowMs).signals) == ViewOf(Do(s, CallControl(p), nowMs).session)
  {
    hide HeardAll, Duration, Message;
    HeardUpToFour(ViewOf(s), Do(s, CallControl(p), nowMs).signals);
  }

  lemma OngoingTells(s: Session, p: Payload, nowMs: int)
    requires SessionOk(s) && !MayEnd(p.kind)
    ensures HeardAll(ViewOf(s), Do(s, CallControl(p), nowMs).signals) == ViewOf(Do(s, CallControl(p), nowMs).session)
  {
    hide HeardAll, Duration, Message;
    HeardUpToFour(ViewOf(s), Do(s, CallControl(p), nowMs).signals);
  }

  /** The signals of a whole run. */
  function Emitted(cs: seq<(Command, int)>): seq<Signal> {
    if cs == [] then []
    else
      var front, last := cs[..|cs| - 1], cs[|cs| - 1];
      Emitted(front) + Do(Perform(NEW_SESSION, front), last.0, last.1).signals
  }

  /** Whoever hears every signal knows state, muting and remote control of the session at any time. */
  lemma {:induction false} ListenersKnow(cs: seq<(Command, int)>)
    ensures HeardAll(View(Idle, false, false), Emitted(cs)) == ViewOf(Perform(NEW_SESSION, cs))
  {
    hide Do, Heard;
    if cs == [] {
    } else {
      var front, last := cs[..|cs| - 1], cs[|cs| - 1];
      ListenersKnow(front);
      EveryRunKeepsSessionOk(front);
      SignalsTell(Perform(NEW_SESSION, front), last.0, last.1);
      HeardBoth(View(Idle, false, false), Emitted(front), Do(Perform(NEW_SESSION, front), last.0, last.1).signals);
    }
  }

  // ------------------------------------------------------ the end of a call

  function Endings(signals: seq<Signal>): seq<Signal> {
    if signals == [] then []
    else
      var last := signals[|signals| - 1];
      Endings(signals[..|signals| - 1]) + if last.CallEnded? then [last] else []
  }

  function One(g: Signal): seq<Signal> {
    if g.CallEnded? then [g] else []
  }

  lemma EndingsAppend(signals: seq<Signal>, g: Signal)
    ensures Endings([]) == [] && Endings(signals + [g]) == Endings(signals) + One(g)
  {
    assert (signals + [g])[..|signals|] == signals;
  }

  lemma EndingsOfOne(a: Signal)
    ensures Endings([a]) == One(a)
  {
    hide Endings, One;
    EndingsAppend([], a);
    assert [] + [a] == [a] && [] + One(a) == One(a);
  }

  lemma EndingsOfTwo(a: Signal, b: Signal)
    ensures Endings([a, b]) == One(a) + One(b)
  {
    hide Endings, One;
    EndingsOfOne(a);
    EndingsAppend([a], b);
    assert [a] + [b] == [a, b];
  }

  /** What an end announces before the last two state changes are the endings it announces. */
  lemma EndingsOfEnd(before: seq<Signal>)
    ensures Endings(before + [StateChanged(Ended), StateChanged(Idle)]) == Endings(before)
  {
    hide Endings;
    EndingsAppend(before, StateChanged(Ended));
    EndingsAppend(before + [StateChanged(Ended)], StateChanged(Idle));
    assert before + [StateChanged(Ended)] + [StateChanged(Idle)] == before + [StateChanged(Ended), StateChanged(Idle)];
  }

  /** The clock of a call runs exactly while it is active. */
  predicate ClockOk(s: Session) {
    if s.state == Active then s.activeStartMs > 0 else s.activeStartMs == 0
  }

  /** Why a call ended, as the command says that ended it. */
  function ResultOf(s: Session, c: Command): Result {
    if c.CallControl? then
      (match c.payload.kind
       case Reject => Rejected
       case Busy => PeerBusy
       case Cancel => Cancelled
       case _ => Completed)
    else if s.state == OutgoingRing then NoAnswer
    else Completed
  }

  /** What is announced as an end: nothing, unless the call is over and was not rejected while it rang here. */
  function Announced(s: Session, c: Command, nowMs: int, over: bool): seq<Signal> {
    if over && !(s.state == IncomingRing && (c.RejectCall? || c.RingTimeout?))
    then [CallEnded(s.callId, s.peerId, ResultOf(s, c), if s.state == Active then nowMs - s.activeStartMs else 0)]
    else []
  }

  /**
   * The end of a call is announced once, with its peer, its reason and the time it was active; only the end of a
   * call that rings here and is rejected here is not announced. Nothing else is announced as an end.
   */
  lemma EndsAreTold(s: Session, c: Command, nowMs: int)
    requires SessionOk(s) && ClockOk(s)
    ensures var e := Do(s, c, nowMs);
            var over := s.state != Idle && e.session.state == Idle;
            && (over ==> e.session == NEW_SESSION)
            && Endings(e.signals) == Announced(s, c, nowMs, over)
  {
    hide Endings, Do, SessionOk, ClockOk, Announced;
    if c.CallControl? { ControlEnds(s, c.payload, nowMs); } else { CommandEnds(s, c, nowMs); }
  }

  lemma EndingsOfFew()
    ensures Endings([]) == []
    ensures forall a :: Endings([a]) == One(a)
    ensures forall a, b :: Endings([a, b]) == One(a) + One(b)
    ensures forall before :: Endings(before + [StateChanged(Ended), StateChanged(Idle)]) == Endings(before)
  {
    hide Endings, One;
    EndingsAppend([], StateChanged(Idle));
    forall a ensures Endings([a]) == One(a) { EndingsOfOne(a); }
    forall a, b ensures Endings([a, b]) == One(a) + One(b) { EndingsOfTwo(a, b); }
    forall before ensures Endings(before + [StateChanged(Ended), StateChanged(Idle)]) == Endings(before) {
      EndingsOfEnd(before);
    }
  }

  lemma CommandEnds(s: Session, c: Command, nowMs: int)
    requires SessionOk(s) && ClockOk(s) && !c.CallControl?
    ensures var e := Do(s, c, nowMs);
            var over := s.state != Idle && e.session.state == Idle;
            (over ==> e.session == NEW_SESSION) && Endings(e.signals) == Announced(s, c, nowMs, over)
  {
    hide Endings, Controlled, Message;
    EndingsOfFew();
  }

  predicate MayEnd(kind: Kind) {
    kind == Reject || kind == Busy || kind == Cancel || kind == Hangup
  }

  lemma ControlEnds(s: Session, p: Payload, nowMs: int)
    requires SessionOk(s) && ClockOk(s)
    ensures var e := Do(s, CallControl(p), nowMs);
            var over := s.state != Idle && e.session.state == Idle;
            (over ==> e.session == NEW_SESSION) && Endings(e.signals) == Announced(s, CallControl(p), nowMs, over)
  {
    hide Endings, Do, SessionOk, ClockOk, Announced;
    if MayEnd(p.kind) { ControlMayEnd(s, p, nowMs); } else { ControlGoesOn(s, p, nowMs); }
  }

  lemma ControlMayEnd(s: Session, p: Payload, nowMs: int)
    requires SessionOk(s) && ClockOk(s) && MayEnd(p.kind)
    ensures var e := Do(s, CallControl(p), nowMs);
            var over := s.state != Idle && e.session.state == Idle;
            (over ==> e.session == NEW_SESSION) && Endings(e.signals) == Announced(s, CallControl(p), nowMs, over)
  {
    hide Endings, Message;
    EndingsOfFew();
  }

  lemma ControlGoesOn(s: Session, p: Payload, nowMs: int)
    requires SessionOk(s) && !MayEnd(p.kind)
    ensures var e := Do(s, CallControl(p), nowMs);
            var over := s.state != Idle && e.session.state == Idle;
            !over && Endings(e.signals) == Announced(s, CallControl(p), nowMs, over)
  {
    hide Endings, Message;
    EndingsOfFew();
  }

  predicate PositiveClock(cs: seq<(Command, int)>) {
    forall i :: 0 <= i < |cs| ==> cs[i].1 > 0
  }

  /** When the present active stretch began, and 0 when the session is not active. */
  function ActiveSince(cs: seq<(Command, int)>): int {
    if cs == [] || Perform(NEW_SESSION, cs).state != Active then 0
    else
      var front := cs[..|cs| - 1];
      if Perform(NEW_SESSION, front).state == Active then ActiveSince(front) else cs[|cs| - 1].1
  }

  lemma {:induction false} ClockOfEveryRun(cs: seq<(Command, int)>)
    requires PositiveClock(cs)
    ensures ClockOk(Perform(NEW_SESSION, cs)) && Perform(NEW_SESSION, cs).activeStartMs == ActiveSince(cs)
  {
    hide Do;
    if cs == [] {
    } else {
      var front, last := cs[..|cs| - 1], cs[|cs| - 1];
      ClockOfEveryRun(front);
      EveryRunKeepsSessionOk(front);
      ClockMoves(Perform(NEW_SESSION, front), last.0, last.1);
    }
  }

  lemma ClockMoves(s: Session, c: Command, nowMs: int)
    requires SessionOk(s) && ClockOk(s) && nowMs > 0
    ensures var s' := Do(s, c, nowMs).session;
            && ClockOk(s')
            && (s'.state == Active ==> s'.activeStartMs == if s.state == Active then s.activeStartMs else nowMs)
  {
  }

  /** Over every run the announced duration is the time since the call became active, and 0 if it never did. */
  lemma DurationIsTalkTime(cs: seq<(Command, int)>, c: Command, nowMs: int, g: Signal)
    requires PositiveClock(cs) && g in Endings(Do(Perform(NEW_SESSION, cs), c, nowMs).signals)
    ensures g.CallEnded? && g.durationMs == if ActiveSince(cs) > 0 then nowMs - ActiveSince(cs) else 0
  {
    hide Do, Endings;
    EveryRunKeepsSessionOk(cs);
    ClockOfEveryRun(cs);
    EndsAreTold(Perform(NEW_SESSION, cs), c, nowMs);
  }

  // ------------------------------------------------------ the other signals

  /** A payload that the session does not drop as one about another call. */
  predicate Heeds(s: Session, c: Command, kind: Kind) {
    c.CallControl? && c.payload.kind == kind
    && (c.payload.callId == "" || s.callId == "" || c.payload.callId == s.callId)
  }

  /** What else a session announces, and with whose data: ports, requests for control, sharing, errors of a call. */
  lemma OtherSignals(s: Session, c: Command, nowMs: int, g: Signal)
    requires SessionOk(s)
    ensures g.MediaChannelReady? ==>
              (g in Do(s, c, nowMs).signals <==>
                 s.state == Connecting && Heeds(s, c, MediaReady)
                 && g == MediaChannelReady(c.payload.audioUdpPort, c.payload.screenTcpPort))
    ensures g.RemoteControlRequested? ==>
              (g in Do(s, c, nowMs).signals <==>
                 s.state == Active && Heeds(s, c, RemoteControlRequest) && g.peerId == c.payload.senderId)
    ensures g.ScreenShareChanged? ==>
              (g in Do(s, c, nowMs).signals <==>
                 s.state == Active
                 && if g.sharing then (c.StartScreenShare? && !s.screenSharing) || Heeds(s, c, ScreenShareStart)
                    else (c.StopScreenShare? && s.screenSharing) || Heeds(s, c, ScreenShareStop))
    ensures g.CallError? ==>
              (g in Do(s, c, nowMs).signals <==>
                 s.state == OutgoingRing
                 && match g.error {
                      case NoAnswer => c.CancelCall? || c.RingTimeout?
                      case Rejected => Heeds(s, c, Reject)
                      case PeerBusy => Heeds(s, c, Busy)
                      case _ => false
                    })
  {
    hide Do, SessionOk, Heeds;
    if c.CallControl? { ControlSignals(s, c.payload, nowMs, g); } else { CommandSignals(s, c, nowMs, g); }
  }

  lemma CommandSignals(s: Session, c: Command, nowMs: int, g: Signal)
    requires SessionOk(s) && !c.CallControl?
    ensures g.MediaChannelReady? || g.RemoteControlRequested? ==> g !in Do(s, c, nowMs).signals
    ensures g.ScreenShareChanged? ==>
              (g in Do(s, c, nowMs).signals <==>
                 s.state == Active
                 && if g.sharing then c.StartScreenShare? && !s.screenSharing
                   else c.StopScreenShare? && s.screenSharing)
    ensures g.CallError? ==>
              (g in Do(s, c, nowMs).signals <==>
                 s.state == OutgoingRing && g.error == NoAnswer && (c.CancelCall? || c.RingTimeout?))
    ensures forall kind :: !Heeds(s, c, kind)
  {
    hide Controlled, Duration, Message;
    AppendedSignals();
  }

  lemma ControlSignals(s: Session, p: Payload, nowMs: int, g: Signal)
    requires SessionOk(s)
    ensures var c := CallControl(p);
            && (g.MediaChannelReady? ==>
                  (g in Do(s, c, nowMs).signals <==>
                     s.state == Connecting && Heeds(s, c, MediaReady)
                     && g == MediaChannelReady(p.audioUdpPort, p.screenTcpPort)))
            && (g.RemoteControlRequested? ==>
                  (g in Do(s, c, nowMs).signals <==>
                     s.state == Active && Heeds(s, c, RemoteControlRequest) && g.peerId == p.senderId))
            && (g.ScreenShareChanged? ==>
                  (g in Do(s, c, nowMs).signals <==>
                     s.state == Active && Heeds(s, c, if g.sharing then ScreenShareStart else ScreenShareStop)))
            && (g.CallError? ==>
                  (g in Do(s, c, nowMs).signals <==>
                     s.state == OutgoingRing
                     && ((g.error == Rejected && Heeds(s, c, Reject)) || (g.error == PeerBusy && Heeds(s, c, Busy)))))
  {
    hide Do, SessionOk;
    if MayEnd(p.kind) { EndingSignals(s, p, nowMs, g); } else { OngoingSignals(s, p, nowMs, g); }
  }

  lemma OngoingSignals(s: Session, p: Payload, nowMs: int, g: Signal)
    requires SessionOk(s) && !MayEnd(p.kind)
    ensures var c := CallControl(p);
            && (g.MediaChannelReady? ==>
                  (g in Do(s, c, nowMs).signals <==>
                     s.state == Connecting && Heeds(s, c, MediaReady)
                     && g == MediaChannelReady(p.audioUdpPort, p.screenTcpPort)))
            && (g.RemoteControlRequested? ==>
                  (g in Do(s, c, nowMs).signals <==>
                     s.state == Active && Heeds(s, c, RemoteControlRequest) && g.peerId == p.senderId))
            && (g.ScreenShareChanged? ==>
                  (g in Do(s, c, nowMs).signals <==>
                     s.state == Active && Heeds(s, c, if g.sharing then ScreenShareStart else ScreenShareStop)))
            && (g.CallError? ==> g !in Do(s, c, nowMs).signals)
  {
    hide Do, SessionOk, Heeds;
    match g
    case MediaChannelReady(_, _) => ChannelSignal(s, p, nowMs, g);
    case RemoteControlRequested(_) => RequestSignal(s, p, nowMs, g);
    case ScreenShareChanged(_) => SharingSignal(s, p, nowMs, g);
    case CallError(_) => ErrorSignal(s, p, nowMs, g);
    case _ =>
  }

  /** The payloads that may end a call announce nothing of the kind but an error. */
  lemma EndingSignals(s: Session, p: Payload, nowMs: int, g: Signal)
    requires SessionOk(s) && MayEnd(p.kind)
    ensures var signals := Do(s, CallControl(p), nowMs).signals;
            && (g.MediaChannelReady? || g.RemoteControlRequested? || g.ScreenShareChanged? ==> g !in signals)
            && (g.CallError? ==>
                  (g in signals <==>
                     && s.state == OutgoingRing
                     && ((g.error == Rejected && Heeds(s, CallControl(p), Reject))
                         || (g.error == PeerBusy && Heeds(s, CallControl(p), Busy)))))
  {
    hide Duration, Message;
    AppendedSignals();
  }

  lemma ChannelSignal(s: Session, p: Payload, nowMs: int, g: Signal)
    requires SessionOk(s) && g.MediaChannelReady? && !MayEnd(p.kind)
    ensures var c := CallControl(p);
            g in Do(s, c, nowMs).signals <==>
               s.state == Connecting && Heeds(s, c, MediaReady)
               && g == MediaChannelReady(p.audioUdpPort, p.screenTcpPort)
  {
    hide Duration, Message, End;
  }

  lemma RequestSignal(s: Session, p: Payload, nowMs: int, g: Signal)
    requires SessionOk(s) && g.RemoteControlRequested? && !MayEnd(p.kind)
    ensures var c := CallControl(p);
            g in Do(s, c, nowMs).signals <==>
               s.state == Active && Heeds(s, c, RemoteControlRequest) && g.peerId == p.senderId
  {
    hide Duration, Message, End;
  }

  lemma SharingSignal(s: Session, p: Payload, nowMs: int, g: Signal)
    requires SessionOk(s) && g.ScreenShareChanged? && !MayEnd(p.kind)
    ensures var c := CallControl(p);
            g in Do(s, c, nowMs).signals <==>
               s.state == Active && Heeds(s, c, if g.sharing then ScreenShareStart else ScreenShareStop)
  {
    hide Duration, Message, End;
  }

  lemma ErrorSignal(s: Session, p: Payload, nowMs: int, g: Signal)
    requires SessionOk(s) && g.CallError? && !MayEnd(p.kind)
    ensures var c := CallControl(p);
            g in Do(s, c, nowMs).signals <==>
               false
  {
    hide Duration, Message, End;
  }

  /** What an end appends is none of these. */
  lemma AppendedSignals()
    ensures forall before: seq<Signal>, g: Signal ::
              g in before + [StateChanged(Ended), StateChanged(Idle)] <==>
                g in before || g == StateChanged(Ended) || g == StateChanged(Idle)
  {
  }
}
