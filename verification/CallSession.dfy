/** One end of a call: the session object and the step function that specifies it. */
module CallSessions {

  datatype State = Idle | OutgoingRing | IncomingRing | Connecting | Active | Ended

  datatype Kind =
    | Offer | Answer | Reject | Busy | Cancel | Hangup
    | MediaReady | ScreenShareStart | ScreenShareStop
    | RemoteControlRequest | RemoteControlGrant | RemoteControlRevoke
    | RemoteMouseInput | RemoteKeyInput

  datatype Payload = Payload(
    kind: Kind, callId: string, senderId: string, targetId: string, reason: string,
    mediaFlags: int, audioUdpPort: int, screenTcpPort: int)

  datatype Result = NoAnswer | Cancelled | Rejected | PeerBusy | Completed

  /** What the session announces besides the payloads it sends. */
  datatype Signal =
    | StateChanged(state: State)
    | AudioMutedChanged(muted: bool)
    | ScreenShareChanged(sharing: bool)
    | RemoteControlChanged(enabled: bool)
    | CallError(error: Result)
    | CallEnded(callId: string, peerId: string, result: Result, durationMs: int)
    | MediaChannelReady(audioUdpPort: int, screenTcpPort: int)
    | RemoteControlRequested(peerId: string)

  datatype Session = Session(
    state: State, callId: string, peerId: string, mediaFlags: int, audioMuted: bool,
    screenSharing: bool, remoteControlActive: bool, activeStartMs: int, ringTimerActive: bool)

  const NEW_SESSION: Session := Session(Idle, "", "", 0, false, false, false, 0, false)

  datatype Command =
    | StartCall(callId: string, peerId: string, mediaFlags: int)
    | IncomingOffer(callId: string, peerId: string, mediaFlags: int)
    | AnswerCall
    | RejectCall(reason: string)
    | CancelCall
    | HangupCall
    | SetAudioMuted(muted: bool)
    | StartScreenShare
    | StopScreenShare
    | RequestRemoteControl
    | GrantRemoteControl
    | RevokeRemoteControl
    | RingTimeout
    | CallControl(payload: Payload)

  /** The session after a command, the payloads it sent and the signals it emitted. */
  datatype Effect = Effect(session: Session, sent: seq<Payload>, signals: seq<Signal>)

  function Same(s: Session): Effect {
    Effect(s, [], [])
  }

  function Message(s: Session, kind: Kind, reason: string): Payload {
    Payload(kind, s.callId, "", s.peerId, reason, 0, 0, 0)
  }

  function Ring(s: Session, state: State, callId: string, peerId: string, mediaFlags: int): Session {
    s.(state := state, callId := callId, peerId := peerId, mediaFlags := mediaFlags, ringTimerActive := true)
  }

  /** Through Ended back to Idle: every trace of the call is wiped. */
  function End(s: Session, sent: seq<Payload>, before: seq<Signal>): Effect {
    Effect(NEW_SESSION, sent, before + [StateChanged(Ended), StateChanged(Idle)])
  }

  function Duration(s: Session, nowMs: int): int {
    if s.activeStartMs > 0 then nowMs - s.activeStartMs else 0
  }

  predicate Up(s: Session) {
    s.state == Connecting || s.state == Active
  }

  /** A payload about another call is dropped before its kind is looked at. */
  predicate Foreign(s: Session, p: Payload) {
    p.callId != "" && s.callId != "" && p.callId != s.callId
  }

  function Cancelling(s: Session): Effect {
    if s.state != OutgoingRing then Same(s)
    else End(s, [Message(s, Cancel, "")], [CallError(NoAnswer), CallEnded(s.callId, s.peerId, NoAnswer, 0)])
  }

  function Rejecting(s: Session, reason: string): Effect {
    if s.state != IncomingRing then Same(s) else End(s, [Message(s, Reject, reason)], [])
  }

  function Offered(s: Session, callId: string, peerId: string, mediaFlags: int): Effect {
    if s.state != Idle
    then Effect(s, [Payload(Busy, callId, "", peerId, "", 0, 0, 0)], [])
    else Effect(Ring(s, IncomingRing, callId, peerId, mediaFlags), [], [StateChanged(IncomingRing)])
  }

  function Controlled(s: Session, p: Payload, nowMs: int): Effect {
    if Foreign(s, p) then Same(s)
    else match p.kind
      case Offer => Offered(s, p.callId, p.senderId, p.mediaFlags)
      case Answer =>
        if s.state != OutgoingRing then Same(s)
        else Effect(s.(state := Connecting, ringTimerActive := false), [], [StateChanged(Connecting)])
      case Reject =>
        if s.state != OutgoingRing then Same(s)
        else End(s, [], [CallError(Rejected), CallEnded(s.callId, s.peerId, Rejected, 0)])
      case Busy =>
        if s.state != OutgoingRing then Same(s)
        else End(s, [], [CallError(PeerBusy), CallEnded(s.callId, s.peerId, PeerBusy, 0)])
      case Cancel =>
        if s.state != IncomingRing then Same(s) else End(s, [], [CallEnded(s.callId, s.peerId, Cancelled, 0)])
      case Hangup =>
        if !Up(s) then Same(s) else End(s, [], [CallEnded(s.callId, s.peerId, Completed, Duration(s, nowMs))])
      case MediaReady =>
        if s.state != Connecting then Same(s)
        else Effect(s.(state := Active, activeStartMs := nowMs), [],
                    [StateChanged(Active), MediaChannelReady(p.audioUdpPort, p.screenTcpPort)])
      case ScreenShareStart => if s.state != Active then Same(s) else Effect(s, [], [ScreenShareChanged(true)])
      case ScreenShareStop =>
        if s.state != Active then Same(s)
        else Effect(s.(remoteControlActive := false), [], [ScreenShareChanged(false), RemoteControlChanged(false)])
      case RemoteControlRequest =>
        if s.state != Active then Same(s) else Effect(s, [], [RemoteControlRequested(p.senderId)])
      case RemoteControlGrant =>
        if s.state != Active then Same(s) else Effect(s.(remoteControlActive := true), [], [RemoteControlChanged(true)])
      case RemoteControlRevoke =>
        if s.state != Active then Same(s)
        else Effect(s.(remoteControlActive := false), [], [RemoteControlChanged(false)])
      case RemoteMouseInput => Same(s)
      case RemoteKeyInput => Same(s)
  }

  function Do(s: Session, c: Command, nowMs: int): Effect {
    match c
    case StartCall(callId, peerId, flags) =>
      if s.state != Idle then Same(s)
      else Effect(Ring(s, OutgoingRing, callId, peerId, flags), [Payload(Offer, callId, "", peerId, "", flags, 0, 0)],
                  [StateChanged(OutgoingRing)])
    case IncomingOffer(callId, peerId, flags) => Offered(s, callId, peerId, flags)
    case AnswerCall =>
      if s.state != IncomingRing then Same(s)
      else Effect(s.(state := Connecting, ringTimerActive := false), [Message(s, Answer, "")],
                  [StateChanged(Connecting)])
    case RejectCall(reason) => Rejecting(s, reason)
    case CancelCall => Cancelling(s)
    case HangupCall =>
      if !Up(s) then Same(s)
      else End(s, [Message(s, Hangup, "")], [CallEnded(s.callId, s.peerId, Completed, Duration(s, nowMs))])
    case SetAudioMuted(muted) =>
      if s.audioMuted == muted then Same(s) else Effect(s.(audioMuted := muted), [], [AudioMutedChanged(muted)])
    case StartScreenShare =>
      if s.state != Active || s.screenSharing then Same(s)
        else Effect(s.(screenSharing := true), [], [ScreenShareChanged(true)])
    case StopScreenShare =>
      if !s.screenSharing then Same(s)
      else Effect(s.(screenSharing := false, remoteControlActive := false), [Message(s, ScreenShareStop, "")],
                  [ScreenShareChanged(false), RemoteControlChanged(false)])
    case RequestRemoteControl =>
      if s.state != Active then Same(s) else Effect(s, [Message(s, RemoteControlRequest, "")], [])
    case GrantRemoteControl =>
      if s.state != Active || !s.screenSharing then Same(s)
      else Effect(s.(remoteControlActive := true), [Message(s, RemoteControlGrant, "")], [RemoteControlChanged(true)])
    case RevokeRemoteControl =>
      if !s.remoteControlActive then Same(s)
      else Effect(s.(remoteControlActive := false), [Message(s, RemoteControlRevoke, "")],
                  [RemoteControlChanged(false)])
    case RingTimeout =>
      if s.state == OutgoingRing then Cancelling(s) else if s.state == IncomingRing then Rejecting(s, "timeout")
        else Same(s)
    case CallControl(p) => Controlled(s, p, nowMs)
  }

  // ------------------------------------------------------ the session object

  class CallSession {
    var state: State
    var callId: string
    var peerId: string
    var mediaFlags: int
    var audioMuted: bool
    var screenSharing: bool
    var remoteControlActive: bool
    var activeStartMs: int
    var ringTimerActive: bool
    var sent: seq<Payload>
    var signals: seq<Signal>

    function Value(): Session
      reads this
    {
      Session(state, callId, peerId, mediaFlags, audioMuted, screenSharing, remoteControlActive, activeStartMs,
              ringTimerActive)
    }

    /** The object did exactly what the step function says. */
    twostate predicate Did(c: Command, nowMs: int)
      reads this
    {
      var e := Do(old(Value()), c, nowMs);
      Value() == e.session && sent == old(sent) + e.sent && signals == old(signals) + e.signals
    }

    constructor ()
      ensures Value() == NEW_SESSION && sent == [] && signals == []
    {
      state, callId, peerId, mediaFlags := Idle, "", "", 0;
      audioMuted, screenSharing, remoteControlActive, activeStartMs, ringTimerActive := false, false, false, 0, false;
      sent, signals := [], [];
    }

    method SetState(next: State, nowMs: int)
      modifies this
      ensures Value() == old(Value()).(state := next,
                                       activeStartMs := if next == Active && old(state) != Active then nowMs
                                         else old(activeStartMs))
      ensures signals == old(signals) + if old(state) == next then [] else [StateChanged(next)]
      ensures sent == old(sent)
    {
      if state == next { return; }
      state := next;
      if next == Active { activeStartMs := nowMs; }
      signals := signals + [StateChanged(next)];
    }

    method Cleanup()
      modifies this
      ensures Value() == NEW_SESSION.(state := old(state))
      ensures signals == old(signals) && sent == old(sent)
    {
      ringTimerActive := false;
      callId, peerId, mediaFlags := "", "", 0;
      audioMuted, screenSharing, remoteControlActive, activeStartMs := false, false, false, 0;
    }

    /** setState(Ended), cleanup, setState(Idle). */
    method Finish(nowMs: int)
      requires state != Ended
      modifies this
      ensures Value() == NEW_SESSION
      ensures signals == old(signals) + [StateChanged(Ended), StateChanged(Idle)] && sent == old(sent)
    {
      SetState(Ended, nowMs);
      Cleanup();
      SetState(Idle, nowMs);
    }

    method StartCall(newCallId: string, newPeerId: string, flags: int, nowMs: int) returns (ok: bool)
      modifies this
      ensures Did(Command.StartCall(newCallId, newPeerId, flags), nowMs)
      ensures ok == (old(state) == Idle)
    {
      if state != Idle { return false; }
      callId, peerId, mediaFlags := newCallId, newPeerId, flags;
      SetState(OutgoingRing, nowMs);
      ringTimerActive := true;
      sent := sent + [Payload(Offer, newCallId, "", newPeerId, "", flags, 0, 0)];
      return true;
    }

    method HandleIncomingOffer(newCallId: string, newPeerId: string, flags: int, nowMs: int) returns (ok: bool)
      modifies this
      ensures Did(IncomingOffer(newCallId, newPeerId, flags), nowMs)
      ensures ok == (old(state) == Idle)
    {
      if state != Idle {
        sent := sent + [Payload(Busy, newCallId, "", newPeerId, "", 0, 0, 0)];
        return false;
      }
      callId, peerId, mediaFlags := newCallId, newPeerId, flags;
      SetState(IncomingRing, nowMs);
      ringTimerActive := true;
      return true;
    }

    method AnswerCall(nowMs: int)
      modifies this
      ensures Did(Command.AnswerCall, nowMs)
    {
      if state != IncomingRing { return; }
      ringTimerActive := false;
      sent := sent + [Payload(Answer, callId, "", peerId, "", 0, 0, 0)];
      SetState(Connecting, nowMs);
    }

    method RejectCall(reason: string, nowMs: int)
      modifies this
      ensures Did(Command.RejectCall(reason), nowMs)
    {
      if state != IncomingRing { return; }
      ringTimerActive := false;
      sent := sent + [Payload(Reject, callId, "", peerId, reason, 0, 0, 0)];
      Finish(nowMs);
    }

    /** The timer is stopped before it is asked whether it is active, so the reason is always "no answer". */
    method CancelCall(nowMs: int)
      modifies this
      ensures Did(Command.CancelCall, nowMs)
    {
      if state != OutgoingRing { return; }
      ringTimerActive := false;
      var wasTimeout := !ringTimerActive && state == OutgoingRing;
      var reason := if wasTimeout then NoAnswer else Cancelled;
      sent := sent + [Payload(Cancel, callId, "", peerId, "", 0, 0, 0)];
      signals := signals + [CallError(reason), CallEnded(callId, peerId, reason, 0)];
      Finish(nowMs);
    }

    method HangupCall(nowMs: int)
      modifies this
      ensures Did(Command.HangupCall, nowMs)
    {
      if state != Active && state != Connecting { return; }
      var duration := if activeStartMs > 0 then nowMs - activeStartMs else 0;
      sent := sent + [Payload(Hangup, callId, "", peerId, "", 0, 0, 0)];
      signals := signals + [CallEnded(callId, peerId, Completed, duration)];
      Finish(nowMs);
    }

    method SetAudioMuted(muted: bool, nowMs: int)
      modifies this
      ensures Did(Command.SetAudioMuted(muted), nowMs)
    {
      if audioMuted == muted { return; }
      audioMuted := muted;
      signals := signals + [AudioMutedChanged(muted)];
    }

    method StartScreenShare(nowMs: int)
      modifies this
      ensures Did(Command.StartScreenShare, nowMs)
    {
      if state != Active || screenSharing { return; }
      screenSharing := true;
      signals := signals + [ScreenShareChanged(true)];
    }

    method StopScreenShare(nowMs: int)
      modifies this
      ensures Did(Command.StopScreenShare, nowMs)
    {
      if !screenSharing { return; }
      screenSharing, remoteControlActive := false, false;
      sent := sent + [Payload(ScreenShareStop, callId, "", peerId, "", 0, 0, 0)];
      signals := signals + [ScreenShareChanged(false), RemoteControlChanged(false)];
    }

    method RequestRemoteControl(nowMs: int)
      modifies this
      ensures Did(Command.RequestRemoteControl, nowMs)
    {
      if state != Active { return; }
      sent := sent + [Payload(RemoteControlRequest, callId, "", peerId, "", 0, 0, 0)];
    }

    method GrantRemoteControl(nowMs: int)
      modifies this
      ensures Did(Command.GrantRemoteControl, nowMs)
    {
      if state != Active || !screenSharing { return; }
      remoteControlActive := true;
      sent := sent + [Payload(RemoteControlGrant, callId, "", peerId, "", 0, 0, 0)];
      signals := signals + [RemoteControlChanged(true)];
    }

    method RevokeRemoteControl(nowMs: int)
      modifies this
      ensures Did(Command.RevokeRemoteControl, nowMs)
    {
      if !remoteControlActive { return; }
      remoteControlActive := false;
      sent := sent + [Payload(RemoteControlRevoke, callId, "", peerId, "", 0, 0, 0)];
      signals := signals + [RemoteControlChanged(false)];
    }

    /** The single-shot ring timer fires: it is no longer active, and the ringing side gives up. */
    method OnRingTimeout(nowMs: int)
      requires ringTimerActive && (state == OutgoingRing || state == IncomingRing)
      modifies this
      ensures Did(RingTimeout, nowMs)
    {
      ringTimerActive := false;
      if state == OutgoingRing {
        CancelCall(nowMs);
      } else if state == IncomingRing {
        RejectCall("timeout", nowMs);
      }
    }

    method HandleCallControl(p: Payload, nowMs: int)
      modifies this
      ensures Did(CallControl(p), nowMs)
    {
      if p.callId != "" && callId != "" && p.callId != callId { return; }
      match p.kind
      case Offer => var _ := HandleIncomingOffer(p.callId, p.senderId, p.mediaFlags, nowMs);
      case Answer => HandleEndOrAnswer(p, nowMs);
      case Reject => HandleEndOrAnswer(p, nowMs);
      case Busy => HandleEndOrAnswer(p, nowMs);
      case Cancel => HandleEndOrAnswer(p, nowMs);
      case Hangup => HandleEndOrAnswer(p, nowMs);
      case MediaReady => if state == Connecting { MediaIsReady(p, nowMs); }
      case _ => HandleSharingControl(p, nowMs);
    }

    /** The part of the switch that takes a call up or ends it. */
    method HandleEndOrAnswer(p: Payload, nowMs: int)
      requires !Foreign(Value(), p)
      requires p.kind.Answer? || p.kind.Reject? || p.kind.Busy? || p.kind.Cancel? || p.kind.Hangup?
      modifies this
      ensures Did(CallControl(p), nowMs)
    {
      match p.kind
      case Answer =>
        if state == OutgoingRing {
          ringTimerActive := false;
          SetState(Connecting, nowMs);
        }
      case Reject =>
        if state == OutgoingRing {
          PeerEnded([CallError(Rejected), CallEnded(callId, peerId, Rejected, 0)], nowMs);
        }
      case Busy =>
        if state == OutgoingRing {
          PeerEnded([CallError(PeerBusy), CallEnded(callId, peerId, PeerBusy, 0)], nowMs);
        }
      case Cancel => if state == IncomingRing { PeerEnded([CallEnded(callId, peerId, Cancelled, 0)], nowMs); }
      case Hangup =>
        if state == Active || state == Connecting {
          var duration := if activeStartMs > 0 then nowMs - activeStartMs else 0;
          PeerEnded([CallEnded(callId, peerId, Completed, duration)], nowMs);
        }
    }

    method MediaIsReady(p: Payload, nowMs: int)
      requires state == Connecting
      modifies this
      ensures Value() == old(Value()).(state := Active, activeStartMs := nowMs)
      ensures signals == old(signals) + [StateChanged(Active), MediaChannelReady(p.audioUdpPort, p.screenTcpPort)]
              && sent == old(sent)
    {
      SetState(Active, nowMs);
      signals := signals + [MediaChannelReady(p.audioUdpPort, p.screenTcpPort)];
    }

    /** The part of the switch about sharing and remote control; input events are not for the session. */
    method HandleSharingControl(p: Payload, nowMs: int)
      requires !Foreign(Value(), p)
      requires !p.kind.Offer? && !p.kind.Answer? && !p.kind.Reject? && !p.kind.Busy? && !p.kind.Cancel?
               && !p.kind.Hangup? && !p.kind.MediaReady?
      modifies this
      ensures Did(CallControl(p), nowMs)
    {
      match p.kind
      case ScreenShareStart => if state == Active { signals := signals + [ScreenShareChanged(true)]; }
      case ScreenShareStop =>
        if state == Active {
          PeerControls(false, [ScreenShareChanged(false), RemoteControlChanged(false)]);
        }
      case RemoteControlRequest => if state == Active { signals := signals + [RemoteControlRequested(p.senderId)]; }
      case RemoteControlGrant =>
        if state == Active {
          PeerControls(true, [RemoteControlChanged(true)]);
        }
      case RemoteControlRevoke =>
        if state == Active {
          PeerControls(false, [RemoteControlChanged(false)]);
        }
      case _ =>
    }

    method PeerControls(enabled: bool, announced: seq<Signal>)
      modifies this
      ensures Value() == old(Value()).(remoteControlActive := enabled)
      ensures signals == old(signals) + announced && sent == old(sent)
    {
      remoteControlActive := enabled;
      signals := signals + announced;
    }

    /** The peer ended the call: announce it, then finish. */
    method PeerEnded(announced: seq<Signal>, nowMs: int)
      requires state != Ended
      modifies this
      ensures Value() == NEW_SESSION
      ensures signals == old(signals) + (announced + [StateChanged(Ended), StateChanged(Idle)]) && sent == old(sent)
    {
      ringTimerActive := false;
      signals := signals + announced;
      Finish(nowMs);
    }
  }

  // ------------------------------------------------------ what every session keeps

  /** The ring timer is armed exactly while ringing; sharing and remote control need an active call; an idle session
    * remembers no call. */
  predicate SessionOk(s: Session) {
    && s.state != Ended
    && (s.ringTimerActive <==> s.state == OutgoingRing || s.state == IncomingRing)
    && (s.screenSharing || s.remoteControlActive ==> s.state == Active)
    && (s.state == Idle ==> s.callId == "" && s.peerId == "" && s.mediaFlags == 0 && s.activeStartMs == 0)
  }

  /** Every command keeps it, on any input. */
  lemma DoKeepsSessionOk(s: Session, c: Command, nowMs: int)
    requires SessionOk(s)
    ensures SessionOk(Do(s, c, nowMs).session)
  {
  }

  function Perform(s: Session, cs: seq<(Command, int)>): Session {
    if cs == [] then s else Do(Perform(s, cs[..|cs| - 1]), cs[|cs| - 1].0, cs[|cs| - 1].1).session
  }

  lemma {:induction false} EveryRunKeepsSessionOk(cs: seq<(Command, int)>)
    ensures SessionOk(Perform(NEW_SESSION, cs))
  {
    if cs == [] {
    } else {
      EveryRunKeepsSessionOk(cs[..|cs| - 1]);
      DoKeepsSessionOk(Perform(NEW_SESSION, cs[..|cs| - 1]), cs[|cs| - 1].0, cs[|cs| - 1].1);
    }
  }

  /** The reason of a cancelled call is "no answer" whether the user gave up or the timer did; "cancelled" is what
    * the peer is told. */
  lemma CancelAlwaysSaysNoAnswer(s: Session, nowMs: int)
    requires s.state == OutgoingRing
    ensures CallEnded(s.callId, s.peerId, NoAnswer, 0) in Do(s, CancelCall, nowMs).signals
    ensures Do(s, CancelCall, nowMs) == Do(s, RingTimeout, nowMs)
    ensures forall e :: e in Do(s, CancelCall, nowMs).signals && e.CallEnded? ==> e.result == NoAnswer
  {
    assert Do(s, CancelCall, nowMs).signals[1] == CallEnded(s.callId, s.peerId, NoAnswer, 0);
  }

  /** A session in a call answers an offer with Busy exactly when the offer does not carry another call's id: an
    * ordinary second caller hears nothing. */
  lemma BusyIsSentOnlyForTheSameCall(s: Session, p: Payload, nowMs: int)
    requires SessionOk(s) && s.state != Idle && p.kind == Offer
    ensures Do(s, CallControl(p), nowMs).session == s
    ensures Do(s, CallControl(p), nowMs).sent != [] <==> (p.callId == "" || s.callId == "" || p.callId == s.callId)
  {
  }
}
