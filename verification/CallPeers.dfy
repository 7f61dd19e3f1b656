/** Whom the two sessions of a pair talk to, when calls are made to the other side: every payload reaches its target. */
module CallPeers {
  import opened CallSessions
  import opened CallPair

  /** Calls are made to the other side, each with its media flags, and so are the payloads sent past the session. */
  predicate Dials(step: Step, flags: string -> int) {
    match step
    case Local(side, StartCall(c, peerId, mediaFlags)) => peerId == Name(Other(side)) && mediaFlags == flags(c)
    case Local(_, _) => true
    case AppSends(side, p) => p.targetId == Name(Other(side))
    case Deliver(_) => true
  }

  predicate AllDial(steps: seq<(Step, int)>, flags: string -> int) {
    forall i :: 0 <= i < |steps| ==> Dials(steps[i].0, flags)
  }

  /** A session in a call has the other side for its peer and the media flags of the call. */
  predicate EndKnows(s: Session, side: Side, flags: string -> int) {
    s.state != Idle ==> s.peerId == Name(Other(side)) && s.mediaFlags == flags(s.callId)
  }

  predicate IsFor(p: Payload, side: Side, flags: string -> int) {
    p.targetId == Name(side) && (p.kind == Offer ==> p.mediaFlags == flags(p.callId))
  }

  predicate AllFor(queue: seq<Payload>, side: Side, flags: string -> int) {
    forall p :: p in queue ==> IsFor(p, side, flags)
  }

  predicate SideOk(s: System, side: Side, flags: string -> int) {
    EndKnows(s.session.At(side), side, flags) && AllFor(s.sent.At(side), Other(side), flags)
  }

  predicate Reaches(s: System, flags: string -> int) {
    SideOk(s, L, flags) && SideOk(s, R, flags)
  }

  lemma CommandReaches(s: Session, c: Command, nowMs: int, side: Side, flags: string -> int)
    requires SessionOk(s) && EndKnows(s, side, flags) && !c.IncomingOffer?
    requires c.StartCall? ==> c.peerId == Name(Other(side)) && c.mediaFlags == flags(c.callId)
    requires c.CallControl? ==>
               c.payload.senderId == Name(Other(side))
               && (c.payload.kind == Offer ==> c.payload.mediaFlags == flags(c.payload.callId))
    ensures var e := Do(s, c, nowMs);
            EndKnows(e.session, side, flags) && AllFor(e.sent, Other(side), flags)
  {
    hide Name;
  }

  lemma StepReaches(s: System, step: Step, nowMs: int, flags: string -> int)
    requires CallPair.Inv(s) && Enabled(s, step) && Dials(step, flags) && Reaches(s, flags)
    ensures Reaches(Apply(s, step, nowMs), flags)
  {
    hide Do, CallIs, EndKnows, Name, IsFor, Recorded;
    match step
    case Local(side, c) => CommandReaches(s.session.At(side), c, nowMs, side, flags);
    case AppSends(side, p) => AppReaches(side, p, flags);
    case Deliver(to) =>
      HeadReaches(s, to, flags);
      CommandReaches(s.session.At(to), CallControl(Arrived(s, to)), nowMs, to, flags);
  }

  lemma AppReaches(side: Side, p: Payload, flags: string -> int)
    requires !IsLifecycle(p.kind) && p.targetId == Name(Other(side))
    ensures IsFor(p, Other(side), flags)
  {
  }

  lemma HeadReaches(s: System, to: Side, flags: string -> int)
    requires s.sent.At(Other(to)) != [] && Reaches(s, flags)
    ensures var p := Arrived(s, to);
            p.senderId == Name(Other(to)) && (p.kind == Offer ==> p.mediaFlags == flags(p.callId))
  {
    assert s.sent.At(Other(to))[0] in s.sent.At(Other(to));
  }

  lemma {:induction false} RunReaches(s: System, steps: seq<(Step, int)>, flags: string -> int)
    requires CallPair.Inv(s) && Runs(s, steps) && AllDial(steps, flags) && Reaches(s, flags)
    ensures Reaches(After(s, steps), flags)
    decreases |steps|
  {
    hide CallPair.Inv, Enabled, Apply, Reaches, Dials;
    if steps == [] {
    } else {
      assert Dials(steps[0].0, flags);
      StepKeepsInv(s, steps[0].0, steps[0].1);
      StepReaches(s, steps[0].0, steps[0].1, flags);
      RunReaches(Apply(s, steps[0].0, steps[0].1), steps[1..], flags);
    }
  }

  /**
   * Over every run in which calls are made to the other side: each payload under way is addressed to the side it
   * will be delivered to, and whoever is in a call has the other side for its peer and the media flags it was
   * offered with. So two ends of one call are each other's peers and agree on its media.
   */
  lemma EveryPayloadReachesItsTarget(steps: seq<(Step, int)>, flags: string -> int)
    requires Runs(START, steps) && AllDial(steps, flags)
    ensures var s := After(START, steps);
            && (forall p :: p in s.sent.l ==> p.targetId == "r") && (forall p :: p in s.sent.r ==> p.targetId == "l")
            && (s.session.l.state != Idle ==>
                  s.session.l.peerId == "r" && s.session.l.mediaFlags == flags(s.session.l.callId))
            && (s.session.r.state != Idle ==>
                  s.session.r.peerId == "l" && s.session.r.mediaFlags == flags(s.session.r.callId))
  {
    hide CallPair.Inv, Runs, After, AllDial;
    StartOk();
    RunReaches(START, steps, flags);
    var s := After(START, steps);
    assert SideOk(s, L, flags) && SideOk(s, R, flags);
  }
}
