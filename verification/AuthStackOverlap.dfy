/** One session at a time: when the wrapper and the fingerprint manager keep it, and what
    happens to a session when they do not. */
module AuthStackOverlap {
  import opened Options
  import opened AuthStackTypes
  import W = AuthStackWrapper
  import C = AuthStackContract
  import opened CrosFpManager
  import opened AuthStackSystem

  // ---------- an accepted start is in session ----------

  /** After an accepted start the manager is in that session's mode and the new closure can
      end it. So assigning over an old enroll closure never ends the new enrolment: whenever
      a start is accepted, the old closure has lost its weak pointer. */
  lemma AcceptedStartIsInSession(s: System, h: Happening, k: SlotKind)
    requires InOrder(s) && FromBus(h) && Fills(s, h, k)
    ensures var s2 := Step(s, h);
            && s2.w.At(k) == W.Slot(Some(s.w.issued), h.sender, true)
            && Live(s2.w, s2.m, k)
            && (if k.EnrollSlot? then s2.m.state.KEnroll? && s2.w.auth == s.w.auth
                else (s2.m.state.KAuth? || s2.m.state.KAuthWaitForFingerUp?) && s2.w.enroll == s.w.enroll)
  {
    StepEffect(s, h);
    StepInOrder(s, h);
    hide Step;
  }

  /** A session that the manager is working on is always in its slot, with a closure that can
      end it, and an image or a match is awaited for nothing else. A finger may be awaited up
      with no session held, but never while an image or a match is due. */
  lemma ManagerSessionsAreHeld(hs: seq<Happening>)
    requires AllFromBus(hs)
    ensures var s := Run(hs);
            && (s.m.state.KEnroll? ==> Live(s.w, s.m, EnrollSlot) && EnrollAction(s.m.action))
            && (s.m.state.KAuth? ==> Live(s.w, s.m, AuthSlot) && s.m.action.MatchFingerDown?)
            && (s.m.state.KAuthWaitForFingerUp? ==> Live(s.w, s.m, AuthSlot) && s.m.pendingRequest.Some?)
            && (EnrollAction(s.m.action) <==> Live(s.w, s.m, EnrollSlot))
            && (s.m.action.MatchFingerDown? ==> Live(s.w, s.m, AuthSlot))
            && (s.m.action.FingerUp? ==> !s.m.state.KEnroll? && !s.m.state.KAuth? && !Live(s.w, s.m, EnrollSlot))
  {
    RunInOrder(hs);
  }

  // ---------- a session that outlives the other one ----------

  /** Every closure the wrapper holds can still end its session. */
  predicate InSync(s: System)
  {
    && (s.w.enroll.Held() ==> Live(s.w, s.m, EnrollSlot))
    && (s.w.auth.Held() ==> Live(s.w, s.m, AuthSlot))
  }

  /** h ends one of two sessions that the wrapper holds at the same time. */
  predicate EndsOneOfTwo(s: System, h: Happening)
  {
    s.w.enroll.Held() && s.w.auth.Held() && (Empties(s, h, EnrollSlot) != Empties(s, h, AuthSlot))
  }

  /** Ending one of two sessions takes the other one's weak pointer with it: the other slot
      stays filled with a closure that no longer does anything. Nothing else does that. */
  lemma StepInSync(s: System, h: Happening)
    requires InOrder(s) && InSync(s)
    ensures InSync(Step(s, h)) <==> !EndsOneOfTwo(s, h)
  {
    StepEffect(s, h);
    hide Step;
    if h.LoggedIn? {
      LoadUserState(s.m, h.user, true, h.a);
    }
    if h.CallStartAuth? {
      LoadUserState(s.m, h.req.user, false, h.a);
    }
    hide LoadUser;
  }

  /** So in every run: closures stay able to end their sessions iff no one of two sessions is
      ended. */
  lemma InSyncIff(hs: seq<Happening>)
    requires AllFromBus(hs)
    ensures Throughout(InSync, hs) <==> Never(EndsOneOfTwo, hs)
  {
    hide Step;
    hide InOrder;
    forall s, h | InOrder(s) && FromBus(h) && InSync(s)
      ensures InSync(Step(s, h)) <==> !EndsOneOfTwo(s, h)
    {
      StepInSync(s, h);
    }
    assert InSync(START);
    hide InSync;
    hide EndsOneOfTwo;
    ThroughoutIffNever(InSync, EndsOneOfTwo, hs);
  }

  // ---------- one session at a time, exactly when no enrolment starts over an auth session ----------

  /** An enrolment is asked for while the wrapper still holds an auth session, and every check
      on the way to the sensor passes. */
  predicate Overlaps(s: System, h: Happening)
  {
    h.CallStartEnroll? && s.w.auth.Held() && EnrollReachesSensor(s.m, h.a) && h.a.setMode
  }

  /** One session, which its closure can end. */
  predicate OneLiveSession(s: System)
  {
    C.OneSession(s.w) && InSync(s)
  }

  /** From there the only way to two sessions is an enrolment over an auth session: an auth
      start over an enrolment is always refused, since the enrolment is still at the sensor. */
  lemma StepOneSession(s: System, h: Happening)
    requires InOrder(s) && OneLiveSession(s)
    ensures C.OneSession(Step(s, h).w) <==> !Overlaps(s, h)
    ensures InSync(Step(s, h))
    ensures s.w.enroll.Held() ==> !Fills(s, h, AuthSlot)
  {
    StepInSync(s, h);
    StepEffect(s, h);
    hide Step;
  }

  ghost predicate OneAtATime(hs: seq<Happening>)
  {
    forall i :: 0 <= i <= |hs| ==> C.OneSession(Run(hs[..i]).w)
  }

  ghost predicate NoOverlap(hs: seq<Happening>)
  {
    Never(Overlaps, hs)
  }

  lemma OneLiveIffNoOverlap(hs: seq<Happening>)
    requires AllFromBus(hs)
    ensures Throughout(OneLiveSession, hs) <==> NoOverlap(hs)
  {
    hide Step;
    hide InOrder;
    forall s, h | InOrder(s) && FromBus(h) && OneLiveSession(s)
      ensures OneLiveSession(Step(s, h)) <==> !Overlaps(s, h)
    {
      StepOneSession(s, h);
    }
    assert OneLiveSession(START);
    hide Overlaps;
    hide OneLiveSession;
    ThroughoutIffNever(OneLiveSession, Overlaps, hs);
  }

  /** As long as there was one session at a time, its closure can end it. */
  lemma {:induction false} OneAtATimeIsLive(hs: seq<Happening>)
    requires AllFromBus(hs) && OneAtATime(hs)
    ensures OneLiveSession(Run(hs))
  {
    hide Step;
    assert C.OneSession(Run(hs[..|hs|]).w) && hs[..|hs|] == hs;
    if hs == [] {
    } else {
      var n := |hs| - 1;
      var front := hs[..n];
      assert forall i :: 0 <= i <= n ==> front[..i] == hs[..i];
      OneAtATimeIsLive(front);
      RunInOrder(front);
      StepOneSession(Run(front), hs[n]);
    }
  }

  /** The wrapper holds at most one session throughout a run iff no enrolment that passes every
      check is asked for while it holds an auth session. */
  lemma OneAtATimeIffNoOverlap(hs: seq<Happening>)
    requires AllFromBus(hs)
    ensures OneAtATime(hs) <==> NoOverlap(hs)
  {
    OneLiveIffNoOverlap(hs);
    if OneAtATime(hs) {
      forall n | 0 <= n <= |hs|
        ensures OneLiveSession(Run(hs[..n]))
      {
        assert forall i :: 0 <= i <= n ==> hs[..n][..i] == hs[..i];
        OneAtATimeIsLive(hs[..n]);
      }
    }
    if Throughout(OneLiveSession, hs) {
      forall n | 0 <= n <= |hs|
        ensures C.OneSession(Run(hs[..n]).w)
      {
        assert OneLiveSession(Run(hs[..n]));
      }
    }
  }

  lemma NoOverlapKeepsInSync(hs: seq<Happening>)
    requires AllFromBus(hs) && NoOverlap(hs)
    ensures InSync(Run(hs)) && C.OneSession(Run(hs).w)
  {
    OneAtATimeIffNoOverlap(hs);
    OneAtATimeIsLive(hs);
  }

  // ---------- without overlap the whole system is the three-state machine ----------

  ghost predicate PlainEvent(e: W.Event)
  {
    !e.StartEnroll? && !e.StartAuth?
  }

  /** P survives whatever the manager does to itself and every callback. */
  ghost predicate Kept(P: System -> bool)
  {
    && (forall s: System, m: Manager :: P(s) ==> P(With(s, m)))
    && (forall s: System, n: Note :: P(s) ==> P(Noted(s, n)))
    && (forall s: System, e: W.Event :: P(s) && PlainEvent(e) ==> P(Deliver(s, e)))
  }

  lemma SensorKeeps(P: System -> bool, s: System, ev: SensorEvent, a: Answers)
    requires Kept(P) && P(s)
    ensures P(OnMkbpEvent(s, ev, a))
  {
    hide Deliver;
    hide With;
    hide Noted;
  }

  lemma StepKeeps(P: System -> bool, s: System, h: Happening)
    requires Kept(P) && P(s) && !h.CallStartEnroll? && !h.CallStartAuth?
    ensures P(Step(s, h))
  {
    hide Deliver;
    hide With;
    hide Noted;
    if h.Sensor? {
      SensorKeeps(P, s, h.ev, h.a);
    }
    hide OnMkbpEvent;
  }

  /** The wrapper inside the system is the wrapper on its own, fed with the events the bus and
      the manager delivered to it. So everything that holds for any manager holds here. */
  ghost predicate Faithful(s: System)
  {
    s.w == W.Run(s.events) && W.AllFromBus(s.events)
  }

  lemma DeliverFaithful(s: System, e: W.Event)
    requires Faithful(s) && W.FromBus(e)
    ensures Faithful(Deliver(s, e))
  {
    hide W.Step;
    assert (s.events + [e])[..|s.events|] == s.events;
  }

  lemma StepFaithful(s: System, h: Happening)
    requires Faithful(s) && FromBus(h)
    ensures Faithful(Step(s, h))
  {
    match h
    case CallStartEnroll(sender, a) =>
      var r := StartEnrollSession(s.m, a);
      DeliverFaithful(Answered(s, r, EnrolStarted(r.m.user)), W.StartEnroll(sender, r.ok));
    case CallStartAuth(sender, req, a) =>
      var r := StartAuthSession(s.m, req, a);
      DeliverFaithful(Answered(s, r, AuthStarted(r.m.user)), W.StartAuth(sender, r.ok));
    case _ =>
      forall s: System, e: W.Event | Faithful(s) && PlainEvent(e)
        ensures Faithful(Deliver(s, e))
      {
        DeliverFaithful(s, e);
      }
      StepKeeps((s: System) => Faithful(s), s, h);
  }

  lemma {:induction false} RunFaithful(hs: seq<Happening>)
    requires AllFromBus(hs)
    ensures Faithful(Run(hs))
  {
    hide Step;
    if hs == [] {
    } else {
      RunFaithful(hs[..|hs| - 1]);
      StepFaithful(Run(hs[..|hs| - 1]), hs[|hs| - 1]);
    }
  }

  ghost predicate FaithfulAndFits(s: System)
  {
    Faithful(s) && C.AlwaysFits(s.events)
  }

  lemma DeliverFits(s: System, e: W.Event)
    requires Faithful(s)
    ensures C.AlwaysFits(Deliver(s, e).events) <==> C.AlwaysFits(s.events) && C.Fits(s.w, e)
  {
    hide W.Step;
    hide C.Fits;
    var es := s.events;
    assert forall i :: 0 <= i <= |es| ==> (es + [e])[..i] == es[..i];
    assert es[..|es|] == es;
    assert forall i :: 0 <= i < |es| ==> (es + [e])[i] == es[i];
  }

  /** A start that fits the interface contract is one that does not overlap. */
  lemma StartFits(s: System, h: Happening)
    requires InOrder(s) && InSync(s) && C.OneSession(s.w)
    ensures h.CallStartEnroll? ==> (C.Fits(s.w, W.StartEnroll(h.sender, StartEnrollSession(s.m, h.a).ok)) <==> !Overlaps(s, h))
    ensures h.CallStartAuth? ==> (C.Fits(s.w, W.StartAuth(h.sender, StartAuthSession(s.m, h.req, h.a).ok)) <==> !Overlaps(s, h))
  {
    hide LoadUser;
  }

  lemma StepFits(s: System, h: Happening)
    requires Faithful(s) && FromBus(h) && InOrder(s) && InSync(s) && C.OneSession(s.w) && C.AlwaysFits(s.events)
    ensures C.AlwaysFits(Step(s, h).events) <==> !Overlaps(s, h)
  {
    hide Deliver;
    match h
    case CallStartEnroll(sender, a) =>
      var r := StartEnrollSession(s.m, a);
      StartFits(s, h);
      DeliverFits(Answered(s, r, EnrolStarted(r.m.user)), W.StartEnroll(sender, r.ok));
    case CallStartAuth(sender, req, a) =>
      var r := StartAuthSession(s.m, req, a);
      StartFits(s, h);
      DeliverFits(Answered(s, r, AuthStarted(r.m.user)), W.StartAuth(sender, r.ok));
    case _ =>
      forall s: System, e: W.Event | FaithfulAndFits(s) && PlainEvent(e)
        ensures FaithfulAndFits(Deliver(s, e))
      {
        DeliverFaithful(s, e);
        DeliverFits(s, e);
      }
      StepKeeps((s: System) => FaithfulAndFits(s), s, h);
  }

  /** Once a start did not fit, the history keeps saying so. */
  lemma StepRemembers(s: System, h: Happening)
    requires Faithful(s) && FromBus(h) && !C.AlwaysFits(s.events)
    ensures !C.AlwaysFits(Step(s, h).events)
  {
    hide Deliver;
    match h
    case CallStartEnroll(sender, a) =>
      var r := StartEnrollSession(s.m, a);
      DeliverFits(Answered(s, r, EnrolStarted(r.m.user)), W.StartEnroll(sender, r.ok));
    case CallStartAuth(sender, req, a) =>
      var r := StartAuthSession(s.m, req, a);
      DeliverFits(Answered(s, r, AuthStarted(r.m.user)), W.StartAuth(sender, r.ok));
    case _ =>
      forall s: System, e: W.Event | Faithful(s) && !C.AlwaysFits(s.events) && PlainEvent(e)
        ensures Faithful(Deliver(s, e)) && !C.AlwaysFits(Deliver(s, e).events)
      {
        DeliverFaithful(s, e);
        DeliverFits(s, e);
      }
      StepKeeps((s: System) => Faithful(s) && !C.AlwaysFits(s.events), s, h);
  }

  lemma {:induction false} FitsIffNoOverlap(hs: seq<Happening>)
    requires AllFromBus(hs)
    ensures C.AlwaysFits(Run(hs).events) <==> NoOverlap(hs)
  {
    hide Step;
    if hs == [] {
    } else {
      var n := |hs| - 1;
      var front := hs[..n];
      assert forall i :: 0 <= i <= n ==> front[..i] == hs[..i];
      assert NoOverlap(hs) <==> NoOverlap(front) && !Overlaps(Run(front), hs[n]);
      FitsIffNoOverlap(front);
      RunFaithful(front);
      RunInOrder(front);
      if NoOverlap(front) {
        NoOverlapKeepsInSync(front);
        StepFits(Run(front), hs[n]);
      } else {
        StepRemembers(Run(front), hs[n]);
      }
    }
  }

  /** The fingerprint manager keeps the contract of the manager interface in a run iff no
      enrolment that passes every check is asked for while the wrapper holds an auth session. */
  lemma ContractIffNoOverlap(hs: seq<Happening>)
    requires AllFromBus(hs)
    ensures C.MeetsContract(Run(hs).events) <==> NoOverlap(hs)
  {
    RunFaithful(hs);
    FitsIffNoOverlap(hs);
    C.ContractIffFits(Run(hs).events);
  }

  /** And then the wrapper over the fingerprint manager, closures, weak pointers, sensor and
      all, is the three-state session machine, output by output; every closure it holds can
      end its session, and an enrolment it holds is one the sensor is being read for. */
  lemma SystemRefinesSessionMachine(hs: seq<Happening>)
    requires AllFromBus(hs) && NoOverlap(hs)
    ensures var s := Run(hs);
            && C.SessionOf(s.w) == C.ReactAll(s.events).session
            && VisiblePart(s.w.log) == C.ReactAll(s.events).out
            && InSync(s)
            && (s.w.enroll.Held() ==> EnrollAction(s.m.action))
  {
    RunFaithful(hs);
    ContractIffNoOverlap(hs);
    C.WrapperRefinesSessionMachine(Run(hs).events);
    NoOverlapKeepsInSync(hs);
    RunInOrder(hs);
  }

  // ---------- starts do overlap ----------

  const YES := Answers(false, true, true, true, true, true, true, true, true, true, true, true, true, true, false, true)

  const MATCHED := SensorEvent(false, true, false, EnrollUnknown, 0, MatchYes, 0)

  /** Alice authenticates and the sensor reports the match. */
  const AUTHENTICATED: seq<Happening> :=
    [CallStartAuth(":alice", AuthRequest("u", "", "", ""), YES)] + [Sensor(MATCHED, YES)]

  lemma Authenticated()
    ensures AllFromBus(AUTHENTICATED)
    ensures var s := Run(AUTHENTICATED);
            && InOrder(s) && s.w.enroll == W.EMPTY_SLOT && s.w.auth == W.Slot(Some(0), ":alice", true) && s.w.issued == 1
            && s.m == INITIAL_MANAGER.(
                        state := KAuthDone, sensor := MatchFingerDown, user := Some("u"), pendingMatch := Some(MATCHED))
  {
    hide Step;
    var h := CallStartAuth(":alice", AuthRequest("u", "", "", ""), YES);
    assert [] + [h] == [h];
    RunSnoc([], h);
    RunSnoc([h], Sensor(MATCHED, YES));
  }

  /** Before Alice ends the session Bob starts an enrolment: the manager, which is done with
      the match, accepts it. */
  const OVERLAP: seq<Happening> := AUTHENTICATED + [CallStartEnroll(":bob", YES)]

  /** Then both slots are held. When Alice now ends the session that is long done, the manager
      drops Bob's enrolment, while the wrapper keeps Bob's session, whose closure does nothing
      any more, and tells nobody. */
  lemma OverlapStrandsTheEnrolment()
    ensures AllFromBus(OVERLAP) && !NoOverlap(OVERLAP)
    ensures var s := Run(OVERLAP);
            s.w.enroll.Held() && s.w.auth.Held() && s.m.state.KEnroll? && InSync(s)
    ensures var s := Step(Run(OVERLAP), CallAuthEnd);
            && s.m.state.KNone? && s.w.enroll.Held() && !Live(s.w, s.m, EnrollSlot)
            && VisiblePart(s.w.log) == VisiblePart(Run(OVERLAP).w.log) + [Unregister(AuthSlot), EndOk(AuthSlot)]
  {
    hide Step;
    Authenticated();
    RunSnoc(AUTHENTICATED, CallStartEnroll(":bob", YES));
    var n := |AUTHENTICATED|;
    assert OVERLAP[..n] == AUTHENTICATED;
    assert Overlaps(Run(OVERLAP[..n]), OVERLAP[n]);
    StepEffect(Run(OVERLAP), CallAuthEnd);
    EndSays(Run(OVERLAP));
  }

  lemma EndSays(s: System)
    requires W.Coherent(s.w) && s.w.auth.Held()
    ensures VisiblePart(Step(s, CallAuthEnd).w.log) == VisiblePart(s.w.log) + [Unregister(AuthSlot), EndOk(AuthSlot)]
  {
    C.CloseSays(s.w, AuthSlot);
  }
}
