/** What the clients on the bus hear of the system: every reply and signal of every step, from the
    happening and the state before it, and over whole runs. */
module AuthStackSignals {
  import opened Options
  import opened Counting
  import opened AuthStackTypes
  import W = AuthStackWrapper
  import C = AuthStackContract
  import opened CrosFpManager
  import opened AuthStackSystem

  // ---------- one step ----------

  predicate Ready(s: State)
  {
    s == KNone || s == KEnrollDone || s == KAuthDone || s == KWaitForFingerUp
  }

  predicate SensorAccepts(a: Answers)
  {
    a.setNonce && a.unlock && a.setMode
  }

  /** An enroll start is answered with a session. */
  predicate EnrollAccepted(m: Manager, a: Answers)
  {
    Ready(m.state) && m.user.Some? && !a.templatesFull && SensorAccepts(a)
  }

  /** An auth start is answered with a session: the user is loaded, or can be, and the sensor looks
      for the finger or first has to see it lifted. */
  predicate AuthAccepted(m: Manager, user: string, a: Answers)
  {
    && Ready(m.state)
    && (m.user == Some(user) || (!(m.user.Some? && m.lockedToUser) && a.loadUser && a.upload))
    && (m.state == KWaitForFingerUp || SensorAccepts(a))
  }

  /** An image was captured during an enrolment: the last one ends the session; one before it is
      followed by a failure if the sensor cannot be told to wait for the finger to be lifted. */
  function Captured(w: W.Wrapper, ev: SensorEvent, a: Answers, scan: ScanResult): seq<Output>
  {
    if ev.progress >= 100 then [EnrollScanDone(ScanSuccess, true, Some(100)), Unregister(EnrollSlot)]
    else [EnrollScanDone(scan, false, Some(ev.progress))] + (if a.setMode then [] else C.Failures(w))
  }

  function SensorHeard(w: W.Wrapper, m: Manager, ev: SensorEvent, a: Answers): seq<Output>
  {
    match m.action
    case NoAction => []
    case EnrollImage =>
      if !ev.isEnroll then []
      else
        (match ev.enrollResult
         case EnrollOk => Captured(w, ev, a, ScanSuccess)
         case EnrollImmobile => Captured(w, ev, a, ScanImmobile)
         case EnrollLowCoverage => Captured(w, ev, a, ScanPartial)
         case EnrollLowQuality => Captured(w, ev, a, ScanInsufficient)
         case EnrollInternal => C.Failures(w)
         case EnrollUnknown => C.Failures(w))
    case EnrollFingerUp => if ev.isFingerUp && !a.setMode then C.Failures(w) else []
    case MatchFingerDown => if ev.isMatch then [AuthScanDone] else []
    case FingerUp =>
      if ev.isFingerUp && m.state == KAuthWaitForFingerUp && !SensorAccepts(a) then C.Failures(w) else []
  }

  /** Everything that is heard of h in s. */
  function Heard(s: System, h: Happening): seq<Output>
  {
    match h
    case CallStartEnroll(_, a) =>
      if !EnrollAccepted(s.m, a) then [StartError(EnrollSlot)]
      else (if s.w.enroll.Held() then [Unregister(EnrollSlot)] else []) + [Register(EnrollSlot), SessionPath(EnrollSlot)]
    case CallStartAuth(_, req, a) =>
      if !AuthAccepted(s.m, req.user, a) then [StartError(AuthSlot)]
      else (if s.w.auth.Held() then [] else [Register(AuthSlot)]) + [SessionPath(AuthSlot)]
    case CallEnrollCancel =>
      if s.w.enroll.Held() then [Unregister(EnrollSlot), EndOk(EnrollSlot)] else [EndError(EnrollSlot)]
    case CallAuthEnd => if s.w.auth.Held() then [Unregister(AuthSlot), EndOk(AuthSlot)] else [EndError(AuthSlot)]
    case BusName(name, newOwner) =>
      (if s.w.enroll.Held() && s.w.enroll.owner == name && newOwner == "" then [Unregister(EnrollSlot)] else [])
      + (if s.w.auth.Held() && s.w.auth.owner == name && newOwner == "" then [Unregister(AuthSlot)] else [])
    case BusMalformed => []
    case Sensor(ev, a) => SensorHeard(s.w, s.m, ev, a)
    case CallCreateCredential(_) => [Forwarded(CreateCall)]
    case CallAuthenticateCredential(_) => [Forwarded(AuthenticateCall)]
    case CallDeleteCredential(_, _) => [Forwarded(DeleteCall)]
    case CallEnrollLegacyTemplate(_) => [Forwarded(EnrollLegacyCall)]
    case CallGetNonce => [Forwarded(NonceCall)]
    case CallListLegacyRecords => [Forwarded(ListLegacyCall)]
    case LoggedIn(_, _) => [Forwarded(LoginNotice)]
    case LoggedOut => [Forwarded(LogoutNotice)]
  }

  lemma AcceptedIff(m: Manager, req: AuthRequest, a: Answers)
    ensures StartEnrollSession(m, a).ok <==> EnrollAccepted(m, a)
    ensures StartAuthSession(m, req, a).ok <==> AuthAccepted(m, req.user, a)
  {
    LoadUserResult(m, req.user, false, a);
    hide LoadUser;
  }

  lemma DeliverSays(s: System, e: W.Event)
    requires W.Coherent(s.w)
    ensures C.Says(s.w, Deliver(s, e).w, C.Utters(s.w, e))
  {
    C.StepUtters(s.w, e);
    hide W.Step;
    hide C.Utters;
    hide C.Says;
  }

  /** Nothing was said in between. */
  lemma SaysBoth(w: W.Wrapper, w1: W.Wrapper, w2: W.Wrapper, a: seq<Output>, b: seq<Output>)
    requires C.Says(w, w1, a) && C.Says(w1, w2, b)
    ensures C.Says(w, w2, a + b)
  {
    hide VisiblePart;
  }

  lemma ProgressHeard(s: System, ev: SensorEvent, a: Answers)
    requires W.Coherent(s.w) && s.w.enroll.Held()
    requires ev.isEnroll && ScanResultOf(ev.enrollResult).Some? && ev.progress < 100
    ensures C.Says(s.w, DoEnrollImageEvent(s, ev, a).w, Captured(s.w, ev, a, ScanResultOf(ev.enrollResult).value))
  {
    var e := W.EnrollScan(ScanResultOf(ev.enrollResult).value, false, ev.progress);
    var s1 := Deliver(s, e);
    DeliverSays(s, e);
    DeliverCloses(s, e);
    hide Deliver;
    hide C.Says;
    hide ScanResultOf;
    var o := EnrollScanDone(ScanResultOf(ev.enrollResult).value, false, Some(ev.progress));
    assert C.Utters(s.w, e) == [o] && C.Failures(s1.w) == C.Failures(s.w);
    assert [o] + [] == [o];
    if !a.setMode {
      var s2 := With(s1, Request(s1.m, EnrollFingerUp, a.setMode));
      DeliverSays(s2, W.Failed);
      SaysBoth(s.w, s1.w, Deliver(s2, W.Failed).w, [o], C.Failures(s.w));
    }
  }

  lemma NothingSaid(s: System, s2: System)
    requires s2.w == s.w
    ensures C.Says(s.w, s2.w, [])
  {
  }

  lemma EnrollImageHeard(s: System, ev: SensorEvent, a: Answers)
    requires InOrder(s) && s.m.action.EnrollImage?
    ensures C.Says(s.w, DoEnrollImageEvent(s, ev, a).w, SensorHeard(s.w, s.m, ev, a))
  {
    hide C.Says;
    hide Deliver;
    assert s.w.enroll.Held();
    if !ev.isEnroll {
      NothingSaid(s, s);
    } else if ScanResultOf(ev.enrollResult).None? {
      DeliverSays(s, W.Failed);
    } else if ev.progress < 100 {
      ProgressHeard(s, ev, a);
      hide DoEnrollImageEvent;
    } else {
      var s1 := Noted(With(s, s.m.(action := NoAction, state := KEnrollDone)), EnrolmentDone);
      DeliverSays(s1, W.EnrollScan(ScanSuccess, true, 100));
      var o := EnrollScanDone(ScanSuccess, true, Some(100));
      assert [o] + [Unregister(EnrollSlot)] == [o, Unregister(EnrollSlot)];
    }
  }

  lemma SensorIsHeard(s: System, ev: SensorEvent, a: Answers)
    requires InOrder(s)
    ensures C.Says(s.w, OnMkbpEvent(s, ev, a).w, SensorHeard(s.w, s.m, ev, a))
  {
    hide C.Says;
    hide Deliver;
    NothingSaid(s, s);
    match s.m.action
    case NoAction =>
    case EnrollImage => EnrollImageHeard(s, ev, a);
    case EnrollFingerUp =>
      var s1 := With(s, Request(s.m, EnrollImage, a.setMode));
      DeliverSays(s1, W.Failed);
      NothingSaid(s, s1);
    case MatchFingerDown =>
      var m1 := s.m.(pendingMatch := Some(ev), action := NoAction, state := KAuthDone);
      DeliverSays(Noted(With(s, m1), MatchSeen(ev)), W.AuthScan);
    case FingerUp => FingerUpHeard(s, ev, a);
  }

  lemma FingerUpHeard(s: System, ev: SensorEvent, a: Answers)
    requires InOrder(s) && s.m.action.FingerUp?
    ensures C.Says(s.w, OnFingerUpEvent(s, ev, a).w, SensorHeard(s.w, s.m, ev, a))
  {
    hide C.Says;
    hide Deliver;
    var s1 := With(s, s.m.(pendingRequest := None));
    var prepared := PrepareStartAuthSession(s1.m, a);
    NothingSaid(s, With(s1, prepared.m.(state := KAuth)));
    DeliverSays(With(s1, prepared.m), W.Failed);
  }

  /** In every reachable state, what a step puts on the bus is what is stated, reply by reply and
      signal by signal. */
  lemma StepHeard(s: System, h: Happening)
    requires InOrder(s)
    ensures VisiblePart(Step(s, h).w.log) == VisiblePart(s.w.log) + Heard(s, h)
  {
    assert C.Says(s.w, Step(s, h).w, Heard(s, h)) by {
      hide C.Says;
      if h.Sensor? {
        SensorIsHeard(s, h.ev, h.a);
        hide OnMkbpEvent;
        hide SensorHeard;
      } else {
        CallHeard(s, h);
        hide Heard;
        hide Step;
      }
    }
    hide Step;
    hide Heard;
    hide VisiblePart;
  }

  lemma CallHeard(s: System, h: Happening)
    requires InOrder(s) && !h.Sensor?
    ensures C.Says(s.w, Step(s, h).w, Heard(s, h))
  {
    hide C.Says;
    hide Deliver;
    match h
    case CallStartEnroll(sender, a) =>
      var r := StartEnrollSession(s.m, a);
      AcceptedIff(s.m, AuthRequest("", "", "", ""), a);
      DeliverSays(Answered(s, r, EnrolStarted(r.m.user)), W.StartEnroll(sender, r.ok));
      hide StartEnrollSession;
    case CallStartAuth(sender, req, a) =>
      var r := StartAuthSession(s.m, req, a);
      AcceptedIff(s.m, req, a);
      DeliverSays(Answered(s, r, AuthStarted(r.m.user)), W.StartAuth(sender, r.ok));
      hide StartAuthSession;
    case CallEnrollCancel => DeliverSays(s, W.EnrollCancel);
    case CallAuthEnd => DeliverSays(s, W.AuthEnd);
    case BusName(name, newOwner) => DeliverSays(s, W.NameOwnerChanged(name, newOwner));
    case BusMalformed => DeliverSays(s, W.MalformedNameOwnerChanged);
    case CallCreateCredential(a) => DeliverSays(With(s, CreateCredential(s.m, a).m), W.Forward(CreateCall));
    case CallAuthenticateCredential(a) =>
      DeliverSays(With(s, AuthenticateCredential(s.m, a).m), W.Forward(AuthenticateCall));
    case CallDeleteCredential(user, a) => DeliverSays(With(s, DeleteCredential(s.m, user, a).m), W.Forward(DeleteCall));
    case CallEnrollLegacyTemplate(a) => DeliverSays(With(s, EnrollLegacyTemplate(s.m, a).m), W.Forward(EnrollLegacyCall));
    case CallGetNonce => DeliverSays(s, W.Forward(NonceCall));
    case CallListLegacyRecords => DeliverSays(s, W.Forward(ListLegacyCall));
    case LoggedIn(user, a) => DeliverSays(With(s, OnUserLoggedIn(s.m, user, a)), W.Forward(LoginNotice));
    case LoggedOut => DeliverSays(With(s, OnUserLoggedOut(s.m)), W.Forward(LogoutNotice));
  }

  // ---------- whole runs ----------

  /** Everything that is heard in a run. */
  ghost function Told(hs: seq<Happening>): seq<Output>
  {
    if hs == [] then [] else Told(hs[..|hs| - 1]) + Heard(Run(hs[..|hs| - 1]), hs[|hs| - 1])
  }

  /** The bus hears that, in that order, and nothing else. */
  lemma {:induction false} RunHeard(hs: seq<Happening>)
    requires AllFromBus(hs)
    ensures VisiblePart(Run(hs).w.log) == Told(hs)
  {
    hide Step;
    hide Heard;
    if hs == [] {
    } else {
      var front := hs[..|hs| - 1];
      RunHeard(front);
      RunInOrder(front);
      StepHeard(Run(front), hs[|hs| - 1]);
      hide InOrder;
    }
  }

  /** The turning points of sessions, as both sides know them. */
  datatype Milestone = EnrollBegun | EnrollFinished | AuthBegun | FingerSeen

  function Announced(o: Output): seq<Milestone>
  {
    match o
    case SessionPath(EnrollSlot) => [EnrollBegun]
    case SessionPath(AuthSlot) => [AuthBegun]
    case EnrollScanDone(_, true, _) => [EnrollFinished]
    case AuthScanDone => [FingerSeen]
    case _ => []
  }

  function Reached(n: Note): seq<Milestone>
  {
    match n
    case EnrolStarted(_) => [EnrollBegun]
    case AuthStarted(_) => [AuthBegun]
    case EnrolmentDone => [EnrollFinished]
    case MatchSeen(_) => [FingerSeen]
    case _ => []
  }

  function OnBus(log: seq<Output>): seq<Milestone>
  {
    if log == [] then [] else OnBus(log[..|log| - 1]) + Announced(log[|log| - 1])
  }

  function InAccounts(notes: seq<Note>): seq<Milestone>
  {
    if notes == [] then [] else InAccounts(notes[..|notes| - 1]) + Reached(notes[|notes| - 1])
  }

  lemma {:induction false} OnBusAppend(a: seq<Output>, b: seq<Output>)
    ensures OnBus(a + b) == OnBus(a) + OnBus(b)
  {
    hide Announced;
    if b == [] {
      assert a + b == a;
    } else {
      assert (a + b)[..|a + b| - 1] == a + b[..|b| - 1];
      OnBusAppend(a, b[..|b| - 1]);
    }
  }

  lemma InAccountsAppend(notes: seq<Note>, more: seq<Note>)
    requires |more| <= 1
    ensures InAccounts(notes + more) == InAccounts(notes) + InAccounts(more)
  {
    if more == [] {
      assert notes + more == notes;
    } else {
      assert (notes + more)[..|notes|] == notes && more[..0] == [];
    }
  }

  /** Milestones are visible. */
  lemma {:induction false} OnBusIsVisible(log: seq<Output>)
    ensures OnBus(VisiblePart(log)) == OnBus(log)
  {
    if log == [] {
    } else {
      var front, o := log[..|log| - 1], log[|log| - 1];
      OnBusIsVisible(front);
      assert !Visible(o) ==> Announced(o) == [];
      hide Announced;
      hide Visible;
      if Visible(o) {
        OnBusAppend(VisiblePart(front), [o]);
        assert [o][..0] == [];
      } else {
        assert VisiblePart(front) + [] == VisiblePart(front);
      }
    }
  }

  lemma OnBusCons(o: Output, more: seq<Output>)
    ensures OnBus([o] + more) == Announced(o) + OnBus(more)
  {
    hide Announced;
    OnBusAppend([o], more);
    assert [o][..0] == [];
  }

  lemma FailuresAnnounceNothing(w: W.Wrapper)
    ensures OnBus(C.Failures(w)) == []
  {
    var f, e, a := SessionFailed, Unregister(EnrollSlot), Unregister(AuthSlot);
    OnBusAppend(if w.enroll.Held() then [f, e] else [], if w.auth.Held() then [f, a] else []);
    assert [f, e] == [f] + [e] && [f, a] == [f] + [a];
    OnBusCons(f, [e]);
    OnBusCons(f, [a]);
    OnBusCons(e, []);
    OnBusCons(a, []);
    assert [e] + [] == [e] && [a] + [] == [a];
  }

  lemma CapturedAnnounces(w: W.Wrapper, ev: SensorEvent, a: Answers, scan: ScanResult)
    ensures OnBus(Captured(w, ev, a, scan)) == if ev.progress >= 100 then [EnrollFinished] else []
  {
    var last, o := EnrollScanDone(ScanSuccess, true, Some(100)), EnrollScanDone(scan, false, Some(ev.progress));
    FailuresAnnounceNothing(w);
    OnBusCons(last, [Unregister(EnrollSlot)]);
    OnBusCons(Unregister(EnrollSlot), []);
    OnBusCons(o, if a.setMode then [] else C.Failures(w));
    assert [Unregister(EnrollSlot)] + [] == [Unregister(EnrollSlot)];
    assert [last] + [Unregister(EnrollSlot)] == [last, Unregister(EnrollSlot)];
    hide C.Failures;
  }

  lemma SensorAnnounces(s: System, ev: SensorEvent, a: Answers)
    ensures OnBus(SensorHeard(s.w, s.m, ev, a))
            == var r := Read(s.m, ev, a); if r.Completed? then [EnrollFinished] else if r.Matched? then [FingerSeen] else []
  {
    FailuresAnnounceNothing(s.w);
    if s.m.action.EnrollImage? {
      CapturedAnnounces(s.w, ev, a, ScanSuccess);
      CapturedAnnounces(s.w, ev, a, ScanImmobile);
      CapturedAnnounces(s.w, ev, a, ScanPartial);
      CapturedAnnounces(s.w, ev, a, ScanInsufficient);
    }
    AuthScanAnnounced();
    NothingYet();
    hide Captured;
    hide C.Failures;
    hide OnBus;
    hide Announced;
  }

  lemma AuthScanAnnounced()
    ensures OnBus([AuthScanDone]) == [FingerSeen]
  {
    OnBusCons(AuthScanDone, []);
    assert [AuthScanDone] + [] == [AuthScanDone];
  }

  lemma CallsAnnounceNothing()
    ensures forall call :: OnBus([Forwarded(call)]) == []
  {
    forall call
      ensures OnBus([Forwarded(call)]) == []
    {
      OnBusCons(Forwarded(call), []);
      assert [Forwarded(call)] + [] == [Forwarded(call)];
    }
  }

  lemma RepliesAnnounce(k: SlotKind)
    ensures OnBus([Register(k), SessionPath(k)]) == [if k.EnrollSlot? then EnrollBegun else AuthBegun]
    ensures OnBus([SessionPath(k)]) == [if k.EnrollSlot? then EnrollBegun else AuthBegun]
    ensures OnBus([Unregister(k)]) == [] == OnBus([StartError(k)]) == OnBus([EndError(k)])
    ensures OnBus([Unregister(k), EndOk(k)]) == []
  {
    var r, p, u, e, d, o := Register(k), SessionPath(k), Unregister(k), StartError(k), EndError(k), EndOk(k);
    assert [r, p] == [r] + [p] && [u, o] == [u] + [o];
    assert [p] == [p] + [] && [u] == [u] + [] && [e] == [e] + [] && [d] == [d] + [] && [o] == [o] + [];
    OnBusCons(r, [p]);
    OnBusCons(p, []);
    OnBusCons(u, []);
    OnBusCons(u, [o]);
    OnBusCons(e, []);
    OnBusCons(d, []);
    OnBusCons(o, []);
  }

  /** The milestone that h is. */
  function Milestones(s: System, h: Happening): seq<Milestone>
  {
    match h
    case CallStartEnroll(_, a) => if EnrollAccepted(s.m, a) then [EnrollBegun] else []
    case CallStartAuth(_, req, a) => if AuthAccepted(s.m, req.user, a) then [AuthBegun] else []
    case Sensor(ev, a) =>
      var r := Read(s.m, ev, a);
      if r.Completed? then [EnrollFinished] else if r.Matched? then [FingerSeen] else []
    case _ => []
  }

  lemma MilestonesHeard(s: System, h: Happening)
    ensures OnBus(Heard(s, h)) == Milestones(s, h)
  {
    hide EnrollAccepted;
    hide AuthAccepted;
    RepliesAnnounce(EnrollSlot);
    RepliesAnnounce(AuthSlot);
    match h
    case Sensor(ev, a) =>
      SensorAnnounces(s, ev, a);
      hide SensorHeard;
      hide Read;
    case CallStartEnroll(_, a) =>
      OnBusAppend(if s.w.enroll.Held() then [Unregister(EnrollSlot)] else [], [Register(EnrollSlot), SessionPath(EnrollSlot)]);
    case CallStartAuth(_, req, a) =>
      assert [Register(AuthSlot)] + [SessionPath(AuthSlot)] == [Register(AuthSlot), SessionPath(AuthSlot)];
      assert [] + [SessionPath(AuthSlot)] == [SessionPath(AuthSlot)];
    case BusName(_, _) =>
      var e, a := [Unregister(EnrollSlot)], [Unregister(AuthSlot)];
      OnBusAppend(e, a);
      OnBusAppend(e, []);
      OnBusAppend([], a);
    case _ =>
      CallsAnnounceNothing();
  }

  lemma MilestonesNoted(s: System, h: Happening)
    ensures |NotesOf(s, h)| <= 1 && InAccounts(NotesOf(s, h)) == Milestones(s, h)
  {
    assert forall n: Note :: [n][..0] == [];
    if h.CallStartEnroll? {
      AcceptedIff(s.m, AuthRequest("", "", "", ""), h.a);
    }
    if h.CallStartAuth? {
      AcceptedIff(s.m, h.req, h.a);
    }
    hide StartEnrollSession;
    hide StartAuthSession;
    hide EnrollAccepted;
    hide AuthAccepted;
    hide MatchReply;
    hide Read;
  }

  /** Over every run: sessions begun, enrolments finished and fingers seen are on the bus and in
      the manager's accounts in the same order, none missing on either side. So the number of
      AuthScanDone signals is that of the matches seen. */
  lemma BusMatchesAccounts(hs: seq<Happening>)
    requires AllFromBus(hs)
    ensures OnBus(Run(hs).w.log) == InAccounts(Run(hs).notes)
    ensures Count(Run(hs).w.log, AuthScanDone) == Count(InAccounts(Run(hs).notes), FingerSeen)
  {
    MilestonesAgree(hs);
    SignalsCounted(Run(hs).w.log);
    hide Run;
    hide OnBus;
    hide InAccounts;
  }

  lemma {:induction false} SignalsCounted(log: seq<Output>)
    ensures Count(log, AuthScanDone) == Count(OnBus(log), FingerSeen)
  {
    if log == [] {
    } else {
      var front, o := log[..|log| - 1], log[|log| - 1];
      SignalsCounted(front);
      CountAppend(OnBus(front), Announced(o), FingerSeen);
      assert Announced(o)[..0] == [];
      assert Count(Announced(o), FingerSeen) == if o == AuthScanDone then 1 else 0;
      hide Announced;
    }
  }

  lemma {:induction false} MilestonesAgree(hs: seq<Happening>)
    requires AllFromBus(hs)
    ensures OnBus(Run(hs).w.log) == InAccounts(Run(hs).notes)
  {
    hide Step;
    hide Heard;
    hide NotesOf;
    hide OnBus;
    hide InAccounts;
    hide Milestones;
    if hs == [] {
      NothingYet();
    } else {
      var front, h := hs[..|hs| - 1], hs[|hs| - 1];
      var s := Run(front);
      MilestonesAgree(front);
      RunInOrder(front);
      StepHeard(s, h);
      StepEffect(s, h);
      MilestonesHeard(s, h);
      MilestonesNoted(s, h);
      OnBusIsVisible(s.w.log);
      OnBusIsVisible(Step(s, h).w.log);
      OnBusAppend(VisiblePart(s.w.log), Heard(s, h));
      InAccountsAppend(s.notes, NotesOf(s, h));
      hide InOrder;
    }
  }

  lemma NothingYet()
    ensures OnBus([]) == [] && InAccounts([]) == []
  {
  }
}
