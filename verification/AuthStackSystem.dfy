/** The wrapper and the fingerprint manager together: clients, the bus and the sensor on the
    outside, closures and callbacks in between. */
module AuthStackSystem {
  import opened Options
  import opened AuthStackTypes
  import W = AuthStackWrapper
  import opened CrosFpManager

  /** What happened to enrolments and matches, and for which user, for the accounts. */
  datatype Note =
    | EnrolStarted(user: Option<string>) | EnrolmentDone
    | TemplateMigrated(user: Option<string>) | CredentialCreated(user: Option<string>)
    | AuthStarted(user: Option<string>) | MatchSeen(ev: SensorEvent)
    | MatchUsed(ev: SensorEvent, user: Option<string>, reply: CredentialReply)

  datatype System = System(w: W.Wrapper, m: Manager, events: seq<W.Event>, notes: seq<Note>)

  const START := System(W.INITIAL, INITIAL_MANAGER, [], [])

  datatype Happening =
    | CallStartEnroll(sender: string, a: Answers)
    | CallStartAuth(sender: string, req: AuthRequest, a: Answers)
    | CallEnrollCancel
    | CallAuthEnd
    | BusName(name: string, newOwner: string)
    | BusMalformed
    | Sensor(ev: SensorEvent, a: Answers)
    | CallCreateCredential(a: Answers)
    | CallAuthenticateCredential(a: Answers)
    | CallDeleteCredential(user: string, a: Answers)
    | CallEnrollLegacyTemplate(a: Answers)
    | CallGetNonce
    | CallListLegacyRecords
    | LoggedIn(user: string, a: Answers)
    | LoggedOut

  // ---------- closures and callbacks ----------

  /** The slot holds a closure whose weak pointer is still good. */
  predicate Live(w: W.Wrapper, m: Manager, k: SlotKind)
  {
    w.At(k).Held() && w.At(k).session.value >= m.validFrom
  }

  /** Going from w to w2 by e, the closure of slot k was run and reached the manager. */
  predicate EndsLive(w: W.Wrapper, m: Manager, w2: W.Wrapper, e: W.Event, k: SlotKind)
  {
    Live(w, m, k) && w2.At(k).session != w.At(k).session && !e.StartAuth?
  }

  /** The wrapper handles e, and the closures it runs reach the manager. */
  function Deliver(s: System, e: W.Event): System
  {
    var w2 := W.Step(s.w, e);
    var ended := EndsLive(s.w, s.m, w2, e, EnrollSlot) || EndsLive(s.w, s.m, w2, e, AuthSlot);
    s.(w := w2, m := if ended then KillMcuSession(s.m, w2.issued) else s.m, events := s.events + [e])
  }

  function With(s: System, m: Manager): System
  {
    s.(m := m)
  }

  function Noted(s: System, n: Note): System
  {
    s.(notes := s.notes + [n])
  }

  // ---------- sensor events ----------

  function DoEnrollImageEvent(s: System, ev: SensorEvent, a: Answers): System
  {
    if !ev.isEnroll then s
    else if ScanResultOf(ev.enrollResult).None? then Deliver(s, W.Failed)
    else if ev.progress < 100 then
      var s1 := Deliver(s, W.EnrollScan(ScanResultOf(ev.enrollResult).value, false, ev.progress));
      var s2 := With(s1, Request(s1.m, EnrollFingerUp, a.setMode));
      if a.setMode then s2 else Deliver(s2, W.Failed)
    else
      var s1 := Noted(With(s, s.m.(action := NoAction, state := KEnrollDone)), EnrolmentDone);
      Deliver(s1, W.EnrollScan(ScanSuccess, true, 100))
  }

  function DoEnrollFingerUpEvent(s: System, ev: SensorEvent, a: Answers): System
  {
    if !ev.isFingerUp then s
    else
      var s1 := With(s, Request(s.m, EnrollImage, a.setMode));
      if a.setMode then s1 else Deliver(s1, W.Failed)
  }

  function OnMatchFingerDown(s: System, ev: SensorEvent): System
  {
    if !ev.isMatch then s
    else
      var m1 := s.m.(pendingMatch := Some(ev), action := NoAction, state := KAuthDone);
      Deliver(Noted(With(s, m1), MatchSeen(ev)), W.AuthScan)
  }

  function OnFingerUpEvent(s: System, ev: SensorEvent, a: Answers): System
  {
    if !ev.isFingerUp then s
    else if s.m.state.KWaitForFingerUp? then With(s, s.m.(state := KNone))
    else if s.m.state.KAuthWaitForFingerUp? then
      var s1 := With(s, s.m.(pendingRequest := None));
      if s.m.pendingRequest.None? then
        var s2 := Deliver(s1, W.Failed);
        With(s2, s2.m.(state := KNone))
      else
        var prepared := PrepareStartAuthSession(s1.m, a);
        if prepared.ok then With(s1, prepared.m.(state := KAuth))
        else
          var s2 := Deliver(With(s1, prepared.m), W.Failed);
          With(s2, s2.m.(state := KNone))
    else s
  }

  function OnMkbpEvent(s: System, ev: SensorEvent, a: Answers): System
  {
    match s.m.action
    case NoAction => s
    case EnrollImage => DoEnrollImageEvent(s, ev, a)
    case EnrollFingerUp => DoEnrollFingerUpEvent(s, ev, a)
    case MatchFingerDown => OnMatchFingerDown(s, ev)
    case FingerUp => OnFingerUpEvent(s, ev, a)
  }

  // ---------- everything that can happen ----------

  /** The manager has answered a start, and noted it if it was accepted. */
  function Answered(s: System, r: Outcome, n: Note): System
  {
    if r.ok then Noted(With(s, r.m), n) else With(s, r.m)
  }

  function Step(s: System, h: Happening): System
  {
    match h
    case CallStartEnroll(sender, a) =>
      var r := StartEnrollSession(s.m, a);
      Deliver(Answered(s, r, EnrolStarted(r.m.user)), W.StartEnroll(sender, r.ok))
    case CallStartAuth(sender, req, a) =>
      var r := StartAuthSession(s.m, req, a);
      Deliver(Answered(s, r, AuthStarted(r.m.user)), W.StartAuth(sender, r.ok))
    case CallEnrollCancel => Deliver(s, W.EnrollCancel)
    case CallAuthEnd => Deliver(s, W.AuthEnd)
    case BusName(name, newOwner) => Deliver(s, W.NameOwnerChanged(name, newOwner))
    case BusMalformed => Deliver(s, W.MalformedNameOwnerChanged)
    case Sensor(ev, a) => OnMkbpEvent(s, ev, a)
    case CallCreateCredential(a) =>
      var r := CreateCredential(s.m, a);
      var s1 := Deliver(With(s, r.m), W.Forward(CreateCall));
      if r.reply.Success? then Noted(s1, CredentialCreated(s.m.user)) else s1
    case CallAuthenticateCredential(a) =>
      var r := AuthenticateCredential(s.m, a);
      var s1 := Deliver(With(s, r.m), W.Forward(AuthenticateCall));
      if r.reply.IncorrectState? || s.m.pendingMatch.None? then s1
      else Noted(s1, MatchUsed(s.m.pendingMatch.value, s.m.user, r.reply))
    case CallDeleteCredential(user, a) =>
      Deliver(With(s, DeleteCredential(s.m, user, a).m), W.Forward(DeleteCall))
    case CallEnrollLegacyTemplate(a) =>
      var r := EnrollLegacyTemplate(s.m, a);
      var s1 := Deliver(With(s, r.m), W.Forward(EnrollLegacyCall));
      if r.ok then Noted(s1, TemplateMigrated(s.m.migrator)) else s1
    case CallGetNonce => Deliver(s, W.Forward(NonceCall))
    case CallListLegacyRecords => Deliver(s, W.Forward(ListLegacyCall))
    case LoggedIn(user, a) => Deliver(With(s, OnUserLoggedIn(s.m, user, a)), W.Forward(LoginNotice))
    case LoggedOut => Deliver(With(s, OnUserLoggedOut(s.m)), W.Forward(LogoutNotice))
  }

  function Run(hs: seq<Happening>): System
  {
    if hs == [] then START else Step(Run(hs[..|hs| - 1]), hs[|hs| - 1])
  }

  predicate FromBus(h: Happening)
  {
    && (h.CallStartEnroll? ==> h.sender != "")
    && (h.CallStartAuth? ==> h.sender != "")
  }

  ghost predicate AllFromBus(hs: seq<Happening>)
  {
    forall i :: 0 <= i < |hs| ==> FromBus(hs[i])
  }

  // ---------- what every reachable state satisfies ----------

  /** The sensor is waited for on behalf of the enrolment (the authentication) in the slot. */
  predicate EnrollAction(a: Action) { a.EnrollImage? || a.EnrollFingerUp? }

  predicate SlotsInOrder(s: System)
  {
    && W.Coherent(s.w)
    && s.m.validFrom <= s.w.issued
    && (s.w.enroll.Held() ==> s.w.enroll.session.value < s.w.issued)
    && (s.w.auth.Held() ==> s.w.auth.session.value < s.w.issued)
  }

  predicate EnrollInOrder(s: System)
  {
    && (s.m.state.KEnroll? ==> EnrollAction(s.m.action))
    && (EnrollAction(s.m.action) <==> Live(s.w, s.m, EnrollSlot))
    && (EnrollAction(s.m.action) ==> s.m.state.KEnroll? || s.m.state.KLocked?)
  }

  predicate AuthInOrder(s: System)
  {
    && (s.m.state.KAuth? ==> s.m.action.MatchFingerDown?)
    && (s.m.action.MatchFingerDown? ==> Live(s.w, s.m, AuthSlot) && (s.m.state.KAuth? || s.m.state.KLocked?))
    && (s.m.state.KAuthWaitForFingerUp? ==> Live(s.w, s.m, AuthSlot) && s.m.pendingRequest.Some?)
  }

  predicate MatchInOrder(s: System)
  {
    s.m.state.KAuthDone? ==> s.m.pendingMatch.Some?
  }

  /** The sensor looks for what the next action is for, or has been told to stop. */
  predicate SensorInOrder(s: System)
  {
    s.m.action.NoAction? || s.m.sensor == s.m.action || s.m.sensor.NoAction?
  }

  predicate InOrder(s: System)
  {
    SlotsInOrder(s) && EnrollInOrder(s) && AuthInOrder(s) && MatchInOrder(s) && SensorInOrder(s)
  }

  /** Delivering an event that opens nothing empties the slots it closes, and a live closure
      among them kills the manager's session. */
  lemma DeliverCloses(s: System, e: W.Event)
    requires W.Coherent(s.w) && !W.Opens(e, EnrollSlot) && !W.Opens(e, AuthSlot)
    ensures var s' := Deliver(s, e);
            && s'.w.enroll == (if W.Closes(s.w, e, EnrollSlot) then W.EMPTY_SLOT else s.w.enroll)
            && s'.w.auth == (if W.Closes(s.w, e, AuthSlot) then W.EMPTY_SLOT else s.w.auth)
            && s'.w.issued == s.w.issued && s'.notes == s.notes
            && s'.m == (if (W.Closes(s.w, e, EnrollSlot) && Live(s.w, s.m, EnrollSlot))
                           || (W.Closes(s.w, e, AuthSlot) && Live(s.w, s.m, AuthSlot))
                        then KillMcuSession(s.m, s.w.issued) else s.m)
  {
    hide W.Step;
    W.StepSlot(s.w, e, EnrollSlot);
    W.StepSlot(s.w, e, AuthSlot);
  }

  // ---------- one step, put in closed form ----------

  /** What a sensor event means to the manager in the state it is in. */
  datatype Reading = Ignored | Progress | AskAgain | Completed | Broken | Matched | Lifted | Resumed

  function Read(m: Manager, ev: SensorEvent, a: Answers): Reading
  {
    match m.action
    case NoAction => Ignored
    case EnrollImage =>
      if !ev.isEnroll then Ignored
      else if ScanResultOf(ev.enrollResult).None? then Broken
      else if ev.progress >= 100 then Completed
      else if a.setMode then Progress
      else Broken
    case EnrollFingerUp =>
      if !ev.isFingerUp then Ignored else if a.setMode then AskAgain else Broken
    case MatchFingerDown =>
      if ev.isMatch then Matched else Ignored
    case FingerUp =>
      if !ev.isFingerUp then Ignored
      else if m.state.KWaitForFingerUp? then Lifted
      else if !m.state.KAuthWaitForFingerUp? then Ignored
      else if a.setNonce && a.unlock && a.setMode then Resumed
      else Broken
  }

  function AfterReading(m: Manager, r: Reading, ev: SensorEvent, issued: nat): Manager
  {
    match r
    case Ignored => m
    case Progress => m.(action := EnrollFingerUp, sensor := EnrollFingerUp)
    case AskAgain => m.(action := EnrollImage, sensor := EnrollImage)
    case Completed => m.(state := KEnrollDone, action := NoAction, sensor := NoAction, validFrom := issued)
    case Broken =>
      KillMcuSession(if m.state.KAuthWaitForFingerUp? then m.(pendingRequest := None) else m, issued)
    case Matched => m.(state := KAuthDone, action := NoAction, pendingMatch := Some(ev))
    case Lifted => m.(state := KNone)
    case Resumed => m.(state := KAuth, action := MatchFingerDown, sensor := MatchFingerDown, pendingRequest := None)
  }

  /** h puts a new session into slot k. */
  predicate Fills(s: System, h: Happening, k: SlotKind)
  {
    match h
    case CallStartEnroll(_, a) => k.EnrollSlot? && StartEnrollSession(s.m, a).ok
    case CallStartAuth(_, req, a) => k.AuthSlot? && StartAuthSession(s.m, req, a).ok
    case _ => false
  }

  /** h ends the session in slot k. */
  predicate Empties(s: System, h: Happening, k: SlotKind)
  {
    s.w.At(k).Held() &&
    match h
    case CallEnrollCancel => k.EnrollSlot?
    case CallAuthEnd => k.AuthSlot?
    case BusName(name, newOwner) => name == s.w.At(k).owner && newOwner == ""
    case Sensor(ev, a) =>
      var r := Read(s.m, ev, a);
      r.Broken? || (r.Completed? && k.EnrollSlot?)
    case _ => false
  }

  function ManagerAfter(s: System, h: Happening): Manager
  {
    match h
    case CallStartEnroll(_, a) => StartEnrollSession(s.m, a).m
    case CallStartAuth(_, req, a) => StartAuthSession(s.m, req, a).m
    case Sensor(ev, a) => AfterReading(s.m, Read(s.m, ev, a), ev, s.w.issued)
    case CallCreateCredential(a) => CreateCredential(s.m, a).m
    case CallAuthenticateCredential(a) => AuthenticateCredential(s.m, a).m
    case CallDeleteCredential(user, a) => DeleteCredential(s.m, user, a).m
    case CallEnrollLegacyTemplate(a) => EnrollLegacyTemplate(s.m, a).m
    case LoggedIn(user, a) => OnUserLoggedIn(s.m, user, a)
    case LoggedOut => OnUserLoggedOut(s.m)
    case _ =>
      if (Empties(s, h, EnrollSlot) && Live(s.w, s.m, EnrollSlot)) || (Empties(s, h, AuthSlot) && Live(s.w, s.m, AuthSlot))
      then KillMcuSession(s.m, s.w.issued) else s.m
  }

  function NotesOf(s: System, h: Happening): seq<Note>
  {
    match h
    case CallStartEnroll(_, a) =>
      if StartEnrollSession(s.m, a).ok then [EnrolStarted(s.m.user)] else []
    case CallStartAuth(_, req, a) =>
      if StartAuthSession(s.m, req, a).ok then [AuthStarted(Some(req.user))] else []
    case Sensor(ev, a) =>
      var r := Read(s.m, ev, a);
      if r.Completed? then [EnrolmentDone] else if r.Matched? then [MatchSeen(ev)] else []
    case CallCreateCredential(a) =>
      if CreateCredential(s.m, a).reply.Success? then [CredentialCreated(s.m.user)] else []
    case CallAuthenticateCredential(a) =>
      if s.m.state.KAuthDone? && s.m.pendingMatch.Some?
      then [MatchUsed(s.m.pendingMatch.value, s.m.user, MatchReply(s.m.pendingMatch.value, a))] else []
    case CallEnrollLegacyTemplate(a) =>
      if EnrollLegacyTemplate(s.m, a).ok then [TemplateMigrated(s.m.migrator)] else []
    case _ => []
  }

  /** What a step does to the slots, to the manager and to the accounts. */
  ghost predicate HasEffect(s: System, h: Happening, s2: System)
  {
    && s2.w.enroll == (if Fills(s, h, EnrollSlot) then W.Slot(Some(s.w.issued), h.sender, true)
                       else if Empties(s, h, EnrollSlot) then W.EMPTY_SLOT else s.w.enroll)
    && s2.w.auth == (if Fills(s, h, AuthSlot) then W.Slot(Some(s.w.issued), h.sender, true)
                     else if Empties(s, h, AuthSlot) then W.EMPTY_SLOT else s.w.auth)
    && s2.w.issued == s.w.issued + (if Fills(s, h, EnrollSlot) || Fills(s, h, AuthSlot) then 1 else 0)
    && s2.m == ManagerAfter(s, h)
    && s2.notes == s.notes + NotesOf(s, h)
  }

  /** Loading a user touches nothing but the user, the tie to the user who is logged in, the
      sensor, which it may switch off, and the state, which it may lock if it fails. */
  lemma LoadUserState(m: Manager, user: string, lockToUser: bool, a: Answers)
    ensures var r := LoadUser(m, user, lockToUser, a);
            && r.m == m.(user := r.m.user, lockedToUser := r.m.lockedToUser, state := r.m.state, sensor := r.m.sensor)
            && (r.m.state == m.state || (r.m.state.KLocked? && !r.ok))
            && (r.m.sensor == m.sensor || r.m.sensor.NoAction?)
            && (r.ok ==> r.m.user == Some(user))
  {
  }

  /** What becomes of the state and of the sensor, by what was known before. */
  lemma LoadUserResult(m: Manager, user: string, lockToUser: bool, a: Answers)
    ensures var r := LoadUser(m, user, lockToUser, a);
            && (r.ok <==> m.user == Some(user) || Switches(m, user, a))
            && r.m.state == (if MayLoad(m, user) && !(a.loadUser && a.upload) then KLocked else m.state)
            && r.m.sensor == (if MayLoad(m, user) && a.loadUser && a.reset then NoAction else m.sensor)
            && r.m.user == (if !MayLoad(m, user) then m.user else if a.loadUser then Some(user) else None)
            && r.m.lockedToUser == (m.lockedToUser || (lockToUser && MayLoad(m, user)))
  {
  }

  lemma StartAuthUser(m: Manager, req: AuthRequest, a: Answers)
    ensures StartAuthSession(m, req, a).ok ==> StartAuthSession(m, req, a).m.user == Some(req.user)
  {
    hide LoadUser;
    LoadUserState(m, req.user, false, a);
  }

  lemma StartEnrollEffect(s: System, sender: string, a: Answers)
    requires InOrder(s)
    ensures HasEffect(s, CallStartEnroll(sender, a), Step(s, CallStartEnroll(sender, a)))
  {
    hide W.Step;
    var e := W.StartEnroll(sender, StartEnrollSession(s.m, a).ok);
    W.StepSlot(s.w, e, EnrollSlot);
    W.StepSlot(s.w, e, AuthSlot);
  }

  lemma StartAuthEffect(s: System, sender: string, req: AuthRequest, a: Answers)
    requires InOrder(s)
    ensures HasEffect(s, CallStartAuth(sender, req, a), Step(s, CallStartAuth(sender, req, a)))
  {
    hide W.Step;
    StartAuthUser(s.m, req, a);
    hide StartAuthSession;
    var e := W.StartAuth(sender, StartAuthSession(s.m, req, a).ok);
    W.StepSlot(s.w, e, EnrollSlot);
    W.StepSlot(s.w, e, AuthSlot);
  }

  lemma EnrollBrokenEffect(s: System, ev: SensorEvent, a: Answers)
    requires InOrder(s) && EnrollAction(s.m.action) && Read(s.m, ev, a).Broken?
    ensures HasEffect(s, Sensor(ev, a), OnMkbpEvent(s, ev, a))
  {
    hide Deliver;
    if s.m.action.EnrollFingerUp? {
      DeliverCloses(With(s, Request(s.m, EnrollImage, a.setMode)), W.Failed);
    } else if ScanResultOf(ev.enrollResult).None? {
      DeliverCloses(s, W.Failed);
    } else {
      var e := W.EnrollScan(ScanResultOf(ev.enrollResult).value, false, ev.progress);
      DeliverCloses(s, e);
      var s1 := Deliver(s, e);
      DeliverCloses(With(s1, Request(s1.m, EnrollFingerUp, a.setMode)), W.Failed);
    }
  }

  lemma EnrollSensorEffect(s: System, ev: SensorEvent, a: Answers)
    requires InOrder(s) && EnrollAction(s.m.action)
    ensures HasEffect(s, Sensor(ev, a), OnMkbpEvent(s, ev, a))
  {
    hide Deliver;
    var r := Read(s.m, ev, a);
    if r.Broken? {
      EnrollBrokenEffect(s, ev, a);
    } else if r.Progress? {
      DeliverCloses(s, W.EnrollScan(ScanResultOf(ev.enrollResult).value, false, ev.progress));
    } else if r.Completed? {
      var s1 := Noted(With(s, s.m.(action := NoAction, state := KEnrollDone)), EnrolmentDone);
      DeliverCloses(s1, W.EnrollScan(ScanSuccess, true, 100));
    }
  }

  lemma AuthSensorEffect(s: System, ev: SensorEvent, a: Answers)
    requires InOrder(s) && !EnrollAction(s.m.action)
    ensures HasEffect(s, Sensor(ev, a), OnMkbpEvent(s, ev, a))
  {
    hide Deliver;
    var m1 := s.m.(pendingMatch := Some(ev), action := NoAction, state := KAuthDone);
    DeliverCloses(Noted(With(s, m1), MatchSeen(ev)), W.AuthScan);
    var s1 := With(s, s.m.(pendingRequest := None));
    DeliverCloses(s1, W.Failed);
    DeliverCloses(With(s1, PrepareStartAuthSession(s1.m, a).m), W.Failed);
  }

  lemma CredentialsEffect(s: System, h: Happening)
    requires InOrder(s)
    requires h.CallCreateCredential? || h.CallAuthenticateCredential? || h.CallDeleteCredential?
             || h.CallEnrollLegacyTemplate? || h.LoggedIn? || h.LoggedOut?
    ensures HasEffect(s, h, Step(s, h))
  {
    hide Deliver;
    hide LoadUser;
    match h
    case CallCreateCredential(a) =>
      DeliverCloses(With(s, CreateCredential(s.m, a).m), W.Forward(CreateCall));
    case CallAuthenticateCredential(a) =>
      DeliverCloses(With(s, AuthenticateCredential(s.m, a).m), W.Forward(AuthenticateCall));
    case CallDeleteCredential(user, a) =>
      DeliverCloses(With(s, DeleteCredential(s.m, user, a).m), W.Forward(DeleteCall));
    case CallEnrollLegacyTemplate(a) =>
      DeliverCloses(With(s, EnrollLegacyTemplate(s.m, a).m), W.Forward(EnrollLegacyCall));
    case LoggedIn(user, a) =>
      DeliverCloses(With(s, OnUserLoggedIn(s.m, user, a)), W.Forward(LoginNotice));
    case LoggedOut =>
      DeliverCloses(With(s, OnUserLoggedOut(s.m)), W.Forward(LogoutNotice));
  }

  /** Callbacks, closures and weak pointers worked out: in every reachable state a step has
      exactly this effect. */
  lemma StepEffect(s: System, h: Happening)
    requires InOrder(s)
    ensures HasEffect(s, h, Step(s, h))
  {
    hide Deliver;
    match h
    case CallStartEnroll(sender, a) => StartEnrollEffect(s, sender, a);
    case CallStartAuth(sender, req, a) => StartAuthEffect(s, sender, req, a);
    case CallEnrollCancel => DeliverCloses(s, W.EnrollCancel);
    case CallAuthEnd => DeliverCloses(s, W.AuthEnd);
    case BusName(name, newOwner) => DeliverCloses(s, W.NameOwnerChanged(name, newOwner));
    case BusMalformed => DeliverCloses(s, W.MalformedNameOwnerChanged);
    case Sensor(ev, a) =>
      if EnrollAction(s.m.action) { EnrollSensorEffect(s, ev, a); } else { AuthSensorEffect(s, ev, a); }
    case CallGetNonce => DeliverCloses(s, W.Forward(NonceCall));
    case CallListLegacyRecords => DeliverCloses(s, W.Forward(ListLegacyCall));
    case _ => CredentialsEffect(s, h);
  }

  // ---------- every reachable state is in order ----------

  /** The manager stays in order if it changes in harmless ways. */
  lemma QuietInOrder(s: System, s2: System)
    requires InOrder(s) && s2.w == s.w
    requires s2.m.action == s.m.action && s2.m.validFrom == s.m.validFrom && s2.m.pendingRequest == s.m.pendingRequest
    requires s2.m.pendingMatch == s.m.pendingMatch && (s2.m.state == s.m.state || s2.m.state.KLocked?)
    requires s2.m.sensor == s.m.sensor || s2.m.sensor.NoAction?
    ensures InOrder(s2)
  {
  }

  lemma UsersInOrder(s: System, s2: System, h: Happening)
    requires InOrder(s) && HasEffect(s, h, s2) && (h.CallDeleteCredential? || h.LoggedIn? || h.LoggedOut?)
    ensures InOrder(s2)
  {
    if h.LoggedIn? {
      LoadUserState(s.m, h.user, true, h.a);
    }
    hide LoadUser;
    hide InOrder;
    QuietInOrder(s, s.(m := s2.m));
    hide HasEffect;
    assert s2.w.enroll == s.w.enroll && s2.w.auth == s.w.auth && s2.w.issued == s.w.issued;
    SameSlotsInOrder(s.(m := s2.m), s2);
  }

  lemma SameSlotsInOrder(s: System, s2: System)
    requires InOrder(s) && s2.m == s.m
    requires s2.w.enroll == s.w.enroll && s2.w.auth == s.w.auth && s2.w.issued == s.w.issued
    ensures InOrder(s2)
  {
  }

  lemma CredentialsInOrder(s: System, s2: System, h: Happening)
    requires InOrder(s) && HasEffect(s, h, s2)
    requires h.CallCreateCredential? || h.CallAuthenticateCredential? || h.CallEnrollLegacyTemplate?
    ensures InOrder(s2)
  {
  }

  lemma StartsInOrder(s: System, s2: System, h: Happening)
    requires InOrder(s) && HasEffect(s, h, s2) && FromBus(h) && (h.CallStartEnroll? || h.CallStartAuth?)
    ensures InOrder(s2)
  {
    hide LoadUser;
    if h.CallStartAuth? {
      LoadUserState(s.m, h.req.user, false, h.a);
    }
  }

  lemma SensorKeepsOrder(s: System, s2: System, h: Happening)
    requires InOrder(s) && HasEffect(s, h, s2) && h.Sensor?
    ensures InOrder(s2)
  {
  }

  lemma StepInOrder(s: System, h: Happening)
    requires InOrder(s) && FromBus(h)
    ensures InOrder(Step(s, h))
  {
    StepEffect(s, h);
    hide Step;
    if h.Sensor? {
      SensorKeepsOrder(s, Step(s, h), h);
    } else if h.CallStartEnroll? || h.CallStartAuth? {
      StartsInOrder(s, Step(s, h), h);
    } else if h.CallCreateCredential? || h.CallAuthenticateCredential? || h.CallEnrollLegacyTemplate? {
      CredentialsInOrder(s, Step(s, h), h);
    } else if h.CallDeleteCredential? || h.LoggedIn? || h.LoggedOut? {
      UsersInOrder(s, Step(s, h), h);
    }
  }

  lemma {:induction false} RunInOrder(hs: seq<Happening>)
    requires AllFromBus(hs)
    ensures InOrder(Run(hs))
  {
    hide Step;
    hide InOrder;
    if hs == [] {
      assert InOrder(START) by { StartInOrder(); }
    } else {
      RunInOrder(hs[..|hs| - 1]);
      StepInOrder(Run(hs[..|hs| - 1]), hs[|hs| - 1]);
    }
  }

  lemma StartInOrder()
    ensures InOrder(START)
  {
  }

  /** One more happening. */
  lemma RunSnoc(hs: seq<Happening>, h: Happening)
    requires AllFromBus(hs) && FromBus(h)
    ensures AllFromBus(hs + [h]) && InOrder(Run(hs)) && InOrder(Run(hs + [h]))
    ensures Run(hs + [h]) == Step(Run(hs), h) && HasEffect(Run(hs), h, Run(hs + [h]))
  {
    hide Step;
    hide InOrder;
    hide HasEffect;
    assert (hs + [h])[..|hs|] == hs;
    RunInOrder(hs);
    StepEffect(Run(hs), h);
    StepInOrder(Run(hs), h);
  }

  // ---------- promises that some steps break ----------

  /** P holds at every point of the run. */
  ghost predicate Throughout(P: System -> bool, hs: seq<Happening>)
  {
    forall i :: 0 <= i <= |hs| ==> P(Run(hs[..i]))
  }

  /** The run has no step of this kind. */
  ghost predicate Never(breaks: (System, Happening) -> bool, hs: seq<Happening>)
  {
    forall i :: 0 <= i < |hs| ==> !breaks(Run(hs[..i]), hs[i])
  }

  /** If the steps that break a promise are known, so are the runs that keep it. */
  lemma {:induction false} ThroughoutIffNever(P: System -> bool, breaks: (System, Happening) -> bool, hs: seq<Happening>)
    requires AllFromBus(hs) && P(START)
    requires forall s, h :: InOrder(s) && FromBus(h) && P(s) ==> (P(Step(s, h)) <==> !breaks(s, h))
    ensures Throughout(P, hs) <==> Never(breaks, hs)
  {
    hide Step;
    hide InOrder;
    if hs == [] {
      assert hs[..0] == hs;
    } else {
      var n := |hs| - 1;
      var front := hs[..n];
      assert forall i :: 0 <= i <= n ==> front[..i] == hs[..i];
      assert hs[..|hs|] == hs && front[..n] == front;
      ThroughoutIffNever(P, breaks, front);
      RunInOrder(front);
      assert Never(breaks, hs) <==> Never(breaks, front) && !breaks(Run(front), hs[n]);
      assert Throughout(P, hs) <==> Throughout(P, front) && P(Run(hs));
      assert Throughout(P, front) ==> P(Run(front[..n]));
      assert P(Run(front)) ==> (P(Step(Run(front), hs[n])) <==> !breaks(Run(front), hs[n]));
    }
  }
}
