/** What the states of the fingerprint manager promise: that a locked manager stays locked,
    that an active state is waiting for the sensor and the sensor for it, and that a match is
    pending iff one is due. Each promise is proved, or shown to fail and proved under the
    exact condition. */
module AuthStackSensor {
  import opened Options
  import opened AuthStackTypes
  import W = AuthStackWrapper
  import opened Counting
  import opened CrosFpManager
  import opened AuthStackSystem
  import Overlap = AuthStackOverlap

  function RunFrom(s: System, hs: seq<Happening>): System
    decreases |hs|
  {
    if hs == [] then s else RunFrom(Step(s, hs[0]), hs[1..])
  }

  // ---------- a sensor that does as it is told ----------

  /** What a sensor in this mode reports. An event that was on its way when the mode changed,
      or that comes although the sensor was switched off, is not among it. */
  predicate Announces(mode: Action, ev: SensorEvent)
  {
    && (ev.isEnroll ==> mode.EnrollImage?)
    && (ev.isMatch ==> mode.MatchFingerDown?)
    && (ev.isFingerUp ==> mode.EnrollFingerUp? || mode.FingerUp?)
  }

  predicate Obeys(s: System, h: Happening)
  {
    h.Sensor? ==> Announces(s.m.sensor, h.ev)
  }

  predicate AllObey(s: System, hs: seq<Happening>)
    decreases |hs|
  {
    hs == [] || (Obeys(s, hs[0]) && AllObey(Step(s, hs[0]), hs[1..]))
  }

  // ---------- locked ----------

  /** A session that was going on when the manager locked itself still has its sensor action. */
  predicate UnfinishedBusiness(m: Manager)
  {
    EnrollAction(m.action) || m.action.MatchFingerDown?
  }

  /** And the sensor is still looking for what that action is for. */
  predicate StillServed(m: Manager)
  {
    UnfinishedBusiness(m) && m.sensor == m.action
  }

  lemma StepStaysLocked(s: System, h: Happening)
    requires InOrder(s) && FromBus(h) && s.m.state.KLocked?
    ensures InOrder(Step(s, h))
    ensures !UnfinishedBusiness(s.m) ==> var s2 := Step(s, h); s2.m.state.KLocked? && !UnfinishedBusiness(s2.m)
    ensures !StillServed(s.m) && Obeys(s, h) ==> var s2 := Step(s, h); s2.m.state.KLocked? && !StillServed(s2.m)
  {
    StepEffect(s, h);
    StepInOrder(s, h);
    hide Step;
    if h.LoggedIn? {
      LoadUserState(s.m, h.user, true, h.a);
    }
    hide LoadUser;
  }

  lemma TailFromBus(hs: seq<Happening>)
    requires AllFromBus(hs) && hs != []
    ensures FromBus(hs[0]) && AllFromBus(hs[1..])
  {
  }

  lemma {:induction false} StaysLocked(s: System, hs: seq<Happening>)
    requires InOrder(s) && AllFromBus(hs) && s.m.state.KLocked?
    requires !UnfinishedBusiness(s.m) || (!StillServed(s.m) && AllObey(s, hs))
    ensures RunFrom(s, hs).m.state.KLocked?
    decreases |hs|
  {
    hide Step;
    hide InOrder;
    hide UnfinishedBusiness;
    hide StillServed;
    if hs == [] {
    } else {
      TailFromBus(hs);
      StepStaysLocked(s, hs[0]);
      StaysLocked(Step(s, hs[0]), hs[1..]);
    }
  }

  const ENROLLED := SensorEvent(true, false, false, EnrollOk, 100, MatchUnknown, 0)
  const LIFTED := SensorEvent(false, false, true, EnrollUnknown, 0, MatchUnknown, 0)

  /** The events that the pending action is waiting for. */
  function Unlock(m: Manager): seq<Happening>
  {
    if m.action.EnrollFingerUp? then [Sensor(LIFTED, Overlap.YES), Sensor(ENROLLED, Overlap.YES)]
    else if m.action.EnrollImage? then [Sensor(ENROLLED, Overlap.YES)]
    else [Sensor(Overlap.MATCHED, Overlap.YES)]
  }

  /** From s to s2 the manager has become ready to look at a start, and the user is the same. */
  predicate Frees(s: System, s2: System)
  {
    InOrder(s2) && CanStart(s2.m.state) && s2.m.user == s.m.user && s2.m.lockedToUser == s.m.lockedToUser
  }

  /** They get a manager with unfinished business out of the lock and ready for the next start,
      and come from a sensor that does as it is told if it is still looking for them. */
  lemma UnfinishedBusinessUnlocks(s: System)
    requires InOrder(s) && s.m.state.KLocked? && UnfinishedBusiness(s.m)
    ensures AllFromBus(Unlock(s.m)) && Frees(s, RunFrom(s, Unlock(s.m)))
    ensures StillServed(s.m) ==> AllObey(s, Unlock(s.m))
  {
    hide Step;
    var hs := Unlock(s.m);
    var s1 := Step(s, hs[0]);
    StepEffect(s, hs[0]);
    StepInOrder(s, hs[0]);
    if s.m.action.EnrollFingerUp? {
      assert hs[1..] == [hs[1]] && [hs[1]][1..] == [];
      StepEffect(s1, hs[1]);
      StepInOrder(s1, hs[1]);
      assert RunFrom(s, hs) == RunFrom(s1, [hs[1]]) == RunFrom(Step(s1, hs[1]), []);
      assert AllObey(Step(s1, hs[1]), []);
      assert StillServed(s.m) ==> AllObey(s1, [hs[1]]);
    } else {
      assert hs[1..] == [];
      assert RunFrom(s, hs) == RunFrom(s1, []);
    }
  }

  /** A locked manager never processes enroll or auth commands again iff no session had a
      sensor action pending when it locked. If nothing is on its way from the sensor any more,
      iff the sensor had been switched off besides: otherwise it brings the manager back. */
  lemma LockedForGoodIff(s: System)
    requires InOrder(s) && s.m.state.KLocked?
    ensures (forall hs: seq<Happening> :: AllFromBus(hs) ==> RunFrom(s, hs).m.state.KLocked?)
            <==> !UnfinishedBusiness(s.m)
    ensures (forall hs: seq<Happening> :: AllFromBus(hs) && AllObey(s, hs) ==> RunFrom(s, hs).m.state.KLocked?)
            <==> !StillServed(s.m)
  {
    if UnfinishedBusiness(s.m) {
      UnfinishedBusinessUnlocks(s);
    }
    forall hs: seq<Happening> | AllFromBus(hs)
      ensures !UnfinishedBusiness(s.m) || (!StillServed(s.m) && AllObey(s, hs)) ==> RunFrom(s, hs).m.state.KLocked?
    {
      if !UnfinishedBusiness(s.m) || (!StillServed(s.m) && AllObey(s, hs)) {
        StaysLocked(s, hs);
      }
    }
  }

  /** The lock that does not hold is reached: during an enrolment the sensor neither resets nor
      takes the templates. */
  const LOCKED_MIDWAY: seq<Happening> :=
    [LoggedIn("u", Overlap.YES)] + [CallStartEnroll(":bob", Overlap.YES)]
    + [CallDeleteCredential("u", Overlap.YES.(reset := false, upload := false))]

  lemma BobEnrols()
    ensures var hs := [LoggedIn("u", Overlap.YES)] + [CallStartEnroll(":bob", Overlap.YES)];
            && AllFromBus(hs) && InOrder(Run(hs)) && Run(hs).m.state.KEnroll?
            && Run(hs).m.action.EnrollImage? && Run(hs).m.sensor.EnrollImage? && Run(hs).m.user == Some("u")
  {
    hide Step;
    var h := LoggedIn("u", Overlap.YES);
    assert [] + [h] == [h];
    RunSnoc([], h);
    RunSnoc([h], CallStartEnroll(":bob", Overlap.YES));
  }

  lemma LockedMidway()
    ensures AllFromBus(LOCKED_MIDWAY)
    ensures var s := Run(LOCKED_MIDWAY); InOrder(s) && s.m.state.KLocked? && StillServed(s.m)
  {
    hide Step;
    BobEnrols();
    var hs := [LoggedIn("u", Overlap.YES)] + [CallStartEnroll(":bob", Overlap.YES)];
    RunSnoc(hs, CallDeleteCredential("u", Overlap.YES.(reset := false, upload := false)));
  }

  lemma LoadUserKnown(m: Manager, h: Happening)
    ensures h.LoggedIn? ==>
              var r := LoadUser(m, h.user, true, h.a);
              && r.m == m.(user := r.m.user, lockedToUser := r.m.lockedToUser, state := r.m.state, sensor := r.m.sensor)
              && r.m.state == (if MayLoad(m, h.user) && !(h.a.loadUser && h.a.upload) then KLocked else m.state)
              && r.m.sensor == (if MayLoad(m, h.user) && h.a.loadUser && h.a.reset then NoAction else m.sensor)
    ensures h.CallStartAuth? ==>
              var r, user := LoadUser(m, h.req.user, false, h.a), h.req.user;
              && r.m == m.(user := r.m.user, lockedToUser := r.m.lockedToUser, state := r.m.state, sensor := r.m.sensor)
              && (r.ok <==> m.user == Some(user) || Switches(m, user, h.a))
              && r.m.state == (if MayLoad(m, user) && !(h.a.loadUser && h.a.upload) then KLocked else m.state)
              && r.m.sensor == (if MayLoad(m, user) && h.a.loadUser && h.a.reset then NoAction else m.sensor)
  {
    if h.LoggedIn? {
      LoadUserState(m, h.user, true, h.a);
      LoadUserResult(m, h.user, true, h.a);
    }
    if h.CallStartAuth? {
      LoadUserState(m, h.req.user, false, h.a);
      LoadUserResult(m, h.req.user, false, h.a);
    }
    hide LoadUser;
  }

  // ---------- active means waiting for the sensor ----------

  /** Every active state has the next action that gets it out of there. */
  predicate ActiveIsWaiting(m: Manager)
  {
    && (m.state.KEnroll? ==> EnrollAction(m.action))
    && (m.state.KAuth? ==> m.action.MatchFingerDown?)
    && (m.state.KWaitForFingerUp? || m.state.KAuthWaitForFingerUp? ==> m.action.FingerUp?)
  }

  /** Starting an enrolment while the finger is still down replaces the action that waits for
      the finger, and then the sensor mode cannot be set. */
  predicate LosesFingerUp(s: System, h: Happening)
  {
    h.CallStartEnroll? && s.m.state.KWaitForFingerUp? && EnrollReachesSensor(s.m, h.a) && !h.a.setMode
  }

  lemma StepActiveIsWaiting(s: System, h: Happening)
    requires InOrder(s) && FromBus(h) && ActiveIsWaiting(s.m)
    ensures ActiveIsWaiting(Step(s, h).m) <==> !LosesFingerUp(s, h)
  {
    StepEffect(s, h);
    StepInOrder(s, h);
    hide Step;
    if h.LoggedIn? {
      LoadUserState(s.m, h.user, true, h.a);
    }
    if h.CallStartAuth? {
      LoadUserState(s.m, h.req.user, false, h.a);
    }
    hide LoadUser;
  }

  ghost predicate AlwaysWaiting(hs: seq<Happening>)
  {
    forall i :: 0 <= i <= |hs| ==> ActiveIsWaiting(Run(hs[..i]).m)
  }

  /** An active manager has its next action throughout a run iff no enrolment fails to set the
      sensor mode while the finger is down. */
  lemma ActiveIsWaitingIff(hs: seq<Happening>)
    requires AllFromBus(hs)
    ensures AlwaysWaiting(hs) <==> Never(LosesFingerUp, hs)
  {
    hide Step;
    hide InOrder;
    forall s, h | InOrder(s) && FromBus(h) && ActiveIsWaiting(s.m)
      ensures ActiveIsWaiting(Step(s, h).m) <==> !LosesFingerUp(s, h)
    {
      StepActiveIsWaiting(s, h);
    }
    StartIsWaiting();
    hide LosesFingerUp;
    hide ActiveIsWaiting;
    var P := (s: System) => ActiveIsWaiting(s.m);
    ThroughoutIffNever(P, LosesFingerUp, hs);
    assert AlwaysWaiting(hs) <==> Throughout(P, hs);
  }

  /** And the sensor looks for what that action is for. */
  predicate ActiveIsServed(m: Manager)
  {
    ActiveIsWaiting(m) && (IsActive(m.state) ==> m.sensor == m.action)
  }

  /** A session is on and the templates are sent to the sensor again, which switches it off:
      one of the loaded user's records is deleted, or another user is loaded, by logging in or
      by asking to authenticate while a finger is awaited up. */
  predicate SilencesSensor(s: System, h: Happening)
  {
    IsActive(s.m.state) &&
    match h
    case CallDeleteCredential(user, a) => s.m.user == Some(user) && a.hasRecord && a.deleteRecord && a.reset && a.upload
    case LoggedIn(user, a) => Switches(s.m, user, a) && a.reset
    case CallStartAuth(_, req, a) => s.m.state.KWaitForFingerUp? && Switches(s.m, req.user, a) && a.reset
    case _ => false
  }

  predicate LosesSensor(s: System, h: Happening)
  {
    LosesFingerUp(s, h) || SilencesSensor(s, h)
  }

  lemma StartIsWaiting()
    ensures ActiveIsWaiting(START.m) && ActiveIsServed(START.m)
  {
  }

  lemma SensorServes(s: System, h: Happening)
    requires ActiveIsServed(s.m) && ActiveIsWaiting(ManagerAfter(s, h))
    ensures var m2 := ManagerAfter(s, h); (IsActive(m2.state) ==> m2.sensor == m2.action) <==> !SilencesSensor(s, h)
  {
    if h.LoggedIn? || h.CallStartAuth? {
      LoadUserKnown(s.m, h);
      hide LoadUser;
    } else if h.Sensor? {
    } else {
      hide Read;
      hide MatchReply;
    }
  }

  lemma StepActiveIsServed(s: System, h: Happening)
    requires InOrder(s) && FromBus(h) && ActiveIsServed(s.m)
    ensures ActiveIsServed(Step(s, h).m) <==> !LosesSensor(s, h)
  {
    StepActiveIsWaiting(s, h);
    StepEffect(s, h);
    hide Step;
    hide InOrder;
    EffectOnManager(s, h, Step(s, h));
    if !LosesFingerUp(s, h) {
      SensorServes(s, h);
    }
    hide ManagerAfter;
    hide HasEffect;
  }

  lemma EffectOnManager(s: System, h: Happening, s2: System)
    requires HasEffect(s, h, s2)
    ensures s2.m == ManagerAfter(s, h)
  {
  }

  ghost predicate AlwaysServed(hs: seq<Happening>)
  {
    forall i :: 0 <= i <= |hs| ==> ActiveIsServed(Run(hs[..i]).m)
  }

  /** An active manager has its next action and a sensor that looks for it throughout a run iff
      neither of the two happens: a lost wait for the finger, or templates sent again. */
  lemma ActiveIsServedIff(hs: seq<Happening>)
    requires AllFromBus(hs)
    ensures AlwaysServed(hs) <==> Never(LosesSensor, hs)
  {
    hide Step;
    hide InOrder;
    forall s, h | InOrder(s) && FromBus(h) && ActiveIsServed(s.m)
      ensures ActiveIsServed(Step(s, h).m) <==> !LosesSensor(s, h)
    {
      StepActiveIsServed(s, h);
    }
    StartIsWaiting();
    hide LosesSensor;
    hide ActiveIsServed;
    var P := (s: System) => ActiveIsServed(s.m);
    ThroughoutIffNever(P, LosesSensor, hs);
    assert AlwaysServed(hs) <==> Throughout(P, hs);
  }

  /** Delete a record while Alice waits to be recognised. */
  const SILENCED: seq<Happening> :=
    [CallStartAuth(":alice", AuthRequest("u", "", "", ""), Overlap.YES)] + [CallDeleteCredential("u", Overlap.YES)]

  lemma DeletionSilencesSensor()
    ensures AllFromBus(SILENCED) && Never(LosesFingerUp, SILENCED)
    ensures var s := Run(SILENCED);
            s.m.state.KAuth? && s.w.auth.Held() && s.m.action.MatchFingerDown? && s.m.sensor.NoAction?
  {
    hide Step;
    var h, h2 := CallStartAuth(":alice", AuthRequest("u", "", "", ""), Overlap.YES), CallDeleteCredential("u", Overlap.YES);
    assert [] + [h] == [h];
    RunSnoc([], h);
    RunSnoc([h], h2);
    assert SILENCED == [h, h2];
  }

  // ---------- an auth session that never hears from the sensor ----------

  /** An auth session is on, or was when the manager locked, and no sensor event is for it. */
  predicate Deaf(m: Manager)
  {
    m.action.NoAction? && (m.state.KAuthWaitForFingerUp? || m.state.KLocked?)
  }

  /** How often an auth scan was announced to the clients. */
  function Scans(s: System): nat
  {
    Count(s.w.log, AuthScanDone)
  }

  /** What a handler adds to the log does not depend on what is there. */
  lemma StepAppends(w: W.Wrapper, e: W.Event)
    ensures W.Step(w, e).log == w.log + W.Step(w.(log := []), e).log
  {
    var R := (a: W.Wrapper, b: W.Wrapper) => W.SameSlots(a, b) && a.log == w.log + b.log;
    forall a: W.Wrapper, b: W.Wrapper, op: W.Op | R(a, b) && W.Plain(op)
      ensures R(W.Do(a, op), W.Do(b, op))
    {
      DoAppends(w.log, a, b, op);
    }
    hide W.Do;
    assert w.log + [] == w.log;
    W.StepKeeps(R, w, w.(log := []), e);
  }

  lemma DoAppends(front: seq<Output>, a: W.Wrapper, b: W.Wrapper, op: W.Op)
    requires W.SameSlots(a, b) && a.log == front + b.log
    ensures W.SameSlots(W.Do(a, op), W.Do(b, op)) && W.Do(a, op).log == front + W.Do(b, op).log
  {
  }

  predicate Quiet(w: W.Wrapper)
  {
    AuthScanDone !in w.log
  }

  lemma EndsQuietly(w: W.Wrapper, k: SlotKind)
    requires Quiet(w)
    ensures Quiet(W.Close(w, k)) && Quiet(W.Fail(w, k)) && Quiet(W.OnSessionEnd(w, k))
  {
  }

  lemma StartsQuietly(w: W.Wrapper, sender: string, accepted: bool)
    requires Quiet(w)
    ensures Quiet(W.OnStartEnroll(w, sender, accepted)) && Quiet(W.OnStartAuth(w, sender, accepted))
  {
  }

  lemma OnlyScansAnnounceScans(w: W.Wrapper, e: W.Event)
    requires !e.AuthScan? && Quiet(w)
    ensures Quiet(W.Step(w, e))
  {
    EndsQuietly(w, EnrollSlot);
    EndsQuietly(w, AuthSlot);
    match e
    case StartEnroll(sender, accepted) => StartsQuietly(w, sender, accepted);
    case StartAuth(sender, accepted) => StartsQuietly(w, sender, accepted);
    case EnrollCancel => hide W.OnSessionEnd;
    case AuthEnd => hide W.OnSessionEnd;
    case NameOwnerChanged(_, _) =>
      EndsQuietly(W.Close(w, EnrollSlot), AuthSlot);
      hide W.Close;
    case MalformedNameOwnerChanged =>
    case EnrollScan(_, _, _) =>
    case Failed =>
      EndsQuietly(W.Fail(w, EnrollSlot), AuthSlot);
      hide W.Fail;
    case Forward(_) =>
  }

  lemma QuietStep(w: W.Wrapper, e: W.Event)
    requires !e.AuthScan?
    ensures Count(W.Step(w, e).log, AuthScanDone) == Count(w.log, AuthScanDone)
  {
    StepAppends(w, e);
    OnlyScansAnnounceScans(w.(log := []), e);
    CountAppend(w.log, W.Step(w.(log := []), e).log, AuthScanDone);
  }

  /** The one handler of the wrapper that is called. */
  function Handler(s: System, h: Happening): W.Event
    requires !h.Sensor?
  {
    match h
    case CallStartEnroll(sender, a) => W.StartEnroll(sender, StartEnrollSession(s.m, a).ok)
    case CallStartAuth(sender, req, a) => W.StartAuth(sender, StartAuthSession(s.m, req, a).ok)
    case CallEnrollCancel => W.EnrollCancel
    case CallAuthEnd => W.AuthEnd
    case BusName(name, newOwner) => W.NameOwnerChanged(name, newOwner)
    case BusMalformed => W.MalformedNameOwnerChanged
    case CallCreateCredential(_) => W.Forward(CreateCall)
    case CallAuthenticateCredential(_) => W.Forward(AuthenticateCall)
    case CallDeleteCredential(_, _) => W.Forward(DeleteCall)
    case CallEnrollLegacyTemplate(_) => W.Forward(EnrollLegacyCall)
    case CallGetNonce => W.Forward(NonceCall)
    case CallListLegacyRecords => W.Forward(ListLegacyCall)
    case LoggedIn(_, _) => W.Forward(LoginNotice)
    case LoggedOut => W.Forward(LogoutNotice)
  }

  lemma OneHandler(s: System, h: Happening)
    requires !h.Sensor?
    ensures Step(s, h).w == W.Step(s.w, Handler(s, h))
  {
    hide W.Step;
    hide StartAuthSession;
    hide StartEnrollSession;
    hide LoadUser;
    hide MatchReply;
  }

  lemma OnlySensorAnnouncesScans(s: System, h: Happening)
    requires !h.Sensor? || s.m.action.NoAction?
    ensures Scans(Step(s, h)) == Scans(s)
  {
    if !h.Sensor? {
      OneHandler(s, h);
      hide Step;
      QuietStep(s.w, Handler(s, h));
    }
  }

  /** Whatever happens, the session stays deaf or is ended. */
  lemma StepDeaf(s: System, h: Happening)
    requires InOrder(s) && FromBus(h) && Deaf(s.m) && !Empties(s, h, AuthSlot)
    ensures InOrder(Step(s, h)) && Deaf(Step(s, h).m) && Step(s, h).w.auth == s.w.auth && Scans(Step(s, h)) == Scans(s)
  {
    OnlySensorAnnouncesScans(s, h);
    StepEffect(s, h);
    StepInOrder(s, h);
    hide Step;
    if h.LoggedIn? {
      LoadUserState(s.m, h.user, true, h.a);
    }
    hide LoadUser;
    hide Scans;
  }

  /** No happening in hs ends the auth session. */
  predicate NeverEnds(s: System, hs: seq<Happening>)
    decreases |hs|
  {
    hs == [] || (!Empties(s, hs[0], AuthSlot) && NeverEnds(Step(s, hs[0]), hs[1..]))
  }

  lemma {:induction false} RunDeaf(s: System, hs: seq<Happening>)
    requires InOrder(s) && AllFromBus(hs) && Deaf(s.m) && NeverEnds(s, hs)
    ensures var s2 := RunFrom(s, hs); Deaf(s2.m) && s2.w.auth == s.w.auth && Scans(s2) == Scans(s)
    decreases |hs|
  {
    hide Step;
    hide InOrder;
    hide Deaf;
    hide Scans;
    if hs == [] {
    } else {
      TailFromBus(hs);
      StepDeaf(s, hs[0]);
      RunDeaf(Step(s, hs[0]), hs[1..]);
    }
  }

  /** What a lost wait for the finger costs: the auth session that is asked for next, for the
      loaded user or one that can be loaded, is accepted. From then on, whatever happens short
      of ending it, it stays in its slot and no scan is ever announced. */
  lemma LostFingerUpIsDeaf(s: System, sender: string, req: AuthRequest, a: Answers, hs: seq<Happening>)
    requires InOrder(s) && s.m.state.KWaitForFingerUp? && s.m.action.NoAction?
    requires sender != "" && AllFromBus(hs) && (s.m.user == Some(req.user) || Switches(s.m, req.user, a))
    requires NeverEnds(Step(s, CallStartAuth(sender, req, a)), hs)
    ensures var s1 := Step(s, CallStartAuth(sender, req, a));
            var s2 := RunFrom(s1, hs);
            && s1.w.auth == s2.w.auth == W.Slot(Some(s.w.issued), sender, true)
            && Scans(s2) == Scans(s1) == Scans(s)
            && Deaf(s2.m)
  {
    var h := CallStartAuth(sender, req, a);
    StepEffect(s, h);
    StepInOrder(s, h);
    OnlySensorAnnouncesScans(s, h);
    hide Step;
    RunDeaf(Step(s, h), hs);
  }

  // ---------- a match is pending iff the manager is ready to authenticate ----------

  /** The promise made for the pending match event: it is there iff the manager is in AuthDone. */
  predicate PendingIffAuthDone(m: Manager)
  {
    m.pendingMatch.Some? <==> m.state.KAuthDone?
  }

  /** In AuthDone, a call gets past every check that keeps it from leaving that state: an enroll
      or auth start, a migration, or a user or a record that has to be sent to the sensor and
      cannot be, which locks the manager. */
  predicate AbandonsMatch(s: System, h: Happening)
  {
    s.m.state.KAuthDone? &&
    match h
    case CallStartEnroll(_, a) => s.m.user.Some? && !a.templatesFull && a.setNonce && a.unlock && a.setMode
    case CallStartAuth(_, req, a) =>
      if MayLoad(s.m, req.user) then !a.loadUser || !a.upload || AuthReachesSensor(a)
      else s.m.user == Some(req.user) && AuthReachesSensor(a)
    case CallEnrollLegacyTemplate(a) =>
      s.m.migrator.Some? && !a.templatesFull && a.legacyRecord && a.setNonce && a.unlock && a.migrate
    case CallDeleteCredential(user, a) => s.m.user == Some(user) && a.hasRecord && a.deleteRecord && !a.upload
    case LoggedIn(user, a) => MayLoad(s.m, user) && !(a.loadUser && a.upload)
    case _ => false
  }

  /** The promise survives a step iff the step does not abandon a match. Half of it, that
      AuthDone has a match, survives every step. */
  lemma StepPendingIffAuthDone(s: System, h: Happening)
    requires InOrder(s) && FromBus(h) && PendingIffAuthDone(s.m)
    ensures PendingIffAuthDone(Step(s, h).m) <==> !AbandonsMatch(s, h)
    ensures Step(s, h).m.state.KAuthDone? ==> Step(s, h).m.pendingMatch.Some?
  {
    StepEffect(s, h);
    StepInOrder(s, h);
    LeavesAuthDone(s, h);
    hide Step;
    hide ManagerAfter;
    hide AbandonsMatch;
  }

  lemma LeavesAuthDone(s: System, h: Happening)
    requires InOrder(s) && PendingIffAuthDone(s.m)
    ensures PendingIffAuthDone(ManagerAfter(s, h)) <==> !AbandonsMatch(s, h)
  {
    LoadUserKnown(s.m, h);
    hide LoadUser;
    hide MatchReply;
  }

  ghost predicate AlwaysPendingIffAuthDone(hs: seq<Happening>)
  {
    forall i :: 0 <= i <= |hs| ==> PendingIffAuthDone(Run(hs[..i]).m)
  }

  /** So the promise is kept throughout a run iff no match is abandoned in it. */
  lemma AlwaysPendingIff(hs: seq<Happening>)
    requires AllFromBus(hs)
    ensures AlwaysPendingIffAuthDone(hs) <==> Never(AbandonsMatch, hs)
  {
    hide Step;
    hide InOrder;
    forall s, h | InOrder(s) && FromBus(h) && PendingIffAuthDone(s.m)
      ensures PendingIffAuthDone(Step(s, h).m) <==> !AbandonsMatch(s, h)
    {
      StepPendingIffAuthDone(s, h);
    }
    assert PendingIffAuthDone(START.m);
    hide AbandonsMatch;
    hide PendingIffAuthDone;
    var P := (s: System) => PendingIffAuthDone(s.m);
    ThroughoutIffNever(P, AbandonsMatch, hs);
    assert AlwaysPendingIffAuthDone(hs) <==> Throughout(P, hs);
  }

  /** The run that lets two sessions overlap also leaves a match event behind. */
  lemma AbandonedMatchLingers()
    ensures var s := Run(Overlap.OVERLAP); s.m.state.KEnroll? && s.m.pendingMatch == Some(Overlap.MATCHED)
  {
    hide Step;
    Overlap.Authenticated();
    RunSnoc(Overlap.AUTHENTICATED, CallStartEnroll(":bob", Overlap.YES));
  }

  /** Authenticate, and start an enrolment with the finger still down on a sensor that then
      refuses the enroll mode. */
  const LOST_FINGER_UP: seq<Happening> :=
    Overlap.AUTHENTICATED + [CallAuthenticateCredential(Overlap.YES)]
    + [CallStartEnroll(":bob", Overlap.YES.(setMode := false))]

  lemma FingerUpIsLost()
    ensures AllFromBus(LOST_FINGER_UP)
    ensures var s := Run(LOST_FINGER_UP);
            s.m.state.KWaitForFingerUp? && s.m.action.NoAction? && s.m.user == Some("u")
  {
    hide Step;
    Overlap.Authenticated();
    var h := CallAuthenticateCredential(Overlap.YES);
    RunSnoc(Overlap.AUTHENTICATED, h);
    RunSnoc(Overlap.AUTHENTICATED + [h], CallStartEnroll(":bob", Overlap.YES.(setMode := false)));
  }
}
