/** The two objects as they are written: AuthStackManagerWrapper and CrosFpAuthStackManager
    update their fields statement by statement, run closures that reach back into the manager
    and call back into the wrapper. Every method is proved to do what the system model says. */
module AuthStackDaemon {
  import opened Options
  import opened AuthStackTypes
  import W = AuthStackWrapper
  import M = CrosFpManager
  import S = AuthStackSystem

  class CrosFpAuthStackManager {
    var state: M.State
    var action: M.Action
    var sensor: M.Action        // the mode the sensor is in
    var pendingRequest: Option<M.AuthRequest>
    var pendingMatch: Option<M.SensorEvent>
    var user: Option<string>
    var lockedToUser: bool
    var migrator: Option<string>
    var issued: nat             // closures handed out so far
    var validFrom: nat          // those from here on have a valid weak pointer
    var notes: seq<S.Note>

    function View(): M.Manager
      reads this
    {
      M.Manager(state, action, sensor, pendingRequest, pendingMatch, user, lockedToUser, migrator, validFrom)
    }

    constructor ()
      ensures View() == M.INITIAL_MANAGER && issued == 0 && notes == []
    {
      state, action, sensor := M.KNone, M.NoAction, M.NoAction;
      pendingRequest, pendingMatch, user, migrator := None, None, None, None;
      lockedToUser := false;
      issued, validFrom := 0, 0;
      notes := [];
    }

    /** A closure is bound to a weak pointer: run it, and it ends the session if the pointer is
        still valid. */
    method RunClosure(token: Token)
      modifies this
      ensures View() == if token >= old(validFrom) then M.KillMcuSession(old(View()), old(issued)) else old(View())
      ensures issued == old(issued) && notes == old(notes)
    {
      if token >= validFrom {
        KillMcuSession();
      }
    }

    method KillMcuSession()
      modifies this
      ensures View() == M.KillMcuSession(old(View()), old(issued))
      ensures issued == old(issued) && notes == old(notes)
    {
      if M.IsActive(state) {
        state := M.KNone;
      }
      sensor := M.NoAction;
      validFrom := issued;
      action := M.NoAction;
    }

    method Request(next: M.Action, setMode: bool) returns (ok: bool)
      modifies this`action, this`sensor
      ensures View() == M.Request(old(View()), next, setMode) && ok == setMode
    {
      action := next;
      if !setMode {
        action := M.NoAction;
        return false;
      }
      sensor := next;
      return true;
    }

    method GetClosure() returns (token: Token)
      modifies this`issued
      ensures token == old(issued) && issued == old(issued) + 1
    {
      token := issued;
      issued := issued + 1;
    }

    method StartEnrollSession(a: M.Answers) returns (session: Option<Token>)
      modifies this
      ensures var r := M.StartEnrollSession(old(View()), a);
              && View() == r.m
              && session == (if r.ok then Some(old(issued)) else None)
              && issued == old(issued) + (if r.ok then 1 else 0)
              && notes == old(notes) + (if r.ok then [S.EnrolStarted(r.m.user)] else [])
    {
      if !M.CanStart(state) {
        return None;
      }
      if user.None? {
        return None;
      }
      if a.templatesFull {
        return None;
      }
      if !a.setNonce {
        return None;
      }
      if !a.unlock {
        return None;
      }
      var ok := Request(M.EnrollImage, a.setMode);
      if !ok {
        return None;
      }
      state := M.KEnroll;
      notes := notes + [S.EnrolStarted(user)];
      var token := GetClosure();
      return Some(token);
    }

    method UploadCurrentUserTemplates(a: M.Answers) returns (ok: bool)
      modifies this`state, this`sensor
      ensures var r := M.UploadCurrentUserTemplates(old(View()), a); View() == r.m && ok == r.ok
    {
      if a.reset {
        sensor := M.NoAction;
      }
      if !a.upload {
        state := M.KLocked;
        return false;
      }
      return true;
    }

    method LoadUser(userId: string, lockToUser: bool, a: M.Answers) returns (ok: bool)
      modifies this`user, this`lockedToUser, this`state, this`sensor
      ensures var r := M.LoadUser(old(View()), userId, lockToUser, a); View() == r.m && ok == r.ok
    {
      if user == Some(userId) {
        return true;
      } else if user.Some? {
        if lockedToUser {
          return false;
        }
        user := None;
      }
      if lockToUser {
        lockedToUser := true;
      }
      if !a.loadUser {
        state := M.KLocked;
        return false;
      }
      user := Some(userId);
      ok := UploadCurrentUserTemplates(a);
    }

    /** The migrator's session manager refuses to load a user while it has one. */
    method OnUserLoggedIn(userId: string, a: M.Answers)
      modifies this`user, this`lockedToUser, this`state, this`sensor, this`migrator
      ensures View() == M.OnUserLoggedIn(old(View()), userId, a)
    {
      var _ := LoadUser(userId, true, a);
      if migrator.None? {
        migrator := Some(userId);
      }
    }

    method OnUserLoggedOut()
      modifies this`lockedToUser, this`migrator
      ensures View() == M.OnUserLoggedOut(old(View()))
    {
      lockedToUser := false;
      migrator := None;
    }

    method PrepareStartAuthSession(a: M.Answers) returns (ok: bool)
      modifies this`action, this`sensor
      ensures var r := M.PrepareStartAuthSession(old(View()), a); View() == r.m && ok == r.ok
    {
      if !a.setNonce {
        return false;
      }
      if !a.unlock {
        return false;
      }
      ok := Request(M.MatchFingerDown, a.setMode);
    }

    method StartAuthSession(req: M.AuthRequest, a: M.Answers) returns (session: Option<Token>)
      modifies this
      ensures var r := M.StartAuthSession(old(View()), req, a);
              && View() == r.m
              && session == (if r.ok then Some(old(issued)) else None)
              && issued == old(issued) + (if r.ok then 1 else 0)
              && notes == old(notes) + (if r.ok then [S.AuthStarted(r.m.user)] else [])
    {
      if !M.CanStart(state) {
        return None;
      }
      var ok := LoadUser(req.user, false, a);
      if !ok {
        return None;
      }
      if state == M.KWaitForFingerUp {
        state := M.KAuthWaitForFingerUp;
        pendingRequest := Some(req);
      } else {
        var prepared := PrepareStartAuthSession(a);
        if !prepared {
          return None;
        }
        state := M.KAuth;
      }
      notes := notes + [S.AuthStarted(user)];
      var token := GetClosure();
      return Some(token);
    }

    method CreateCredential(a: M.Answers) returns (reply: M.CredentialReply)
      modifies this
      ensures var r := M.CreateCredential(old(View()), a);
              View() == r.m && reply == r.reply && issued == old(issued)
              && notes == old(notes) + if r.reply.Success? then [S.CredentialCreated(old(user))] else []
    {
      if state != M.KEnrollDone {
        return M.IncorrectState;
      }
      if user.None? {
        return M.IncorrectState;
      }
      if !a.getTemplate {
        return M.NoTemplate;
      }
      if !a.getSecret {
        return M.NoSecret;
      }
      if !a.createRecord {
        return M.CreateRecordFailed;
      }
      state := M.KNone;
      notes := notes + [S.CredentialCreated(user)];
      return M.Success;
    }

    method AuthenticateCredential(a: M.Answers) returns (reply: M.CredentialReply)
      modifies this
      ensures var r := M.AuthenticateCredential(old(View()), a); View() == r.m && reply == r.reply && issued == old(issued)
      ensures notes == old(notes) + if old(state).KAuthDone? && old(pendingMatch).Some?
                                    then [S.MatchUsed(old(pendingMatch).value, old(user), reply)] else []
    {
      if state != M.KAuthDone {
        return M.IncorrectState;
      }
      var event := pendingMatch;
      if event.None? {
        return M.IncorrectState;
      }
      pendingMatch := None;
      var ok := Request(M.FingerUp, a.setMode);
      if !ok {
        state := M.KNone;
      } else {
        state := M.KWaitForFingerUp;
      }
      reply := AnswerMatch(event.value, a);
      notes := notes + [S.MatchUsed(event.value, user, reply)];
    }

    /** The rest of AuthenticateCredential, from the power button on. */
    method AnswerMatch(event: M.SensorEvent, a: M.Answers) returns (reply: M.CredentialReply)
      ensures reply == M.MatchReply(event, a)
    {
      if a.powerButton {
        return M.Scan(ScanPowerButtonPressed);
      }
      var matched := false;
      reply := M.InternalError;
      match event.matchResult {
        case MatchNoTemplates => reply := M.NoTemplates;
        case MatchNoInternal => reply := M.InternalError;
        case MatchNo => reply := M.Scan(ScanNoMatch);
        case MatchYes => matched := true;
        case MatchYesUpdated => matched := true;
        case MatchYesUpdateFailed => matched := true;
        case MatchNoLowQuality => reply := M.Scan(ScanInsufficient);
        case MatchNoLowCoverage => reply := M.Scan(ScanPartial);
        case MatchUnknown => reply := M.InternalError;
      }
      if !matched {
        return;
      }
      if !a.metadata {
        return M.NoTemplates;
      }
      if !a.getSecret {
        return M.NoSecret;
      }
      return M.Success;
    }

    method DeleteCredential(userId: string, a: M.Answers) returns (reply: M.CredentialReply)
      modifies this`state, this`sensor
      ensures var r := M.DeleteCredential(old(View()), userId, a); View() == r.m && reply == r.reply
    {
      if user != Some(userId) {
        return if !a.deleteRecord then M.DeletionFailed else M.Success;
      }
      if !a.hasRecord {
        return M.NotExist;
      }
      if !a.deleteRecord {
        return M.DeletionFailed;
      }
      var _ := UploadCurrentUserTemplates(a);
      return M.Success;
    }

    method EnrollLegacyTemplate(a: M.Answers) returns (ok: bool)
      modifies this
      ensures var r := M.EnrollLegacyTemplate(old(View()), a);
              View() == r.m && ok == r.ok && issued == old(issued)
              && notes == old(notes) + if r.ok then [S.TemplateMigrated(old(migrator))] else []
    {
      if !M.CanStart(state) || migrator.None? || a.templatesFull || !a.legacyRecord {
        return false;
      }
      if !a.setNonce || !a.unlock || !a.migrate {
        return false;
      }
      state := M.KEnrollDone;
      notes := notes + [S.TemplateMigrated(migrator)];
      return true;
    }

    // ---------- sensor events, with the callbacks into the wrapper ----------

    method DoEnrollImageEvent(wrapper: AuthStackManagerWrapper, ev: M.SensorEvent, a: M.Answers)
      requires wrapper.manager == this && wrapper.Valid()
      modifies this, wrapper
      ensures wrapper.Valid() && wrapper.System() == S.DoEnrollImageEvent(old(wrapper.System()), ev, a)
    {
      if !ev.isEnroll {
        return;
      }
      var scan;
      match ev.enrollResult {
        case EnrollOk => scan := ScanSuccess;
        case EnrollImmobile => scan := ScanImmobile;
        case EnrollLowCoverage => scan := ScanPartial;
        case EnrollLowQuality => scan := ScanInsufficient;
        case _ =>
          wrapper.OnSessionFailed();
          return;
      }
      if ev.progress < 100 {
        wrapper.OnEnrollScanDone(scan, false, ev.progress);
        var ok := Request(M.EnrollFingerUp, a.setMode);
        if !ok {
          wrapper.OnSessionFailed();
        }
        return;
      }
      action := M.NoAction;
      state := M.KEnrollDone;
      notes := notes + [S.EnrolmentDone];
      wrapper.OnEnrollScanDone(ScanSuccess, true, 100);
    }

    method DoEnrollFingerUpEvent(wrapper: AuthStackManagerWrapper, ev: M.SensorEvent, a: M.Answers)
      requires wrapper.manager == this && wrapper.Valid()
      modifies this, wrapper
      ensures wrapper.Valid() && wrapper.System() == S.DoEnrollFingerUpEvent(old(wrapper.System()), ev, a)
    {
      if !ev.isFingerUp {
        return;
      }
      var ok := Request(M.EnrollImage, a.setMode);
      if !ok {
        wrapper.OnSessionFailed();
      }
    }

    method OnMatchFingerDown(wrapper: AuthStackManagerWrapper, ev: M.SensorEvent)
      requires wrapper.manager == this && wrapper.Valid()
      modifies this, wrapper
      ensures wrapper.Valid() && wrapper.System() == S.OnMatchFingerDown(old(wrapper.System()), ev)
    {
      if !ev.isMatch {
        return;
      }
      pendingMatch := Some(ev);
      action := M.NoAction;
      state := M.KAuthDone;
      notes := notes + [S.MatchSeen(ev)];
      wrapper.OnAuthScanDone();
    }

    method OnFingerUpEvent(wrapper: AuthStackManagerWrapper, ev: M.SensorEvent, a: M.Answers)
      requires wrapper.manager == this && wrapper.Valid()
      modifies this, wrapper
      ensures wrapper.Valid() && wrapper.System() == S.OnFingerUpEvent(old(wrapper.System()), ev, a)
    {
      if !ev.isFingerUp {
        return;
      }
      if state == M.KWaitForFingerUp {
        state := M.KNone;
      } else if state == M.KAuthWaitForFingerUp {
        var request := pendingRequest;
        pendingRequest := None;
        if request.None? {
          wrapper.OnSessionFailed();
          state := M.KNone;
          return;
        }
        var ok := PrepareStartAuthSession(a);
        if !ok {
          wrapper.OnSessionFailed();
          state := M.KNone;
          return;
        }
        state := M.KAuth;
      }
    }

    method OnMkbpEvent(wrapper: AuthStackManagerWrapper, ev: M.SensorEvent, a: M.Answers)
      requires wrapper.manager == this && wrapper.Valid()
      modifies this, wrapper
      ensures wrapper.Valid() && wrapper.System() == S.OnMkbpEvent(old(wrapper.System()), ev, a)
    {
      match action
      case NoAction =>
      case EnrollImage => DoEnrollImageEvent(wrapper, ev, a);
      case EnrollFingerUp => DoEnrollFingerUpEvent(wrapper, ev, a);
      case MatchFingerDown => OnMatchFingerDown(wrapper, ev);
      case FingerUp => OnFingerUpEvent(wrapper, ev, a);
    }
  }

  class AuthStackManagerWrapper {
    const manager: CrosFpAuthStackManager
    var enrollSession: Option<Token>
    var enrollOwner: string
    var enrollExported: bool
    var authSession: Option<Token>
    var authOwner: string
    var authExported: bool
    var log: seq<Output>
    ghost var events: seq<W.Event>      // the handlers called so far

    ghost function Slots(): W.Wrapper
      reads this, manager
    {
      W.Wrapper(W.Slot(enrollSession, enrollOwner, enrollExported), W.Slot(authSession, authOwner, authExported),
                manager.issued, log)
    }

    ghost function System(): S.System
      reads this, manager
    {
      S.System(Slots(), manager.View(), events, manager.notes)
    }

    ghost predicate Valid()
      reads this, manager
    {
      S.SlotsInOrder(System())
    }

    constructor ()
      ensures Valid() && System() == S.START && fresh(manager)
    {
      manager := new CrosFpAuthStackManager();
      enrollSession, enrollOwner, enrollExported := None, "", false;
      authSession, authOwner, authExported := None, "", false;
      log := [];
      events := [];
    }

    method Say(o: Output)
      modifies this`log
      ensures log == old(log) + [o]
    {
      log := log + [o];
    }

    /** enroll_session_.RunAndReset() */
    method RunAndResetEnroll()
      modifies this`enrollSession, this`log, manager
      ensures Slots() == W.RunAndReset(old(Slots()), EnrollSlot)
      ensures manager.View() == if S.Live(old(Slots()), old(manager.View()), EnrollSlot)
                                then M.KillMcuSession(old(manager.View()), old(manager.issued)) else old(manager.View())
      ensures manager.issued == old(manager.issued) && manager.notes == old(manager.notes)
    {
      if enrollSession.Some? {
        var token := enrollSession.value;
        enrollSession := None;
        Say(RunEnd(EnrollSlot, token));
        manager.RunClosure(token);
      }
    }

    /** auth_session_.RunAndReset() */
    method RunAndResetAuth()
      modifies this`authSession, this`log, manager
      ensures Slots() == W.RunAndReset(old(Slots()), AuthSlot)
      ensures manager.View() == if S.Live(old(Slots()), old(manager.View()), AuthSlot)
                                then M.KillMcuSession(old(manager.View()), old(manager.issued)) else old(manager.View())
      ensures manager.issued == old(manager.issued) && manager.notes == old(manager.notes)
    {
      if authSession.Some? {
        var token := authSession.value;
        authSession := None;
        Say(RunEnd(AuthSlot, token));
        manager.RunClosure(token);
      }
    }

    method FinalizeEnrollSessionObject()
      requires enrollExported
      modifies this`enrollOwner, this`enrollExported, this`log
      ensures Slots() == W.Finalize(old(Slots()), EnrollSlot)
    {
      enrollOwner := "";
      Say(Unregister(EnrollSlot));
      enrollExported := false;
    }

    method FinalizeAuthSessionObject()
      requires authExported
      modifies this`authOwner, this`authExported, this`log
      ensures Slots() == W.Finalize(old(Slots()), AuthSlot)
    {
      authOwner := "";
      Say(Unregister(AuthSlot));
      authExported := false;
    }

    method OnNameOwnerChanged(name: string, newOwner: string)
      requires Valid()
      modifies this, manager
      ensures Valid() && System() == S.Deliver(old(System()), W.NameOwnerChanged(name, newOwner))
    {
      events := events + [W.NameOwnerChanged(name, newOwner)];
      if name == "" || newOwner != "" {
        return;
      }
      if name == enrollOwner {
        if enrollSession.Some? {
          RunAndResetEnroll();
        }
        if enrollExported {
          FinalizeEnrollSessionObject();
        }
      }
      if name == authOwner {
        if authSession.Some? {
          RunAndResetAuth();
        }
        if authExported {
          FinalizeAuthSessionObject();
        }
      }
    }

    method OnMalformedNameOwnerChanged()
      requires Valid()
      modifies this`events
      ensures Valid() && System() == S.Deliver(old(System()), W.MalformedNameOwnerChanged)
    {
      events := events + [W.MalformedNameOwnerChanged];
    }

    method OnEnrollScanDone(result: ScanResult, done: bool, percent: int)
      requires Valid()
      modifies this, manager
      ensures Valid() && System() == S.Deliver(old(System()), W.EnrollScan(result, done, percent))
    {
      events := events + [W.EnrollScan(result, done, percent)];
      if !enrollExported {
        return;
      }
      Say(EnrollScanDone(result, done, if percent >= 0 then Some(percent) else None));
      if done {
        RunAndResetEnroll();
        FinalizeEnrollSessionObject();
      }
    }

    method OnAuthScanDone()
      requires Valid()
      modifies this
      ensures Valid() && System() == S.Deliver(old(System()), W.AuthScan)
    {
      events := events + [W.AuthScan];
      if !authExported {
        return;
      }
      Say(AuthScanDone);
    }

    method FailEnroll()
      modifies this, manager
      ensures Slots() == W.Fail(old(Slots()), EnrollSlot) && events == old(events)
      ensures manager.View() == if S.Live(old(Slots()), old(manager.View()), EnrollSlot)
                                then M.KillMcuSession(old(manager.View()), old(manager.issued)) else old(manager.View())
      ensures manager.issued == old(manager.issued) && manager.notes == old(manager.notes)
    {
      if enrollExported {
        Say(SessionFailed);
        FinalizeEnrollSessionObject();
      }
      if enrollSession.Some? {
        RunAndResetEnroll();
      }
    }

    method FailAuth()
      modifies this, manager
      ensures Slots() == W.Fail(old(Slots()), AuthSlot) && events == old(events)
      ensures manager.View() == if S.Live(old(Slots()), old(manager.View()), AuthSlot)
                                then M.KillMcuSession(old(manager.View()), old(manager.issued)) else old(manager.View())
      ensures manager.issued == old(manager.issued) && manager.notes == old(manager.notes)
    {
      if authExported {
        Say(SessionFailed);
        FinalizeAuthSessionObject();
      }
      if authSession.Some? {
        RunAndResetAuth();
      }
    }

    method OnSessionFailed()
      requires Valid()
      modifies this, manager
      ensures Valid() && System() == S.Deliver(old(System()), W.Failed)
    {
      ghost var s := System();
      events := events + [W.Failed];
      FailEnroll();
      ghost var m := manager.View();
      FailAuth();
      FailedIsDelivered(s, m);
    }

    /** enroll_session_ = std::move(...) runs the closure it overwrites. */
    method AssignEnroll(token: Token)
      requires Valid() && manager.issued == token + 1
      modifies this`enrollSession, this`log, manager
      ensures Slots() == W.MoveAssign(old(Slots()).(issued := token), EnrollSlot)
      ensures manager.View() == if S.Live(old(Slots()), old(manager.View()), EnrollSlot)
                                then M.KillMcuSession(old(manager.View()), old(manager.issued)) else old(manager.View())
      ensures manager.issued == old(manager.issued) && manager.notes == old(manager.notes)
    {
      Say(Started(EnrollSlot, token));
      RunAndResetEnroll();
      enrollSession := Some(token);
    }

    /** A new object replaces the old one, whose destructor unregisters it. */
    method ExportEnroll()
      modifies this`enrollExported, this`log
      ensures Slots() == W.Export(old(Slots()), EnrollSlot)
    {
      if enrollExported {
        Say(Unregister(EnrollSlot));
      }
      enrollExported := true;
      Say(Register(EnrollSlot));
    }

    /** What is done with an accepted enrolment. */
    method TakeEnrollSession(sender: string, token: Token)
      requires Valid() && manager.issued == token + 1
      modifies this, manager
      ensures Slots() == W.OnStartEnroll(old(Slots()).(issued := token), sender, true) && events == old(events)
      ensures manager.View() == if S.Live(old(Slots()), old(manager.View()), EnrollSlot)
                                then M.KillMcuSession(old(manager.View()), old(manager.issued)) else old(manager.View())
      ensures manager.notes == old(manager.notes)
    {
      AssignEnroll(token);
      ExportEnroll();
      Say(SessionPath(EnrollSlot));
      enrollOwner := sender;
    }

    method StartEnrollSession(sender: string, a: M.Answers) returns (ok: bool)
      requires Valid() && sender != ""
      modifies this, manager
      ensures Valid() && System() == S.Step(old(System()), S.CallStartEnroll(sender, a))
      ensures ok == M.StartEnrollSession(old(manager.View()), a).ok
    {
      ghost var s := System();
      StartEnrollIsDelivered(s, sender, a);
      hide S.Step;
      hide M.StartEnrollSession;
      hide W.OnStartEnroll;
      OnRefused(s.w, sender);
      var session := manager.StartEnrollSession(a);
      events := events + [W.StartEnroll(sender, session.Some?)];
      if session.None? {
        Say(StartError(EnrollSlot));
        return false;
      }
      assert Slots().(issued := session.value) == s.w;
      TakeEnrollSession(sender, session.value);
      return true;
    }

    /** An existing closure is released, not run, before the new one is stored. */
    method AssignAuth(token: Token)
      requires manager.issued == token + 1
      modifies this`authSession, this`log
      ensures Slots() == W.ReleaseAndAssign(old(Slots()).(issued := token), AuthSlot)
    {
      Say(Started(AuthSlot, token));
      if authSession.Some? {
        Say(Released(AuthSlot, authSession.value));
      }
      authSession := Some(token);
    }

    method ExportAuth()
      requires !authExported
      modifies this`authExported, this`log
      ensures Slots() == W.Export(old(Slots()), AuthSlot)
    {
      authExported := true;
      Say(Register(AuthSlot));
    }

    /** What is done with an accepted auth session, first or repeated. */
    method TakeAuthSession(sender: string, token: Token)
      requires manager.issued == token + 1
      modifies this
      ensures Slots() == W.OnStartAuth(old(Slots()).(issued := token), sender, true) && events == old(events)
    {
      AssignAuth(token);
      if !authExported {
        ExportAuth();
      }
      Say(SessionPath(AuthSlot));
      authOwner := sender;
    }

    method StartAuthSession(sender: string, req: M.AuthRequest, a: M.Answers) returns (ok: bool)
      requires Valid() && sender != ""
      modifies this, manager
      ensures Valid() && System() == S.Step(old(System()), S.CallStartAuth(sender, req, a))
      ensures ok == M.StartAuthSession(old(manager.View()), req, a).ok
    {
      ghost var s := System();
      StartAuthIsDelivered(s, sender, req, a);
      hide S.Step;
      hide S.SlotsInOrder;
      hide M.StartAuthSession;
      hide W.OnStartAuth;
      OnRefused(s.w, sender);
      var session := manager.StartAuthSession(req, a);
      events := events + [W.StartAuth(sender, session.Some?)];
      if session.None? {
        Say(StartError(AuthSlot));
        return false;
      }
      assert Slots().(issued := session.value) == s.w;
      TakeAuthSession(sender, session.value);
      return true;
    }

    method EnrollSessionCancel() returns (ok: bool)
      requires Valid()
      modifies this, manager
      ensures Valid() && System() == S.Step(old(System()), S.CallEnrollCancel)
      ensures ok == old(enrollSession.Some?)
    {
      events := events + [W.EnrollCancel];
      if enrollSession.None? {
        Say(EndError(EnrollSlot));
        return false;
      }
      RunAndResetEnroll();
      if enrollExported {
        FinalizeEnrollSessionObject();
      }
      Say(EndOk(EnrollSlot));
      return true;
    }

    method AuthSessionEnd() returns (ok: bool)
      requires Valid()
      modifies this, manager
      ensures Valid() && System() == S.Step(old(System()), S.CallAuthEnd)
      ensures ok == old(authSession.Some?)
    {
      events := events + [W.AuthEnd];
      if authSession.None? {
        Say(EndError(AuthSlot));
        return false;
      }
      RunAndResetAuth();
      if authExported {
        FinalizeAuthSessionObject();
      }
      Say(EndOk(AuthSlot));
      return true;
    }

    method Forward(call: ForwardedCall)
      requires Valid()
      modifies this`log, this`events
      ensures Valid() && System() == S.Deliver(old(System()), W.Forward(call))
    {
      events := events + [W.Forward(call)];
      Say(Forwarded(call));
    }

    /** The implicit destructor: members go in reverse order of declaration. */
    method Destroy()
      requires Valid()
      modifies this, manager
      ensures Slots() == W.Destroy(old(Slots()))
    {
      if authExported {
        authExported := false;
        Say(Unregister(AuthSlot));
      }
      RunAndResetAuth();
      if enrollExported {
        enrollExported := false;
        Say(Unregister(EnrollSlot));
      }
      RunAndResetEnroll();
      Say(ManagerFreed);
    }

    method CreateCredential(a: M.Answers)
      requires Valid()
      modifies this, manager
      ensures Valid() && System() == S.Step(old(System()), S.CallCreateCredential(a))
    {
      var _ := manager.CreateCredential(a);
      Forward(CreateCall);
    }

    method AuthenticateCredential(a: M.Answers)
      requires Valid()
      modifies this, manager
      ensures Valid() && System() == S.Step(old(System()), S.CallAuthenticateCredential(a))
    {
      var _ := manager.AuthenticateCredential(a);
      Forward(AuthenticateCall);
    }

    method DeleteCredential(user: string, a: M.Answers)
      requires Valid()
      modifies this, manager
      ensures Valid() && System() == S.Step(old(System()), S.CallDeleteCredential(user, a))
    {
      var _ := manager.DeleteCredential(user, a);
      Forward(DeleteCall);
    }

    method EnrollLegacyTemplate(a: M.Answers)
      requires Valid()
      modifies this, manager
      ensures Valid() && System() == S.Step(old(System()), S.CallEnrollLegacyTemplate(a))
    {
      var _ := manager.EnrollLegacyTemplate(a);
      Forward(EnrollLegacyCall);
    }

    method OnUserLoggedIn(user: string, a: M.Answers)
      requires Valid()
      modifies this, manager
      ensures Valid() && System() == S.Step(old(System()), S.LoggedIn(user, a))
    {
      manager.OnUserLoggedIn(user, a);
      Forward(LoginNotice);
    }

    method OnUserLoggedOut()
      requires Valid()
      modifies this, manager
      ensures Valid() && System() == S.Step(old(System()), S.LoggedOut)
    {
      manager.OnUserLoggedOut();
      Forward(LogoutNotice);
    }

    method Handle(h: S.Happening)
      requires Valid() && S.FromBus(h)
      modifies this, manager
      ensures Valid() && System() == S.Step(old(System()), h)
    {
      match h
      case CallStartEnroll(sender, a) => var _ := StartEnrollSession(sender, a);
      case CallStartAuth(sender, req, a) => var _ := StartAuthSession(sender, req, a);
      case CallEnrollCancel => var _ := EnrollSessionCancel();
      case CallAuthEnd => var _ := AuthSessionEnd();
      case BusName(name, newOwner) => OnNameOwnerChanged(name, newOwner);
      case BusMalformed => OnMalformedNameOwnerChanged();
      case Sensor(ev, a) => manager.OnMkbpEvent(this, ev, a);
      case CallGetNonce => Forward(NonceCall);
      case CallListLegacyRecords => Forward(ListLegacyCall);
      case CallCreateCredential(a) => CreateCredential(a);
      case CallAuthenticateCredential(a) => AuthenticateCredential(a);
      case CallDeleteCredential(user, a) => DeleteCredential(user, a);
      case CallEnrollLegacyTemplate(a) => EnrollLegacyTemplate(a);
      case LoggedIn(user, a) => OnUserLoggedIn(user, a);
      case LoggedOut => OnUserLoggedOut();
    }
  }

  /** A wrapper that has handled any sequence of happenings is where the model says it is. */
  method Serve(hs: seq<S.Happening>) returns (wrapper: AuthStackManagerWrapper)
    requires S.AllFromBus(hs)
    ensures fresh(wrapper) && fresh(wrapper.manager)
    ensures wrapper.Valid() && wrapper.System() == S.Run(hs)
  {
    wrapper := new AuthStackManagerWrapper();
    for i := 0 to |hs|
      invariant fresh(wrapper) && fresh(wrapper.manager)
      invariant wrapper.Valid() && wrapper.System() == S.Run(hs[..i])
    {
      assert hs[..i + 1][..i] == hs[..i];
      wrapper.Handle(hs[i]);
    }
    assert hs[..|hs|] == hs;
  }

  // ---------- the model's steps, spelled out for the methods above ----------

  lemma OnRefused(w: W.Wrapper, sender: string)
    ensures W.OnStartEnroll(w, sender, false) == w.Say(StartError(EnrollSlot))
    ensures W.OnStartAuth(w, sender, false) == w.Say(StartError(AuthSlot))
  {
  }

  lemma FailedIsDelivered(s: S.System, m: M.Manager)
    requires S.SlotsInOrder(s)
    requires m == if S.Live(s.w, s.m, EnrollSlot) then M.KillMcuSession(s.m, s.w.issued) else s.m
    ensures var s2 := S.Deliver(s, W.Failed);
            && S.SlotsInOrder(s2)
            && s2 == S.System(W.Fail(W.Fail(s.w, EnrollSlot), AuthSlot),
                              if S.Live(s.w, m, AuthSlot) then M.KillMcuSession(m, s.w.issued) else m,
                              s.events + [W.Failed], s.notes)
  {
    S.DeliverCloses(s, W.Failed);
  }

  lemma StartEnrollIsDelivered(s: S.System, sender: string, a: M.Answers)
    requires S.SlotsInOrder(s) && sender != ""
    ensures var s2, r := S.Step(s, S.CallStartEnroll(sender, a)), M.StartEnrollSession(s.m, a);
            && S.SlotsInOrder(s2)
            && s2 == S.System(W.OnStartEnroll(s.w, sender, r.ok),
                              if r.ok && S.Live(s.w, s.m, EnrollSlot) then M.KillMcuSession(r.m, s.w.issued + 1) else r.m,
                              s.events + [W.StartEnroll(sender, r.ok)],
                              s.notes + if r.ok then [S.EnrolStarted(r.m.user)] else [])
  {
    hide W.OnStartEnroll;
    var e := W.StartEnroll(sender, M.StartEnrollSession(s.m, a).ok);
    W.StepSlot(s.w, e, EnrollSlot);
    W.StepSlot(s.w, e, AuthSlot);
  }

  lemma StartAuthIsDelivered(s: S.System, sender: string, req: M.AuthRequest, a: M.Answers)
    requires S.SlotsInOrder(s) && sender != ""
    ensures var s2, r := S.Step(s, S.CallStartAuth(sender, req, a)), M.StartAuthSession(s.m, req, a);
            && S.SlotsInOrder(s2)
            && s2 == S.System(W.OnStartAuth(s.w, sender, r.ok), r.m, s.events + [W.StartAuth(sender, r.ok)],
                              s.notes + if r.ok then [S.AuthStarted(r.m.user)] else [])
  {
    hide W.OnStartAuth;
    hide M.LoadUser;
    S.LoadUserState(s.m, req.user, false, a);
    var e := W.StartAuth(sender, M.StartAuthSession(s.m, req, a).ok);
    W.StepSlot(s.w, e, EnrollSlot);
    W.StepSlot(s.w, e, AuthSlot);
  }
}
