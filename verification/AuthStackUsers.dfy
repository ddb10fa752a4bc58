/** Whose enrolment, whose match: when what a session yields goes to the user it was started
    for, and when a login keeps other users out. */
module AuthStackUsers {
  import opened Options
  import opened AuthStackTypes
  import opened CrosFpManager
  import opened AuthStackSystem
  import opened AuthStackAccounts
  import opened AuthStackSensor
  import Overlap = AuthStackOverlap

  // ---------- what a session yields belongs to the user it was started for ----------

  predicate StartsEnrolment(n: Note) { n.EnrolStarted? || n.TemplateMigrated? }

  predicate StartsAuth(n: Note) { n.AuthStarted? }

  /** The user for whom the last enrolment was started or the last template migrated. */
  function EnrolledFor(notes: seq<Note>): Option<string>
  {
    match Last(StartsEnrolment, notes)
    case Some(EnrolStarted(user)) => user
    case Some(TemplateMigrated(user)) => user
    case _ => None
  }

  /** The user for whom the last auth session was started. */
  function AuthFor(notes: seq<Note>): Option<string>
  {
    match Last(StartsAuth, notes)
    case Some(AuthStarted(user)) => user
    case _ => None
  }

  /** An enrolment is going on, or done and not made a credential of. */
  predicate EnrolmentInHand(m: Manager)
  {
    EnrollAction(m.action) || m.state.KEnrollDone?
  }

  /** A match is awaited, or there and not used. */
  predicate MatchInHand(m: Manager)
  {
    m.action.MatchFingerDown? || m.state.KAuthWaitForFingerUp? || m.state.KAuthDone?
  }

  /** Whoever is loaded is the user it was started for. */
  predicate InOwnHands(s: System)
  {
    && (EnrolmentInHand(s.m) ==> s.m.user == EnrolledFor(s.notes))
    && (MatchInHand(s.m) ==> s.m.user == AuthFor(s.notes))
  }

  /** Another user is loaded while an enrolment or a match is in hand: by a login, which in the
      middle of a session need not even succeed; or by asking to authenticate another user in
      vain, for that does not give up what is in hand. Or a template is migrated for a user who
      is not the loaded one. */
  predicate ChangesHands(s: System, h: Happening)
  {
    match h
    case LoggedIn(user, a) =>
      if UnfinishedBusiness(s.m) then MayLoad(s.m, user) && (s.m.user.Some? || a.loadUser)
      else (s.m.state.KAuthWaitForFingerUp? || s.m.state.KAuthDone? || s.m.state.KEnrollDone?) && Switches(s.m, user, a)
    case CallStartAuth(_, req, a) =>
      (s.m.state.KAuthDone? || s.m.state.KEnrollDone?) && Switches(s.m, req.user, a) && !AuthReachesSensor(a)
    case CallEnrollLegacyTemplate(a) => MigrationPasses(s.m, a) && s.m.migrator != s.m.user
    case _ => false
  }

  lemma LoginChangesHands(s: System, h: Happening)
    requires InOrder(s) && InOwnHands(s) && h.LoggedIn?
    ensures InOwnHands(Step(s, h)) <==> !ChangesHands(s, h)
  {
    StepEffect(s, h);
    hide Step;
    hide Last;
    LoadUserState(s.m, h.user, true, h.a);
    LoadUserResult(s.m, h.user, true, h.a);
    hide LoadUser;
    assert s.notes + [] == s.notes;
  }

  lemma HandsAfterAuthStart(s: System, h: Happening)
    requires InOrder(s) && h.CallStartAuth?
    ensures var m2, user := ManagerAfter(s, h), h.req.user;
            if NotesOf(s, h) != [] then
              m2.user == Some(user) && NotesOf(s, h) == [AuthStarted(Some(user))] && !EnrolmentInHand(m2)
            else
              && (EnrolmentInHand(m2) ==> EnrolmentInHand(s.m))
              && (MatchInHand(m2) ==> MatchInHand(s.m))
              && (ChangesHands(s, h) ==> (EnrolmentInHand(m2) || MatchInHand(m2)) && m2.user == Some(user) != s.m.user)
              && (!ChangesHands(s, h) && (EnrolmentInHand(m2) || MatchInHand(m2)) ==> m2.user == s.m.user)
  {
    LoadUserState(s.m, h.req.user, false, h.a);
    LoadUserResult(s.m, h.req.user, false, h.a);
    hide LoadUser;
  }

  lemma AuthStartChangesHands(s: System, h: Happening)
    requires InOrder(s) && InOwnHands(s) && h.CallStartAuth?
    ensures InOwnHands(Step(s, h)) <==> !ChangesHands(s, h)
  {
    StepEffect(s, h);
    HandsAfterAuthStart(s, h);
    LastAppend(StartsEnrolment, s.notes, NotesOf(s, h));
    LastAppend(StartsAuth, s.notes, NotesOf(s, h));
    if NotesOf(s, h) != [] {
      AcceptedChangesNothing(s, h);
    }
    hide Step;
    hide Last;
    hide ManagerAfter;
    hide NotesOf;
    hide ChangesHands;
    hide EnrolmentInHand;
    hide MatchInHand;
  }

  lemma AcceptedChangesNothing(s: System, h: Happening)
    requires h.CallStartAuth? && NotesOf(s, h) != []
    ensures !ChangesHands(s, h)
  {
  }

  lemma HandsAfter(s: System, h: Happening)
    requires InOrder(s) && !h.LoggedIn? && !h.CallStartAuth?
    ensures var m2, more := ManagerAfter(s, h), NotesOf(s, h);
            && m2.user == s.m.user
            && (MatchInHand(m2) ==> MatchInHand(s.m))
            && (EnrolmentInHand(m2) ==>
                  (more != [] && (more[0] == EnrolStarted(s.m.user) || more[0] == TemplateMigrated(s.m.migrator)))
                  || (EnrolmentInHand(s.m) && (more == [] || !StartsEnrolment(more[0]))))
            && (more != [] ==> |more| == 1 && !StartsAuth(more[0]))
            && (more != [] && more[0].TemplateMigrated? ==> more[0].user == s.m.migrator && m2.state.KEnrollDone?)
            && (ChangesHands(s, h) <==> more != [] && more[0].TemplateMigrated? && s.m.migrator != s.m.user)
  {
    hide MatchReply;
  }

  lemma OthersChangeHands(s: System, h: Happening)
    requires InOrder(s) && InOwnHands(s) && !h.LoggedIn? && !h.CallStartAuth?
    ensures InOwnHands(Step(s, h)) <==> !ChangesHands(s, h)
  {
    StepEffect(s, h);
    HandsAfter(s, h);
    LastAppend(StartsEnrolment, s.notes, NotesOf(s, h));
    LastAppend(StartsAuth, s.notes, NotesOf(s, h));
    hide Step;
    hide Last;
    hide ManagerAfter;
    hide NotesOf;
    hide ChangesHands;
    assert ManagerAfter(s, h).state.KEnrollDone? ==> EnrolmentInHand(ManagerAfter(s, h));
    hide EnrolmentInHand;
    hide MatchInHand;
  }

  /** What is in hand stays in its user's hands throughout a run iff the loaded user never
      changes while something is in hand, and no template is migrated for another user. */
  lemma InOwnHandsIff(hs: seq<Happening>)
    requires AllFromBus(hs)
    ensures Throughout(InOwnHands, hs) <==> Never(ChangesHands, hs)
  {
    hide Step;
    hide InOrder;
    forall s, h | InOrder(s) && FromBus(h) && InOwnHands(s)
      ensures InOwnHands(Step(s, h)) <==> !ChangesHands(s, h)
    {
      if h.LoggedIn? {
        LoginChangesHands(s, h);
      } else if h.CallStartAuth? {
        AuthStartChangesHands(s, h);
      } else {
        OthersChangeHands(s, h);
      }
    }
    assert InOwnHands(START);
    hide InOwnHands;
    hide ChangesHands;
    ThroughoutIffNever(InOwnHands, ChangesHands, hs);
  }

  /** A credential went to the user who enrolled, a match was used for the user it was awaited
      for. */
  predicate ToOwner(before: seq<Note>, n: Note)
  {
    && (n.CredentialCreated? ==> n.user == EnrolledFor(before))
    && (n.MatchUsed? ==> n.user == AuthFor(before))
  }

  lemma StepToOwner(s: System, h: Happening)
    requires InOrder(s) && InOwnHands(s) && All(ToOwner, s.notes)
    ensures All(ToOwner, Step(s, h).notes)
  {
    StepEffect(s, h);
    hide Step;
    hide Last;
    hide StartAuthSession;
    hide StartEnrollSession;
    hide MatchReply;
    var more := NotesOf(s, h);
    assert more != [] ==> |more| == 1 && ToOwner(s.notes, more[0]);
    hide ToOwner;
    AllAppend(ToOwner, s.notes, more);
  }

  /** In such a run every credential goes to the user who enrolled, and every match is used for
      the user it was awaited for. */
  lemma {:induction false} EverythingToItsOwner(hs: seq<Happening>)
    requires AllFromBus(hs) && Never(ChangesHands, hs)
    ensures All(ToOwner, Run(hs).notes)
  {
    hide Step;
    if hs == [] {
    } else {
      var n := |hs| - 1;
      var front := hs[..n];
      assert forall i :: 0 <= i < n ==> front[..i] == hs[..i];
      EverythingToItsOwner(front);
      RunInOrder(front);
      InOwnHandsIff(front);
      assert InOwnHands(Run(front[..n])) && front[..n] == front;
      StepToOwner(Run(front), hs[n]);
    }
  }

  /** The sensor does not reset, so that it keeps what it has. */
  const NO_RESET := Overlap.YES.(reset := false)

  /** Alice's match is there for user u, another user logs in, and the match is used. */
  const MATCH_CHANGES_HANDS: seq<Happening> :=
    Overlap.AUTHENTICATED + [LoggedIn("v", NO_RESET)] + [CallAuthenticateCredential(Overlap.YES)]

  lemma MatchChangesHands()
    ensures AllFromBus(MATCH_CHANGES_HANDS)
    ensures AuthFor(Run(MATCH_CHANGES_HANDS).notes) == Some("u")
    ensures MatchUsed(Overlap.MATCHED, Some("v"), Success) in Run(MATCH_CHANGES_HANDS).notes
  {
    hide Step;
    Overlap.Authenticated();
    var hs := Overlap.AUTHENTICATED;
    var h1, h2 := LoggedIn("v", NO_RESET), CallAuthenticateCredential(Overlap.YES);
    RunSnoc(hs, h1);
    RunSnoc(hs + [h1], h2);
    AuthenticatedNotes();
    LastAppend(StartsAuth, Run(hs).notes, []);
    LastAppend(StartsAuth, Run(hs + [h1]).notes, NotesOf(Run(hs + [h1]), h2));
  }

  lemma AuthenticatedNotes()
    ensures AuthFor(Run(Overlap.AUTHENTICATED).notes) == Some("u")
  {
    hide Step;
    hide Last;
    var h := CallStartAuth(":alice", AuthRequest("u", "", "", ""), Overlap.YES);
    assert [] + [h] == [h];
    RunSnoc([], h);
    hide Run;
    RunSnoc([h], Sensor(Overlap.MATCHED, Overlap.YES));
    LastAppend(StartsAuth, [], [AuthStarted(Some("u"))]);
    LastAppend(StartsAuth, Run([h]).notes, [MatchSeen(Overlap.MATCHED)]);
  }

  /** User u is loaded by an auth session that is ended again. */
  const LOADED_U: seq<Happening> :=
    [CallStartAuth(":alice", AuthRequest("u", "", "", ""), Overlap.YES)] + [CallAuthEnd]

  lemma LoadedU()
    ensures AllFromBus(LOADED_U)
    ensures var s := Run(LOADED_U);
            InOrder(s) && s.m.state.KNone? && s.m.user == Some("u") && !s.m.lockedToUser && s.m.migrator.None?
  {
    hide Step;
    var h1 := CallStartAuth(":alice", AuthRequest("u", "", "", ""), Overlap.YES);
    assert [] + [h1] == [h1];
    RunSnoc([], h1);
    RunSnoc([h1], CallAuthEnd);
  }

  /** User u enrols, another user is asked for in vain, and a credential is created. */
  const ENROLLED_U: seq<Happening> :=
    LOADED_U + [CallStartEnroll(":alice", Overlap.YES)] + [Sensor(ENROLLED, Overlap.YES)]

  const CREDENTIAL_CHANGES_HANDS: seq<Happening> :=
    ENROLLED_U + [CallStartAuth(":alice", AuthRequest("v", "", "", ""), NO_RESET.(setNonce := false))]
    + [CallCreateCredential(Overlap.YES)]

  lemma EnrolledU()
    ensures AllFromBus(ENROLLED_U)
    ensures var s := Run(ENROLLED_U);
            && InOrder(s) && s.m.state.KEnrollDone? && s.m.user == Some("u") && !s.m.lockedToUser
            && EnrolledFor(s.notes) == Some("u")
  {
    hide Step;
    hide Run;
    hide Last;
    LoadedU();
    var h3, h4 := CallStartEnroll(":alice", Overlap.YES), Sensor(ENROLLED, Overlap.YES);
    RunSnoc(LOADED_U, h3);
    RunSnoc(LOADED_U + [h3], h4);
    LastAppend(StartsEnrolment, Run(LOADED_U).notes, [EnrolStarted(Some("u"))]);
    LastAppend(StartsEnrolment, Run(LOADED_U + [h3]).notes, [EnrolmentDone]);
  }

  lemma CredentialChangesHands()
    ensures AllFromBus(CREDENTIAL_CHANGES_HANDS)
    ensures EnrolledFor(Run(CREDENTIAL_CHANGES_HANDS).notes) == Some("u")
    ensures CredentialCreated(Some("v")) in Run(CREDENTIAL_CHANGES_HANDS).notes
  {
    hide Step;
    hide Last;
    EnrolledU();
    var hs := ENROLLED_U;
    var h1 := CallStartAuth(":alice", AuthRequest("v", "", "", ""), NO_RESET.(setNonce := false));
    var h2 := CallCreateCredential(Overlap.YES);
    RunSnoc(hs, h1);
    RunSnoc(hs + [h1], h2);
    LastAppend(StartsEnrolment, Run(hs).notes, []);
    LastAppend(StartsEnrolment, Run(hs + [h1]).notes, [CredentialCreated(Some("v"))]);
  }

  /** User u, who is loaded, logs in, which ties nobody to the manager; an auth session loads v. */
  const V_LOADED: seq<Happening> :=
    LOADED_U + [LoggedIn("u", Overlap.YES)] + [CallStartAuth(":alice", AuthRequest("v", "", "", ""), Overlap.YES)]
    + [CallAuthEnd]

  lemma VLoaded()
    ensures AllFromBus(V_LOADED)
    ensures var s := Run(V_LOADED); InOrder(s) && s.m.state.KNone? && s.m.user == Some("v") && s.m.migrator == Some("u")
  {
    hide Step;
    hide Run;
    LoadedU();
    var h1, h2 := LoggedIn("u", Overlap.YES), CallStartAuth(":alice", AuthRequest("v", "", "", ""), Overlap.YES);
    RunSnoc(LOADED_U, h1);
    RunSnoc(LOADED_U + [h1], h2);
    RunSnoc(LOADED_U + [h1] + [h2], CallAuthEnd);
  }

  /** A legacy template of u is migrated, and a credential is created. */
  const MIGRATION_CHANGES_HANDS: seq<Happening> :=
    V_LOADED + [CallEnrollLegacyTemplate(Overlap.YES)] + [CallCreateCredential(Overlap.YES)]

  lemma MigrationChangesHands()
    ensures AllFromBus(MIGRATION_CHANGES_HANDS)
    ensures EnrolledFor(Run(MIGRATION_CHANGES_HANDS).notes) == Some("u")
    ensures CredentialCreated(Some("v")) in Run(MIGRATION_CHANGES_HANDS).notes
  {
    hide Step;
    hide Run;
    hide Last;
    VLoaded();
    var h1, h2 := CallEnrollLegacyTemplate(Overlap.YES), CallCreateCredential(Overlap.YES);
    RunSnoc(V_LOADED, h1);
    RunSnoc(V_LOADED + [h1], h2);
    LastAppend(StartsEnrolment, Run(V_LOADED).notes, [TemplateMigrated(Some("u"))]);
    LastAppend(StartsEnrolment, Run(V_LOADED + [h1]).notes, [CredentialCreated(Some("v"))]);
  }

  // ---------- who is logged in ----------

  /** What happened since the last logout. */
  function SinceLogout(hs: seq<Happening>): seq<Happening>
  {
    if hs == [] || hs[|hs| - 1].LoggedOut? then [] else SinceLogout(hs[..|hs| - 1]) + [hs[|hs| - 1]]
  }

  function FirstLogin(hs: seq<Happening>): Option<string>
  {
    if hs == [] then None
    else if FirstLogin(hs[..|hs| - 1]).Some? then FirstLogin(hs[..|hs| - 1])
    else if hs[|hs| - 1].LoggedIn? then Some(hs[|hs| - 1].user)
    else None
  }

  /** In place i a user who is not the loaded one logs in, and nobody logs out after that. */
  ghost predicate TiesAt(hs: seq<Happening>, i: int)
  {
    && 0 <= i < |hs| && hs[i].LoggedIn? && Run(hs[..i]).m.user != Some(hs[i].user)
    && forall j :: i < j < |hs| ==> !hs[j].LoggedOut?
  }

  lemma LoginsAfter(s: System, h: Happening)
    requires InOrder(s)
    ensures var m := Step(s, h).m;
            && m.migrator == (if h.LoggedOut? then None
                              else if h.LoggedIn? && s.m.migrator.None? then Some(h.user) else s.m.migrator)
            && (m.lockedToUser <==> !h.LoggedOut? && (s.m.lockedToUser || (h.LoggedIn? && s.m.user != Some(h.user))))
  {
    StepEffect(s, h);
    hide Step;
    if h.LoggedIn? {
      LoadUserState(s.m, h.user, true, h.a);
      LoadUserResult(s.m, h.user, true, h.a);
    }
    if h.CallStartAuth? {
      LoadUserState(s.m, h.req.user, false, h.a);
      LoadUserResult(s.m, h.req.user, false, h.a);
    }
    hide LoadUser;
    hide MatchReply;
    hide InOrder;
  }

  lemma TiesSnoc(hs: seq<Happening>, h: Happening)
    ensures (exists i :: TiesAt(hs + [h], i))
            <==> !h.LoggedOut? && ((exists i :: TiesAt(hs, i)) || (h.LoggedIn? && Run(hs).m.user != Some(h.user)))
  {
    hide Run;
    var all := hs + [h];
    assert forall i :: 0 <= i <= |hs| ==> all[..i] == hs[..i];
    assert all[|hs|] == h && hs[..|hs|] == hs;
    if i :| TiesAt(all, i) {
      assert i < |hs| ==> all[i] == hs[i] && (!h.LoggedOut? ==> TiesAt(hs, i));
    }
    if !h.LoggedOut? {
      if i :| TiesAt(hs, i) {
        assert TiesAt(all, i);
      }
      if h.LoggedIn? && Run(hs).m.user != Some(h.user) {
        assert TiesAt(all, |hs|);
      }
    }
  }

  /** After every run: the migrator serves whoever logged in first since the last logout, and the
      manager is tied to its user iff since then somebody logged in who was not the loaded user. */
  lemma {:induction false} LoginsByHistory(hs: seq<Happening>)
    requires AllFromBus(hs)
    ensures Run(hs).m.migrator == FirstLogin(SinceLogout(hs))
    ensures Run(hs).m.lockedToUser <==> exists i :: TiesAt(hs, i)
  {
    hide Step;
    if hs == [] {
    } else {
      var front, h := hs[..|hs| - 1], hs[|hs| - 1];
      LoginsByHistory(front);
      RunInOrder(front);
      LoginsAfter(Run(front), h);
      TiesSnoc(front, h);
      assert front + [h] == hs;
      hide InOrder;
      assert (SinceLogout(front) + [h])[..|SinceLogout(front)|] == SinceLogout(front);
      hide TiesAt;
    }
  }

  // ---------- a login keeps other users out ----------

  /** Nobody logs out. */
  predicate StaysLoggedIn(hs: seq<Happening>)
  {
    forall i :: 0 <= i < |hs| ==> !hs[i].LoggedOut?
  }

  /** Some start in hs is accepted for another user than this one. */
  predicate ServesAnother(s: System, hs: seq<Happening>, user: string)
    decreases |hs|
  {
    hs != [] &&
    var s2 := Step(s, hs[0]);
    || ((Fills(s, hs[0], EnrollSlot) || Fills(s, hs[0], AuthSlot)) && s2.m.user != Some(user))
    || ServesAnother(s2, hs[1..], user)
  }

  /** Only this user, and tied to them; or locked, with nothing to bring the manager back. */
  predicate KeptFor(m: Manager, user: string)
  {
    (m.user == Some(user) && m.lockedToUser) || (m.state.KLocked? && !UnfinishedBusiness(m))
  }

  lemma StepKeptFor(s: System, h: Happening, user: string)
    requires InOrder(s) && FromBus(h) && KeptFor(s.m, user) && !h.LoggedOut?
    ensures InOrder(Step(s, h)) && KeptFor(Step(s, h).m, user)
    ensures Fills(s, h, EnrollSlot) || Fills(s, h, AuthSlot) ==> Step(s, h).m.user == Some(user)
  {
    StepInOrder(s, h);
    if s.m.state.KLocked? {
      StepStaysLocked(s, h);
    }
    StepEffect(s, h);
    if !s.m.state.KLocked? {
      KeptForAfter(s, h, user);
    }
    hide Step;
    hide InOrder;
    hide ManagerAfter;
    hide Fills;
  }

  lemma KeptForAfter(s: System, h: Happening, user: string)
    requires KeptFor(s.m, user) && !s.m.state.KLocked? && !h.LoggedOut?
    ensures KeptFor(ManagerAfter(s, h), user)
    ensures Fills(s, h, EnrollSlot) || Fills(s, h, AuthSlot) ==> ManagerAfter(s, h).user == Some(user)
  {
    if h.LoggedIn? {
      LoadUserResult(s.m, h.user, true, h.a);
    }
    if h.CallStartAuth? {
      LoadUserState(s.m, h.req.user, false, h.a);
      LoadUserResult(s.m, h.req.user, false, h.a);
    }
    hide LoadUser;
    hide MatchReply;
  }

  lemma {:induction false} KeptForServesNobodyElse(s: System, hs: seq<Happening>, user: string)
    requires InOrder(s) && AllFromBus(hs) && StaysLoggedIn(hs) && KeptFor(s.m, user)
    ensures !ServesAnother(s, hs, user)
    decreases |hs|
  {
    hide Step;
    hide InOrder;
    hide KeptFor;
    hide Fills;
    if hs == [] {
    } else {
      TailFromBus(hs);
      assert StaysLoggedIn(hs[1..]);
      StepKeptFor(s, hs[0], user);
      KeptForServesNobodyElse(Step(s, hs[0]), hs[1..], user);
    }
  }

  /** What makes a manager that is busy, or locked with a session pending, look at a start. */
  function Freeing(m: Manager): seq<Happening>
  {
    if CanStart(m.state) then []
    else if m.state.KEnroll? then [CallEnrollCancel]
    else if m.state.KLocked? then Unlock(m)
    else [CallAuthEnd]
  }

  lemma FreeingFrees(s: System)
    requires InOrder(s) && !(s.m.state.KLocked? && !UnfinishedBusiness(s.m))
    ensures Frees(s, RunFrom(s, Freeing(s.m))) && AllFromBus(Freeing(s.m)) && StaysLoggedIn(Freeing(s.m))
  {
    hide Step;
    if s.m.state.KLocked? {
      UnfinishedBusinessUnlocks(s);
    } else if !CanStart(s.m.state) {
      var h := Freeing(s.m)[0];
      assert [h][1..] == [] && RunFrom(s, [h]) == RunFrom(Step(s, h), []);
      StepEffect(s, h);
      StepInOrder(s, h);
    }
  }

  lemma {:induction false} ServesLater(s: System, hs: seq<Happening>, more: seq<Happening>, user: string)
    requires ServesAnother(RunFrom(s, hs), more, user)
    ensures ServesAnother(s, hs + more, user)
    decreases |hs|
  {
    hide Step;
    hide Fills;
    if hs == [] {
      assert hs + more == more;
    } else {
      assert (hs + more)[1..] == hs[1..] + more;
      ServesLater(Step(s, hs[0]), hs[1..], more, user);
    }
  }

  /** A user who is neither of the two. */
  function Another(user: string, taken: Option<string>): (r: string)
    ensures r != user && Some(r) != taken
  {
    var r := user + "+";
    assert |r| > |user|;
    if taken == Some(r) then
      assert |r + "+"| > |r|;
      r + "+"
    else r
  }

  lemma StartsAnother(s: System, h: Happening, user: string)
    requires InOrder(s) && CanStart(s.m.state) && h.CallStartAuth? && h.a == Overlap.YES && FromBus(h)
    requires (s.m.user == Some(h.req.user) || Switches(s.m, h.req.user, h.a)) && h.req.user != user
    ensures ServesAnother(s, [h], user)
  {
    StepEffect(s, h);
    LoadUserState(s.m, h.req.user, false, h.a);
    LoadUserResult(s.m, h.req.user, false, h.a);
    StartAuthUser(s.m, h.req, h.a);
    hide Step;
    hide LoadUser;
  }

  /** A manager that is not kept for the user can be made to serve another: the one it is tied
      to, or anybody. */
  lemma CanServeAnother(s: System, user: string)
    requires InOrder(s) && !KeptFor(s.m, user)
    ensures exists hs :: AllFromBus(hs) && StaysLoggedIn(hs) && ServesAnother(s, hs, user)
  {
    FreeingFrees(s);
    var another := if s.m.user.Some? && s.m.lockedToUser then s.m.user.value else Another(user, s.m.user);
    var h := CallStartAuth(":alice", AuthRequest(another, "", "", ""), Overlap.YES);
    var s1 := RunFrom(s, Freeing(s.m));
    hide RunFrom;
    hide Freeing;
    hide UnfinishedBusiness;
    hide InOrder;
    hide Another;
    StartsAnother(s1, h, user);
    ServesLater(s, Freeing(s.m), [h], user);
    assert AllFromBus(Freeing(s.m) + [h]) && StaysLoggedIn(Freeing(s.m) + [h]);
  }

  /** A login that can leave nothing but the user logged in, or a lock that holds: the user was
      loaded and tied already; or nobody was tied, or nobody loaded, and the user can be loaded,
      or cannot and no session is left that could undo the lock. */
  predicate LoginHolds(m: Manager, user: string, a: Answers)
  {
    var forGood := m.state.KLocked? && !UnfinishedBusiness(m);
    if m.user == Some(user) then m.lockedToUser || forGood
    else if m.user.Some? && m.lockedToUser then forGood
    else a.loadUser || !UnfinishedBusiness(m)
  }

  /** After a login no start is accepted for another user until the logout, whatever happens,
      iff it holds. It does not if its user was loaded already, for then it does not tie the
      manager to them; nor if another user is tied to it. */
  lemma LoginKeepsOthersOutIff(s: System, user: string, a: Answers)
    requires InOrder(s)
    ensures (forall hs :: AllFromBus(hs) && StaysLoggedIn(hs) ==> !ServesAnother(Step(s, LoggedIn(user, a)), hs, user))
            <==> LoginHolds(s.m, user, a)
  {
    var h := LoggedIn(user, a);
    var s1 := Step(s, h);
    StepEffect(s, h);
    StepInOrder(s, h);
    assert KeptFor(s1.m, user) <==> LoginHolds(s.m, user, a) by {
      LoadUserState(s.m, user, true, a);
      LoadUserResult(s.m, user, true, a);
      hide Step;
      hide LoadUser;
      hide InOrder;
    }
    hide Step;
    hide HasEffect;
    hide InOrder;
    hide ServesAnother;
    hide LoginHolds;
    if KeptFor(s1.m, user) {
      forall hs | AllFromBus(hs) && StaysLoggedIn(hs)
        ensures !ServesAnother(s1, hs, user)
      {
        KeptForServesNobodyElse(s1, hs, user);
      }
    } else {
      CanServeAnother(s1, user);
    }
  }

  /** User u is loaded to authenticate, logs in, and user v is served next. */
  lemma LoginDoesNotKeepOut()
    ensures var s := Run(Overlap.AUTHENTICATED);
            && s.m.user == Some("u") && !s.m.lockedToUser
            && ServesAnother(Step(s, LoggedIn("u", Overlap.YES)),
                             [CallStartAuth(":alice", AuthRequest("v", "", "", ""), Overlap.YES)], "u")
  {
    hide Step;
    Overlap.Authenticated();
    var s := Run(Overlap.AUTHENTICATED);
    var h := LoggedIn("u", Overlap.YES);
    RunSnoc(Overlap.AUTHENTICATED, h);
    StartsAnother(Step(s, h), CallStartAuth(":alice", AuthRequest("v", "", "", ""), Overlap.YES), "u");
  }
}
